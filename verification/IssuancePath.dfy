/** The marker's file name determines the issuance context, so that one context's marker never stands for another's. */
module IssuancePath {
  import opened Bytes
  import opened Issuance

  function Digit(d: nat): (c: char)
    requires d < 16
    ensures c != '_'
  {
    if d < 10 then '0' + d as char else 'a' + (d - 10) as char
  }

  function DigitValue(c: char): (d: int)
  {
    if c <= '9' then c as int - '0' as int else c as int - 'a' as int + 10
  }

  /** A number as a stream writes it in decimal, without padding. */
  function Decimal(n: nat): (s: string)
    ensures s != [] && '_' !in s
  {
    if n < 10 then [Digit(n)] else Decimal(n / 10) + [Digit(n % 10)]
  }

  function DecimalValue(s: string): (n: int)
  {
    if s == [] then 0 else 10 * DecimalValue(s[..|s| - 1]) + DigitValue(s[|s| - 1])
  }

  lemma {:induction false} DecimalRoundTrip(n: nat)
    ensures DecimalValue(Decimal(n)) == n
  {
    if n < 10 {
      assert DecimalValue([]) == 0;
    } else {
      var s := Decimal(n);
      DecimalRoundTrip(n / 10);
      assert s[..|s| - 1] == Decimal(n / 10);
    }
  }

  /** A byte as a stream writes it in hexadecimal, without padding. */
  function Hex(p: Byte): (s: string)
  {
    if p < 16 then [Digit(p)] else [Digit(p / 16), Digit(p % 16)]
  }

  lemma {:induction false} HexByteInjective(p: Byte, q: Byte)
    requires Hex(p) == Hex(q)
    ensures p == q
  {
    var s, t := Hex(p), Hex(q);
    assert s[0] == t[0] && s[|s| - 1] == t[|t| - 1];
    assert DigitValue(s[|s| - 1]) == p % 16 && DigitValue(t[|t| - 1]) == q % 16;
    if |s| == 2 {
      assert DigitValue(s[0]) == p / 16 && DigitValue(t[0]) == q / 16;
    }
  }

  /** Two hexadecimal digits for each byte. */
  function HexBytes(s: seq<Byte>): (r: string)
    ensures |r| == 2 * |s|
  {
    if s == [] then [] else [Digit(s[0] / 16), Digit(s[0] % 16)] + HexBytes(s[1..])
  }

  lemma {:induction false} HexInjective(s: seq<Byte>, t: seq<Byte>)
    requires |s| == |t| && HexBytes(s) == HexBytes(t)
    ensures s == t
  {
    if s != [] {
      var r, q := HexBytes(s), HexBytes(t);
      assert r[0] == q[0] && r[1] == q[1];
      assert DigitValue(r[0]) == s[0] / 16 && DigitValue(r[1]) == s[0] % 16;
      assert DigitValue(q[0]) == t[0] / 16 && DigitValue(q[1]) == t[0] % 16;
      assert r[2..] == HexBytes(s[1..]) && q[2..] == HexBytes(t[1..]);
      HexInjective(s[1..], t[1..]);
      assert s == [s[0]] + s[1..] && t == [t[0]] + t[1..];
    }
  }

  /** compute_record_path below the store's directory. The stream is still in hexadecimal when it writes the party. */
  function RecordName(c: Context): (s: string)
  {
    "issuance_" + (Decimal(c.version) + "_" + (Decimal(c.scope) + "_" + (Decimal(c.epoch) + "_"
      + (HexBytes(c.room) + ("_" + Hex(c.party) + ".record")))))
  }

  /** What stands before the first separator, and what stands after it. */
  lemma {:induction false} SplitAtSeparator(u: string, x: string, v: string, y: string)
    requires '_' !in u && '_' !in v && u + "_" + x == v + "_" + y
    ensures u == v && x == y
  {
    var s := u + "_" + x;
    assert s[|u|] == '_' && s[|v|] == '_';
    assert |u| == |v|;
    assert s[..|u|] == u && s[..|v|] == v;
    assert s[|u| + 1..] == x && s[|v| + 1..] == y;
  }

  lemma {:induction false} DecimalInjective(m: nat, n: nat)
    requires Decimal(m) == Decimal(n)
    ensures m == n
  {
    DecimalRoundTrip(m);
    DecimalRoundTrip(n);
  }

  lemma {:induction false} PrefixCancels(p: string, x: string, q: string, y: string)
    requires |p| == |q| && p + x == q + y
    ensures p == q && x == y
  {
    assert (p + x)[..|p|] == p && (q + y)[..|q|] == q;
    assert (p + x)[|p|..] == x && (q + y)[|q|..] == y;
  }

  lemma {:induction false} SuffixCancels(x: string, y: string, p: string)
    requires x + p == y + p
    ensures x == y
  {
    assert |x| == |y|;
    PrefixCancels(x, p, y, p);
  }

  /** Different contexts have different marker files. */
  lemma {:induction false} RecordNameInjective(c: Context, d: Context)
    requires RecordName(c) == RecordName(d)
    ensures c == d
  {
    hide Decimal, HexBytes, Hex;
    var c4, d4 := "_" + Hex(c.party) + ".record", "_" + Hex(d.party) + ".record";
    var c3, d3 := HexBytes(c.room) + c4, HexBytes(d.room) + d4;
    var c2, d2 := Decimal(c.epoch) + "_" + c3, Decimal(d.epoch) + "_" + d3;
    var c1, d1 := Decimal(c.scope) + "_" + c2, Decimal(d.scope) + "_" + d2;
    var c0, d0 := Decimal(c.version) + "_" + c1, Decimal(d.version) + "_" + d1;
    PrefixCancels("issuance_", c0, "issuance_", d0);
    SplitAtSeparator(Decimal(c.version), c1, Decimal(d.version), d1);
    SplitAtSeparator(Decimal(c.scope), c2, Decimal(d.scope), d2);
    SplitAtSeparator(Decimal(c.epoch), c3, Decimal(d.epoch), d3);
    PrefixCancels(HexBytes(c.room), c4, HexBytes(d.room), d4);
    PartyName(c.party, d.party);
    DecimalInjective(c.version, d.version);
    DecimalInjective(c.scope, d.scope);
    DecimalInjective(c.epoch, d.epoch);
    HexInjective(c.room, d.room);
  }

  lemma {:induction false} PartyName(p: Byte, q: Byte)
    requires "_" + Hex(p) + ".record" == "_" + Hex(q) + ".record"
    ensures p == q
  {
    hide Hex;
    SuffixCancels("_" + Hex(p), "_" + Hex(q), ".record");
    PrefixCancels("_", Hex(p), "_", Hex(q));
    HexByteInjective(p, q);
  }
}
