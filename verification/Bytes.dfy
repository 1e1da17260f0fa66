/** Byte strings and the fixed-width big-endian fields that the journal and the wire formats are made of. */
module Bytes {
  import opened Outcomes

  type Byte = b: int | 0 <= b < 256
  type U8 = Byte
  type U16 = n: int | 0 <= n < 0x1_0000
  type U32 = n: int | 0 <= n < 0x1_0000_0000
  type U64 = n: int | 0 <= n < 0x1_0000_0000_0000_0000
  type Block16 = s: seq<Byte> | |s| == 16 witness seq(16, _ => 0)
  type Block32 = s: seq<Byte> | |s| == 32 witness seq(32, _ => 0)

  // ----- numbers -----

  function Pow256(n: nat): (r: nat)
    ensures r > 0
  {
    if n == 0 then 1 else 256 * Pow256(n - 1)
  }

  lemma Widths()
    ensures Pow256(1) == 0x100 && Pow256(2) == 0x1_0000 && Pow256(4) == 0x1_0000_0000
    ensures Pow256(8) == 0x1_0000_0000_0000_0000
  {
    assert Pow256(1) == 256 * Pow256(0);
    assert Pow256(2) == 256 * Pow256(1);
    assert Pow256(3) == 256 * Pow256(2);
    assert Pow256(4) == 256 * Pow256(3);
    assert Pow256(5) == 256 * Pow256(4);
    assert Pow256(6) == 256 * Pow256(5);
    assert Pow256(7) == 256 * Pow256(6);
    assert Pow256(8) == 256 * Pow256(7);
  }

  /** The low bytes of v, most significant first. */
  function BigEndian(v: nat, width: nat): (s: seq<Byte>)
    ensures |s| == width
  {
    if width == 0 then [] else BigEndian(v / 256, width - 1) + [v % 256]
  }

  function FromBigEndian(s: seq<Byte>): (v: nat)
  {
    if s == [] then 0 else 256 * FromBigEndian(s[..|s| - 1]) + s[|s| - 1]
  }

  lemma {:induction false} NumberRoundTrip(v: nat, width: nat)
    requires v < Pow256(width)
    ensures FromBigEndian(BigEndian(v, width)) == v
  {
    if width > 0 {
      NumberRoundTrip(v / 256, width - 1);
      var s := BigEndian(v, width);
      assert s[..|s| - 1] == BigEndian(v / 256, width - 1);
    }
  }

  lemma {:induction false} BytesRoundTrip(s: seq<Byte>)
    ensures FromBigEndian(s) < Pow256(|s|)
    ensures BigEndian(FromBigEndian(s), |s|) == s
  {
    if s != [] {
      BytesRoundTrip(s[..|s| - 1]);
      assert s == s[..|s| - 1] + [s[|s| - 1]];
    }
  }

  // ----- records as sequences of fields -----

  /** Two-byte words, one after the other. */
  function Concatenated(ns: seq<nat>): (s: seq<Byte>)
    ensures |s| == 2 * |ns|
  {
    if ns == [] then [] else BigEndian(ns[0], 2) + Concatenated(ns[1..])
  }

  function Separated(s: seq<Byte>, count: nat): (ns: seq<nat>)
    requires |s| == 2 * count
    ensures |ns| == count
  {
    if count == 0 then [] else [FromBigEndian(s[..2])] + Separated(s[2..], count - 1)
  }

  lemma {:induction false} WordsRoundTrip(ns: seq<nat>)
    requires forall i :: 0 <= i < |ns| ==> ns[i] < 0x1_0000
    ensures Separated(Concatenated(ns), |ns|) == ns
  {
    if ns != [] {
      hide BigEndian, FromBigEndian;
      var s := Concatenated(ns);
      Widths();
      NumberRoundTrip(ns[0], 2);
      WordsRoundTrip(ns[1..]);
      assert s[..2] == BigEndian(ns[0], 2) && s[2..] == Concatenated(ns[1..]);
      assert ns == [ns[0]] + ns[1..];
    }
  }

  lemma {:induction false} SeparatedRoundTrip(s: seq<Byte>, count: nat)
    requires |s| == 2 * count
    ensures Concatenated(Separated(s, count)) == s
    ensures forall i :: 0 <= i < count ==> Separated(s, count)[i] < 0x1_0000
  {
    if count > 0 {
      hide BigEndian, FromBigEndian;
      Widths();
      BytesRoundTrip(s[..2]);
      SeparatedRoundTrip(s[2..], count - 1);
      var ns := Separated(s, count);
      assert ns[1..] == Separated(s[2..], count - 1);
      assert s == s[..2] + s[2..];
    }
  }

  /** A big-endian number, a block of fixed size, text behind a two-byte length, a blob behind a four-byte length, or a
      fixed count of two-byte words. */
  datatype Field = Number(width: nat) | Block(size: nat) | Text(max: U16) | Blob(limit: U32) | Words(count: nat)

  datatype Value = N(n: nat) | B(b: seq<Byte>) | W(ws: seq<nat>)

  predicate Fits(f: Field, v: Value)
  {
    match f
    case Number(width) => v.N? && v.n < Pow256(width)
    case Block(size) => v.B? && |v.b| == size
    case Text(max) => v.B? && |v.b| <= max
    case Blob(limit) => v.B? && |v.b| <= limit
    case Words(count) => v.W? && |v.ws| == count && forall i :: 0 <= i < count ==> v.ws[i] < 0x1_0000
  }

  function Prefixed(b: seq<Byte>, width: nat): (s: seq<Byte>)
  {
    BigEndian(|b|, width) + b
  }

  function Encode(f: Field, v: Value): (s: seq<Byte>)
    requires Fits(f, v)
  {
    match f
    case Number(width) => BigEndian(v.n, width)
    case Block(_) => v.b
    case Text(_) => Prefixed(v.b, 2)
    case Blob(_) => Prefixed(v.b, 4)
    case Words(_) => Concatenated(v.ws)
  }

  function DecodePrefixed(s: seq<Byte>, width: nat, max: nat): (r: Option<(Value, seq<Byte>)>)
  {
    if |s| < width then None
    else
      var length := FromBigEndian(s[..width]);
      if length > max || |s| < width + length then None else Some((B(s[width..width + length]), s[width + length..]))
  }

  /** Reads one field off the front: its value and what is left, or nothing when the input is too short or a length is
      over its limit. */
  function Decode(f: Field, s: seq<Byte>): (r: Option<(Value, seq<Byte>)>)
  {
    match f
    case Number(width) => if |s| < width then None else Some((N(FromBigEndian(s[..width])), s[width..]))
    case Block(size) => if |s| < size then None else Some((B(s[..size]), s[size..]))
    case Text(max) => DecodePrefixed(s, 2, max)
    case Blob(limit) => DecodePrefixed(s, 4, limit)
    case Words(count) => if |s| < 2 * count then None else Some((W(Separated(s[..2 * count], count)), s[2 * count..]))
  }

  lemma {:induction false} DecodeEncodedPrefixed(b: seq<Byte>, width: nat, max: nat, rest: seq<Byte>)
    requires |b| <= max < Pow256(width)
    ensures DecodePrefixed(Prefixed(b, width) + rest, width, max) == Some((B(b), rest))
  {
    var s := Prefixed(b, width) + rest;
    NumberRoundTrip(|b|, width);
    assert s[..width] == BigEndian(|b|, width);
    assert s[width..width + |b|] == b && s[width + |b|..] == rest;
  }

  lemma {:induction false} EncodeDecodedPrefixed(s: seq<Byte>, width: nat, max: nat)
    requires DecodePrefixed(s, width, max).Some?
    ensures
      var (v, rest) := DecodePrefixed(s, width, max).value;
      v.B? && |v.b| <= max && s == Prefixed(v.b, width) + rest
  {
    BytesRoundTrip(s[..width]);
    var length := FromBigEndian(s[..width]);
    assert s == s[..width] + s[width..width + length] + s[width + length..];
  }

  lemma {:induction false} DecodeEncoded(f: Field, v: Value, rest: seq<Byte>)
    requires Fits(f, v)
    ensures Decode(f, Encode(f, v) + rest) == Some((v, rest))
  {
    var s := Encode(f, v) + rest;
    Widths();
    match f
    case Number(width) =>
      NumberRoundTrip(v.n, width);
      assert s[..width] == Encode(f, v) && s[width..] == rest;
    case Block(size) =>
      assert s[..size] == v.b && s[size..] == rest;
    case Text(max) => DecodeEncodedPrefixed(v.b, 2, max, rest);
    case Blob(limit) => DecodeEncodedPrefixed(v.b, 4, limit, rest);
    case Words(count) =>
      WordsRoundTrip(v.ws);
      assert s[..2 * count] == Encode(f, v) && s[2 * count..] == rest;
  }

  lemma {:induction false} EncodeDecoded(f: Field, s: seq<Byte>)
    requires Decode(f, s).Some?
    ensures var (v, rest) := Decode(f, s).value; Fits(f, v) && s == Encode(f, v) + rest
  {
    Widths();
    match f
    case Number(width) => BytesRoundTrip(s[..width]);
    case Block(size) =>
    case Text(max) => EncodeDecodedPrefixed(s, 2, max);
    case Blob(limit) => EncodeDecodedPrefixed(s, 4, limit);
    case Words(count) => SeparatedRoundTrip(s[..2 * count], count);
  }

  ghost predicate FitsAll(fs: seq<Field>, vs: seq<Value>)
  {
    |fs| == |vs| && forall i :: 0 <= i < |fs| ==> Fits(fs[i], vs[i])
  }

  function EncodeAll(fs: seq<Field>, vs: seq<Value>): (s: seq<Byte>)
    requires FitsAll(fs, vs)
  {
    if fs == [] then [] else Encode(fs[0], vs[0]) + EncodeAll(fs[1..], vs[1..])
  }

  function DecodeAll(fs: seq<Field>, s: seq<Byte>): (r: Option<(seq<Value>, seq<Byte>)>)
  {
    if fs == [] then Some(([], s))
    else
      match Decode(fs[0], s)
      case None => None
      case Some((v, rest)) =>
        match DecodeAll(fs[1..], rest)
        case None => None
        case Some((vs, end)) => Some(([v] + vs, end))
  }

  /** Reading back what was written gives the same values and leaves exactly what follows. */
  lemma {:induction false} DecodeEncodedAll(fs: seq<Field>, vs: seq<Value>, rest: seq<Byte>)
    requires FitsAll(fs, vs)
    ensures DecodeAll(fs, EncodeAll(fs, vs) + rest) == Some((vs, rest))
  {
    hide Decode, Encode, Fits;
    if fs == [] {
      assert EncodeAll(fs, vs) + rest == rest;
    } else {
      var tail := EncodeAll(fs[1..], vs[1..]);
      assert EncodeAll(fs, vs) + rest == Encode(fs[0], vs[0]) + (tail + rest);
      DecodeEncoded(fs[0], vs[0], tail + rest);
      DecodeEncodedAll(fs[1..], vs[1..], rest);
      assert [vs[0]] + vs[1..] == vs;
    }
  }

  /** Whatever can be read is the writing of the values read: there is one encoding of each record. */
  lemma {:induction false} EncodeDecodedAll(fs: seq<Field>, s: seq<Byte>)
    requires DecodeAll(fs, s).Some?
    ensures var (vs, rest) := DecodeAll(fs, s).value; FitsAll(fs, vs) && s == EncodeAll(fs, vs) + rest
  {
    hide Decode, Encode, Fits;
    if fs != [] {
      EncodeDecoded(fs[0], s);
      var (v, rest) := Decode(fs[0], s).value;
      EncodeDecodedAll(fs[1..], rest);
      var (vs, end) := DecodeAll(fs[1..], rest).value;
      assert ([v] + vs)[1..] == vs;
      assert FitsAll(fs, [v] + vs);
      assert Encode(fs[0], v) + (EncodeAll(fs[1..], vs) + end) == Encode(fs[0], v) + EncodeAll(fs[1..], vs) + end;
    }
  }

  /** Two records with equal encodings, whatever follows them, are the same record. */
  lemma {:induction false} EncodingInjective(fs: seq<Field>, vs: seq<Value>, rest: seq<Byte>, ws: seq<Value>, rest': seq<Byte>)
    requires FitsAll(fs, vs) && FitsAll(fs, ws) && EncodeAll(fs, vs) + rest == EncodeAll(fs, ws) + rest'
    ensures vs == ws && rest == rest'
  {
    DecodeEncodedAll(fs, vs, rest);
    DecodeEncodedAll(fs, ws, rest');
  }

  // ----- lengths -----

  /** The longest encoding a field can have. */
  function Longest(f: Field): (n: nat)
  {
    match f case Number(width) => width case Block(size) => size case Text(max) => 2 + max case Blob(limit) => 4 + limit
    case Words(count) => 2 * count
  }

  lemma {:induction false} FieldIsBounded(f: Field, v: Value)
    requires Fits(f, v)
    ensures |Encode(f, v)| <= Longest(f)
  {
  }

  lemma {:induction false} EncodingIsBounded(fs: seq<Field>, vs: seq<Value>, bound: nat)
    requires FitsAll(fs, vs) && forall i :: 0 <= i < |fs| ==> Longest(fs[i]) <= bound
    ensures |EncodeAll(fs, vs)| <= bound * |fs|
  {
    hide Encode, Fits, Longest;
    if fs != [] {
      var n := |fs[1..]|;
      FieldIsBounded(fs[0], vs[0]);
      EncodingIsBounded(fs[1..], vs[1..], bound);
      assert |EncodeAll(fs, vs)| == |Encode(fs[0], vs[0])| + |EncodeAll(fs[1..], vs[1..])|;
      assert bound * (n + 1) == bound + bound * n;
    }
  }
}
