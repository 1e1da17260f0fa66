/** Hashing a message to a ring element: 16-bit words of an extendable-output stream, rejected at five times the modulus
    and reduced. The stream is any function from positions to bytes, of which the program asks for longer and longer
    prefixes. */
module HashToPoint {
  import opened Outcomes
  import opened Bytes
  import opened Residues

  type Stream = nat -> Byte

  // ----- what it computes -----

  /** The k-th big-endian word of the stream. */
  function WordAt(stream: Stream, k: nat): (w: nat)
    ensures w < 0x1_0000
  {
    BytesRoundTrip([stream(2 * k), stream(2 * k + 1)]);
    Widths();
    FromBigEndian([stream(2 * k), stream(2 * k + 1)])
  }

  function Reduced(w: nat, q: nat): (r: nat)
    requires q > 0
  {
    w % q
  }

  /** What one word contributes. */
  function Kept(w: nat, q: nat): (r: seq<nat>)
    requires q > 0
  {
    if w < 5 * q then [Reduced(w, q)] else []
  }

  /** The residues of the accepted ones among the first k words. */
  function Accepted(stream: Stream, q: nat, k: nat): (r: seq<nat>)
    requires q > 0
  {
    if k == 0 then [] else Accepted(stream, q, k - 1) + Kept(WordAt(stream, k - 1), q)
  }

  /** The stream yields at least n accepted words within its first k. */
  predicate Yields(stream: Stream, q: nat, n: nat, k: nat)
    requires q > 0
  {
    |Accepted(stream, q, k)| >= n
  }

  lemma {:induction false} AcceptedGrows(stream: Stream, q: nat, j: nat, k: nat)
    requires q > 0 && j <= k
    ensures Accepted(stream, q, j) <= Accepted(stream, q, k)
    decreases k
  {
    if j < k {
      AcceptedGrows(stream, q, j, k - 1);
    }
  }

  /** The first n accepted words do not depend on how far the stream was read to find them. */
  lemma {:induction false} FirstAcceptedUnique(stream: Stream, q: nat, n: nat, j: nat, k: nat)
    requires q > 0 && Yields(stream, q, n, j) && Yields(stream, q, n, k)
    ensures Accepted(stream, q, j)[..n] == Accepted(stream, q, k)[..n]
  {
    if j <= k {
      AcceptedGrows(stream, q, j, k);
    } else {
      AcceptedGrows(stream, q, k, j);
    }
  }

  /** How many of the first k words are below five times the modulus. */
  function Rank(stream: Stream, q: nat, k: nat): (n: nat)
  {
    |set i: nat | i < k && WordAt(stream, i) < 5 * q|
  }

  lemma {:induction false} RankStep(stream: Stream, q: nat, k: nat)
    ensures Rank(stream, q, 0) == 0
    ensures Rank(stream, q, k + 1) == Rank(stream, q, k) + (if WordAt(stream, k) < 5 * q then 1 else 0)
  {
    hide WordAt;
    var below := set i: nat | i < k && WordAt(stream, i) < 5 * q;
    var upTo := set i: nat | i < k + 1 && WordAt(stream, i) < 5 * q;
    assert upTo == below + (if WordAt(stream, k) < 5 * q then {k} else {});
    assert (set i: nat | i < 0 && WordAt(stream, i) < 5 * q) == {};
  }

  /** Word by word: the i-th word, if it is below five times the modulus, gives its residue at the place that says how many
      such words came before it, and nothing else is given. */
  lemma {:induction false} AcceptedWordByWord(stream: Stream, q: nat, k: nat, i: nat)
    requires q > 0 && i < k
    ensures |Accepted(stream, q, k)| == Rank(stream, q, k)
    ensures WordAt(stream, i) < 5 * q ==>
      Rank(stream, q, i) < Rank(stream, q, k) && Accepted(stream, q, k)[Rank(stream, q, i)] == WordAt(stream, i) % q
  {
    hide WordAt, Rank;
    AcceptedCount(stream, q, k);
    AcceptedCount(stream, q, i);
    AcceptedCount(stream, q, i + 1);
    AcceptedGrows(stream, q, i + 1, k);
    RankStep(stream, q, i);
  }

  lemma {:induction false} AcceptedCount(stream: Stream, q: nat, k: nat)
    requires q > 0
    ensures |Accepted(stream, q, k)| == Rank(stream, q, k)
  {
    hide WordAt, Rank;
    if k > 0 {
      AcceptedCount(stream, q, k - 1);
      RankStep(stream, q, k - 1);
    } else {
      RankStep(stream, q, 0);
    }
  }

  // ----- the program -----

  ghost predicate IsPrefix(stream: Stream, s: seq<Byte>)
  {
    forall i :: 0 <= i < |s| ==> s[i] == stream(i)
  }

  /** The big-endian word at a position of a prefix. */
  function WordIn(s: seq<Byte>, pos: nat): (w: nat)
    requires pos + 1 < |s|
  {
    256 * (s[pos] as int) + s[pos + 1] as int
  }

  lemma {:induction false} SameWord(stream: Stream, s: seq<Byte>, k: nat)
    requires IsPrefix(stream, s) && 2 * k + 1 < |s|
    ensures WordIn(s, 2 * k) == WordAt(stream, k)
  {
    var w := [stream(2 * k), stream(2 * k + 1)];
    assert w[..1] == [w[0]] && [w[0]][..0] == [];
    assert FromBigEndian(w) == 256 * FromBigEndian([w[0]]) + w[1];
  }

  function Prefix(stream: Stream, n: nat): (s: seq<Byte>)
    ensures |s| == n && IsPrefix(stream, s)
  {
    seq(n, i requires 0 <= i < n => stream(i))
  }

  /** An even prefix of the stream, read up to the k-th word. */
  ghost predicate Reading(stream: Stream, bytes: seq<Byte>, pos: nat, k: nat)
  {
    IsPrefix(stream, bytes) && |bytes| % 2 == 0 && pos == 2 * k <= |bytes|
  }

  /** The next word, after a longer prefix has been asked for when this one is used up. */
  method NextWord(stream: Stream, bytes0: seq<Byte>, pos0: nat, chunk: nat, ghost k: nat)
    returns (w: nat, bytes: seq<Byte>, pos: nat)
    requires chunk > 0 && chunk % 2 == 0 && Reading(stream, bytes0, pos0, k)
    ensures w == WordAt(stream, k) && Reading(stream, bytes, pos, k + 1)
  {
    bytes, pos := bytes0, pos0;
    if pos + 2 > |bytes| {
      var oldSize := |bytes|;
      bytes := Prefix(stream, oldSize + chunk);
      pos := oldSize;
    }
    w := WordIn(bytes, pos);
    SameWord(stream, bytes, k);
    pos := pos + 2;
  }

  /** hash_to_point over a stream whose first `enough` words hold n accepted ones; the prefix grows by `chunk` bytes at a
      time, whatever even number that is. Refused when the modulus is out of range. */
  method HashToPoint(stream: Stream, n: nat, q: int, chunk: nat, ghost enough: nat) returns (r: Result<seq<nat>>)
    requires chunk > 0 && chunk % 2 == 0
    requires q > 0 ==> Yields(stream, q, n, enough)
    ensures r.Ok? <==> 0 < q <= 65535 / 5
    ensures r.Ok? ==> r.value == Accepted(stream, q, enough)[..n]
  {
    if q <= 0 || q > 65535 / 5 {
      return Refused;
    }
    hide Kept, WordAt, Accepted, Yields, Reduced, IsPrefix;
    var rejectAt := 5 * q;
    var out: seq<nat> := [];
    var bytes := Prefix(stream, chunk);
    var pos := 0;
    ghost var k := 0;
    NothingAccepted(stream, q);
    while |out| < n
      invariant |out| <= n && Reading(stream, bytes, pos, k)
      invariant out == Accepted(stream, q, k)
      decreases enough - k
    {
      MoreToCome(stream, q, n, k, enough);
      var w;
      w, bytes, pos := NextWord(stream, bytes, pos, chunk, k);
      NextAccepted(stream, q, k, w);
      k := k + 1;
      if w < rejectAt {
        out := out + [Reduced(w, q)];
      }
    }
    FullyAccepted(stream, q, n, k, enough);
    return Ok(out);
  }

  lemma {:induction false} NothingAccepted(stream: Stream, q: nat)
    requires q > 0
    ensures Accepted(stream, q, 0) == []
  {
  }

  lemma {:induction false} NextAccepted(stream: Stream, q: nat, k: nat, w: nat)
    requires q > 0 && w == WordAt(stream, k)
    ensures Accepted(stream, q, k + 1) == if w < 5 * q then Accepted(stream, q, k) + [Reduced(w, q)] else Accepted(stream, q, k)
  {
  }

  lemma {:induction false} FullyAccepted(stream: Stream, q: nat, n: nat, k: nat, enough: nat)
    requires q > 0 && |Accepted(stream, q, k)| == n && Yields(stream, q, n, enough)
    ensures |Accepted(stream, q, enough)| >= n && Accepted(stream, q, k) == Accepted(stream, q, enough)[..n]
  {
    FirstAcceptedUnique(stream, q, n, k, enough);
    assert Accepted(stream, q, k)[..n] == Accepted(stream, q, k);
  }

  lemma {:induction false} MoreToCome(stream: Stream, q: nat, n: nat, k: nat, enough: nat)
    requires q > 0 && Yields(stream, q, n, enough) && |Accepted(stream, q, k)| < n
    ensures k < enough
  {
    if k >= enough {
      AcceptedGrows(stream, q, enough, k);
    }
  }

  // ----- no residue is favoured -----

  /** The 16-bit words that hashing keeps as a given residue. */
  function WordsOf(q: nat, residue: nat): (r: set<nat>)
    requires q > 0
  {
    set w: nat | w < 0x1_0000 && Kept(w, q) == [residue]
  }

  /** Every residue comes from exactly five words, all congruent to it. */
  lemma {:induction false} FiveWordsEach(q: nat, residue: nat)
    requires 0 < q <= 65535 / 5 && residue < q
    ensures |WordsOf(q, residue)| == 5
    ensures forall w :: w in WordsOf(q, residue) ==> w % q == residue
  {
    var five := {residue, residue + q, residue + 2 * q, residue + 3 * q, residue + 4 * q};
    forall w: nat ensures w in WordsOf(q, residue) <==> w in five {
      if w < 5 * q {
        QuotientBelowFive(w, q);
      }
      ResidueOf(q, residue, 0);
      ResidueOf(q, residue, 1);
      ResidueOf(q, residue, 2);
      ResidueOf(q, residue, 3);
      ResidueOf(q, residue, 4);
    }
    assert WordsOf(q, residue) == five;
  }

  lemma {:induction false} ResidueOf(q: nat, residue: nat, k: nat)
    requires 0 < q && residue < q
    ensures (residue + k * q) % q == residue
  {
    ModShift(residue, k, q);
    SmallResidue(q, residue);
  }

  lemma {:induction false} SmallResidue(q: nat, residue: nat)
    requires residue < q
    ensures residue % q == residue
  {
  }

  lemma {:induction false} QuotientBelowFive(w: nat, q: nat)
    requires 0 < q && w < 5 * q
    ensures w == w % q || w == w % q + q || w == w % q + 2 * q || w == w % q + 3 * q || w == w % q + 4 * q
  {
    var k := w / q;
    assert w == k * q + w % q;
    assert k < 5;
  }
}
