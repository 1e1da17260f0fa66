/** Carrying a request over the wire in chunks: cutting it up, the chunk message, and the assembler that puts it together
    again from an untrusted stream. */
module Chunks {
  import opened Outcomes
  import opened Bytes

  const MAX_REQUEST_BYTES: U32 := 16 * 1024 * 1024
  const CHUNK_PAYLOAD_SIZE := 65536

  datatype Chunk = Chunk(totalLength: U32, index: U32, totalChunks: U32, data: seq<Byte>)

  // ----- the chunk message -----

  const LAYOUT: seq<Field> := [Number(4), Number(4), Number(4), Blob(MAX_REQUEST_BYTES)]

  function ChunkValues(c: Chunk): (vs: seq<Value>)
    requires |c.data| <= MAX_REQUEST_BYTES
    ensures FitsAll(LAYOUT, vs)
  {
    Widths();
    [N(c.totalLength), N(c.index), N(c.totalChunks), B(c.data)]
  }

  function ChunkOfValues(vs: seq<Value>): (c: Chunk)
    requires FitsAll(LAYOUT, vs)
    ensures |c.data| <= MAX_REQUEST_BYTES && ChunkValues(c) == vs
  {
    Widths();
    assert Fits(LAYOUT[0], vs[0]) && Fits(LAYOUT[1], vs[1]) && Fits(LAYOUT[2], vs[2]) && Fits(LAYOUT[3], vs[3]);
    Chunk(vs[0].n, vs[1].n, vs[2].n, vs[3].b)
  }

  function EncodeChunk(c: Chunk): (r: Result<seq<Byte>>)
  {
    if |c.data| > MAX_REQUEST_BYTES then Refused else Ok(EncodeAll(LAYOUT, ChunkValues(c)))
  }

  function DecodeChunk(s: seq<Byte>): (r: Option<Chunk>)
  {
    match DecodeAll(LAYOUT, s)
    case None => None
    case Some((vs, rest)) =>
      EncodeDecodedAll(LAYOUT, s);
      var c := ChunkOfValues(vs);
      if rest != [] || c.totalLength > MAX_REQUEST_BYTES then None else Some(c)
  }

  /** Decoding undoes encoding for a chunk that declares an admissible length, and encoding undoes decoding always. */
  lemma {:induction false} ChunkRoundTrip(c: Chunk, s: seq<Byte>)
    requires c.totalLength <= MAX_REQUEST_BYTES
    ensures EncodeChunk(c) == Ok(s) <==> DecodeChunk(s) == Some(c)
  {
    if EncodeChunk(c) == Ok(s) {
      assert s == EncodeAll(LAYOUT, ChunkValues(c)) + [];
      DecodeEncodedAll(LAYOUT, ChunkValues(c), []);
    }
    if DecodeChunk(s) == Some(c) {
      EncodeDecodedAll(LAYOUT, s);
      var (vs, rest) := DecodeAll(LAYOUT, s).value;
      assert rest == [];
      assert ChunkOfValues(vs) == c;
      assert ChunkValues(c) == vs;
      assert s == EncodeAll(LAYOUT, vs);
    }
  }

  // ----- assembly -----

  /** The assembler's fields. The chunk counter is a 32-bit unsigned number. */
  datatype Assembly = Assembly(
    buffer: seq<Byte>, expectedLength: U32, expectedChunks: U32, next: U32, started: bool, complete: bool)

  const FRESH := Assembly([], 0, 0, 0, false, false)

  function Started(a: Assembly, c: Chunk): (b: Assembly)
  {
    if a.started then a else a.(started := true, expectedLength := c.totalLength, expectedChunks := c.totalChunks)
  }

  predicate Admissible(a: Assembly, c: Chunk)
  {
    && !a.complete
    && c.totalLength <= MAX_REQUEST_BYTES
    && c.totalChunks != 0
    && (a.started ==> c.totalLength == a.expectedLength && c.totalChunks == a.expectedChunks)
  }

  /** add_chunk: whether the request is now complete, or nothing when it throws, and the fields afterwards. A throw on the
      order or the length of a first chunk leaves the expectations set; a throw on a short stream leaves the data added. */
  function Add(a: Assembly, c: Chunk): (r: (Option<bool>, Assembly))
  {
    if !Admissible(a, c) then (None, a)
    else
      var b := Started(a, c);
      if c.index != b.next || |b.buffer| + |c.data| > b.expectedLength then (None, b)
      else
        var d := b.(buffer := b.buffer + c.data, next := (b.next + 1) % 0x1_0000_0000);
        if d.next != d.expectedChunks then (Some(false), d)
        else if |d.buffer| != d.expectedLength then (None, d)
        else (Some(true), d.(complete := true))
  }

  class ChunkAssembler {
    var buffer: seq<Byte>
    var expectedLength: U32
    var expectedChunks: U32
    var next: U32
    var started: bool
    var complete: bool

    function Fields(): (a: Assembly)
      reads this
    {
      Assembly(buffer, expectedLength, expectedChunks, next, started, complete)
    }

    constructor ()
      ensures Fields() == FRESH
    {
      buffer, expectedLength, expectedChunks, next, started, complete := [], 0, 0, 0, false, false;
    }

    method AddChunk(c: Chunk) returns (r: Option<bool>)
      modifies this
      ensures (r, Fields()) == Add(old(Fields()), c)
    {
      if complete || c.totalLength > MAX_REQUEST_BYTES || c.totalChunks == 0 {
        return None;
      }
      if !started {
        started := true;
        expectedLength := c.totalLength;
        expectedChunks := c.totalChunks;
      } else if c.totalLength != expectedLength || c.totalChunks != expectedChunks {
        return None;
      }
      if c.index != next || |buffer| + |c.data| > expectedLength {
        return None;
      }
      buffer := buffer + c.data;
      next := (next + 1) % 0x1_0000_0000;
      if next == expectedChunks {
        if |buffer| != expectedLength {
          return None;
        }
        complete := true;
        return Some(true);
      }
      return Some(false);
    }
  }

  // ----- any stream -----

  function Joined(cs: seq<Chunk>): (s: seq<Byte>)
  {
    if cs == [] then [] else Joined(cs[..|cs| - 1]) + cs[|cs| - 1].data
  }

  /** The answers to a stream of chunks none of which makes the assembler throw; nothing once one does. */
  function Feed(cs: seq<Chunk>): (r: Option<Assembly>)
  {
    if cs == [] then Some(FRESH)
    else
      var before := Feed(cs[..|cs| - 1]);
      if before.None? then None
      else
        var (answer, after) := Add(before.value, cs[|cs| - 1]);
        if answer.None? then None else Some(after)
  }

  /** A stream in order, with one declared length and chunk count throughout. */
  predicate Orderly(cs: seq<Chunk>)
  {
    && (forall i :: 0 <= i < |cs| ==> cs[i].index == i && cs[i].totalChunks > 0 && cs[i].totalLength <= MAX_REQUEST_BYTES)
    && (forall i :: 0 <= i < |cs| ==> cs[i].totalLength == cs[0].totalLength && cs[i].totalChunks == cs[0].totalChunks)
  }

  /** A stream is taken without a throw exactly when it is orderly, has no more chunks than declared, never exceeds the
      declared length, and reaches it with the last chunk; what is assembled is then the chunks' data, in order. */
  predicate Acceptable(cs: seq<Chunk>)
  {
    && Orderly(cs)
    && (cs != [] ==>
          && |cs| <= cs[0].totalChunks
          && |Joined(cs)| <= cs[0].totalLength
          && (|cs| == cs[0].totalChunks ==> |Joined(cs)| == cs[0].totalLength))
  }

  function Assembled(cs: seq<Chunk>): (a: Assembly)
    requires Acceptable(cs)
  {
    if cs == [] then FRESH
    else Assembly(Joined(cs), cs[0].totalLength, cs[0].totalChunks, |cs|, true, |cs| == cs[0].totalChunks)
  }

  lemma {:induction false} OrderlyInit(cs: seq<Chunk>)
    requires cs != []
    ensures
      var front, c := cs[..|cs| - 1], cs[|cs| - 1];
      Orderly(cs) <==>
        && Orderly(front) && c.index == |front| && c.totalChunks > 0 && c.totalLength <= MAX_REQUEST_BYTES
        && (front != [] ==> c.totalLength == front[0].totalLength && c.totalChunks == front[0].totalChunks)
  {
    var front, c := cs[..|cs| - 1], cs[|cs| - 1];
    assert forall i :: 0 <= i < |front| ==> front[i] == cs[i];
    if Orderly(cs) {
      assert cs[|cs| - 1].index == |cs| - 1;
      forall i | 0 <= i < |front|
        ensures front[i].index == i && front[i].totalChunks > 0 && front[i].totalLength <= MAX_REQUEST_BYTES
        ensures front[i].totalLength == front[0].totalLength && front[i].totalChunks == front[0].totalChunks
      {
        assert cs[i].index == i;
      }
    }
  }

  lemma {:induction false} AddToAcceptable(front: seq<Chunk>, c: Chunk)
    requires Acceptable(front)
    ensures
      var (answer, after) := Add(Assembled(front), c);
      && (answer.Some? <==> Acceptable(front + [c]))
      && (answer.Some? ==> after == Assembled(front + [c]) && answer.value == after.complete)
  {
    hide Joined, Orderly;
    var cs := front + [c];
    assert cs[..|cs| - 1] == front && cs[|cs| - 1] == c;
    OrderlyInit(cs);
    JoinedSnoc(front, c);
    NothingJoined(front);
    assert front == [] ==> front[..0] == front;
    assert front != [] ==> cs[0] == front[0];
  }

  lemma {:induction false} JoinedSnoc(front: seq<Chunk>, c: Chunk)
    ensures Joined(front + [c]) == Joined(front) + c.data
  {
    var cs := front + [c];
    assert cs[..|cs| - 1] == front && cs[|cs| - 1] == c;
  }

  /** The assembler accepts exactly the acceptable streams, and holds exactly their data, complete at the declared end. */
  lemma {:induction false} AssemblerAccepts(cs: seq<Chunk>)
    ensures Feed(cs).Some? <==> Acceptable(cs)
    ensures Acceptable(cs) ==> Feed(cs) == Some(Assembled(cs))
  {
    hide Acceptable, Assembled, Add, Joined, Orderly;
    if cs == [] {
      NothingAssembled();
    } else {
      var front, c := cs[..|cs| - 1], cs[|cs| - 1];
      assert cs == front + [c];
      AssemblerAccepts(front);
      if Acceptable(front) {
        AddToAcceptable(front, c);
        var r := Add(Assembled(front), c);
        assert Feed(cs) == if r.0.None? then None else Some(r.1);
        assert Feed(cs).Some? <==> Acceptable(front + [c]);
      } else if Acceptable(cs) {
        AcceptablePrefix(cs);
      }
    }
  }

  lemma {:induction false} NothingAssembled()
    ensures Acceptable([]) && Assembled([]) == FRESH
  {
  }

  lemma {:induction false} AcceptablePrefix(cs: seq<Chunk>)
    requires cs != [] && Acceptable(cs)
    ensures Acceptable(cs[..|cs| - 1])
  {
    var front := cs[..|cs| - 1];
    OrderlyInit(cs);
    assert front != [] ==> front[0] == cs[0];
    assert Joined(cs) == Joined(front) + cs[|cs| - 1].data;
  }

  // ----- cutting up -----

  function ChunkCount(s: seq<Byte>): (n: nat)
  {
    (|s| + CHUNK_PAYLOAD_SIZE - 1) / CHUNK_PAYLOAD_SIZE
  }

  function Least(a: nat, b: nat): (r: nat)
  {
    if a <= b then a else b
  }

  function ChunkAt(s: seq<Byte>, i: nat): (c: Chunk)
    requires i < ChunkCount(s) && |s| < 0x1_0000_0000
  {
    var offset := i * CHUNK_PAYLOAD_SIZE;
    Chunk(|s|, i, ChunkCount(s), s[offset..offset + Least(CHUNK_PAYLOAD_SIZE, |s| - offset)])
  }

  /** send_chunked, up to the frames it hands on: refused over 32 bits of length. */
  method SendChunked(s: seq<Byte>) returns (r: Result<seq<Chunk>>)
    ensures r.Ok? <==> |s| < 0x1_0000_0000
    ensures r.Ok? ==> |r.value| == ChunkCount(s) && forall i :: 0 <= i < |r.value| ==> r.value[i] == ChunkAt(s, i)
    ensures r.Ok? && 0 < |s| <= MAX_REQUEST_BYTES ==> Feed(r.value).Some? && Feed(r.value).value.complete && Feed(r.value).value.buffer == s
    ensures r.Ok? && |s| > MAX_REQUEST_BYTES ==> Feed(r.value).None?
  {
    if |s| >= 0x1_0000_0000 {
      return Refused;
    }
    var totalChunks := (|s| + CHUNK_PAYLOAD_SIZE - 1) / CHUNK_PAYLOAD_SIZE;
    var frames: seq<Chunk> := [];
    for i := 0 to totalChunks
      invariant |frames| == i && forall k :: 0 <= k < i ==> frames[k] == ChunkAt(s, k)
    {
      var offset := i * CHUNK_PAYLOAD_SIZE;
      var length := Least(CHUNK_PAYLOAD_SIZE, |s| - offset);
      frames := frames + [Chunk(|s|, i, totalChunks, s[offset..offset + length])];
    }
    if |s| > 0 {
      ChunkedAssembles(s, frames);
    }
    return Ok(frames);
  }

  lemma {:induction false} JoinedPrefix(s: seq<Byte>, cs: seq<Chunk>, k: nat)
    requires |s| < 0x1_0000_0000 && k <= |cs| == ChunkCount(s) && forall i :: 0 <= i < |cs| ==> cs[i] == ChunkAt(s, i)
    ensures Joined(cs[..k]) == s[..Least(k * CHUNK_PAYLOAD_SIZE, |s|)]
  {
    hide Joined;
    if k > 0 {
      JoinedPrefix(s, cs, k - 1);
      JoinedSnoc(cs[..k - 1], ChunkAt(s, k - 1));
      assert cs[..k] == cs[..k - 1] + [ChunkAt(s, k - 1)];
      var offset := (k - 1) * CHUNK_PAYLOAD_SIZE;
      assert offset < |s|;
      var length := Least(CHUNK_PAYLOAD_SIZE, |s| - offset);
      assert s[..offset + length] == s[..offset] + s[offset..offset + length];
    } else {
      NothingJoined(cs);
    }
  }

  lemma {:induction false} NothingJoined(cs: seq<Chunk>)
    ensures Joined(cs[..0]) == []
  {
  }

  /** Cutting up any non-empty request within the limit and feeding the pieces gives it back byte for byte; a longer one
      is refused at its first chunk. */
  lemma {:induction false} ChunkedAssembles(s: seq<Byte>, cs: seq<Chunk>)
    requires 0 < |s| < 0x1_0000_0000 && |cs| == ChunkCount(s) && forall i :: 0 <= i < |cs| ==> cs[i] == ChunkAt(s, i)
    ensures |s| <= MAX_REQUEST_BYTES ==> Feed(cs).Some? && Feed(cs).value.complete && Feed(cs).value.buffer == s
    ensures |s| > MAX_REQUEST_BYTES ==> Feed(cs).None?
  {
    JoinedPrefix(s, cs, |cs|);
    assert cs[..|cs|] == cs && s[..|s|] == s;
    assert cs[0] == ChunkAt(s, 0);
    AssemblerAccepts(cs);
  }
}
