/** Replaying a journal: what one record does, what a whole log means, and why any log a live journal wrote, cut at any
    byte, replays to exactly its whole records. */
module JournalReplay {
  import opened Outcomes
  import opened Bytes
  import opened JournalFormat

  /** The hash and the signature checks, kept abstract. The ML-DSA-65 key is optional. */
  datatype Keys = Keys(
    digest: seq<Byte> -> Digest,
    edVerify: (seq<Byte>, seq<Byte>) -> bool,
    mlVerify: Option<(seq<Byte>, seq<Byte>) -> bool>)

  datatype Fault = FormatError | TamperError | RollbackError

  /** What a journal object holds in memory. */
  datatype State = State(
    entries: seq<Entry>, chainHead: Digest, lastCheckpoint: Option<nat>, lastStates: map<TradeId, U8>)

  const GENESIS: Digest := BigEndian(0, 32)
  const EMPTY := State([], GENESIS, None, map[])

  // ----- local state transitions -----

  const WAITING_FOR_PEER: U8 := 0
  const WAITING_FOR_SENT: U8 := 1
  const WAITING_FOR_RECEIVED: U8 := 2
  const WAITING_FOR_FEE_SENT: U8 := 3
  const COMPLETE: U8 := 4
  const ABORTED: U8 := 5
  const WAITING_FOR_FINAL_RECEIPT_ACK: U8 := 6
  const WAITING_FOR_FEE_CONFIRMATION: U8 := 7

  /** is_valid_transition, over raw state numbers: an unknown number may only repeat. */
  predicate ValidTransition(from: U8, to: U8)
  {
    || from == to
    || match from
       case 0 => to in {WAITING_FOR_SENT, ABORTED}
       case 1 => to in {WAITING_FOR_RECEIVED, ABORTED}
       case 2 => to in {WAITING_FOR_SENT, WAITING_FOR_FINAL_RECEIPT_ACK, COMPLETE, ABORTED}
       case 6 => to in {WAITING_FOR_SENT, WAITING_FOR_FEE_SENT, ABORTED}
       case 3 => to in {COMPLETE, WAITING_FOR_FEE_CONFIRMATION, ABORTED}
       case 7 => to in {COMPLETE, ABORTED}
       case _ => false
  }

  predicate Admits(st: State, f: Fields)
  {
    if f.tradeId !in st.lastStates then f.localState == WAITING_FOR_PEER
    else ValidTransition(st.lastStates[f.tradeId], f.localState)
  }

  // ----- signatures -----

  function Ascii(s: string): (r: seq<Byte>)
    ensures |r| == |s|
  {
    seq(|s|, i requires 0 <= i < |s| => s[i] as int % 256)
  }

  function Tagged(tag: string): (r: seq<Byte>)
  {
    BigEndian(|tag|, 2) + Ascii(tag)
  }

  function SignedBytes(c: Checkpoint): (s: seq<Byte>)
  {
    Tagged("tradep2p-journal-checkpoint-v1") + BigEndian(c.index, 8) + c.hash + BigEndian(c.signedAt, 8)
  }

  function SuiteSignedBytes(c: Checkpoint): (s: seq<Byte>)
  {
    Tagged("tradep2p-journal-checkpoint-suite-v1") + BigEndian(c.suite, 2) + BigEndian(c.index, 8) + c.hash
      + BigEndian(c.signedAt, 8)
  }

  predicate Verifies(keys: Keys, r: Record)
    requires !r.EntryRecord?
  {
    var c := r.checkpoint;
    if r.PlainCheckpoint? then keys.edVerify(SignedBytes(c), c.signature)
    else if c.suite == SUITE_MLDSA65 then keys.mlVerify.Some? && keys.mlVerify.value(SuiteSignedBytes(c), c.signature)
    else keys.edVerify(SuiteSignedBytes(c), c.signature)
  }

  /** The check that open makes on the head file's signature. */
  predicate HeadVerifies(keys: Keys, c: Checkpoint)
  {
    if c.suite == SUITE_MLDSA65 then keys.mlVerify.Some? && keys.mlVerify.value(SuiteSignedBytes(c), c.signature)
    else keys.edVerify(SignedBytes(c), c.signature)
  }

  // ----- one record -----

  function EntryHash(keys: Keys, index: U64, f: Fields, previous: Digest): (h: Digest)
    requires |f.mediatorId| <= MAX_MEDIATOR_ID_LENGTH
  {
    keys.digest(CanonicalEntryBytes(index, f) + previous)
  }

  predicate Follows(keys: Keys, st: State, e: Entry)
    requires |e.fields.mediatorId| <= MAX_MEDIATOR_ID_LENGTH
  {
    && e.index == |st.entries|
    && e.previous == st.chainHead
    && EntryHash(keys, e.index, e.fields, e.previous) == e.hash
    && Admits(st, e.fields)
  }

  function Extended(st: State, e: Entry): (t: State)
  {
    State(st.entries + [e], e.hash, st.lastCheckpoint, st.lastStates[e.fields.tradeId := e.fields.localState])
  }

  predicate Covers(keys: Keys, st: State, r: Record)
    requires !r.EntryRecord?
  {
    var c := r.checkpoint;
    && c.index < |st.entries|
    && st.entries[c.index].hash == c.hash
    && (st.lastCheckpoint.Some? ==> c.index >= st.lastCheckpoint.value)
    && Verifies(keys, r)
  }

  /** The state after a record, or nothing when replay reports tampering. */
  function Apply(keys: Keys, st: State, r: Record): (t: Option<State>)
    requires WellFormed(r)
  {
    match r
    case EntryRecord(e) => if Follows(keys, st, e) then Some(Extended(st, e)) else None
    case _ => if Covers(keys, st, r) then Some(st.(lastCheckpoint := Some(r.checkpoint.index))) else None
  }

  // ----- a list of records -----

  predicate AllWellFormed(rs: seq<Record>)
  {
    forall i :: 0 <= i < |rs| ==> WellFormed(rs[i])
  }

  function ApplyAll(keys: Keys, st: State, rs: seq<Record>): (t: Option<State>)
    requires AllWellFormed(rs)
    decreases |rs|
  {
    if rs == [] then Some(st)
    else
      match Apply(keys, st, rs[0])
      case None => None
      case Some(next) => ApplyAll(keys, next, rs[1..])
  }

  function EncodeLog(rs: seq<Record>): (s: seq<Byte>)
    requires AllWellFormed(rs)
  {
    if rs == [] then [] else Frame(rs[0]) + EncodeLog(rs[1..])
  }

  // ----- the bytes of a log -----

  datatype Scan = Scan(fault: Option<Fault>, state: State, length: nat)

  /** Replay from a state: the fault if any, the state reached, and the length of the whole records read. A record cut
      short by the end of the input ends the replay cleanly. */
  function Replay(keys: Keys, st: State, raw: seq<Byte>): (r: Scan)
    ensures r.length <= |raw|
    decreases |raw|
  {
    if |raw| < 5 then Scan(None, st, 0)
    else
      var length := FromBigEndian(raw[1..5]);
      if length > MAX_RECORD_BODY_LENGTH then Scan(Some(FormatError), st, 0)
      else if |raw| - 5 < length then Scan(None, st, 0)
      else
        match ParseBody(raw[0], raw[5..5 + length])
        case None => Scan(Some(FormatError), st, 0)
        case Some(record) =>
          EncodeParsed(raw[0], raw[5..5 + length]);
          match Apply(keys, st, record)
          case None => Scan(Some(TamperError), st, 0)
          case Some(next) =>
            var rest := Replay(keys, next, raw[5 + length..]);
            rest.(length := 5 + length + rest.length)
  }

  /** How many whole records the first n bytes of a log hold. */
  function Whole(rs: seq<Record>, n: int): (k: nat)
    requires AllWellFormed(rs)
    ensures k <= |rs|
  {
    if rs == [] || n < |Frame(rs[0])| then 0 else 1 + Whole(rs[1..], n - |Frame(rs[0])|)
  }

  lemma {:induction false} ReadFrame(r: Record, rest: seq<Byte>)
    requires WellFormed(r)
    ensures
      var raw := Frame(r) + rest;
      && |Frame(r)| == 5 + |Body(r)| && |raw| >= 5 && FromBigEndian(raw[1..5]) == |Body(r)| <= MAX_RECORD_BODY_LENGTH
      && raw[0] == Kind(r) && raw[5..5 + |Body(r)|] == Body(r) && raw[5 + |Body(r)|..] == rest
  {
    var raw := Frame(r) + rest;
    BodyIsBounded(r);
    Widths();
    NumberRoundTrip(|Body(r)|, 4);
    assert raw[1..5] == BigEndian(|Body(r)|, 4);
  }

  lemma {:induction false} ReplayRecord(keys: Keys, st: State, r: Record, rest: seq<Byte>)
    requires WellFormed(r) && Apply(keys, st, r).Some?
    ensures
      var after := Replay(keys, Apply(keys, st, r).value, rest);
      Replay(keys, st, Frame(r) + rest) == after.(length := |Frame(r)| + after.length)
  {
    ReadFrame(r, rest);
    ParseEncoded(r);
  }

  lemma {:induction false} ReplayNothing(keys: Keys, st: State)
    ensures Replay(keys, st, []) == Scan(None, st, 0)
  {
  }

  /** A strict prefix of one record replays to nothing, cleanly. */
  lemma {:induction false} ReplayTorn(keys: Keys, st: State, r: Record, p: seq<Byte>)
    requires WellFormed(r) && p <= Frame(r) && |p| < |Frame(r)|
    ensures Replay(keys, st, p) == Scan(None, st, 0)
  {
    ReadFrame(r, []);
    assert Frame(r) + [] == Frame(r);
    if |p| >= 5 {
      assert p[1..5] == Frame(r)[1..5];
    }
  }

  /** Any byte prefix of a log made of accepted records replays to exactly its whole records, and reports nothing. */
  lemma {:induction false} PrefixReplays(keys: Keys, st: State, rs: seq<Record>, p: seq<Byte>)
    requires AllWellFormed(rs) && ApplyAll(keys, st, rs).Some? && p <= EncodeLog(rs)
    ensures
      var kept := rs[..Whole(rs, |p|)];
      && ApplyAll(keys, st, kept).Some?
      && Replay(keys, st, p) == Scan(None, ApplyAll(keys, st, kept).value, |EncodeLog(kept)|)
      && EncodeLog(kept) <= p
    decreases |rs|
  {
    hide Apply, Frame, WellFormed, Replay;
    if rs == [] {
      assert p == [];
      ReplayNothing(keys, st);
    } else if |p| < |Frame(rs[0])| {
      assert p <= Frame(rs[0]);
      ReplayTorn(keys, st, rs[0], p);
    } else {
      var next := Apply(keys, st, rs[0]).value;
      var rest := p[|Frame(rs[0])|..];
      assert p == Frame(rs[0]) + rest;
      assert rest <= EncodeLog(rs[1..]) by {
        assert EncodeLog(rs)[|Frame(rs[0])|..] == EncodeLog(rs[1..]);
      }
      PrefixReplays(keys, next, rs[1..], rest);
      ReplayRecord(keys, st, rs[0], rest);
      var k := Whole(rs, |p|);
      assert rs[..k][0] == rs[0] && rs[..k][1..] == rs[1..][..k - 1];
    }
  }

  /** The frame of a record read off the front of a log is the bytes it was read from. */
  lemma FrameOfParsed(raw: seq<Byte>, length: nat)
    requires |raw| >= 5 && length == FromBigEndian(raw[1..5]) <= |raw| - 5
    requires ParseBody(raw[0], raw[5..5 + length]).Some?
    ensures
      var r := ParseBody(raw[0], raw[5..5 + length]).value;
      WellFormed(r) && Frame(r) == raw[..5 + length]
  {
    hide ParseBody, WellFormed, Body, BigEndian, FromBigEndian;
    var r := ParseBody(raw[0], raw[5..5 + length]).value;
    EncodeParsed(raw[0], raw[5..5 + length]);
    BytesRoundTrip(raw[1..5]);
    assert raw[..5 + length] == [raw[0]] + raw[1..5] + raw[5..5 + length];
  }

  /** The converse: a log that replays without fault is, up to a torn tail, the encoding of accepted records. */
  lemma {:induction false} ReplayedIsEncoded(keys: Keys, st: State, raw: seq<Byte>) returns (rs: seq<Record>)
    requires Replay(keys, st, raw).fault.None?
    ensures AllWellFormed(rs) && ApplyAll(keys, st, rs) == Some(Replay(keys, st, raw).state)
    ensures Replay(keys, st, raw).length == |EncodeLog(rs)| <= |raw| && raw[..|EncodeLog(rs)|] == EncodeLog(rs)
    decreases |raw|
  {
    hide Apply, ParseBody, WellFormed, Frame, FromBigEndian;
    rs := [];
    if |raw| >= 5 {
      var length := FromBigEndian(raw[1..5]);
      if length <= |raw| - 5 {
        var r := ParseBody(raw[0], raw[5..5 + length]).value;
        FrameOfParsed(raw, length);
        var tail := ReplayedIsEncoded(keys, Apply(keys, st, r).value, raw[5 + length..]);
        rs := [r] + tail;
        assert rs[1..] == tail;
        var n := |EncodeLog(tail)|;
        assert raw[..5 + length + n] == raw[..5 + length] + raw[5 + length..][..n];
      }
    }
  }

  /** What a crash in the middle of a write can leave: not even a header, or less than the admissible length it announces. */
  predicate TornTail(p: seq<Byte>)
  {
    |p| < 5 || |p| - 5 < FromBigEndian(p[1..5]) <= MAX_RECORD_BODY_LENGTH
  }

  lemma {:induction false} ReplayEndsTorn(keys: Keys, st: State, raw: seq<Byte>)
    requires Replay(keys, st, raw).fault.None?
    ensures TornTail(raw[Replay(keys, st, raw).length..])
    decreases |raw|
  {
    hide Apply, ParseBody, FromBigEndian;
    if |raw| < 5 || |raw| - 5 < FromBigEndian(raw[1..5]) {
      assert raw[0..] == raw;
    } else {
      var length := FromBigEndian(raw[1..5]);
      var r := ParseBody(raw[0], raw[5..5 + length]).value;
      EncodeParsed(raw[0], raw[5..5 + length]);
      var rest := raw[5 + length..];
      var next := Apply(keys, st, r).value;
      ReplayEndsTorn(keys, next, rest);
      assert rest[Replay(keys, next, rest).length..] == raw[Replay(keys, st, raw).length..];
    }
  }

  ghost predicate HeldIn(keys: Keys, raw: seq<Byte>, rs: seq<Record>)
  {
    && AllWellFormed(rs) && ApplyAll(keys, EMPTY, rs).Some?
    && EncodeLog(rs) <= raw && TornTail(raw[|EncodeLog(rs)|..])
  }

  /** Exactly which byte strings replay without a fault: the encodings of accepted records followed by a torn tail. */
  lemma {:induction false} ReplaysExactly(keys: Keys, raw: seq<Byte>)
    ensures Replay(keys, EMPTY, raw).fault.None? <==> exists rs :: HeldIn(keys, raw, rs)
  {
    hide Replay, HeldIn;
    if Replay(keys, EMPTY, raw).fault.None? {
      var rs := WhatReplayed(keys, raw);
    }
    if rs :| HeldIn(keys, raw, rs) {
      HeldReplays(keys, raw, rs);
    }
  }

  lemma {:induction false} WhatReplayed(keys: Keys, raw: seq<Byte>) returns (rs: seq<Record>)
    requires Replay(keys, EMPTY, raw).fault.None?
    ensures HeldIn(keys, raw, rs)
  {
    hide Replay, ApplyAll, TornTail, AllWellFormed, EncodeLog;
    rs := ReplayedIsEncoded(keys, EMPTY, raw);
    ReplayEndsTorn(keys, EMPTY, raw);
  }

  lemma {:induction false} HeldReplays(keys: Keys, raw: seq<Byte>, rs: seq<Record>)
    requires HeldIn(keys, raw, rs)
    ensures Replay(keys, EMPTY, raw).fault.None?
  {
    hide Replay, ApplyAll, TornTail, AllWellFormed, EncodeLog;
    var tail := raw[|EncodeLog(rs)|..];
    assert raw == EncodeLog(rs) + tail;
    ReplayAfter(keys, EMPTY, rs, tail);
    TornReplays(keys, ApplyAll(keys, EMPTY, rs).value, tail);
  }

  lemma {:induction false} TornReplays(keys: Keys, st: State, p: seq<Byte>)
    requires TornTail(p)
    ensures Replay(keys, st, p) == Scan(None, st, 0)
  {
  }

  lemma {:induction false} ApplyAllConcat(keys: Keys, st: State, rs: seq<Record>, r: Record)
    requires AllWellFormed(rs) && WellFormed(r) && ApplyAll(keys, st, rs).Some?
    ensures AllWellFormed(rs + [r])
    ensures ApplyAll(keys, st, rs + [r]) == Apply(keys, ApplyAll(keys, st, rs).value, r)
    ensures EncodeLog(rs + [r]) == EncodeLog(rs) + Frame(r)
    decreases |rs|
  {
    hide Apply, Frame, WellFormed;
    if rs == [] {
      assert rs + [r] == [r];
      assert [r][1..] == [];
      assert EncodeLog([r]) == Frame(r) + EncodeLog([]);
    } else {
      assert (rs + [r])[0] == rs[0] && (rs + [r])[1..] == rs[1..] + [r];
      ApplyAllConcat(keys, Apply(keys, st, rs[0]).value, rs[1..], r);
      assert Frame(rs[0]) + (EncodeLog(rs[1..]) + Frame(r)) == Frame(rs[0]) + EncodeLog(rs[1..]) + Frame(r);
    }
  }

  lemma {:induction false} WholeLogIsWhole(rs: seq<Record>)
    requires AllWellFormed(rs)
    ensures Whole(rs, |EncodeLog(rs)|) == |rs|
  {
    if rs != [] {
      WholeLogIsWhole(rs[1..]);
    }
  }

  /** Replaying everything a live journal wrote rebuilds its state. */
  lemma {:induction false} LogReplays(keys: Keys, rs: seq<Record>)
    requires AllWellFormed(rs) && ApplyAll(keys, EMPTY, rs).Some?
    ensures Replay(keys, EMPTY, EncodeLog(rs)) == Scan(None, ApplyAll(keys, EMPTY, rs).value, |EncodeLog(rs)|)
  {
    PrefixReplays(keys, EMPTY, rs, EncodeLog(rs));
    WholeLogIsWhole(rs);
    assert rs[..|rs|] == rs;
  }

  /** Replay goes through a log of accepted records to whatever follows it. */
  lemma {:induction false} ReplayAfter(keys: Keys, st: State, rs: seq<Record>, rest: seq<Byte>)
    requires AllWellFormed(rs) && ApplyAll(keys, st, rs).Some?
    ensures
      var after := Replay(keys, ApplyAll(keys, st, rs).value, rest);
      Replay(keys, st, EncodeLog(rs) + rest) == after.(length := |EncodeLog(rs)| + after.length)
    decreases |rs|
  {
    hide Apply, Frame, WellFormed, Replay;
    if rs == [] {
      assert EncodeLog(rs) + rest == rest;
    } else {
      var next := Apply(keys, st, rs[0]).value;
      assert EncodeLog(rs) + rest == Frame(rs[0]) + (EncodeLog(rs[1..]) + rest);
      ReplayRecord(keys, st, rs[0], EncodeLog(rs[1..]) + rest);
      ReplayAfter(keys, next, rs[1..], rest);
    }
  }

  /** A whole record that the state does not admit is reported as tampering. */
  lemma {:induction false} ReplayRefuses(keys: Keys, st: State, r: Record)
    requires WellFormed(r) && Apply(keys, st, r).None?
    ensures Replay(keys, st, Frame(r)).fault == Some(TamperError)
  {
    ReadFrame(r, []);
    assert Frame(r) + [] == Frame(r);
    ParseEncoded(r);
  }
}
