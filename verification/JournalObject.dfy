/** The live journal object over its two files. Everything it writes is what replay accepts, so reopening rebuilds it. */
module JournalObject {
  import opened Outcomes
  import opened Bytes
  import opened JournalFormat
  import opened JournalReplay
  import opened JournalRecovery
  import opened JournalBinding

  const MAX_ENTRIES := 0x1_0000_0000_0000_0000

  /** The entry append would write, or nothing when it refuses: a malformed transition, or a mediator id over the limit.
      A zero timestamp is replaced by the clock. */
  function NewEntry(keys: Keys, st: State, f: Fields, clock: U64): (e: Option<Entry>)
    requires |st.entries| < MAX_ENTRIES
  {
    var g := if f.timestamp == 0 then f.(timestamp := clock) else f;
    if !Admits(st, g) || |g.mediatorId| > MAX_MEDIATOR_ID_LENGTH then None
    else Some(Entry(|st.entries|, g, st.chainHead, EntryHash(keys, |st.entries|, g, st.chainHead)))
  }

  /** Replay accepts an entry exactly when append, given the entry's own content, would have written that very entry. */
  lemma {:induction false} ReplayAcceptsWhatAppendWrites(keys: Keys, st: State, e: Entry, clock: U64)
    requires |st.entries| < MAX_ENTRIES && WellFormed(EntryRecord(e))
    requires e.fields.timestamp != 0
    ensures Apply(keys, st, EntryRecord(e)).Some? <==> NewEntry(keys, st, e.fields, clock) == Some(e)
  {
    hide EntryHash, Admits;
  }

  lemma {:induction false} AppendIsReplayed(keys: Keys, st: State, f: Fields, clock: U64)
    requires |st.entries| < MAX_ENTRIES && NewEntry(keys, st, f, clock).Some?
    ensures
      var e := NewEntry(keys, st, f, clock).value;
      WellFormed(EntryRecord(e)) && Apply(keys, st, EntryRecord(e)) == Some(Extended(st, e))
  {
  }

  /** The checkpoint of the last entry, signed. */
  function NewCheckpoint(st: State, suite: U16, clock: U64, signature: seq<Byte>): (c: Checkpoint)
    requires 0 < |st.entries| <= MAX_ENTRIES
  {
    Checkpoint(suite, |st.entries| - 1, st.chainHead, clock, signature)
  }

  lemma {:induction false} EmptyIsChained(keys: Keys)
    ensures ChainedState(keys, EMPTY)
  {
  }

  lemma {:induction false} SignatureIsNotSigned(c: Checkpoint, signature: seq<Byte>)
    ensures SignedBytes(c.(signature := signature)) == SignedBytes(c)
    ensures SuiteSignedBytes(c.(signature := signature)) == SuiteSignedBytes(c)
  {
  }

  lemma {:induction false} CheckpointIsReplayed(keys: Keys, st: State, r: Record)
    requires 0 < |st.entries| && ChainedState(keys, st)
    requires st.lastCheckpoint.Some? ==> st.lastCheckpoint.value < |st.entries|
    requires WrittenCheckpoint(r) && Verifies(keys, r)
    requires r.checkpoint.index == |st.entries| - 1 && r.checkpoint.hash == st.chainHead
    ensures Apply(keys, st, r) == Some(st.(lastCheckpoint := Some(|st.entries| - 1)))
  {
  }

  // ----- tracked states -----

  /** The state each trade was left in by a sequence of entries. */
  function LatestStates(es: seq<Entry>): (m: map<TradeId, U8>)
  {
    if es == [] then map[]
    else LatestStates(es[..|es| - 1])[es[|es| - 1].fields.tradeId := es[|es| - 1].fields.localState]
  }

  predicate IsLatest(es: seq<Entry>, trade: TradeId, i: nat)
  {
    && i < |es| && es[i].fields.tradeId == trade
    && forall j :: i < j < |es| ==> es[j].fields.tradeId != trade
  }

  lemma {:induction false} LatestIsTracked(es: seq<Entry>, trade: TradeId, i: nat)
    requires IsLatest(es, trade, i)
    ensures trade in LatestStates(es) && LatestStates(es)[trade] == es[i].fields.localState
  {
    if i < |es| - 1 {
      LatestIsTracked(es[..|es| - 1], trade, i);
    }
  }

  lemma {:induction false} AbsentIsUntracked(es: seq<Entry>, trade: TradeId)
    requires forall j :: 0 <= j < |es| ==> es[j].fields.tradeId != trade
    ensures trade !in LatestStates(es)
  {
    if es != [] {
      AbsentIsUntracked(es[..|es| - 1], trade);
    }
  }

  /** Replay rebuilds the per-trade states that the entries themselves determine. */
  lemma {:induction false} StatesAreTracked(keys: Keys, st: State, rs: seq<Record>)
    requires AllWellFormed(rs) && ApplyAll(keys, st, rs).Some? && st.lastStates == LatestStates(st.entries)
    ensures ApplyAll(keys, st, rs).value.lastStates == LatestStates(ApplyAll(keys, st, rs).value.entries)
    decreases |rs|
  {
    if rs != [] {
      var t := Apply(keys, st, rs[0]).value;
      if rs[0].EntryRecord? {
        assert t.entries[..|t.entries| - 1] == st.entries;
      }
      StatesAreTracked(keys, t, rs[1..]);
    }
  }

  type Ed25519Signature = s: seq<Byte> | |s| == 64 witness BigEndian(0, 64)
  type MlDsa65Signature = s: seq<Byte> | |s| == 3309 witness BigEndian(0, 3309)

  class Journal {
    const keys: Keys
    var log: seq<Byte>
    var head: Option<seq<Byte>>
    var entries: seq<Entry>
    var chainHead: Digest
    var lastCheckpointIndex: nat
    var hasCheckpoint: bool
    var lastStates: map<TradeId, U8>
    ghost var records: seq<Record>

    function Current(): (st: State)
      reads this
    {
      State(entries, chainHead, if hasCheckpoint then Some(lastCheckpointIndex) else None, lastStates)
    }

    /** The two files hold this journal: reopening them now would rebuild exactly the state in memory. */
    ghost predicate Valid()
      reads this
    {
      && Holds(keys, Disk(log, head), records)
      && ApplyAll(keys, EMPTY, records) == Some(Current())
    }

    lemma {:induction false} ReopensAsIs()
      requires Valid()
      ensures Open(keys, log, head) == Opened(None, Current(), log)
    {
      HoldsOpens(keys, Disk(log, head), records);
    }

    constructor (keys: Keys, log: seq<Byte>, head: Option<seq<Byte>>, st: State, ghost records: seq<Record>)
      requires Holds(keys, Disk(log, head), records) && ApplyAll(keys, EMPTY, records) == Some(st)
      ensures Valid() && this.keys == keys && this.log == log && this.head == head && Current() == st
    {
      this.keys, this.log, this.head := keys, log, head;
      entries, chainHead, lastStates := st.entries, st.chainHead, st.lastStates;
      hasCheckpoint := st.lastCheckpoint.Some?;
      lastCheckpointIndex := if st.lastCheckpoint.Some? then st.lastCheckpoint.value else 0;
      this.records := records;
    }

    /** Replays the log and checks the head file; the log left on disk has its torn tail cut off. */
    static method OpenFiles(keys: Keys, log: seq<Byte>, head: Option<seq<Byte>>)
      returns (fault: Option<Fault>, journal: Journal?, left: seq<Byte>)
      ensures fault == Open(keys, log, head).fault && left == Open(keys, log, head).log
      ensures fault.Some? <==> journal == null
      ensures journal != null ==>
        && fresh(journal) && journal.Valid() && journal.keys == keys && journal.log == left && journal.head == head
        && journal.Current() == Open(keys, log, head).state
    {
      var f, st, complete := ReplayLog(keys, log);
      if f.Some? {
        return f, null, log;
      }
      left := log[..complete];
      fault := CheckHead(keys, st, head);
      if fault.Some? {
        return fault, null, left;
      }
      ghost var rs := ReplayedIsEncoded(keys, EMPTY, log);
      journal := new Journal(keys, left, head, st, rs);
    }

    /** The replay loop of open. */
    static method ReplayLog(keys: Keys, raw: seq<Byte>) returns (fault: Option<Fault>, st: State, complete: nat)
      ensures fault == Replay(keys, EMPTY, raw).fault
      ensures fault.None? ==> Scan(fault, st, complete) == Replay(keys, EMPTY, raw)
    {
      hide Replay, Apply, ParseBody, WellFormed, FromBigEndian, Resumed;
      st, complete := EMPTY, 0;
      var pos := 0;
      ResumeStart(keys, raw);
      while pos < |raw|
        invariant 0 <= pos == complete <= |raw|
        invariant Resumed(keys, raw, st, pos)
      {
        if |raw| - pos < 5 {
          ResumeEnd(keys, raw, st, pos);
          return None, st, complete;
        }
        var length := FromBigEndian(raw[pos + 1..pos + 5]);
        ResumeStep(keys, raw, st, pos, length);
        if length > MAX_RECORD_BODY_LENGTH {
          return Some(FormatError), st, complete;
        }
        if |raw| - pos - 5 < length {
          return None, st, complete;
        }
        var record := ParseBody(raw[pos], raw[pos + 5..pos + 5 + length]);
        if record.None? {
          return Some(FormatError), st, complete;
        }
        var accepted, next := ReplayRecordInto(keys, st, record.value);
        if !accepted {
          return Some(TamperError), st, complete;
        }
        st := next;
        pos := pos + 5 + length;
        complete := pos;
      }
      ResumeEnd(keys, raw, st, pos);
      return None, st, complete;
    }

    /** What replay still has to do from a position gives what it would give from the start. */
    static ghost predicate Resumed(keys: Keys, raw: seq<Byte>, st: State, pos: nat)
    {
      && pos <= |raw|
      && var rest := Replay(keys, st, raw[pos..]);
         Replay(keys, EMPTY, raw) == rest.(length := pos + rest.length)
    }

    static lemma {:induction false} ResumeStart(keys: Keys, raw: seq<Byte>)
      ensures Resumed(keys, raw, EMPTY, 0)
    {
      hide Replay;
      assert raw[0..] == raw;
    }

    static lemma {:induction false} ResumeEnd(keys: Keys, raw: seq<Byte>, st: State, pos: nat)
      requires Resumed(keys, raw, st, pos) && |raw| - pos < 5
      ensures Replay(keys, EMPTY, raw) == Scan(None, st, pos)
    {
    }

    /** What replay gives, case by case, from what stands at the position it has come to. */
    static lemma {:induction false} ResumeStep(keys: Keys, raw: seq<Byte>, st: State, pos: nat, length: nat)
      requires pos <= |raw| && Resumed(keys, raw, st, pos) && |raw| - pos >= 5
      requires length == FromBigEndian(raw[pos + 1..pos + 5])
      ensures length > MAX_RECORD_BODY_LENGTH ==> Replay(keys, EMPTY, raw).fault == Some(FormatError)
      ensures length <= MAX_RECORD_BODY_LENGTH && |raw| - pos - 5 < length ==> Replay(keys, EMPTY, raw) == Scan(None, st, pos)
      ensures length <= MAX_RECORD_BODY_LENGTH && length <= |raw| - pos - 5 ==>
        var record := ParseBody(raw[pos], raw[pos + 5..pos + 5 + length]);
        if record.None? then Replay(keys, EMPTY, raw).fault == Some(FormatError)
        else
          && WellFormed(record.value)
          && var next := Apply(keys, st, record.value);
             if next.None? then Replay(keys, EMPTY, raw).fault == Some(TamperError)
             else Resumed(keys, raw, next.value, pos + 5 + length)
    {
      hide Apply, ParseBody, WellFormed, FromBigEndian;
      var rest := raw[pos..];
      assert rest[0] == raw[pos] && rest[1..5] == raw[pos + 1..pos + 5];
      if length <= |raw| - pos - 5 {
        assert rest[5..5 + length] == raw[pos + 5..pos + 5 + length];
        assert rest[5 + length..] == raw[pos + 5 + length..];
        if ParseBody(raw[pos], raw[pos + 5..pos + 5 + length]).Some? {
          EncodeParsed(raw[pos], raw[pos + 5..pos + 5 + length]);
        }
      }
    }

    /** The checks replay makes on one parsed record. */
    static method ReplayRecordInto(keys: Keys, st: State, r: Record) returns (accepted: bool, next: State)
      requires WellFormed(r)
      ensures accepted == Apply(keys, st, r).Some?
      ensures next == if accepted then Apply(keys, st, r).value else st
    {
      next := st;
      match r
      case EntryRecord(e) =>
        if e.index != |st.entries| || e.previous != st.chainHead
           || keys.digest(CanonicalEntryBytes(e.index, e.fields) + e.previous) != e.hash {
          return false, st;
        }
        if e.fields.tradeId !in st.lastStates {
          if e.fields.localState != WAITING_FOR_PEER {
            return false, st;
          }
        } else if !ValidTransition(st.lastStates[e.fields.tradeId], e.fields.localState) {
          return false, st;
        }
        next := State(st.entries + [e], e.hash, st.lastCheckpoint, st.lastStates[e.fields.tradeId := e.fields.localState]);
        return true, next;
      case _ =>
        var c := r.checkpoint;
        if c.index >= |st.entries| || st.entries[c.index].hash != c.hash
           || (st.lastCheckpoint.Some? && c.index < st.lastCheckpoint.value) || !Verifies(keys, r) {
          return false, st;
        }
        next := st.(lastCheckpoint := Some(c.index));
        return true, next;
    }

    method Append(f: Fields, clock: U64) returns (e: Option<Entry>)
      requires Valid() && |entries| < MAX_ENTRIES
      modifies this
      ensures Valid() && head == old(head)
      ensures e == NewEntry(keys, old(Current()), f, clock)
      ensures e.None? ==> Current() == old(Current()) && log == old(log) && records == old(records)
      ensures e.Some? ==>
        && e.value.index == |old(entries)| && e.value.previous == old(chainHead)
        && e.value.fields == (if f.timestamp == 0 then f.(timestamp := clock) else f)
        && Current() == Extended(old(Current()), e.value)
        && WellFormed(EntryRecord(e.value)) && log == old(log) + Frame(EntryRecord(e.value))
        && records == old(records) + [EntryRecord(e.value)]
    {
      hide Apply, ApplyAll, Frame, EncodeLog, CheckHead, CanonicalEntryBytes, ValidTransition, Holds;
      var fields := if f.timestamp == 0 then f.(timestamp := clock) else f;
      if fields.tradeId !in lastStates {
        if fields.localState != WAITING_FOR_PEER {
          return None;
        }
      } else if !ValidTransition(lastStates[fields.tradeId], fields.localState) {
        return None;
      }
      if |fields.mediatorId| > MAX_MEDIATOR_ID_LENGTH {
        return None;
      }
      ghost var st := Current();
      var index := |entries|;
      var content := CanonicalEntryBytes(index, fields);
      var entry := Entry(index, fields, chainHead, keys.digest(content + chainHead));
      AppendIsReplayed(keys, st, f, clock);
      Extend(EntryRecord(entry));
      log := log + Frame(EntryRecord(entry));
      entries := entries + [entry];
      chainHead := entry.hash;
      lastStates := lastStates[fields.tradeId := fields.localState];
      records := records + [EntryRecord(entry)];
      return Some(entry);
    }

    /** Writing an accepted record to the log leaves the files holding one more record. */
    lemma {:induction false} Extend(r: Record)
      requires Valid() && Written(r) && Apply(keys, Current(), r).Some?
      ensures Holds(keys, Disk(log + Frame(r), head), records + [r])
      ensures ApplyAll(keys, EMPTY, records + [r]) == Apply(keys, Current(), r)
      ensures !r.EntryRecord? ==> Holds(keys, Disk(log + Frame(r), Some(EncodeHead(r.checkpoint))), records + [r])
    {
      hide Apply, WellFormed, CheckHead, Frame, EncodeHead, WrittenCheckpoint;
      ApplyAllConcat(keys, EMPTY, records, r);
      LastCheckpointExists(keys, records);
      ApplyGrows(keys, Current(), r);
      HeadStays(keys, Current(), Apply(keys, Current(), r).value, head);
      if !r.EntryRecord? {
        NewHeadAgrees(keys, Current(), r);
      }
    }

    lemma {:induction false} ExtendByCheckpoint(r: Record)
      requires Valid() && |entries| > 0 && WrittenCheckpoint(r) && Verifies(keys, r)
      requires r.checkpoint.index == |entries| - 1 && r.checkpoint.hash == chainHead
      ensures Holds(keys, Disk(log + Frame(r), Some(EncodeHead(r.checkpoint))), records + [r])
      ensures ApplyAll(keys, EMPTY, records + [r]) == Some(Current().(lastCheckpoint := Some(|entries| - 1)))
    {
      hide Apply, WellFormed, CheckHead, Frame, EncodeHead, Verifies, ChainedState;
      assert ChainedState(keys, EMPTY) by {
        EmptyIsChained(keys);
      }
      ReplayChains(keys, EMPTY, records);
      LastCheckpointExists(keys, records);
      CheckpointIsReplayed(keys, Current(), r);
      Extend(r);
    }

    /** The two files and the memory after a checkpoint has been written. */
    twostate predicate Checkpointed(r: Record)
      requires WrittenCheckpoint(r)
      reads this
    {
      && Current() == old(Current()).(lastCheckpoint := Some(r.checkpoint.index))
      && log == old(log) + Frame(r) && head == Some(EncodeHead(r.checkpoint))
      && records == old(records) + [r]
    }

    twostate predicate Untouched()
      reads this
    {
      Current() == old(Current()) && log == old(log) && head == old(head) && records == old(records)
    }

    /** checkpoint, refused on an empty journal. The signer is any whose signatures the journal's key verifies. */
    method WriteCheckpoint(sign: seq<Byte> -> Ed25519Signature, clock: U64) returns (accepted: bool)
      requires Valid() && |entries| <= MAX_ENTRIES
      requires forall m :: keys.edVerify(m, sign(m))
      modifies this
      ensures Valid() && accepted == (|old(entries)| > 0)
      ensures !accepted ==> Untouched()
      ensures accepted ==>
        var unsigned := NewCheckpoint(old(Current()), SUITE_ED25519, clock, []);
        Checkpointed(PlainCheckpoint(unsigned.(signature := sign(SignedBytes(unsigned)))))
    {
      hide Apply, ApplyAll, CheckHead, Frame, EncodeHead, SignedBytes, SuiteSignedBytes, EncodeLog;
      if |entries| == 0 {
        return false;
      }
      var c := Checkpoint(SUITE_ED25519, |entries| - 1, chainHead, clock, []);
      var signature := sign(SignedBytes(c));
      SignatureIsNotSigned(c, signature);
      c := c.(signature := signature);
      ExtendByCheckpoint(PlainCheckpoint(c));
      log := log + Frame(PlainCheckpoint(c));
      head := Some(EncodeHead(c));
      lastCheckpointIndex := c.index;
      hasCheckpoint := true;
      records := records + [PlainCheckpoint(c)];
      return true;
    }

    /** checkpoint_mldsa65. The record is written whether or not the journal was opened with the key that verifies it; the
        journal can be opened again exactly if it was. */
    method WriteCheckpointMlDsa65(sign: seq<Byte> -> MlDsa65Signature, clock: U64) returns (accepted: bool)
      requires Valid() && |entries| <= MAX_ENTRIES
      requires keys.mlVerify.Some? ==> forall m :: keys.mlVerify.value(m, sign(m))
      modifies this
      ensures accepted == (|old(entries)| > 0)
      ensures !accepted ==> Valid() && Untouched()
      ensures accepted ==>
        var unsigned := NewCheckpoint(old(Current()), SUITE_MLDSA65, clock, []);
        Checkpointed(SuiteCheckpoint(unsigned.(signature := sign(SuiteSignedBytes(unsigned)))))
      ensures accepted ==> (Valid() <==> keys.mlVerify.Some?)
      ensures accepted && keys.mlVerify.None? ==> Open(keys, log, head).fault == Some(TamperError)
    {
      hide Apply, ApplyAll, CheckHead, Frame, EncodeHead, SignedBytes, SuiteSignedBytes, EncodeLog, Open;
      if |entries| == 0 {
        return false;
      }
      var c := Checkpoint(SUITE_MLDSA65, |entries| - 1, chainHead, clock, []);
      var signature := sign(SuiteSignedBytes(c));
      SignatureIsNotSigned(c, signature);
      c := c.(signature := signature);
      if keys.mlVerify.Some? {
        ExtendByCheckpoint(SuiteCheckpoint(c));
      } else {
        LockOut(SuiteCheckpoint(c));
      }
      log := log + Frame(SuiteCheckpoint(c));
      head := Some(EncodeHead(c));
      lastCheckpointIndex := c.index;
      hasCheckpoint := true;
      records := records + [SuiteCheckpoint(c)];
      return true;
    }

    /** A checkpoint that the journal's own keys do not verify makes its log unreadable to them. */
    lemma {:induction false} LockOut(r: Record)
      requires Valid() && !r.EntryRecord? && WellFormed(r) && !Verifies(keys, r)
      ensures AllWellFormed(records + [r]) && ApplyAll(keys, EMPTY, records + [r]).None?
      ensures forall head': Option<seq<Byte>> :: Open(keys, log + Frame(r), head').fault == Some(TamperError)
    {
      hide Replay, Frame, CheckHead, WellFormed, ApplyAll, EncodeLog;
      ApplyAllConcat(keys, EMPTY, records, r);
      ReplayAfter(keys, EMPTY, records, Frame(r));
      ReplayRefuses(keys, Current(), r);
    }

    lemma {:induction false} TracksStates()
      requires Valid()
      ensures lastStates == LatestStates(entries)
    {
      hide CheckHead, Apply;
      StatesAreTracked(keys, EMPTY, records);
    }

    /** latest_for_trade: the last entry of a trade, which is the one its tracked state comes from. */
    method LatestForTrade(trade: TradeId) returns (e: Option<Entry>)
      requires Valid()
      ensures e.Some? <==> trade in lastStates
      ensures e.Some? ==> e.value.fields.localState == lastStates[trade]
      ensures e.Some? ==>
        exists i :: 0 <= i < |entries| && entries[i] == e.value && IsLatest(entries, trade, i)
    {
      hide Valid, Current, LatestStates, ApplyAll, Holds;
      TracksStates();
      var i := |entries|;
      while i > 0
        invariant 0 <= i <= |entries|
        invariant forall j :: i <= j < |entries| ==> entries[j].fields.tradeId != trade
      {
        i := i - 1;
        if entries[i].fields.tradeId == trade {
          LatestIsTracked(entries, trade, i);
          return Some(entries[i]);
        }
      }
      AbsentIsUntracked(entries, trade);
      return None;
    }
  }
}
