/** Opening a journal against its head file, and what survives a crash at any byte of any write. */
module JournalRecovery {
  import opened Outcomes
  import opened Bytes
  import opened JournalFormat
  import opened JournalReplay

  // ----- open -----

  /** The cross-check of the head file against a replayed log. */
  function CheckHead(keys: Keys, st: State, head: Option<seq<Byte>>): (fault: Option<Fault>)
  {
    match head
    case None => None
    case Some(raw) =>
      match DecodeHead(raw)
      case None => Some(FormatError)
      case Some(c) =>
        if !HeadVerifies(keys, c) then Some(TamperError)
        else if st.lastCheckpoint.None? || c.index > st.lastCheckpoint.value then Some(RollbackError)
        else if c.index < |st.entries| && st.entries[c.index].hash != c.hash then Some(TamperError)
        else None
  }

  datatype Opened = Opened(fault: Option<Fault>, state: State, log: seq<Byte>)

  /** What open reports, the state it rebuilds and the log it leaves behind: a torn tail is cut off before the head file
      is looked at. */
  function Open(keys: Keys, log: seq<Byte>, head: Option<seq<Byte>>): (r: Opened)
  {
    var scan := Replay(keys, EMPTY, log);
    if scan.fault.Some? then Opened(scan.fault, scan.state, log)
    else Opened(CheckHead(keys, scan.state, head), scan.state, log[..scan.length])
  }

  // ----- what a sequence of records leaves -----

  predicate HasCheckpointFrom(rs: seq<Record>, index: nat)
  {
    exists i :: 0 <= i < |rs| && !rs[i].EntryRecord? && rs[i].checkpoint.index >= index
  }

  /** A checkpoint in the log vouches for the entry it names. */
  predicate Vouched(keys: Keys, st: State, r: Record)
    requires !r.EntryRecord?
  {
    && r.checkpoint.index < |st.entries|
    && st.entries[r.checkpoint.index].hash == r.checkpoint.hash
    && st.lastCheckpoint.Some? && r.checkpoint.index <= st.lastCheckpoint.value
    && Verifies(keys, r)
  }

  /** The state only ever grows: entries are never dropped and the last checkpoint never moves back. */
  predicate Grows(st: State, t: State)
  {
    && st.entries <= t.entries
    && (st.lastCheckpoint.Some? ==> t.lastCheckpoint.Some? && st.lastCheckpoint.value <= t.lastCheckpoint.value)
  }

  lemma {:induction false} ApplyGrows(keys: Keys, st: State, r: Record)
    requires WellFormed(r) && Apply(keys, st, r).Some?
    ensures Grows(st, Apply(keys, st, r).value)
    ensures !r.EntryRecord? ==> Vouched(keys, Apply(keys, st, r).value, r)
    ensures
      var t := Apply(keys, st, r).value;
      t.lastCheckpoint == if r.EntryRecord? then st.lastCheckpoint else Some(r.checkpoint.index)
  {
  }

  lemma {:induction false} VouchedStays(keys: Keys, st: State, t: State, r: Record)
    requires !r.EntryRecord? && Vouched(keys, st, r) && Grows(st, t)
    ensures Vouched(keys, t, r)
  {
    assert t.entries[r.checkpoint.index] == st.entries[r.checkpoint.index];
  }

  lemma {:induction false} ApplyAllGrows(keys: Keys, st: State, rs: seq<Record>)
    requires AllWellFormed(rs) && ApplyAll(keys, st, rs).Some?
    ensures Grows(st, ApplyAll(keys, st, rs).value)
    ensures
      var t := ApplyAll(keys, st, rs).value;
      t.lastCheckpoint == st.lastCheckpoint || (t.lastCheckpoint.Some? && HasCheckpointFrom(rs, t.lastCheckpoint.value))
    decreases |rs|
  {
    hide Apply, WellFormed;
    if rs != [] {
      var next, t := Apply(keys, st, rs[0]).value, ApplyAll(keys, st, rs).value;
      ApplyGrows(keys, st, rs[0]);
      ApplyAllGrows(keys, next, rs[1..]);
      if t.lastCheckpoint != st.lastCheckpoint {
        if t.lastCheckpoint == next.lastCheckpoint {
          assert rs[0].checkpoint.index >= t.lastCheckpoint.value;
        } else {
          var i :| 0 <= i < |rs[1..]| && !rs[1..][i].EntryRecord? && rs[1..][i].checkpoint.index >= t.lastCheckpoint.value;
          assert rs[i + 1] == rs[1..][i];
        }
        assert HasCheckpointFrom(rs, t.lastCheckpoint.value);
      }
    }
  }

  lemma {:induction false} ApplyAllVouches(keys: Keys, st: State, rs: seq<Record>, i: nat)
    requires AllWellFormed(rs) && ApplyAll(keys, st, rs).Some? && i < |rs| && !rs[i].EntryRecord?
    ensures Vouched(keys, ApplyAll(keys, st, rs).value, rs[i])
    decreases |rs|
  {
    hide Apply, WellFormed, Vouched;
    var next := Apply(keys, st, rs[0]).value;
    if i == 0 {
      ApplyGrows(keys, st, rs[0]);
      ApplyAllGrows(keys, next, rs[1..]);
      VouchedStays(keys, next, ApplyAll(keys, st, rs).value, rs[0]);
    } else {
      ApplyAllVouches(keys, next, rs[1..], i - 1);
    }
  }

  lemma {:induction false} ApplyAllSplit(keys: Keys, st: State, rs: seq<Record>, k: nat)
    requires AllWellFormed(rs) && ApplyAll(keys, st, rs).Some? && k <= |rs|
    ensures ApplyAll(keys, st, rs[..k]).Some?
    ensures ApplyAll(keys, ApplyAll(keys, st, rs[..k]).value, rs[k..]) == ApplyAll(keys, st, rs)
    decreases |rs|
  {
    hide Apply, WellFormed;
    if k > 0 {
      assert rs[..k][1..] == rs[1..][..k - 1] && rs[k..] == rs[1..][k - 1..];
      ApplyAllSplit(keys, Apply(keys, st, rs[0]).value, rs[1..], k - 1);
    } else {
      assert rs[k..] == rs;
    }
  }

  // ----- rollback detection -----

  /** A checkpoint record in a form that checkpoint or checkpoint_mldsa65 writes, with its head file. */
  predicate WrittenCheckpoint(r: Record)
  {
    !r.EntryRecord? && WellFormed(r) && (r.SuiteCheckpoint? ==> r.checkpoint.suite == SUITE_MLDSA65)
  }

  /** Against the head file of any checkpoint the journal ever wrote, a log cut at any byte opens with exactly its whole
      records, or is reported as rolled back precisely when those hold no checkpoint as far along as the head's. */
  lemma {:induction false} RollbackExactly(keys: Keys, rs: seq<Record>, p: seq<Byte>, j: nat)
    requires AllWellFormed(rs) && ApplyAll(keys, EMPTY, rs).Some? && p <= EncodeLog(rs)
    requires j < |rs| && WrittenCheckpoint(rs[j])
    ensures
      var kept := rs[..Whole(rs, |p|)];
      var c := rs[j].checkpoint;
      && ApplyAll(keys, EMPTY, kept).Some?
      && Open(keys, p, Some(EncodeHead(c))) ==
         Opened(if HasCheckpointFrom(kept, c.index) then None else Some(RollbackError),
                ApplyAll(keys, EMPTY, kept).value, EncodeLog(kept))
  {
    hide Apply, WellFormed, Replay, EncodeHead, DecodeHead, Verifies, Vouched;
    var kept, c := rs[..Whole(rs, |p|)], rs[j].checkpoint;
    PrefixReplays(keys, EMPTY, rs, p);
    HeadAgrees(keys, rs, Whole(rs, |p|), j);
  }

  lemma {:induction false} HeadAgrees(keys: Keys, rs: seq<Record>, k: nat, j: nat)
    requires AllWellFormed(rs) && ApplyAll(keys, EMPTY, rs).Some? && k <= |rs| && j < |rs| && WrittenCheckpoint(rs[j])
    requires ApplyAll(keys, EMPTY, rs[..k]).Some?
    ensures
      CheckHead(keys, ApplyAll(keys, EMPTY, rs[..k]).value, Some(EncodeHead(rs[j].checkpoint)))
      == if HasCheckpointFrom(rs[..k], rs[j].checkpoint.index) then None else Some(RollbackError)
  {
    hide Apply, WellFormed, Replay, EncodeHead, DecodeHead;
    var c, kept := rs[j].checkpoint, rs[..k];
    var st, full := ApplyAll(keys, EMPTY, kept).value, ApplyAll(keys, EMPTY, rs).value;
    HeadSignature(keys, rs, j);
    ApplyAllVouches(keys, EMPTY, rs, j);
    ApplyAllSplit(keys, EMPTY, rs, k);
    ApplyAllGrows(keys, st, rs[k..]);
    ApplyAllGrows(keys, EMPTY, kept);
    assert st.entries <= full.entries;
    if c.index < |st.entries| {
      assert st.entries[c.index] == full.entries[c.index];
    }
    if HasCheckpointFrom(kept, c.index) {
      var i :| 0 <= i < |kept| && !kept[i].EntryRecord? && kept[i].checkpoint.index >= c.index;
      ApplyAllVouches(keys, EMPTY, kept, i);
    }
  }

  lemma {:induction false} HeadSignature(keys: Keys, rs: seq<Record>, j: nat)
    requires AllWellFormed(rs) && ApplyAll(keys, EMPTY, rs).Some? && j < |rs| && WrittenCheckpoint(rs[j])
    ensures DecodeHead(EncodeHead(rs[j].checkpoint)) == Some(rs[j].checkpoint) && HeadVerifies(keys, rs[j].checkpoint)
  {
    hide EncodeHead, DecodeHead, Apply;
    HeadRoundTrip(rs[j].checkpoint);
    ApplyAllVouches(keys, EMPTY, rs, j);
  }

  // ----- crashes -----

  datatype Disk = Disk(log: seq<Byte>, head: Option<seq<Byte>>)

  /** A disk on which a journal with these records is open: the log holds them and the head file agrees with them. */
  predicate Holds(keys: Keys, disk: Disk, rs: seq<Record>)
  {
    && AllWellFormed(rs)
    && disk.log == EncodeLog(rs)
    && ApplyAll(keys, EMPTY, rs).Some?
    && CheckHead(keys, ApplyAll(keys, EMPTY, rs).value, disk.head).None?
  }

  lemma {:induction false} HoldsOpens(keys: Keys, disk: Disk, rs: seq<Record>)
    requires Holds(keys, disk, rs)
    ensures Open(keys, disk.log, disk.head) == Opened(None, ApplyAll(keys, EMPTY, rs).value, disk.log)
  {
    LogReplays(keys, rs);
  }

  lemma {:induction false} HeadStays(keys: Keys, st: State, t: State, head: Option<seq<Byte>>)
    requires CheckHead(keys, st, head).None? && Grows(st, t)
    requires st.lastCheckpoint.Some? ==> st.lastCheckpoint.value < |st.entries|
    ensures CheckHead(keys, t, head).None?
  {
    if head.Some? {
      var c := DecodeHead(head.value).value;
      assert t.entries[c.index] == st.entries[c.index];
    }
  }

  lemma {:induction false} LastCheckpointExists(keys: Keys, rs: seq<Record>)
    requires AllWellFormed(rs) && ApplyAll(keys, EMPTY, rs).Some?
    ensures
      var st := ApplyAll(keys, EMPTY, rs).value;
      st.lastCheckpoint.Some? ==> st.lastCheckpoint.value < |st.entries|
  {
    hide Apply, WellFormed, Verifies;
    var st := ApplyAll(keys, EMPTY, rs).value;
    ApplyAllGrows(keys, EMPTY, rs);
    if st.lastCheckpoint.Some? {
      var i :| 0 <= i < |rs| && !rs[i].EntryRecord? && rs[i].checkpoint.index >= st.lastCheckpoint.value;
      ApplyAllVouches(keys, EMPTY, rs, i);
    }
  }

  /** A record that the live journal writes: an entry, or a checkpoint in one of its two forms. */
  predicate Written(r: Record)
  {
    WellFormed(r) && (r.EntryRecord? || WrittenCheckpoint(r))
  }

  /** One write to an open journal, cut short after some bytes of the log record, or between the record and the head file,
      or not at all. */
  datatype Life = Life(record: Record, written: nat, headReplaced: bool)

  predicate Finished(life: Life)
    requires WellFormed(life.record)
  {
    life.written >= |Frame(life.record)|
  }

  function Crash(disk: Disk, life: Life): (r: Disk)
    requires Written(life.record)
  {
    Disk(disk.log + (if Finished(life) then Frame(life.record) else Frame(life.record)[..life.written]),
         if Finished(life) && life.headReplaced && !life.record.EntryRecord?
         then Some(EncodeHead(life.record.checkpoint)) else disk.head)
  }

  /** The records that outlive a write. */
  function Surviving(rs: seq<Record>, life: Life): (r: seq<Record>)
    requires WellFormed(life.record)
  {
    if Finished(life) then rs + [life.record] else rs
  }

  lemma {:induction false} NewHeadAgrees(keys: Keys, st: State, r: Record)
    requires WrittenCheckpoint(r) && Apply(keys, st, r).Some?
    ensures CheckHead(keys, Apply(keys, st, r).value, Some(EncodeHead(r.checkpoint))).None?
  {
    hide EncodeHead, DecodeHead;
    HeadRoundTrip(r.checkpoint);
  }

  lemma {:induction false} PrefixOfNext(rs: seq<Record>, r: Record, n: nat)
    requires AllWellFormed(rs) && WellFormed(r) && AllWellFormed(rs + [r]) && n < |Frame(r)|
    ensures Whole(rs + [r], |EncodeLog(rs)| + n) == |rs|
    decreases |rs|
  {
    hide Frame, WellFormed;
    if rs == [] {
      assert rs + [r] == [r];
    } else {
      assert (rs + [r])[0] == rs[0] && (rs + [r])[1..] == rs[1..] + [r];
      PrefixOfNext(rs[1..], r, n);
    }
  }

  /** Whatever the crash point, the journal reopens without a fault, with the write in full or not at all, and the disk is
      again one that an open journal works on. */
  lemma {:induction false} CrashReopens(keys: Keys, disk: Disk, rs: seq<Record>, life: Life)
    requires Holds(keys, disk, rs) && Written(life.record)
    requires Apply(keys, ApplyAll(keys, EMPTY, rs).value, life.record).Some?
    ensures
      var after := Crash(disk, life);
      var reopened := Open(keys, after.log, after.head);
      && reopened.fault.None?
      && Holds(keys, Disk(reopened.log, after.head), Surviving(rs, life))
      && Some(reopened.state) == ApplyAll(keys, EMPTY, Surviving(rs, life))
  {
    hide Apply, WellFormed, Replay, Frame, EncodeHead, CheckHead, WrittenCheckpoint;
    var r, after := life.record, Crash(disk, life);
    var st := ApplyAll(keys, EMPTY, rs).value;
    ApplyAllConcat(keys, EMPTY, rs, r);
    if Finished(life) {
      LastCheckpointExists(keys, rs);
      ApplyGrows(keys, st, r);
      HeadStays(keys, st, Apply(keys, st, r).value, disk.head);
      if !r.EntryRecord? {
        NewHeadAgrees(keys, st, r);
      }
      assert Holds(keys, after, rs + [r]);
      HoldsOpens(keys, after, rs + [r]);
    } else {
      PrefixReplays(keys, EMPTY, rs + [r], after.log);
      PrefixOfNext(rs, r, life.written);
      assert (rs + [r])[..|rs|] == rs;
      assert after.log[..|EncodeLog(rs)|] == EncodeLog(rs);
    }
  }

  /** Each write is one the live journal would make on what it reopened with. */
  predicate LiveRun(keys: Keys, rs: seq<Record>, lives: seq<Life>)
    requires AllWellFormed(rs)
    decreases |lives|
  {
    lives == [] ||
    (&& Written(lives[0].record)
     && ApplyAll(keys, EMPTY, rs).Some?
     && Apply(keys, ApplyAll(keys, EMPTY, rs).value, lives[0].record).Some?
     && LiveRun(keys, Surviving(rs, lives[0]), lives[1..]))
  }

  function Survivors(rs: seq<Record>, lives: seq<Life>): (r: seq<Record>)
    requires forall i :: 0 <= i < |lives| ==> WellFormed(lives[i].record)
    decreases |lives|
  {
    if lives == [] then rs else Survivors(Surviving(rs, lives[0]), lives[1..])
  }

  /** Write, crash, reopen, over and over: the disk after each reopening, or nothing once open reports a fault. */
  function Outlive(keys: Keys, disk: Disk, lives: seq<Life>): (r: Option<Disk>)
    requires forall i :: 0 <= i < |lives| ==> Written(lives[i].record)
    decreases |lives|
  {
    if lives == [] then Some(disk)
    else
      var after := Crash(disk, lives[0]);
      var reopened := Open(keys, after.log, after.head);
      if reopened.fault.Some? then None else Outlive(keys, Disk(reopened.log, after.head), lives[1..])
  }

  lemma {:induction false} LiveRunIsWritten(keys: Keys, rs: seq<Record>, lives: seq<Life>)
    requires AllWellFormed(rs) && LiveRun(keys, rs, lives)
    ensures forall i :: 0 <= i < |lives| ==> Written(lives[i].record)
    decreases |lives|
  {
    hide Apply, WellFormed, Frame;
    if lives != [] {
      LiveRunIsWritten(keys, Surviving(rs, lives[0]), lives[1..]);
      assert forall i :: 1 <= i < |lives| ==> lives[i] == lives[1..][i - 1];
    }
  }

  /** Over every history of writes, each cut at any point and followed by a reopening, the journal never reports a fault
      and always holds exactly the writes that reached the disk in full. */
  lemma {:induction false} EveryHistoryReopens(keys: Keys, disk: Disk, rs: seq<Record>, lives: seq<Life>)
    requires Holds(keys, disk, rs) && LiveRun(keys, rs, lives)
    ensures forall i :: 0 <= i < |lives| ==> Written(lives[i].record)
    ensures Outlive(keys, disk, lives).Some? && Holds(keys, Outlive(keys, disk, lives).value, Survivors(rs, lives))
    decreases |lives|
  {
    hide Apply, WellFormed, Replay, Frame, EncodeHead, CheckHead, WrittenCheckpoint, Open;
    LiveRunIsWritten(keys, rs, lives);
    if lives != [] {
      CrashReopens(keys, disk, rs, lives[0]);
      var after := Crash(disk, lives[0]);
      EveryHistoryReopens(keys, Disk(Open(keys, after.log, after.head).log, after.head), Surviving(rs, lives[0]), lives[1..]);
    }
  }
}
