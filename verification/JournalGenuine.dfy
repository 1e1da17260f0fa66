/** What a checkpoint signature vouches for.  The bytes that are signed determine the checkpoint, so if the keys verify only
    what one journal signed, a log that opens cannot hold a checkpoint that journal did not make, nor other entries under it. */
module JournalGenuine {
  import opened Outcomes
  import opened Bytes
  import opened JournalFormat
  import opened JournalReplay
  import opened JournalRecovery
  import opened JournalBinding

  // ----- the signed bytes determine the checkpoint -----

  lemma {:induction false} NumberInjective(v: nat, w: nat, width: nat)
    requires v < Pow256(width) && w < Pow256(width) && BigEndian(v, width) == BigEndian(w, width)
    ensures v == w
  {
    NumberRoundTrip(v, width);
    NumberRoundTrip(w, width);
  }

  /** Equal concatenations with parts of equal length have equal parts. */
  lemma {:induction false} PartsEqual(a: seq<Byte>, b: seq<Byte>, a': seq<Byte>, b': seq<Byte>)
    requires a + b == a' + b' && |a| == |a'|
    ensures a == a' && b == b'
  {
    assert a == (a + b)[..|a|] == (a' + b')[..|a'|] == a';
    assert b == (a + b)[|a|..] == (a' + b')[|a'|..] == b';
  }

  /** The part that both forms share: index, hash and time. */
  function Vouchee(c: Checkpoint): (s: seq<Byte>)
  {
    BigEndian(c.index, 8) + (c.hash + BigEndian(c.signedAt, 8))
  }

  lemma {:induction false} VoucheeInjective(c: Checkpoint, d: Checkpoint)
    requires Vouchee(c) == Vouchee(d)
    ensures c.index == d.index && c.hash == d.hash && c.signedAt == d.signedAt
  {
    hide BigEndian;
    Widths();
    PartsEqual(BigEndian(c.index, 8), c.hash + BigEndian(c.signedAt, 8), BigEndian(d.index, 8), d.hash + BigEndian(d.signedAt, 8));
    PartsEqual(c.hash, BigEndian(c.signedAt, 8), d.hash, BigEndian(d.signedAt, 8));
    NumberInjective(c.index, d.index, 8);
    NumberInjective(c.signedAt, d.signedAt, 8);
  }

  lemma {:induction false} SignedBytesInjective(c: Checkpoint, d: Checkpoint)
    requires SignedBytes(c) == SignedBytes(d)
    ensures c.index == d.index && c.hash == d.hash && c.signedAt == d.signedAt
  {
    hide BigEndian, Tagged;
    var tag := Tagged("tradep2p-journal-checkpoint-v1");
    assert SignedBytes(c) == tag + Vouchee(c) && SignedBytes(d) == tag + Vouchee(d);
    PartsEqual(tag, Vouchee(c), tag, Vouchee(d));
    VoucheeInjective(c, d);
  }

  lemma {:induction false} SuiteSignedBytesInjective(c: Checkpoint, d: Checkpoint)
    requires SuiteSignedBytes(c) == SuiteSignedBytes(d)
    ensures c.suite == d.suite && c.index == d.index && c.hash == d.hash && c.signedAt == d.signedAt
  {
    hide BigEndian, Tagged;
    var tag := Tagged("tradep2p-journal-checkpoint-suite-v1");
    assert SuiteSignedBytes(c) == tag + (BigEndian(c.suite, 2) + Vouchee(c));
    assert SuiteSignedBytes(d) == tag + (BigEndian(d.suite, 2) + Vouchee(d));
    PartsEqual(tag, BigEndian(c.suite, 2) + Vouchee(c), tag, BigEndian(d.suite, 2) + Vouchee(d));
    PartsEqual(BigEndian(c.suite, 2), Vouchee(c), BigEndian(d.suite, 2), Vouchee(d));
    Widths();
    NumberInjective(c.suite, d.suite, 2);
    VoucheeInjective(c, d);
  }

  /** The two forms are never signed as the same bytes. */
  lemma {:induction false} FormsAreDistinct(c: Checkpoint, d: Checkpoint)
    ensures SignedBytes(c) != SuiteSignedBytes(d)
  {
    hide BigEndian, Ascii;
    Widths();
    assert SignedBytes(c)[..2] == BigEndian(30, 2) && SuiteSignedBytes(d)[..2] == BigEndian(36, 2);
    NumberRoundTrip(30, 2);
    NumberRoundTrip(36, 2);
  }

  // ----- what a journal signed -----

  function Message(r: Record): (m: seq<Byte>)
    requires !r.EntryRecord?
  {
    if r.PlainCheckpoint? then SignedBytes(r.checkpoint) else SuiteSignedBytes(r.checkpoint)
  }

  ghost predicate SignedIn(rs: seq<Record>, m: seq<Byte>)
  {
    exists j :: 0 <= j < |rs| && !rs[j].EntryRecord? && Message(rs[j]) == m
  }

  /** Nobody else has signed under these keys: whatever verifies was signed for a checkpoint of this journal. */
  ghost predicate Unforged(keys: Keys, rs: seq<Record>)
  {
    && (forall m, s :: keys.edVerify(m, s) ==> SignedIn(rs, m))
    && (keys.mlVerify.Some? ==> forall m, s :: keys.mlVerify.value(m, s) ==> SignedIn(rs, m))
  }

  /** The journal made a checkpoint of this form with this suite, index, hash and time. */
  ghost predicate MadeAt(rs: seq<Record>, r: Record, j: nat)
  {
    && j < |rs| && !r.EntryRecord? && !rs[j].EntryRecord?
    && r.PlainCheckpoint? == rs[j].PlainCheckpoint?
    && rs[j].checkpoint.(signature := r.checkpoint.signature) == r.checkpoint
  }

  /** A checkpoint record that verifies is one the journal made. */
  lemma {:induction false} VerifiedWasMade(keys: Keys, rs: seq<Record>, r: Record) returns (j: nat)
    requires AllWellFormed(rs) && Unforged(keys, rs) && WellFormed(r) && !r.EntryRecord? && Verifies(keys, r)
    ensures MadeAt(rs, r, j)
  {
    hide SignedBytes, SuiteSignedBytes;
    assert SignedIn(rs, Message(r));
    j :| 0 <= j < |rs| && !rs[j].EntryRecord? && Message(rs[j]) == Message(r);
    SameMessage(rs[j], r);
  }

  lemma {:induction false} SameMessage(a: Record, b: Record)
    requires !a.EntryRecord? && !b.EntryRecord? && WellFormed(a) && WellFormed(b) && Message(a) == Message(b)
    ensures a.PlainCheckpoint? == b.PlainCheckpoint?
    ensures a.checkpoint.(signature := b.checkpoint.signature) == b.checkpoint
  {
    hide SignedBytes, SuiteSignedBytes;
    if a.PlainCheckpoint? {
      if b.PlainCheckpoint? {
        SignedBytesInjective(a.checkpoint, b.checkpoint);
      } else {
        FormsAreDistinct(a.checkpoint, b.checkpoint);
      }
    } else {
      if b.PlainCheckpoint? {
        FormsAreDistinct(b.checkpoint, a.checkpoint);
      } else {
        SuiteSignedBytesInjective(a.checkpoint, b.checkpoint);
      }
    }
  }

  /** So is the checkpoint of a head file that verifies. */
  lemma {:induction false} HeadWasMade(keys: Keys, rs: seq<Record>, c: Checkpoint) returns (j: nat)
    requires AllWellFormed(rs) && Unforged(keys, rs) && HeadVerifies(keys, c)
    ensures j < |rs| && !rs[j].EntryRecord?
    ensures rs[j].checkpoint.index == c.index && rs[j].checkpoint.hash == c.hash && rs[j].checkpoint.signedAt == c.signedAt
  {
    hide SignedBytes, SuiteSignedBytes;
    var suite := c.suite == SUITE_MLDSA65;
    var m := if suite then SuiteSignedBytes(c) else SignedBytes(c);
    assert SignedIn(rs, m);
    j :| 0 <= j < |rs| && !rs[j].EntryRecord? && Message(rs[j]) == m;
    if rs[j].PlainCheckpoint? {
      if suite {
        FormsAreDistinct(rs[j].checkpoint, c);
      } else {
        SignedBytesInjective(rs[j].checkpoint, c);
      }
    } else {
      if suite {
        SuiteSignedBytesInjective(rs[j].checkpoint, c);
      } else {
        FormsAreDistinct(c, rs[j].checkpoint);
      }
    }
  }

  // ----- a log that opens -----

  /** Every checkpoint record of a log that replays is one the journal made. */
  lemma {:induction false} EveryCheckpointWasMade(keys: Keys, rs: seq<Record>, log: seq<Byte>) returns (found: seq<Record>)
    requires AllWellFormed(rs) && Unforged(keys, rs) && Replay(keys, EMPTY, log).fault.None?
    ensures AllWellFormed(found) && EncodeLog(found) <= log && ApplyAll(keys, EMPTY, found) == Some(Replay(keys, EMPTY, log).state)
    ensures forall i :: 0 <= i < |found| && !found[i].EntryRecord? ==> exists j :: MadeAt(rs, found[i], j)
  {
    hide Replay, Apply, WellFormed, Verifies, Frame, MadeAt, Unforged;
    found := ReplayedIsEncoded(keys, EMPTY, log);
    forall i | 0 <= i < |found| && !found[i].EntryRecord? ensures exists j :: MadeAt(rs, found[i], j) {
      ApplyAllVouches(keys, EMPTY, found, i);
      var j := VerifiedWasMade(keys, rs, found[i]);
    }
  }

  /** A journal that opens with a checkpoint holds, up to the last checkpoint, exactly the entries of the journal whose keys
      it was opened with, or a collision of the hash can be read off the two; with a head file that is at least as far as
      the head's checkpoint, which that journal made too. */
  lemma {:induction false} OpenedIsGenuine(keys: Keys, rs: seq<Record>, log: seq<Byte>, head: Option<seq<Byte>>)
    returns (collision: Option<nat>)
    requires AllWellFormed(rs) && ApplyAll(keys, EMPTY, rs).Some? && Unforged(keys, rs)
    requires Open(keys, log, head).fault.None?
    ensures
      var es, st := ApplyAll(keys, EMPTY, rs).value.entries, Open(keys, log, head).state;
      st.lastCheckpoint.Some? ==>
        var n := st.lastCheckpoint.value + 1;
        && n <= |es| && n <= |st.entries|
        && (collision.None? ==> st.entries[..n] == es[..n])
        && (collision.Some? ==> CollisionAt(keys, st.entries, es, collision.value))
    ensures
      var st := Open(keys, log, head).state;
      head.Some? ==>
        && DecodeHead(head.value).Some? && st.lastCheckpoint.Some?
        && var c := DecodeHead(head.value).value;
           && c.index <= st.lastCheckpoint.value && c.index < |st.entries| && st.entries[c.index].hash == c.hash
           && exists j :: 0 <= j < |rs| && !rs[j].EntryRecord? && rs[j].checkpoint.index == c.index && rs[j].checkpoint.hash == c.hash
  {
    hide Replay, Apply, WellFormed, DecodeHead, HeadVerifies, CollisionAt, Unforged;
    var st := Open(keys, log, head).state;
    CheckpointWithinEntries(keys, log);
    collision := None;
    if st.lastCheckpoint.Some? {
      collision := ReplayedIsGenuine(keys, rs, log);
    }
    if head.Some? {
      var j := HeadWasMade(keys, rs, DecodeHead(head.value).value);
    }
  }

  /** The last checkpoint of a log that replays is one of its entries. */
  lemma {:induction false} CheckpointWithinEntries(keys: Keys, log: seq<Byte>)
    requires Replay(keys, EMPTY, log).fault.None?
    ensures
      var st := Replay(keys, EMPTY, log).state;
      st.lastCheckpoint.Some? ==> st.lastCheckpoint.value < |st.entries|
  {
    hide Replay, Apply, WellFormed, Frame;
    var st := Replay(keys, EMPTY, log).state;
    var found := ReplayedIsEncoded(keys, EMPTY, log);
    ApplyAllGrows(keys, EMPTY, found);
    if st.lastCheckpoint.Some? {
      var i :| 0 <= i < |found| && !found[i].EntryRecord? && found[i].checkpoint.index >= st.lastCheckpoint.value;
      ApplyAllVouches(keys, EMPTY, found, i);
    }
  }

  lemma {:induction false} ReplayedIsGenuine(keys: Keys, rs: seq<Record>, log: seq<Byte>) returns (collision: Option<nat>)
    requires AllWellFormed(rs) && ApplyAll(keys, EMPTY, rs).Some? && Unforged(keys, rs)
    requires Replay(keys, EMPTY, log).fault.None? && Replay(keys, EMPTY, log).state.lastCheckpoint.Some?
    ensures
      var es, st := ApplyAll(keys, EMPTY, rs).value.entries, Replay(keys, EMPTY, log).state;
      var n := st.lastCheckpoint.value + 1;
      && n <= |es| && n <= |st.entries|
      && (collision.None? ==> st.entries[..n] == es[..n])
      && (collision.Some? ==> CollisionAt(keys, st.entries, es, collision.value))
  {
    hide Replay, Apply, WellFormed, CollisionAt, Unforged, Frame;
    var st := Replay(keys, EMPTY, log).state;
    var found := EveryCheckpointWasMade(keys, rs, log);
    ApplyAllGrows(keys, EMPTY, found);
    var i :| 0 <= i < |found| && !found[i].EntryRecord? && found[i].checkpoint.index >= st.lastCheckpoint.value;
    ApplyAllVouches(keys, EMPTY, found, i);
    assert found[i].checkpoint.index == st.lastCheckpoint.value;
    var j :| MadeAt(rs, found[i], j);
    collision := CheckpointBinds(keys, found, rs, i, j);
  }
}
