/** The hash chain binds the whole history: two journals that agree on a chain head agree on every entry before it, or
    their entries exhibit a collision of the hash. */
module JournalBinding {
  import opened Outcomes
  import opened Bytes
  import opened JournalFormat
  import opened JournalReplay
  import opened JournalRecovery

  /** The chain head after the first n entries. */
  function HeadAfter(es: seq<Entry>, n: nat): (h: Digest)
    requires n <= |es|
  {
    if n == 0 then GENESIS else es[n - 1].hash
  }

  predicate Linked(keys: Keys, es: seq<Entry>, i: nat)
    requires i < |es|
  {
    && |es[i].fields.mediatorId| <= MAX_MEDIATOR_ID_LENGTH
    && es[i].index == i
    && es[i].previous == HeadAfter(es, i)
    && es[i].hash == EntryHash(keys, es[i].index, es[i].fields, es[i].previous)
  }

  predicate Chained(keys: Keys, es: seq<Entry>)
  {
    forall i :: 0 <= i < |es| ==> Linked(keys, es, i)
  }

  predicate ChainedState(keys: Keys, st: State)
  {
    Chained(keys, st.entries) && st.chainHead == HeadAfter(st.entries, |st.entries|)
  }

  lemma {:induction false} ApplyChains(keys: Keys, st: State, r: Record)
    requires WellFormed(r) && ChainedState(keys, st) && Apply(keys, st, r).Some?
    ensures ChainedState(keys, Apply(keys, st, r).value)
  {
    var t := Apply(keys, st, r).value;
    forall i | 0 <= i < |t.entries| ensures Linked(keys, t.entries, i) {
      if i < |st.entries| {
        assert Linked(keys, st.entries, i);
      }
    }
  }

  lemma {:induction false} ReplayChains(keys: Keys, st: State, rs: seq<Record>)
    requires AllWellFormed(rs) && ChainedState(keys, st) && ApplyAll(keys, st, rs).Some?
    ensures ChainedState(keys, ApplyAll(keys, st, rs).value)
    decreases |rs|
  {
    hide Apply, WellFormed, ChainedState;
    if rs != [] {
      ApplyChains(keys, st, rs[0]);
      ReplayChains(keys, Apply(keys, st, rs[0]).value, rs[1..]);
    }
  }

  function HashInput(e: Entry): (s: seq<Byte>)
    requires |e.fields.mediatorId| <= MAX_MEDIATOR_ID_LENGTH
  {
    CanonicalEntryBytes(e.index, e.fields) + e.previous
  }

  lemma {:induction false} HashInputInjective(e: Entry, f: Entry)
    requires |e.fields.mediatorId| <= MAX_MEDIATOR_ID_LENGTH && |f.fields.mediatorId| <= MAX_MEDIATOR_ID_LENGTH
    requires HashInput(e) == HashInput(f)
    ensures e.index == f.index && e.fields == f.fields && e.previous == f.previous
  {
    hide EncodeAll, ContentValues, ContentOf;
    EncodingInjective(CONTENT, ContentValues(e.index, e.fields), e.previous, ContentValues(f.index, f.fields), f.previous);
    ContentRoundTrip(e.index, e.fields);
    ContentRoundTrip(f.index, f.fields);
  }

  /** A position where the two histories hash different bytes to the same digest. */
  predicate CollisionAt(keys: Keys, es: seq<Entry>, fs: seq<Entry>, i: nat)
  {
    && i < |es| && i < |fs|
    && |es[i].fields.mediatorId| <= MAX_MEDIATOR_ID_LENGTH && |fs[i].fields.mediatorId| <= MAX_MEDIATOR_ID_LENGTH
    && HashInput(es[i]) != HashInput(fs[i])
    && keys.digest(HashInput(es[i])) == keys.digest(HashInput(fs[i]))
  }

  lemma {:induction false} ChainBinds(keys: Keys, es: seq<Entry>, fs: seq<Entry>, n: nat) returns (collision: Option<nat>)
    requires Chained(keys, es) && Chained(keys, fs) && n <= |es| && n <= |fs|
    requires HeadAfter(es, n) == HeadAfter(fs, n)
    ensures collision.None? ==> es[..n] == fs[..n]
    ensures collision.Some? ==> CollisionAt(keys, es, fs, collision.value)
    decreases n
  {
    hide CanonicalEntryBytes;
    collision := None;
    if n > 0 {
      var e, f := es[n - 1], fs[n - 1];
      assert Linked(keys, es, n - 1) && Linked(keys, fs, n - 1);
      if HashInput(e) != HashInput(f) {
        collision := Some(n - 1);
      } else {
        HashInputInjective(e, f);
        collision := ChainBinds(keys, es, fs, n - 1);
        if collision.None? {
          assert es[..n] == es[..n - 1] + [e] && fs[..n] == fs[..n - 1] + [f];
        }
      }
    }
  }

  lemma {:induction false} ReplayedState(keys: Keys, log: seq<Byte>)
    requires Replay(keys, EMPTY, log).fault.None?
    ensures ChainedState(keys, Replay(keys, EMPTY, log).state)
  {
    hide Replay, Apply, WellFormed;
    var rs := ReplayedIsEncoded(keys, EMPTY, log);
    ReplayChains(keys, EMPTY, rs);
  }

  /** Any two logs, whoever wrote them, that both replay and end with as many entries and the same chain head hold the
      same entries, or a collision of the hash can be read off them. */
  lemma {:induction false} LogsBind(keys: Keys, log: seq<Byte>, log': seq<Byte>) returns (collision: Option<nat>)
    requires Replay(keys, EMPTY, log).fault.None? && Replay(keys, EMPTY, log').fault.None?
    requires
      var st, st' := Replay(keys, EMPTY, log).state, Replay(keys, EMPTY, log').state;
      |st.entries| == |st'.entries| && st.chainHead == st'.chainHead
    ensures
      var st, st' := Replay(keys, EMPTY, log).state, Replay(keys, EMPTY, log').state;
      && (collision.None? ==> st.entries == st'.entries)
      && (collision.Some? ==> CollisionAt(keys, st.entries, st'.entries, collision.value))
  {
    hide Replay, CollisionAt;
    var st, st' := Replay(keys, EMPTY, log).state, Replay(keys, EMPTY, log').state;
    ReplayedState(keys, log);
    ReplayedState(keys, log');
    var n := |st.entries|;
    collision := ChainBinds(keys, st.entries, st'.entries, n);
    assert st.entries[..n] == st.entries && st'.entries[..n] == st'.entries;
  }

  /** A checkpoint found in two accepted logs pins the same entries up to the one it names, or exhibits a collision. */
  lemma {:induction false} CheckpointBinds(
    keys: Keys, rs: seq<Record>, rs': seq<Record>, i: nat, j: nat) returns (collision: Option<nat>)
    requires AllWellFormed(rs) && AllWellFormed(rs')
    requires ApplyAll(keys, EMPTY, rs).Some? && ApplyAll(keys, EMPTY, rs').Some?
    requires i < |rs| && j < |rs'| && !rs[i].EntryRecord? && !rs'[j].EntryRecord?
    requires rs[i].checkpoint.index == rs'[j].checkpoint.index && rs[i].checkpoint.hash == rs'[j].checkpoint.hash
    ensures
      var es, es', n :=
        ApplyAll(keys, EMPTY, rs).value.entries, ApplyAll(keys, EMPTY, rs').value.entries, rs[i].checkpoint.index + 1;
      && n <= |es| && n <= |es'|
      && (collision.None? ==> es[..n] == es'[..n])
      && (collision.Some? ==> CollisionAt(keys, es, es', collision.value))
  {
    hide Apply, WellFormed, CollisionAt, Verifies;
    var es, es' := ApplyAll(keys, EMPTY, rs).value.entries, ApplyAll(keys, EMPTY, rs').value.entries;
    ReplayChains(keys, EMPTY, rs);
    ReplayChains(keys, EMPTY, rs');
    ApplyAllVouches(keys, EMPTY, rs, i);
    ApplyAllVouches(keys, EMPTY, rs', j);
    collision := ChainBinds(keys, es, es', rs[i].checkpoint.index + 1);
  }
}
