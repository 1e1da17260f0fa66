/** The journal's transition relation against the mediator's state machine that it is meant to mirror: which session
    steps it admits, and which completed sessions can be journalled. */
module Agreement {
  import opened Outcomes
  import opened Bytes
  import opened JournalFormat
  import opened Settlement
  import Replay = JournalReplay
  import Journal = JournalObject

  function Code(p: Phase): (c: U8)
  {
    match p
    case WaitingForPeer => Replay.WAITING_FOR_PEER
    case WaitingForSent => Replay.WAITING_FOR_SENT
    case WaitingForReceived => Replay.WAITING_FOR_RECEIVED
    case WaitingForFeeSent => Replay.WAITING_FOR_FEE_SENT
    case Complete => Replay.COMPLETE
    case Aborted => Replay.ABORTED
    case WaitingForFinalReceiptAck => Replay.WAITING_FOR_FINAL_RECEIPT_ACK
    case WaitingForFeeConfirmation => Replay.WAITING_FOR_FEE_CONFIRMATION
  }

  /** A fee that is due before the last round ends. */
  predicate EarlyFee(room: Room)
  {
    room.fee > 0 && room.position != AfterLastRound
  }

  /** The steps around an early fee: into the fee leg, and out of it back to the rounds. */
  predicate EarlyFeeEdge(room: Room, from: Phase, to: Phase)
  {
    EarlyFee(room) &&
    (to == WaitingForFeeSent || (from in {WaitingForFeeSent, WaitingForFeeConfirmation} && to == WaitingForSent))
  }

  /** Step by step, the journal admits everything the mediator does except the early-fee edges. */
  lemma {:induction false} StepAdmitted(room: Room, s: State, e: Event)
    requires ValidTerms(room.terms) && Reachable(room, s) && Step(room, s, e).Some?
    ensures
      var t := Step(room, s, e).value;
      Replay.ValidTransition(Code(s.phase), Code(t.phase)) <==> !EarlyFeeEdge(room, s.phase, t.phase)
  {
    hide ValidTerms, Sender, SignalMatches;
    match e
    case Join(_, _) =>
    case Sent(_, _) =>
    case Received(_, _) =>
    case AckReceipt(_) =>
    case ConfirmFee =>
    case Abort =>
  }

  /** The phases a run goes through. */
  function Phases(room: Room, s: State, es: seq<Event>): (ps: seq<Phase>)
    requires Run(room, s, es).Some?
    ensures |ps| == |es| + 1 && ps[0] == s.phase
    decreases |es|
  {
    if es == [] then [s.phase] else [s.phase] + Phases(room, Step(room, s, es[0]).value, es[1..])
  }

  predicate Walk(ps: seq<Phase>)
  {
    forall i :: 0 <= i < |ps| - 1 ==> Replay.ValidTransition(Code(ps[i]), Code(ps[i + 1]))
  }

  lemma {:induction false} WalkCons(p: Phase, ps: seq<Phase>)
    requires ps != []
    ensures Walk([p] + ps) <==> Replay.ValidTransition(Code(p), Code(ps[0])) && Walk(ps)
  {
    hide Replay.ValidTransition, Code;
    var qs := [p] + ps;
    if Walk(qs) {
      assert Replay.ValidTransition(Code(qs[0]), Code(qs[0 + 1]));
      forall i | 0 <= i < |ps| - 1 ensures Replay.ValidTransition(Code(ps[i]), Code(ps[i + 1])) {
        assert qs[i + 1] == ps[i] && qs[i + 1 + 1] == ps[i + 1];
      }
    }
  }

  lemma {:induction false} WithoutEarlyFee(room: Room, s: State, es: seq<Event>)
    requires ValidTerms(room.terms) && Reachable(room, s) && Run(room, s, es).Some? && !EarlyFee(room)
    ensures Walk(Phases(room, s, es))
    decreases |es|
  {
    hide Step, Reachable, ValidTerms, Replay.ValidTransition, Code;
    if es != [] {
      var t := Step(room, s, es[0]).value;
      StepKeepsReachable(room, s, es[0]);
      StepAdmitted(room, s, es[0]);
      WithoutEarlyFee(room, t, es[1..]);
      WalkCons(s.phase, Phases(room, t, es[1..]));
    }
  }

  /** Before the early fee leg, or aborted. */
  predicate BeforeFee(room: Room, s: State)
  {
    match s.phase
    case WaitingForPeer => true
    case WaitingForSent | WaitingForReceived => !FeeBehind(room, s)
    case Aborted => true
    case _ => false
  }

  lemma {:induction false} StaysBeforeFee(room: Room, s: State, e: Event)
    requires ValidTerms(room.terms) && Reachable(room, s) && Step(room, s, e).Some? && EarlyFee(room)
    requires BeforeFee(room, s) && !EarlyFeeEdge(room, s.phase, Step(room, s, e).value.phase)
    ensures BeforeFee(room, Step(room, s, e).value)
  {
  }

  lemma {:induction false} WithEarlyFee(room: Room, s: State, es: seq<Event>)
    requires ValidTerms(room.terms) && Reachable(room, s) && Run(room, s, es).Some? && EarlyFee(room)
    requires BeforeFee(room, s) && Walk(Phases(room, s, es))
    ensures BeforeFee(room, Run(room, s, es).value)
    decreases |es|
  {
    hide Step, Reachable, ValidTerms, Replay.ValidTransition, Code, BeforeFee, EarlyFeeEdge;
    if es != [] {
      var t := Step(room, s, es[0]).value;
      StepKeepsReachable(room, s, es[0]);
      WalkCons(s.phase, Phases(room, t, es[1..]));
      StepAdmitted(room, s, es[0]);
      StaysBeforeFee(room, s, es[0]);
      WithEarlyFee(room, t, es[1..]);
    }
  }

  /** The phases of a completed session form a walk of the journal's relation exactly when it has no early fee. */
  lemma {:induction false} CompletedWalk(room: Room, es: seq<Event>)
    requires ValidTerms(room.terms)
    requires Run(room, INITIAL, es).Some? && Run(room, INITIAL, es).value.phase == Complete
    ensures Walk(Phases(room, INITIAL, es)) <==> room.fee == 0 || room.position == AfterLastRound
  {
    hide Step, Walk, Phases;
    if EarlyFee(room) {
      if Walk(Phases(room, INITIAL, es)) {
        WithEarlyFee(room, INITIAL, es);
      }
    } else {
      WithoutEarlyFee(room, INITIAL, es);
    }
  }

  // ----- journalling a session -----

  /** Appends one entry per phase, all for the same trade; nothing once the journal refuses one. */
  function AppendPhases(keys: Replay.Keys, st: Replay.State, f: Fields, clock: U64, ps: seq<Phase>): (t: Option<Replay.State>)
    requires |st.entries| + |ps| <= Journal.MAX_ENTRIES
    decreases |ps|
  {
    if ps == [] then Some(st)
    else
      match Journal.NewEntry(keys, st, f.(localState := Code(ps[0])), clock)
      case None => None
      case Some(e) => AppendPhases(keys, Replay.Extended(st, e), f, clock, ps[1..])
  }

  predicate AdmitsFirst(st: Replay.State, trade: TradeId, p: Phase)
  {
    if trade !in st.lastStates then p == WaitingForPeer
    else Replay.ValidTransition(st.lastStates[trade], Code(p))
  }

  lemma {:induction false} EntryAdmitted(keys: Replay.Keys, st: Replay.State, f: Fields, clock: U64, p: Phase)
    requires |st.entries| < Journal.MAX_ENTRIES && |f.mediatorId| <= MAX_MEDIATOR_ID_LENGTH
    ensures
      var e := Journal.NewEntry(keys, st, f.(localState := Code(p)), clock);
      && (e.Some? <==> AdmitsFirst(st, f.tradeId, p))
      && (e.Some? ==>
            var t := Replay.Extended(st, e.value);
            && f.tradeId in t.lastStates && t.lastStates[f.tradeId] == Code(p) && |t.entries| == |st.entries| + 1)
  {
    hide Replay.EntryHash, Replay.ValidTransition;
  }

  lemma {:induction false} AppendedWalk(keys: Replay.Keys, st: Replay.State, f: Fields, clock: U64, ps: seq<Phase>)
    requires |st.entries| + |ps| <= Journal.MAX_ENTRIES && |f.mediatorId| <= MAX_MEDIATOR_ID_LENGTH && ps != []
    ensures AppendPhases(keys, st, f, clock, ps).Some? <==> AdmitsFirst(st, f.tradeId, ps[0]) && Walk(ps)
    decreases |ps|
  {
    hide Journal.NewEntry, Replay.Extended, Replay.ValidTransition, Code, Walk;
    EntryAdmitted(keys, st, f, clock, ps[0]);
    assert ps == [ps[0]] + ps[1..];
    if |ps| == 1 {
      assert Walk(ps) by {
        SingleWalk(ps);
      }
    } else {
      WalkCons(ps[0], ps[1..]);
      var e := Journal.NewEntry(keys, st, f.(localState := Code(ps[0])), clock);
      if e.Some? {
        AppendedWalk(keys, Replay.Extended(st, e.value), f, clock, ps[1..]);
      }
    }
  }

  lemma {:induction false} SingleWalk(ps: seq<Phase>)
    requires |ps| == 1
    ensures Walk(ps)
  {
  }

  /** A client that journals every phase of a completed session under a fresh trade id gets every entry accepted exactly
      when the fee is zero or comes after the last round. */
  lemma {:induction false} CompletedSessionJournals(
    keys: Replay.Keys, st: Replay.State, f: Fields, clock: U64, room: Room, es: seq<Event>)
    requires ValidTerms(room.terms)
    requires Run(room, INITIAL, es).Some? && Run(room, INITIAL, es).value.phase == Complete
    requires |st.entries| + |es| + 1 <= Journal.MAX_ENTRIES && |f.mediatorId| <= MAX_MEDIATOR_ID_LENGTH
    requires f.tradeId !in st.lastStates
    ensures
      AppendPhases(keys, st, f, clock, Phases(room, INITIAL, es)).Some?
      <==> room.fee == 0 || room.position == AfterLastRound
  {
    hide AppendPhases, Walk, Step;
    CompletedWalk(room, es);
    AppendedWalk(keys, st, f, clock, Phases(room, INITIAL, es));
  }

  /** Such sessions exist: with a fee due before the first round a session completes, and the journal refuses it. */
  lemma {:induction false} EarlyFeeIsRefused(keys: Replay.Keys, f: Fields, clock: U64) returns (room: Room, es: seq<Event>)
    requires |f.mediatorId| <= MAX_MEDIATOR_ID_LENGTH
    ensures ValidRoom(room) && Run(room, INITIAL, es).Some? && Run(room, INITIAL, es).value.phase == Complete
    ensures |es| + 1 <= Journal.MAX_ENTRIES
    ensures AppendPhases(keys, Replay.EMPTY, f, clock, Phases(room, INITIAL, es)).None?
  {
    hide AppendPhases, Phases;
    var terms := Terms(PROTOCOL_VERSION, "BTC", "XMR", 1, 1, 1, A);
    room := Room(1, terms, 1, "BTC", "addr", false, BeforeFirstRound);
    assert ValidRoom(room);
    es := CanComplete(room, INITIAL);
    CompletedSessionJournals(keys, Replay.EMPTY, f, clock, room, es);
  }
}
