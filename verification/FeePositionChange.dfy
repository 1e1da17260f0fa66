/** The fee position and the demand that the fee be confirmed are configuration, not persisted state. What a restart under
    another configuration does to a session, for every state the session can have been in: the exact condition under which
    it is harmless, which the demand for a confirmation has no part in, and what happens otherwise. */
module FeePositionChange {
  import opened Outcomes
  import opened Settlement
  import opened Ledger

  /** The room of a session restarted under another configuration. */
  function Moved(room: Room, position: FeePosition, confirm: bool): (r: Room)
  {
    room.(position := position, requireConfirmation := confirm)
  }

  function FeeCount(room: Room): (r: nat)
  {
    if room.fee > 0 then 1 else 0
  }

  predicate Completes(room: Room, s: State, rest: seq<Event>)
  {
    Run(room, s, rest).Some? && Run(room, s, rest).value.phase == Complete
  }

  /** The run completes, and over its whole life the session has exchanged both totals, collected its fee once if it has
      one, and opened one receipt gate. */
  predicate SettlesExactly(room: Room, s: State, h: History, rest: seq<Event>)
    requires ValidTerms(room.terms)
  {
    && Completes(room, s, rest)
    && var k := Recorded(room, h, s, rest);
       && k.paidA == room.terms.totalA && k.paidB == room.terms.totalB
       && k.fees == FeeCount(room) && k.gates == 1
  }

  /** A restart of a session in state s under another position does no harm: read off the phase, the round and the two
      positions. */
  predicate Harmless(room: Room, position: FeePosition, s: State)
  {
    if room.fee == 0 then s.phase != Aborted
    else
      match s.phase
      case Aborted => false
      case WaitingForPeer => true
      case Complete => true
      case WaitingForSent => FeeBehind(room, s) == FeeBehind(room.(position := position), s)
      case WaitingForReceived => FeeBehind(room, s) == FeeBehind(room.(position := position), s)
      case WaitingForFinalReceiptAck => (room.position == AfterLastRound) == (position == AfterLastRound)
      case _ =>
        && (position == AfterLastRound <==> s.round == room.terms.rounds)
        && (position == BeforeLastRound ==> s.round + 1 == room.terms.rounds)
  }

  // ----- runs from a state the new position could have reached -----

  /** How many fee legs and gates a run adds does not depend on what was recorded before it. */
  lemma {:induction false} CountersAdded(room: Room, h: History, k: History, s: State, es: seq<Event>)
    requires ValidTerms(room.terms) && Run(room, s, es).Some?
    ensures Recorded(room, h, s, es).fees - h.fees == Recorded(room, k, s, es).fees - k.fees
    ensures Recorded(room, h, s, es).gates - h.gates == Recorded(room, k, s, es).gates - k.gates
    ensures Recorded(room, h, s, es).paidA - h.paidA == Recorded(room, k, s, es).paidA - k.paidA
    ensures Recorded(room, h, s, es).paidB - h.paidB == Recorded(room, k, s, es).paidB - k.paidB
    decreases |es|
  {
    hide Step, Tranche, Advance, Sender, ValidTerms;
    if es != [] {
      CountersAdded(room, Record(room, h, s, es[0]), Record(room, k, s, es[0]), Step(room, s, es[0]).value, es[1..]);
    }
  }

  lemma {:induction false} AgreeingHistory(room: Room, s: State, h: History) returns (k: History)
    requires ValidTerms(room.terms) && AmountsAgree(room, s, h)
    ensures AmountsAgree(room, s, k) && SlotsAgree(room, s, k)
    ensures k.fees == FeesPaid(room, s) && k.gates == GatesOpened(room, s) && k.paidA == h.paidA && k.paidB == h.paidB
  {
    k := h.(fees := FeesPaid(room, s), feeSlot := 2 * FeeRound(room), gates := GatesOpened(room, s), gateSlot := GateSlot(room));
  }

  /** A completed run from a reachable state ends with both totals paid, and adds exactly the fee legs and the gates that
      lie ahead of the state. */
  lemma {:induction false} FromReachable(room: Room, s: State, h: History, rest: seq<Event>)
    requires ValidTerms(room.terms) && Reachable(room, s) && AmountsAgree(room, s, h) && Completes(room, s, rest)
    ensures s.phase != Aborted
    ensures
      var k := Recorded(room, h, s, rest);
      && k.paidA == room.terms.totalA && k.paidB == room.terms.totalB
      && k.fees == h.fees + FeeCount(room) - FeesPaid(room, s)
      && k.gates == h.gates + 1 - GatesOpened(room, s)
  {
    hide Step, Recorded, Reachable, AmountsAgree, SlotsAgree, FeesPaid, GatesOpened, Tranche, ValidTerms;
    if s.phase == Aborted {
      AbortedStays(room, s, rest);
    }
    var k := AgreeingHistory(room, s, h);
    RecordedAgrees(room, k, s, rest);
    RunKeepsReachable(room, s, rest);
    AgreementAtComplete(room, Run(room, s, rest).value, Recorded(room, k, s, rest));
    CountersAdded(room, h, k, s, rest);
  }

  // ----- runs from the states it could not have reached -----

  /** One step of a completed run: never an abort, and the rest of the run completes from what it leads to. */
  lemma {:induction false} Peel(room: Room, s: State, h: History, rest: seq<Event>)
    requires ValidTerms(room.terms) && Completes(room, s, rest) && s.phase != Complete
    ensures rest != [] && Step(room, s, rest[0]).Some? && rest[0] != Abort
    ensures
      var t := Step(room, s, rest[0]).value;
      && Completes(room, t, rest[1..])
      && Recorded(room, h, s, rest) == Recorded(room, Record(room, h, s, rest[0]), t, rest[1..])
  {
    hide Record, ValidTerms;
    if rest[0] == Abort {
      AbortedStays(room, Step(room, s, rest[0]).value, rest[1..]);
    }
  }

  /** A fee leg that the new position takes for the last action: the session completes with what had been paid. */
  lemma {:induction false} FeeEndsSession(room: Room, s: State, h: History, rest: seq<Event>)
    requires ValidTerms(room.terms) && Completes(room, s, rest) && room.position == AfterLastRound
    requires s.phase in {WaitingForFeeSent, WaitingForFeeConfirmation, Complete}
    ensures
      var k := Recorded(room, h, s, rest);
      && k.paidA == h.paidA && k.paidB == h.paidB && k.gates == h.gates
      && k.fees == h.fees + if s.phase == WaitingForFeeSent then 1 else 0
    decreases |rest|
  {
    hide Advance, Sender, ValidTerms;
    if s.phase == Complete {
      CompleteEnds(room, s, rest);
    } else {
      Peel(room, s, h, rest);
      FeeEndsSession(room, Step(room, s, rest[0]).value, Record(room, h, s, rest[0]), rest[1..]);
    }
  }

  /** A fee leg that the new position takes for an early one, with rounds still to come. */
  lemma {:induction false} FeeThenRounds(room: Room, s: State, h: History, rest: seq<Event>)
    requires ValidTerms(room.terms) && Completes(room, s, rest) && room.position != AfterLastRound && room.fee > 0
    requires s.phase in {WaitingForFeeSent, WaitingForFeeConfirmation, WaitingForSent}
    requires s.leg == 0 && s.round < room.terms.rounds && AmountsAgree(room, s, h)
    ensures
      var k := Recorded(room, h, s, rest);
      && k.paidA == room.terms.totalA && k.paidB == room.terms.totalB
      && k.fees == h.fees + (if s.phase == WaitingForFeeSent then 1 else 0) + (if FeeBehind(room, s) then 0 else 1)
      && k.gates == h.gates + 1
    decreases |rest|
  {
    hide Advance, Tranche, Recorded, Run;
    if s.phase == WaitingForSent {
      FromReachable(room, s, h, rest);
    } else {
      Peel(room, s, h, rest);
      FeeThenRounds(room, Step(room, s, rest[0]).value, Record(room, h, s, rest[0]), rest[1..]);
    }
  }

  /** A gate before the last leg that the new position, with its fee still to come, does not count as the last. */
  lemma {:induction false} SecondGate(room: Room, s: State, h: History, rest: seq<Event>)
    requires ValidTerms(room.terms) && Completes(room, s, rest) && FeeIsFinal(room)
    requires s.phase in {WaitingForFinalReceiptAck, WaitingForSent}
    requires s.leg == 1 && s.round + 1 == room.terms.rounds && AmountsAgree(room, s, h)
    ensures Recorded(room, h, s, rest).gates == h.gates + 1
    decreases |rest|
  {
    hide Advance, Tranche, Recorded, Run;
    if s.phase == WaitingForSent {
      FromReachable(room, s, h, rest);
    } else {
      Peel(room, s, h, rest);
      SecondGate(room, Step(room, s, rest[0]).value, Record(room, h, s, rest[0]), rest[1..]);
    }
  }

  /** Past its last round under an early position: every round has been settled and none of them was the last. */
  predicate PastTheEnd(room: Room, s: State)
  {
    && room.position != AfterLastRound
    && room.terms.rounds <= s.round < ROUND_MODULUS && s.leg <= 1
    && s.phase in {WaitingForSent, WaitingForReceived, WaitingForFinalReceiptAck, WaitingForFeeSent, WaitingForFeeConfirmation}
    && (s.phase !in {WaitingForSent, WaitingForReceived} ==> s.round == room.terms.rounds && s.leg == 0)
  }

  lemma {:induction false} StaysPastTheEnd(room: Room, s: State, e: Event)
    requires ValidTerms(room.terms) && PastTheEnd(room, s) && Step(room, s, e).Some? && e != Abort
    ensures
      var t := Step(room, s, e).value;
      || (PastTheEnd(room, t) && t.round <= s.round + 1)
      || s.round == ROUND_MODULUS - 1
  {
    hide Sender, SignalMatches;
  }

  /** Such a session can end only by the round counter going all the way round. */
  lemma {:induction false} OnlyByWrapping(room: Room, s: State, rest: seq<Event>)
    requires ValidTerms(room.terms) && PastTheEnd(room, s) && Completes(room, s, rest)
    ensures |rest| >= ROUND_MODULUS - s.round
    decreases |rest|
  {
    hide Step, ValidTerms;
    Peel(room, s, START, rest);
    StaysPastTheEnd(room, s, rest[0]);
    if PastTheEnd(room, Step(room, s, rest[0]).value) {
      OnlyByWrapping(room, Step(room, s, rest[0]).value, rest[1..]);
    }
  }

  lemma {:induction false} PaidNeverShrinks(room: Room, s: State, h: History, es: seq<Event>)
    requires ValidTerms(room.terms) && Run(room, s, es).Some?
    ensures Recorded(room, h, s, es).paidA >= h.paidA && Recorded(room, h, s, es).paidB >= h.paidB
    decreases |es|
  {
    hide Step, Tranche, Advance, Sender, ValidTerms;
    if es != [] {
      PaidNeverShrinks(room, Step(room, s, es[0]).value, Record(room, h, s, es[0]), es[1..]);
    }
  }

  /** And by then it has paid more than the totals. */
  lemma {:induction false} Overpays(room: Room, s: State, h: History, rest: seq<Event>)
    requires ValidTerms(room.terms) && PastTheEnd(room, s) && Completes(room, s, rest)
    requires s.round == room.terms.rounds && s.leg == 0
    ensures Recorded(room, h, s, rest).paidA + Recorded(room, h, s, rest).paidB > h.paidA + h.paidB
    decreases |rest|
  {
    hide Advance, Recorded, Run, Tranche;
    Peel(room, s, h, rest);
    var t, k := Step(room, s, rest[0]).value, Record(room, h, s, rest[0]);
    if rest[0].Received? {
      TranchePositive(room.terms.totalA, room.terms.rounds, s.round);
      TranchePositive(room.terms.totalB, room.terms.rounds, s.round);
      PaidNeverShrinks(room, t, k, rest[1..]);
    } else {
      Overpays(room, t, k, rest[1..]);
    }
  }

  // ----- the exact condition -----

  /** Where both positions could have reached the state, harmless means that they agree on what lies behind it. */
  lemma {:induction false} HarmlessWhereReachable(room: Room, position: FeePosition, confirm: bool, s: State)
    requires ValidTerms(room.terms) && Reachable(room, s) && s.phase != Aborted
    requires Reachable(Moved(room, position, confirm), Restored(s))
    ensures Harmless(room, position, s) <==>
      FeesPaid(room, s) == FeesPaid(Moved(room, position, confirm), s)
      && GatesOpened(room, s) == GatesOpened(Moved(room, position, confirm), s)
    ensures Harmless(room, position, s) <==> FeesPaid(room, s) == FeesPaid(Moved(room, position, confirm), s)
  {
  }

  /** In general: the positions agree on whether the fee lies behind, and the new one could have reached the state, but for
      one state it could not have reached and carries on from correctly: the fee leg before the last of several rounds,
      restored with the fee before the first. */
  lemma {:induction false} HarmlessMeans(room: Room, position: FeePosition, s: State)
    requires ValidTerms(room.terms) && Reachable(room, s)
    ensures Harmless(room, position, s) <==>
      && s.phase != Aborted
      && FeesPaid(room, s) == FeesPaid(Moved(room, position, room.requireConfirmation), s)
      && (|| Reachable(Moved(room, position, room.requireConfirmation), Restored(s))
          || (&& s.phase in {WaitingForFeeSent, WaitingForFeeConfirmation}
              && position == BeforeFirstRound && s.round + 1 == room.terms.rounds))
  {
  }

  lemma {:induction false} ExactWhereReachable(room: Room, position: FeePosition, confirm: bool, s: State, h: History, rest: seq<Event>)
    requires ValidTerms(room.terms) && Reachable(room, s) && AmountsAgree(room, s, h) && SlotsAgree(room, s, h)
    requires Reachable(Moved(room, position, confirm), Restored(s)) && Completes(Moved(room, position, confirm), Restored(s), rest)
    ensures SettlesExactly(Moved(room, position, confirm), Restored(s), h, rest) <==> Harmless(room, position, s)
  {
    hide Run, Recorded, Reachable, Harmless, Tranche, Completes;
    var moved, r := Moved(room, position, confirm), Restored(s);
    assert AmountsAgree(moved, r, h);
    FromReachable(moved, r, h, rest);
    HarmlessWhereReachable(room, position, confirm, s);
    assert FeesPaid(moved, r) == FeesPaid(moved, s) && GatesOpened(moved, r) == GatesOpened(moved, s);
  }

  lemma {:induction false} ExactInFeeLeg(room: Room, position: FeePosition, confirm: bool, s: State, h: History, rest: seq<Event>)
    requires ValidTerms(room.terms) && Reachable(room, s) && AmountsAgree(room, s, h) && SlotsAgree(room, s, h)
    requires s.phase in {WaitingForFeeSent, WaitingForFeeConfirmation}
    requires Completes(Moved(room, position, confirm), Restored(s), rest)
    ensures SettlesExactly(Moved(room, position, confirm), Restored(s), h, rest) <==> Harmless(room, position, s)
  {
    hide Run, Recorded, Tranche, Completes;
    var moved, r := Moved(room, position, confirm), Restored(s);
    assert AmountsAgree(moved, r, h);
    if position == AfterLastRound {
      FeeEndsSession(moved, r, h, rest);
      TranchesSum(room.terms.totalA, room.terms.rounds);
      TranchesSum(room.terms.totalB, room.terms.rounds);
      if s.round < room.terms.rounds {
        TranchesIncrease(room.terms.totalA, room.terms.rounds, s.round, room.terms.rounds);
      }
    } else if s.round < room.terms.rounds {
      FeeThenRounds(moved, r, h, rest);
    } else {
      Overpays(moved, r, h, rest);
      TranchesSum(room.terms.totalA, room.terms.rounds);
      TranchesSum(room.terms.totalB, room.terms.rounds);
    }
  }

  lemma {:induction false} ExactInGate(room: Room, position: FeePosition, confirm: bool, s: State, h: History, rest: seq<Event>)
    requires ValidTerms(room.terms) && Reachable(room, s) && AmountsAgree(room, s, h) && SlotsAgree(room, s, h)
    requires s.phase == WaitingForFinalReceiptAck && Completes(Moved(room, position, confirm), Restored(s), rest)
    ensures SettlesExactly(Moved(room, position, confirm), Restored(s), h, rest) <==> Harmless(room, position, s)
  {
    hide Run, Recorded, Tranche, Completes;
    var moved, r := Moved(room, position, confirm), Restored(s);
    assert AmountsAgree(moved, r, h);
    if FeeIsFinal(room) == FeeIsFinal(moved) {
      ExactWhereReachable(room, position, confirm, s, h, rest);
    } else if FeeIsFinal(moved) {
      SecondGate(moved, r, h, rest);
    } else {
      Overpays(moved, r, h, rest);
      TranchesSum(room.terms.totalA, room.terms.rounds);
      TranchesSum(room.terms.totalB, room.terms.rounds);
    }
  }

  /** Restored under any position, in any state a session can be in, and completed: both totals exchanged, one fee and one
      gate over the whole life of the session, exactly when the restart was harmless. */
  lemma {:induction false} ExactIffHarmless(room: Room, position: FeePosition, confirm: bool, s: State, h: History, rest: seq<Event>)
    requires ValidTerms(room.terms) && Reachable(room, s) && AmountsAgree(room, s, h) && SlotsAgree(room, s, h)
    requires Completes(Moved(room, position, confirm), Restored(s), rest)
    ensures SettlesExactly(Moved(room, position, confirm), Restored(s), h, rest) <==> Harmless(room, position, s)
  {
    hide SettlesExactly, Harmless, AmountsAgree, SlotsAgree, ValidTerms;
    if s.phase == Aborted {
      AbortedStays(Moved(room, position, confirm), Restored(s), rest);
    } else if s.phase in {WaitingForFeeSent, WaitingForFeeConfirmation} {
      ExactInFeeLeg(room, position, confirm, s, h, rest);
    } else if s.phase == WaitingForFinalReceiptAck {
      ExactInGate(room, position, confirm, s, h, rest);
    } else {
      ExactWhereReachable(room, position, confirm, s, h, rest);
    }
  }

  /** A harmless restart can be completed. */
  lemma {:induction false} HarmlessCompletes(room: Room, position: FeePosition, confirm: bool, s: State) returns (rest: seq<Event>)
    requires ValidTerms(room.terms) && Reachable(room, s) && Harmless(room, position, s)
    ensures Completes(Moved(room, position, confirm), Restored(s), rest)
  {
    var moved, r := Moved(room, position, confirm), Restored(s);
    HarmlessMeans(room, position, s);
    if Reachable(moved, r) {
      rest := CanComplete(moved, r);
    } else {
      rest := FeeLegCompletes(moved, r);
    }
  }

  lemma {:induction false} FeeLegCompletes(room: Room, s: State) returns (rest: seq<Event>)
    requires ValidTerms(room.terms) && room.fee > 0
    requires s.phase in {WaitingForFeeSent, WaitingForFeeConfirmation, WaitingForSent, Complete}
    requires s.leg == 0 && s.round <= room.terms.rounds && (s.round == room.terms.rounds ==> room.position == AfterLastRound)
    requires s.phase == WaitingForSent ==> s.round < room.terms.rounds
    ensures Completes(room, s, rest)
    decreases s.phase == WaitingForFeeSent, s.phase == WaitingForFeeConfirmation
  {
    hide Advance, Sender, ValidTerms;
    if s.phase == Complete {
      rest := [];
    } else if s.phase == WaitingForSent {
      rest := CanComplete(room, s);
    } else {
      var e := if s.phase == WaitingForFeeSent then Sent(A, Signal(room.id, s.round, A)) else ConfirmFee;
      var tail := FeeLegCompletes(room, Step(room, s, e).value);
      rest := [e] + tail;
      assert rest[1..] == tail;
    }
  }

  ghost predicate CanSettleExactly(room: Room, s: State, h: History)
    requires ValidTerms(room.terms)
  {
    exists rest :: SettlesExactly(room, s, h, rest)
  }

  /** The exact condition, over every run, every cut and every new configuration: a restored session can be completed with both
      totals exchanged, one fee and one gate if and only if the restart is harmless, and then every way of completing it
      does so. */
  lemma {:induction false} RestartUnderAnotherPosition(room: Room, position: FeePosition, confirm: bool, es: seq<Event>)
    requires ValidTerms(room.terms) && Run(room, INITIAL, es).Some?
    ensures
      var s, h, moved := Run(room, INITIAL, es).value, Recorded(room, START, INITIAL, es), Moved(room, position, confirm);
      && (Harmless(room, position, s) <==> CanSettleExactly(moved, Restored(s), h))
      && (Harmless(room, position, s) ==>
            forall rest :: Completes(moved, Restored(s), rest) ==> SettlesExactly(moved, Restored(s), h, rest))
  {
    hide Run, Recorded, Harmless, Completes, AmountsAgree, SlotsAgree, Reachable, ValidTerms;
    var s, h, moved := Run(room, INITIAL, es).value, Recorded(room, START, INITIAL, es), Moved(room, position, confirm);
    StartAgrees(room);
    RecordedAgrees(room, START, INITIAL, es);
    RunKeepsReachable(room, INITIAL, es);
    forall rest | Completes(moved, Restored(s), rest)
      ensures SettlesExactly(moved, Restored(s), h, rest) <==> Harmless(room, position, s)
    {
      ExactIffHarmless(room, position, confirm, s, h, rest);
    }
    if Harmless(room, position, s) {
      var rest := HarmlessCompletes(room, position, confirm, s);
      assert SettlesExactly(moved, Restored(s), h, rest);
      assert CanSettleExactly(moved, Restored(s), h);
    }
  }

  // ----- what goes wrong otherwise -----

  /** A session in the gate before its final fee, or in that fee leg, restored with an early fee: completing it takes the
      round counter all the way round, and by then the totals have been overpaid. */
  lemma {:induction false} PastTheFinalGate(room: Room, position: FeePosition, confirm: bool, es: seq<Event>, rest: seq<Event>)
    requires ValidTerms(room.terms) && Run(room, INITIAL, es).Some? && FeeIsFinal(room) && position != AfterLastRound
    requires Run(room, INITIAL, es).value.phase in {WaitingForFinalReceiptAck, WaitingForFeeSent, WaitingForFeeConfirmation}
    requires Completes(Moved(room, position, confirm), Restored(Run(room, INITIAL, es).value), rest)
    ensures |rest| >= ROUND_MODULUS - room.terms.rounds
    ensures
      var k := Life(room, es, Moved(room, position, confirm), rest);
      k.paidA + k.paidB > room.terms.totalA + room.terms.totalB
  {
    hide Recorded, Run, Completes, Tranche;
    var moved := Moved(room, position, confirm);
    var s, h := Run(room, INITIAL, es).value, Recorded(room, START, INITIAL, es);
    StartAgrees(room);
    RecordedAgrees(room, START, INITIAL, es);
    RunKeepsReachable(room, INITIAL, es);
    TranchesSum(room.terms.totalA, room.terms.rounds);
    TranchesSum(room.terms.totalB, room.terms.rounds);
    OnlyByWrapping(moved, Restored(s), rest);
    Overpays(moved, Restored(s), h, rest);
  }

  const TERMS := Terms(PROTOCOL_VERSION, "BTC", "XMR", 1, 1, 1, A)

  /** A one-round room with a fee at the given position. */
  function Sample(position: FeePosition): (r: Room)
    ensures ValidRoom(r)
  {
    Room(1, TERMS, 1, "BTC", "addr", false, position)
  }

  /** The history of the session up to the cut and after it. */
  function Life(room: Room, es: seq<Event>, moved: Room, rest: seq<Event>): (h: History)
    requires ValidTerms(room.terms) && ValidTerms(moved.terms) && Run(room, INITIAL, es).Some?
    requires Run(moved, Restored(Run(room, INITIAL, es).value), rest).Some?
  {
    Recorded(moved, Recorded(room, START, INITIAL, es), Restored(Run(room, INITIAL, es).value), rest)
  }

  /** Fee legs over a completed life, where the new position could have reached the state. */
  lemma {:induction false} LifeFees(room: Room, position: FeePosition, confirm: bool, es: seq<Event>, rest: seq<Event>)
    requires ValidTerms(room.terms) && Run(room, INITIAL, es).Some?
    requires Reachable(Moved(room, position, confirm), Restored(Run(room, INITIAL, es).value))
    requires Completes(Moved(room, position, confirm), Restored(Run(room, INITIAL, es).value), rest)
    ensures
      var s, moved := Run(room, INITIAL, es).value, Moved(room, position, confirm);
      Life(room, es, moved, rest).fees == FeesPaid(room, s) + FeeCount(room) - FeesPaid(moved, s)
  {
    hide Run, Recorded, Reachable, Completes, Tranche;
    var s, h, moved := Run(room, INITIAL, es).value, Recorded(room, START, INITIAL, es), Moved(room, position, confirm);
    var r := Restored(s);
    StartAgrees(room);
    RecordedAgrees(room, START, INITIAL, es);
    assert AmountsAgree(moved, r, h);
    FromReachable(moved, r, h, rest);
    assert FeesPaid(moved, r) == FeesPaid(moved, s);
  }

  lemma {:induction false} OneStep(room: Room, s: State, e: Event)
    requires Step(room, s, e).Some?
    ensures Run(room, s, [e]) == Step(room, s, e)
  {
    assert [e][1..] == [];
    assert Run(room, Step(room, s, e).value, []) == Step(room, s, e);
  }

  lemma {:induction false} Joined(position: FeePosition) returns (es: seq<Event>)
    ensures Run(Sample(position), INITIAL, es)
         == Some(State(if position == AfterLastRound then WaitingForSent else WaitingForFeeSent, 0, 0, false, false))
    ensures es == [Join(1, true)]
  {
    es := [Join(1, true)];
    OneStep(Sample(position), INITIAL, es[0]);
  }

  /** A session that paid before the first round pays again after the last. */
  lemma {:induction false} FeePaidTwice() returns (es: seq<Event>, rest: seq<Event>)
    ensures
      var room, moved := Sample(BeforeFirstRound), Sample(AfterLastRound);
      && Run(room, INITIAL, es).Some? && Completes(moved, Restored(Run(room, INITIAL, es).value), rest)
      && Life(room, es, moved, rest).fees == 2
  {
    hide Recorded, Tranche;
    var room, moved := Sample(BeforeFirstRound), Sample(AfterLastRound);
    var join := Joined(BeforeFirstRound);
    var pay := Sent(A, Signal(1, 0, A));
    es := join + [pay];
    RunConcat(room, INITIAL, join, [pay]);
    OneStep(room, Run(room, INITIAL, join).value, pay);
    var s := Run(room, INITIAL, es).value;
    assert s == State(WaitingForSent, 0, 0, false, false);
    rest := CanComplete(moved, Restored(s));
    LifeFees(room, AfterLastRound, false, es, rest);
  }

  /** A session under way with its fee after the last round, restored with the fee before the first, is never charged. */
  lemma {:induction false} FeeNeverPaid() returns (es: seq<Event>, rest: seq<Event>)
    ensures
      var room, moved := Sample(AfterLastRound), Sample(BeforeFirstRound);
      && Run(room, INITIAL, es).Some? && Completes(moved, Restored(Run(room, INITIAL, es).value), rest)
      && Life(room, es, moved, rest).fees == 0
  {
    hide Recorded, Tranche;
    var room, moved := Sample(AfterLastRound), Sample(BeforeFirstRound);
    es := Joined(AfterLastRound);
    var s := Run(room, INITIAL, es).value;
    rest := CanComplete(moved, Restored(s));
    LifeFees(room, BeforeFirstRound, false, es, rest);
  }

  /** A session waiting for its early fee, restored with the fee after the last round, completes on the fee alone. */
  lemma {:induction false} CompletedWithoutATrade() returns (es: seq<Event>, rest: seq<Event>)
    ensures
      var room, moved := Sample(BeforeFirstRound), Sample(AfterLastRound);
      && Run(room, INITIAL, es).Some? && Completes(moved, Restored(Run(room, INITIAL, es).value), rest)
      && Life(room, es, moved, rest).paidA == 0 && Life(room, es, moved, rest).paidB == 0
      && Life(room, es, moved, rest).gates == 0 && Life(room, es, moved, rest).fees == 1
  {
    var room, moved := Sample(BeforeFirstRound), Sample(AfterLastRound);
    es := Joined(BeforeFirstRound);
    rest := [Sent(A, Signal(1, 0, A))];
    var s := Restored(Run(room, INITIAL, es).value);
    OneStep(moved, s, rest[0]);
    assert Recorded(room, START, INITIAL, es) == START by {
      assert es[1..] == [];
    }
    assert rest[1..] == [];
    assert Recorded(moved, START, s, rest) == START.(fees := 1, feeSlot := 0);
  }

  /** A session in the gate before its final fee, restored with an early one: no run completes it before the 32-bit round
      counter has wrapped, and none with the totals exchanged. */
  lemma {:induction false} NeverCompleted() returns (es: seq<Event>)
    ensures
      var room, moved := Sample(AfterLastRound), Sample(BeforeFirstRound);
      && Run(room, INITIAL, es).Some? && Run(room, INITIAL, es).value.phase == WaitingForFinalReceiptAck
      && forall rest :: Completes(moved, Restored(Run(room, INITIAL, es).value), rest) ==>
           |rest| >= ROUND_MODULUS - 1
           && Life(room, es, moved, rest).paidA + Life(room, es, moved, rest).paidB > TERMS.totalA + TERMS.totalB
  {
    es := InFinalGate();
    forall rest | Completes(Sample(BeforeFirstRound), Restored(Run(Sample(AfterLastRound), INITIAL, es).value), rest)
      ensures |rest| >= ROUND_MODULUS - 1
      ensures
        var k := Life(Sample(AfterLastRound), es, Sample(BeforeFirstRound), rest);
        k.paidA + k.paidB > TERMS.totalA + TERMS.totalB
    {
      PastTheFinalGate(Sample(AfterLastRound), BeforeFirstRound, false, es, rest);
    }
  }

  lemma {:induction false} InFinalGate() returns (es: seq<Event>)
    ensures Run(Sample(AfterLastRound), INITIAL, es) == Some(State(WaitingForFinalReceiptAck, 1, 0, false, false))
  {
    var room := Sample(AfterLastRound);
    var join := Joined(AfterLastRound);
    var legs := [Sent(A, Signal(1, 0, A)), Received(B, Signal(1, 0, A)), Sent(B, Signal(1, 0, B)), Received(A, Signal(1, 0, B))];
    es := join + legs;
    RunConcat(room, INITIAL, join, legs);
    var s1 := State(WaitingForReceived, 0, 0, false, false);
    var s2 := State(WaitingForSent, 0, 1, false, false);
    var s3 := State(WaitingForReceived, 0, 1, false, false);
    assert Step(room, State(WaitingForSent, 0, 0, false, false), legs[0]) == Some(s1);
    assert Step(room, s1, legs[1]) == Some(s2);
    assert Step(room, s2, legs[2]) == Some(s3);
    OneStep(room, s3, legs[3]);
    assert legs[1..][1..][1..] == [legs[3]] && legs[1..][1..][0] == legs[2] && legs[1..][0] == legs[1];
    assert Run(room, s2, legs[1..][1..]) == Run(room, s3, [legs[3]]);
  }
}
