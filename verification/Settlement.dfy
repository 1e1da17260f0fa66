/** The settlement protocol that a MediatorSession coordinates, as a transition function over its states,
    and what holds over every run of it. */
module Settlement {
  import opened Outcomes

  datatype Party = A | B

  function Other(p: Party): (r: Party)
  {
    if p == A then B else A
  }

  datatype Phase =
    | WaitingForPeer
    | WaitingForSent
    | WaitingForReceived
    | WaitingForFeeSent
    | Complete
    | Aborted
    | WaitingForFinalReceiptAck
    | WaitingForFeeConfirmation

  datatype FeePosition = BeforeFirstRound | BeforeLastRound | AfterLastRound

  const PROTOCOL_VERSION := 5
  const ROUND_MODULUS := 0x1_0000_0000
  const MAX_ROUNDS := 1000
  const MAX_ASSET_CODE_LENGTH := 16
  const MAX_ADDRESS_LENGTH := 256

  datatype Terms = Terms(
    version: nat, assetA: string, assetB: string, totalA: nat, totalB: nat, rounds: nat, firstSender: Party)

  predicate ValidAsset(asset: string)
  {
    && 0 < |asset| <= MAX_ASSET_CODE_LENGTH
    && forall i :: 0 <= i < |asset| ==>
         'a' <= asset[i] <= 'z' || 'A' <= asset[i] <= 'Z' || '0' <= asset[i] <= '9' || asset[i] in {'.', '_', '-'}
  }

  predicate ValidAddress(address: string)
  {
    0 < |address| <= MAX_ADDRESS_LENGTH && forall i :: 0 <= i < |address| ==> '!' <= address[i] <= '~'
  }

  predicate ValidTerms(t: Terms)
  {
    && t.version == PROTOCOL_VERSION
    && ValidAsset(t.assetA) && ValidAsset(t.assetB) && t.assetA != t.assetB
    && t.totalA > 0 && t.totalB > 0
    && 0 < t.rounds <= MAX_ROUNDS
    && t.rounds <= t.totalA && t.rounds <= t.totalB
  }

  /** What stays fixed during a session. A fee of zero means there is no fee leg. */
  datatype Room = Room(
    id: nat, terms: Terms, fee: nat, feeAsset: string, feeAddress: string, requireConfirmation: bool, position: FeePosition)

  predicate ValidRoom(room: Room)
  {
    && ValidTerms(room.terms)
    && room.id != 0
    && (if room.fee == 0 then room.feeAsset == "" && room.feeAddress == ""
        else ValidAsset(room.feeAsset) && ValidAddress(room.feeAddress))
  }

  datatype State = State(phase: Phase, round: nat, leg: nat, ackedA: bool, ackedB: bool)

  const INITIAL := State(WaitingForPeer, 0, 0, false, false)

  datatype Signal = Signal(room: nat, round: nat, sender: Party)

  datatype Event =
    | Join(room: nat, addressValid: bool)
    | Sent(from: Party, signal: Signal)
    | Received(from: Party, signal: Signal)
    | AckReceipt(party: Party)
    | ConfirmFee
    | Abort

  // ----- transitions -----

  function Sender(room: Room, s: State): (p: Party)
  {
    var first := if s.round % 2 == 1 then Other(room.terms.firstSender) else room.terms.firstSender;
    if s.leg == 0 then first else Other(first)
  }

  predicate FeeIsFinal(room: Room)
  {
    room.fee > 0 && room.position == AfterLastRound
  }

  function AfterJoin(room: Room): (p: Phase)
  {
    if room.fee > 0 && (room.position == BeforeFirstRound || (room.position == BeforeLastRound && room.terms.rounds <= 1))
    then WaitingForFeeSent else WaitingForSent
  }

  function AfterFee(room: Room): (p: Phase)
  {
    if room.position == AfterLastRound then Complete else WaitingForSent
  }

  /** The round counter is a 32-bit unsigned number. */
  function NextRound(round: nat): (r: nat)
  {
    (round + 1) % ROUND_MODULUS
  }

  /** advance_after_receipt. */
  function Advance(room: Room, s: State): (t: State)
  {
    if s.leg == 0 then
      if NextRound(s.round) == room.terms.rounds && !FeeIsFinal(room)
      then State(WaitingForFinalReceiptAck, s.round, 1, false, false)
      else s.(phase := WaitingForSent, leg := 1)
    else
      var t := s.(round := NextRound(s.round), leg := 0);
      if room.fee > 0 && room.position == BeforeLastRound && t.round == room.terms.rounds - 1 then
        t.(phase := WaitingForFeeSent)
      else if t.round == room.terms.rounds then
        if FeeIsFinal(room) then State(WaitingForFinalReceiptAck, t.round, 0, false, false)
        else t.(phase := Complete)
      else t.(phase := WaitingForSent)
  }

  function AfterAck(room: Room, s: State, p: Party): (t: State)
  {
    var t := if p == A then s.(ackedA := true) else s.(ackedB := true);
    if t.ackedA && t.ackedB
    then t.(phase := if FeeIsFinal(room) && s.round == room.terms.rounds then WaitingForFeeSent else WaitingForSent)
    else t
  }

  predicate SignalMatches(room: Room, s: State, m: Signal, sender: Party)
  {
    m.room == room.id && m.round == s.round && m.sender == sender
  }

  /** The next state, or nothing when the session refuses the event (and then stays as it was). */
  function Step(room: Room, s: State, e: Event): (t: Option<State>)
  {
    match e
    case Join(id, addressValid) =>
      if s.phase == WaitingForPeer && id == room.id && addressValid then Some(s.(phase := AfterJoin(room))) else None
    case Sent(from, m) =>
      if s.phase == WaitingForFeeSent && from == A && SignalMatches(room, s, m, A) then
        Some(s.(phase := if room.requireConfirmation then WaitingForFeeConfirmation else AfterFee(room)))
      else if s.phase == WaitingForSent && from == Sender(room, s) && SignalMatches(room, s, m, Sender(room, s)) then
        Some(s.(phase := WaitingForReceived))
      else None
    case Received(from, m) =>
      if s.phase == WaitingForReceived && from == Other(Sender(room, s)) && SignalMatches(room, s, m, Sender(room, s))
      then Some(Advance(room, s)) else None
    case AckReceipt(p) =>
      if s.phase == WaitingForFinalReceiptAck && !(if p == A then s.ackedA else s.ackedB) then Some(AfterAck(room, s, p)) else None
    case ConfirmFee =>
      if s.phase == WaitingForFeeConfirmation then Some(s.(phase := AfterFee(room))) else None
    case Abort =>
      if s.phase == Complete then None else Some(s.(phase := Aborted))
  }

  /** The state after a run of accepted events. */
  function Run(room: Room, s: State, es: seq<Event>): (t: Option<State>)
    decreases es
  {
    if es == [] then Some(s)
    else
      var next := Step(room, s, es[0]);
      if next.None? then None else Run(room, next.value, es[1..])
  }

  // ----- reachable states -----

  /** The round at which the fee leg sits. */
  function FeeRound(room: Room): (r: int)
  {
    match room.position
    case BeforeFirstRound => 0
    case BeforeLastRound => room.terms.rounds - 1
    case AfterLastRound => room.terms.rounds
  }

  ghost predicate Reachable(room: Room, s: State)
  {
    match s.phase
    case WaitingForPeer => s == INITIAL
    case WaitingForSent => s.round < room.terms.rounds && s.leg <= 1
    case WaitingForReceived => s.round < room.terms.rounds && s.leg <= 1
    case WaitingForFeeSent => room.fee > 0 && s.round == FeeRound(room) && s.leg == 0
    case WaitingForFeeConfirmation => room.fee > 0 && room.requireConfirmation && s.round == FeeRound(room) && s.leg == 0
    case WaitingForFinalReceiptAck =>
      && !(s.ackedA && s.ackedB)
      && (if FeeIsFinal(room) then s.round == room.terms.rounds && s.leg == 0
          else s.round + 1 == room.terms.rounds && s.leg == 1)
    case Complete => s.round == room.terms.rounds && s.leg == 0
    case Aborted => s.leg <= 1 && s.round <= room.terms.rounds && (s.round == room.terms.rounds ==> s.leg == 0)
  }

  /** The receipt gate is already behind this state (true of the last leg when that is the final transfer). */
  predicate GateBehind(room: Room, s: State)
  {
    !FeeIsFinal(room) && s.round + 1 == room.terms.rounds && s.leg == 1
  }

  /** Both acknowledgements are on record when the final transfer is about to be announced. */
  predicate AcksOnRecord(room: Room, s: State)
  {
    ((s.phase == WaitingForSent && GateBehind(room, s)) || (s.phase == WaitingForFeeSent && FeeIsFinal(room)))
    ==> s.ackedA && s.ackedB
  }

  lemma {:induction false} StepKeepsReachable(room: Room, s: State, e: Event)
    requires ValidTerms(room.terms) && Reachable(room, s) && Step(room, s, e).Some?
    ensures Reachable(room, Step(room, s, e).value)
    ensures AcksOnRecord(room, s) ==> AcksOnRecord(room, Step(room, s, e).value)
  {
  }

  // ----- the exact number of events left -----

  function FeeEvents(room: Room): (r: nat)
  {
    if room.fee == 0 then 0 else if room.requireConfirmation then 2 else 1
  }

  /** Whether the fee leg is already behind a state in the middle of the rounds. */
  predicate FeeBehind(room: Room, s: State)
  {
    room.position == BeforeFirstRound || (room.position == BeforeLastRound && s.round + 1 == room.terms.rounds)
  }

  function Acks(s: State): (r: nat)
  {
    (if s.ackedA then 1 else 0) + (if s.ackedB then 1 else 0)
  }

  /** Events still to be accepted before Complete. */
  function Remaining(room: Room, s: State): (r: int)
  {
    var legs := 2 * (room.terms.rounds - s.round) - s.leg;
    match s.phase
    case WaitingForPeer => 1 + 4 * room.terms.rounds + 2 + FeeEvents(room)
    case WaitingForSent =>
      2 * legs + (if GateBehind(room, s) then 0 else 2) + (if FeeBehind(room, s) then 0 else FeeEvents(room))
    case WaitingForReceived =>
      2 * legs - 1 + (if GateBehind(room, s) then 0 else 2) + (if FeeBehind(room, s) then 0 else FeeEvents(room))
    case WaitingForFeeSent => FeeEvents(room) + (if FeeIsFinal(room) then 0 else 2 * legs + 2)
    case WaitingForFeeConfirmation => 1 + (if FeeIsFinal(room) then 0 else 2 * legs + 2)
    case WaitingForFinalReceiptAck => 2 - Acks(s) + (if FeeIsFinal(room) then FeeEvents(room) else 2)
    case Complete => 0
    case Aborted => 0
  }

  lemma {:induction false} AdvanceCounts(room: Room, s: State)
    requires ValidTerms(room.terms) && Reachable(room, s) && s.phase == WaitingForReceived
    ensures Remaining(room, Advance(room, s)) == Remaining(room, s) - 1
    ensures Advance(room, s).phase != Aborted
  {
    if s.leg == 0 {
      assert Advance(room, s).round == s.round;
    } else {
      assert Advance(room, s).round == s.round + 1;
    }
  }

  /** Every accepted event but an abort brings the session exactly one event closer to Complete. */
  lemma {:induction false} StepCounts(room: Room, s: State, e: Event)
    requires ValidTerms(room.terms) && Reachable(room, s) && Step(room, s, e).Some? && e != Abort && s.phase != Aborted
    ensures Remaining(room, Step(room, s, e).value) == Remaining(room, s) - 1
    ensures Step(room, s, e).value.phase != Aborted
  {
    hide Advance, Sender, SignalMatches;
    if e.Received? {
      AdvanceCounts(room, s);
    }
  }

  lemma {:induction false} RemainingZero(room: Room, s: State)
    requires ValidTerms(room.terms) && Reachable(room, s) && s.phase != Aborted
    ensures Remaining(room, s) >= 0
    ensures Remaining(room, s) == 0 <==> s.phase == Complete
  {
  }

  /** From every reachable state that is neither Complete nor Aborted some event is accepted. */
  lemma {:induction false} NeverStuck(room: Room, s: State) returns (e: Event)
    requires ValidTerms(room.terms) && Reachable(room, s) && s.phase != Complete && s.phase != Aborted
    ensures e != Abort && Step(room, s, e).Some?
  {
    match s.phase
    case WaitingForPeer => e := Join(room.id, true);
    case WaitingForSent => e := Sent(Sender(room, s), Signal(room.id, s.round, Sender(room, s)));
    case WaitingForReceived => e := Received(Other(Sender(room, s)), Signal(room.id, s.round, Sender(room, s)));
    case WaitingForFeeSent => e := Sent(A, Signal(room.id, s.round, A));
    case WaitingForFeeConfirmation => e := ConfirmFee;
    case WaitingForFinalReceiptAck => e := AckReceipt(if s.ackedA then B else A);
  }

  lemma {:induction false} AbortedStays(room: Room, s: State, es: seq<Event>)
    requires s.phase == Aborted && Run(room, s, es).Some?
    ensures Run(room, s, es).value.phase == Aborted
    decreases es
  {
    if es != [] {
      AbortedStays(room, Step(room, s, es[0]).value, es[1..]);
    }
  }

  lemma {:induction false} CompleteEnds(room: Room, s: State, es: seq<Event>)
    requires s.phase == Complete && Run(room, s, es).Some?
    ensures es == []
  {
  }

  lemma {:induction false} RunKeepsReachable(room: Room, s: State, es: seq<Event>)
    requires ValidTerms(room.terms) && Reachable(room, s) && Run(room, s, es).Some?
    ensures Reachable(room, Run(room, s, es).value)
    ensures AcksOnRecord(room, s) ==> AcksOnRecord(room, Run(room, s, es).value)
    decreases es
  {
    if es != [] {
      StepKeepsReachable(room, s, es[0]);
      RunKeepsReachable(room, Step(room, s, es[0]).value, es[1..]);
    }
  }

  lemma {:induction false} CompletedRunLength(room: Room, s: State, es: seq<Event>)
    requires ValidTerms(room.terms) && Reachable(room, s) && s.phase != Aborted
    requires Run(room, s, es).Some? && Run(room, s, es).value.phase == Complete
    ensures |es| == Remaining(room, s)
    decreases es
  {
    if es == [] {
    } else {
      var t := Step(room, s, es[0]).value;
      StepKeepsReachable(room, s, es[0]);
      if es[0] == Abort {
        AbortedStays(room, t, es[1..]);
        assert false;
      }
      StepCounts(room, s, es[0]);
      CompletedRunLength(room, t, es[1..]);
    }
  }

  /** A completed session accepted exactly 1 + 4 rounds + 2 events, plus one for a fee and one more to confirm it. */
  lemma {:induction false} EventsOfACompletedSession(room: Room, es: seq<Event>)
    requires ValidTerms(room.terms)
    requires Run(room, INITIAL, es).Some? && Run(room, INITIAL, es).value.phase == Complete
    ensures |es| == 1 + 4 * room.terms.rounds + 2 + FeeEvents(room)
  {
    CompletedRunLength(room, INITIAL, es);
  }

  /** Every session that is not aborted can still be completed, in exactly the events that remain. */
  lemma {:induction false} CanComplete(room: Room, s: State) returns (es: seq<Event>)
    requires ValidTerms(room.terms) && Reachable(room, s) && s.phase != Aborted
    ensures Run(room, s, es).Some? && Run(room, s, es).value.phase == Complete && |es| == Remaining(room, s)
    decreases Remaining(room, s)
  {
    hide Step, Remaining, Reachable, ValidTerms;
    RemainingZero(room, s);
    if s.phase == Complete {
      es := [];
    } else {
      var e := NeverStuck(room, s);
      StepKeepsReachable(room, s, e);
      StepCounts(room, s, e);
      RemainingZero(room, Step(room, s, e).value);
      var rest := CanComplete(room, Step(room, s, e).value);
      es := [e] + rest;
      assert es[1..] == rest;
    }
  }

  lemma {:induction false} RunCounts(room: Room, s: State, es: seq<Event>)
    requires ValidTerms(room.terms) && Reachable(room, s) && s.phase != Aborted
    requires Run(room, s, es).Some? && Run(room, s, es).value.phase != Aborted
    ensures Remaining(room, Run(room, s, es).value) == Remaining(room, s) - |es|
    decreases es
  {
    if es != [] {
      var t := Step(room, s, es[0]).value;
      StepKeepsReachable(room, s, es[0]);
      if es[0] == Abort {
        AbortedStays(room, t, es[1..]);
        assert false;
      }
      StepCounts(room, s, es[0]);
      RunCounts(room, t, es[1..]);
    }
  }

  lemma {:induction false} RunConcat(room: Room, s: State, es: seq<Event>, es': seq<Event>)
    requires Run(room, s, es).Some?
    ensures Run(room, s, es + es') == Run(room, Run(room, s, es).value, es')
    decreases es
  {
    if es == [] {
      assert es + es' == es';
    } else {
      assert (es + es')[1..] == es[1..] + es';
      RunConcat(room, Step(room, s, es[0]).value, es[1..], es');
    }
  }

  // ----- restart -----

  /** restore: everything persisted comes back, the gate acknowledgements do not. */
  function Restored(s: State): (r: State)
  {
    s.(ackedA := false, ackedB := false)
  }

  /** The same session as far as any later event can tell: the acknowledgement flags matter only inside the gate. */
  predicate Equivalent(s: State, t: State)
  {
    && Restored(s) == Restored(t)
    && (s.phase == WaitingForFinalReceiptAck ==> s == t)
  }

  lemma {:induction false} EquivalentStep(room: Room, s: State, t: State, e: Event)
    requires Equivalent(s, t)
    ensures Step(room, s, e).Some? <==> Step(room, t, e).Some?
    ensures Step(room, s, e).Some? ==> Equivalent(Step(room, s, e).value, Step(room, t, e).value)
  {
    assert Sender(room, s) == Sender(room, t);
  }

  lemma {:induction false} EquivalentRun(room: Room, s: State, t: State, es: seq<Event>)
    requires Equivalent(s, t)
    ensures Run(room, s, es).Some? <==> Run(room, t, es).Some?
    ensures Run(room, s, es).Some? ==> Equivalent(Run(room, s, es).value, Run(room, t, es).value)
    decreases es
  {
    if es != [] {
      EquivalentStep(room, s, t, es[0]);
      if Step(room, s, es[0]).Some? {
        EquivalentRun(room, Step(room, s, es[0]).value, Step(room, t, es[0]).value, es[1..]);
      }
    }
  }

  /** The acknowledgements a restart in the middle of the gate forgets. */
  function ForgottenAcks(s: State): (r: seq<Event>)
  {
    if s.phase != WaitingForFinalReceiptAck then []
    else (if s.ackedA then [AckReceipt(A)] else []) + (if s.ackedB then [AckReceipt(B)] else [])
  }

  /** Resuming from restore and giving again the forgotten acknowledgements, every continuation goes as it would have. */
  lemma {:induction false} RestoreResumes(room: Room, s: State, es: seq<Event>)
    requires ValidTerms(room.terms) && Reachable(room, s)
    ensures Reachable(room, Restored(s))
    ensures Run(room, Restored(s), ForgottenAcks(s) + es).Some? <==> Run(room, s, es).Some?
    ensures Run(room, s, es).Some? ==>
      Equivalent(Run(room, s, es).value, Run(room, Restored(s), ForgottenAcks(s) + es).value)
  {
    var r, acks := Restored(s), ForgottenAcks(s);
    if acks == [] {
      assert Run(room, r, acks) == Some(r);
      assert Equivalent(s, r);
    } else {
      assert |acks| == 1 && acks[1..] == [];
      assert Run(room, r, acks) == Some(AfterAck(room, r, acks[0].party));
      assert AfterAck(room, r, acks[0].party) == s;
    }
    RunConcat(room, r, acks, es);
    EquivalentRun(room, s, Run(room, r, acks).value, es);
  }
}
