/** What has changed hands at every point of a settlement run: tranches, the fee leg and the receipt gate. */
module Ledger {
  import opened Settlement

  // ----- tranches -----

  /** tranche_amount: total / rounds, the remainder going to the earliest rounds. */
  function Tranche(total: nat, rounds: nat, k: nat): (r: nat)
    requires rounds > 0
  {
    total / rounds + (if k < total % rounds then 1 else 0)
  }

  function TranchesBefore(total: nat, rounds: nat, k: nat): (r: nat)
    requires rounds > 0
  {
    if k == 0 then 0 else TranchesBefore(total, rounds, k - 1) + Tranche(total, rounds, k - 1)
  }

  lemma {:induction false} TranchesClosedForm(total: nat, rounds: nat, k: nat)
    requires rounds > 0
    ensures TranchesBefore(total, rounds, k) == k * (total / rounds) + (if k < total % rounds then k else total % rounds)
  {
    if k > 0 {
      TranchesClosedForm(total, rounds, k - 1);
      assert k * (total / rounds) == (k - 1) * (total / rounds) + total / rounds;
    }
  }

  /** Nothing is lost to integer division. */
  lemma {:induction false} TranchesSum(total: nat, rounds: nat)
    requires rounds > 0
    ensures TranchesBefore(total, rounds, rounds) == total
  {
    TranchesClosedForm(total, rounds, rounds);
    assert total == rounds * (total / rounds) + total % rounds;
  }

  /** Terms that pass validation never ask for an empty transfer. */
  lemma {:induction false} TranchePositive(total: nat, rounds: nat, k: nat)
    requires 0 < rounds <= total
    ensures Tranche(total, rounds, k) > 0
  {
    assert total == rounds * (total / rounds) + total % rounds;
  }

  lemma {:induction false} TranchesIncrease(total: nat, rounds: nat, j: nat, k: nat)
    requires 0 < rounds <= total && j < k
    ensures TranchesBefore(total, rounds, j) < TranchesBefore(total, rounds, k)
    decreases k
  {
    TranchePositive(total, rounds, k - 1);
    if j < k - 1 {
      TranchesIncrease(total, rounds, j, k - 1);
    }
  }

  // ----- history of a run -----

  /** Amounts received from each party, legs received, fee legs and receipt gates with the number of legs received
      when they happened, and gate acknowledgements. */
  datatype History = History(
    paidA: nat, paidB: nat, legs: nat, fees: nat, feeSlot: int, gates: nat, gateSlot: int, acks: nat)

  const START := History(0, 0, 0, 0, -1, 0, -1, 0)

  function Total(room: Room, p: Party): (r: nat)
  {
    if p == A then room.terms.totalA else room.terms.totalB
  }

  /** The history after an accepted event. */
  function Record(room: Room, h: History, s: State, e: Event): (r: History)
    requires ValidTerms(room.terms)
  {
    match e
    case Sent(_, _) => if s.phase == WaitingForFeeSent then h.(fees := h.fees + 1, feeSlot := h.legs) else h
    case Received(_, _) =>
      var p := Sender(room, s);
      var amount := Tranche(Total(room, p), room.terms.rounds, s.round);
      var paid := if p == A then h.(paidA := h.paidA + amount) else h.(paidB := h.paidB + amount);
      var counted := paid.(legs := h.legs + 1);
      if Advance(room, s).phase == WaitingForFinalReceiptAck
      then counted.(gates := h.gates + 1, gateSlot := counted.legs) else counted
    case AckReceipt(_) => h.(acks := h.acks + 1)
    case _ => h
  }

  function Recorded(room: Room, h: History, s: State, es: seq<Event>): (r: History)
    requires ValidTerms(room.terms) && Run(room, s, es).Some?
    decreases es
  {
    if es == [] then h else Recorded(room, Record(room, h, s, es[0]), Step(room, s, es[0]).value, es[1..])
  }

  /** How many tranches a party has had acknowledged. */
  function Settled(room: Room, s: State, p: Party): (r: nat)
  {
    var first := if s.round % 2 == 1 then Other(room.terms.firstSender) else room.terms.firstSender;
    s.round + (if s.leg == 1 && p == first then 1 else 0)
  }

  function FeesPaid(room: Room, s: State): (r: nat)
  {
    if room.fee == 0 then 0
    else match s.phase
      case WaitingForPeer | WaitingForFeeSent => 0
      case WaitingForSent | WaitingForReceived => if FeeBehind(room, s) then 1 else 0
      case WaitingForFinalReceiptAck => if FeeIsFinal(room) then 0 else 1
      case _ => 1
  }

  function GatesOpened(room: Room, s: State): (r: nat)
  {
    match s.phase
    case WaitingForPeer => 0
    case WaitingForSent | WaitingForReceived => if GateBehind(room, s) then 1 else 0
    case WaitingForFeeSent | WaitingForFeeConfirmation => if FeeIsFinal(room) then 1 else 0
    case _ => 1
  }

  function AcksGiven(room: Room, s: State): (r: nat)
  {
    if s.phase == WaitingForFinalReceiptAck then Acks(s) else 2 * GatesOpened(room, s)
  }

  function GateSlot(room: Room): (r: int)
  {
    if FeeIsFinal(room) then 2 * room.terms.rounds else 2 * room.terms.rounds - 1
  }

  ghost predicate AmountsAgree(room: Room, s: State, h: History)
    requires ValidTerms(room.terms)
  {
    && h.legs == 2 * s.round + s.leg
    && h.paidA == TranchesBefore(room.terms.totalA, room.terms.rounds, Settled(room, s, A))
    && h.paidB == TranchesBefore(room.terms.totalB, room.terms.rounds, Settled(room, s, B))
  }

  ghost predicate SlotsAgree(room: Room, s: State, h: History)
  {
    s.phase != Aborted ==>
      && h.fees == FeesPaid(room, s) && (h.fees > 0 ==> h.feeSlot == 2 * FeeRound(room))
      && h.gates == GatesOpened(room, s) && (h.gates > 0 ==> h.gateSlot == GateSlot(room))
  }

  ghost predicate AcksAgree(room: Room, s: State, h: History)
  {
    s.phase != Aborted ==> h.acks == AcksGiven(room, s)
  }

  /** A receipt settles one more tranche of the sender and none of the receiver. */
  lemma {:induction false} ReceiptSettles(room: Room, s: State, p: Party)
    requires s.leg <= 1 && s.round + 1 < ROUND_MODULUS
    ensures Settled(room, Advance(room, s), p) == Settled(room, s, p) + (if p == Sender(room, s) then 1 else 0)
    ensures Settled(room, s, Sender(room, s)) == s.round
    ensures 2 * Advance(room, s).round + Advance(room, s).leg == 2 * s.round + s.leg + 1
  {
    var t := Advance(room, s);
    if s.leg == 0 {
      assert t.round == s.round && t.leg == 1;
    } else {
      assert t.round == s.round + 1 && t.leg == 0;
    }
  }

  lemma {:induction false} OtherEventsSettleNothing(room: Room, s: State, e: Event)
    requires Step(room, s, e).Some? && !e.Received?
    ensures Step(room, s, e).value.round == s.round && Step(room, s, e).value.leg == s.leg
  {
  }

  lemma {:induction false} RecordKeepsAmounts(room: Room, h: History, s: State, e: Event)
    requires ValidTerms(room.terms) && Reachable(room, s) && Step(room, s, e).Some? && AmountsAgree(room, s, h)
    ensures AmountsAgree(room, Step(room, s, e).value, Record(room, h, s, e))
  {
    hide Advance, Sender, Settled;
    if e.Received? {
      assert s.leg <= 1;
      ReceiptSettles(room, s, A);
      ReceiptSettles(room, s, B);
    } else {
      OtherEventsSettleNothing(room, s, e);
      SettledByPosition(room, s, Step(room, s, e).value);
    }
  }

  lemma {:induction false} SettledByPosition(room: Room, s: State, t: State)
    requires s.round == t.round && s.leg == t.leg
    ensures Settled(room, s, A) == Settled(room, t, A) && Settled(room, s, B) == Settled(room, t, B)
  {
  }

  lemma {:induction false} ReceiptKeepsSlots(room: Room, h: History, s: State, e: Event)
    requires ValidTerms(room.terms) && Reachable(room, s) && Step(room, s, e).Some? && e.Received?
    requires h.legs == 2 * s.round + s.leg && SlotsAgree(room, s, h)
    ensures SlotsAgree(room, Advance(room, s), Record(room, h, s, e))
    ensures AcksAgree(room, s, h) ==> AcksAgree(room, Advance(room, s), Record(room, h, s, e))
  {
    hide Tranche;
    if s.leg == 0 {
      assert Advance(room, s).round == s.round;
    } else {
      assert Advance(room, s).round == s.round + 1;
    }
  }

  lemma {:induction false} RecordKeepsSlots(room: Room, h: History, s: State, e: Event)
    requires ValidTerms(room.terms) && Reachable(room, s) && Step(room, s, e).Some?
    requires h.legs == 2 * s.round + s.leg && SlotsAgree(room, s, h)
    ensures SlotsAgree(room, Step(room, s, e).value, Record(room, h, s, e))
    ensures AcksAgree(room, s, h) ==> AcksAgree(room, Step(room, s, e).value, Record(room, h, s, e))
  {
    hide Advance, Tranche, Sender, SignalMatches;
    if e.Received? {
      ReceiptKeepsSlots(room, h, s, e);
    }
  }

  lemma {:induction false} RecordedAgrees(room: Room, h: History, s: State, es: seq<Event>)
    requires ValidTerms(room.terms) && Reachable(room, s) && Run(room, s, es).Some?
    requires AmountsAgree(room, s, h) && SlotsAgree(room, s, h)
    ensures AmountsAgree(room, Run(room, s, es).value, Recorded(room, h, s, es))
    ensures SlotsAgree(room, Run(room, s, es).value, Recorded(room, h, s, es))
    ensures AcksAgree(room, s, h) ==> AcksAgree(room, Run(room, s, es).value, Recorded(room, h, s, es))
    decreases es
  {
    if es != [] {
      StepKeepsReachable(room, s, es[0]);
      RecordKeepsAmounts(room, h, s, es[0]);
      RecordKeepsSlots(room, h, s, es[0]);
      RecordedAgrees(room, Record(room, h, s, es[0]), Step(room, s, es[0]).value, es[1..]);
    }
  }

  /** At every reachable state, aborted ones included, each party's acknowledged amount is a prefix of its tranches, and
      the two parties are at most one leg apart. */
  lemma {:induction false} NeverMoreThanOneLegApart(room: Room, es: seq<Event>)
    requires ValidTerms(room.terms) && Run(room, INITIAL, es).Some?
    ensures
      var s, h := Run(room, INITIAL, es).value, Recorded(room, START, INITIAL, es);
      && h.paidA == TranchesBefore(room.terms.totalA, room.terms.rounds, Settled(room, s, A))
      && h.paidB == TranchesBefore(room.terms.totalB, room.terms.rounds, Settled(room, s, B))
      && s.round <= Settled(room, s, A) <= s.round + 1
      && s.round <= Settled(room, s, B) <= s.round + 1
      && Settled(room, s, A) + Settled(room, s, B) == h.legs <= 2 * room.terms.rounds
      && Settled(room, s, A) <= room.terms.rounds && Settled(room, s, B) <= room.terms.rounds
  {
    RecordedAgrees(room, START, INITIAL, es);
    RunKeepsReachable(room, INITIAL, es);
  }

  /** A completed session has exchanged both totals exactly, had its fee leg once at the configured place (or never,
      without a fee), and opened one receipt gate, acknowledged by both parties, just before the last transfer. */
  lemma {:induction false} CompletedSession(room: Room, es: seq<Event>)
    requires ValidTerms(room.terms)
    requires Run(room, INITIAL, es).Some? && Run(room, INITIAL, es).value.phase == Complete
    ensures
      var h := Recorded(room, START, INITIAL, es);
      && h.paidA == room.terms.totalA && h.paidB == room.terms.totalB
      && h.fees == (if room.fee > 0 then 1 else 0)
      && (room.fee > 0 ==> h.feeSlot == 2 * FeeRound(room))
      && h.gates == 1 && h.gateSlot == GateSlot(room) && h.acks == 2
  {
    RecordedAgrees(room, START, INITIAL, es);
    RunKeepsReachable(room, INITIAL, es);
    TranchesSum(room.terms.totalA, room.terms.rounds);
    TranchesSum(room.terms.totalB, room.terms.rounds);
  }

  /** Transfers (legs and fee) not yet announced as sent. */
  function TransfersLeft(room: Room, s: State): (r: int)
  {
    2 * (room.terms.rounds - s.round) - s.leg + (if room.fee > 0 then 1 else 0) - FeesPaid(room, s)
  }

  /** A transfer may be announced only with the gate untouched, or, when it is the last one, acknowledged by both. */
  lemma {:induction false} GateGuardsTheLastTransfer(room: Room, es: seq<Event>)
    requires ValidTerms(room.terms) && Run(room, INITIAL, es).Some?
    requires Run(room, INITIAL, es).value.phase in {WaitingForSent, WaitingForFeeSent}
    ensures
      var s, h := Run(room, INITIAL, es).value, Recorded(room, START, INITIAL, es);
      && TransfersLeft(room, s) >= 1
      && (TransfersLeft(room, s) == 1 ==> h.gates == 1 && h.acks == 2 && s.ackedA && s.ackedB)
      && (TransfersLeft(room, s) > 1 ==> h.gates == 0 && h.acks == 0)
  {
    RecordedAgrees(room, START, INITIAL, es);
    RunKeepsReachable(room, INITIAL, es);
  }

  /** What agreement with a completed state says of a history. */
  lemma {:induction false} AgreementAtComplete(room: Room, s: State, h: History)
    requires ValidTerms(room.terms) && Reachable(room, s) && s.phase == Complete
    requires AmountsAgree(room, s, h) && SlotsAgree(room, s, h)
    ensures h.paidA == room.terms.totalA && h.paidB == room.terms.totalB
    ensures h.fees == (if room.fee > 0 then 1 else 0) && (room.fee > 0 ==> h.feeSlot == 2 * FeeRound(room))
    ensures h.gates == 1 && h.gateSlot == GateSlot(room)
  {
    TranchesSum(room.terms.totalA, room.terms.rounds);
    TranchesSum(room.terms.totalB, room.terms.rounds);
  }

  /** A restart changes nothing that a history is compared with, and moves the end back by what it forgets. */
  lemma {:induction false} RestoreAgrees(room: Room, s: State, h: History)
    requires ValidTerms(room.terms) && Reachable(room, s) && AmountsAgree(room, s, h) && SlotsAgree(room, s, h)
    ensures AmountsAgree(room, Restored(s), h) && SlotsAgree(room, Restored(s), h)
    ensures s.phase != Aborted ==> Remaining(room, Restored(s)) == Remaining(room, s) + |ForgottenAcks(s)|
  {
  }

  /** Cut a run anywhere, restore, and complete: the amounts, the fee and the gate are those of an uninterrupted run, and
      the only extra events are the acknowledgements that have to be given again. */
  lemma {:induction false} RestoredSession(room: Room, es: seq<Event>, rest: seq<Event>)
    requires ValidTerms(room.terms) && Run(room, INITIAL, es).Some? && Run(room, INITIAL, es).value.phase != Aborted
    requires
      var r := Run(room, Restored(Run(room, INITIAL, es).value), rest);
      r.Some? && r.value.phase == Complete
    ensures
      var s := Run(room, INITIAL, es).value;
      var h := Recorded(room, Recorded(room, START, INITIAL, es), Restored(s), rest);
      && h.paidA == room.terms.totalA && h.paidB == room.terms.totalB
      && h.fees == (if room.fee > 0 then 1 else 0)
      && (room.fee > 0 ==> h.feeSlot == 2 * FeeRound(room))
      && h.gates == 1 && h.gateSlot == GateSlot(room)
      && |es| + |rest| == 1 + 4 * room.terms.rounds + 2 + FeeEvents(room) + |ForgottenAcks(s)|
  {
    hide Step, Record, Recorded, ValidTerms;
    var s, h := Run(room, INITIAL, es).value, Recorded(room, START, INITIAL, es);
    StartAgrees(room);
    RunKeepsReachable(room, INITIAL, es);
    RecordedAgrees(room, START, INITIAL, es);
    RunCounts(room, INITIAL, es);
    RestoreAndFinish(room, s, h, rest);
  }

  lemma {:induction false} StartAgrees(room: Room)
    requires ValidTerms(room.terms)
    ensures Reachable(room, INITIAL) && AmountsAgree(room, INITIAL, START) && SlotsAgree(room, INITIAL, START)
  {
  }

  lemma {:induction false} RestoreAndFinish(room: Room, s: State, h: History, rest: seq<Event>)
    requires ValidTerms(room.terms) && Reachable(room, s) && s.phase != Aborted
    requires AmountsAgree(room, s, h) && SlotsAgree(room, s, h)
    requires Run(room, Restored(s), rest).Some? && Run(room, Restored(s), rest).value.phase == Complete
    ensures
      var k := Recorded(room, h, Restored(s), rest);
      && k.paidA == room.terms.totalA && k.paidB == room.terms.totalB
      && k.fees == (if room.fee > 0 then 1 else 0)
      && (room.fee > 0 ==> k.feeSlot == 2 * FeeRound(room))
      && k.gates == 1 && k.gateSlot == GateSlot(room)
      && |rest| == Remaining(room, s) + |ForgottenAcks(s)|
  {
    hide Step, Record, Recorded, Remaining, Reachable, ValidTerms, AmountsAgree, SlotsAgree, FeeRound, GateSlot;
    RestoreAgrees(room, s, h);
    RestoreResumes(room, s, []);
    assert Restored(s).phase != Aborted;
    RecordedAgrees(room, h, Restored(s), rest);
    RunKeepsReachable(room, Restored(s), rest);
    CompletedRunLength(room, Restored(s), rest);
    AgreementAtComplete(room, Run(room, Restored(s), rest).value, Recorded(room, h, Restored(s), rest));
  }
}
