/** The mediator's session object. Every method refines one event of the settlement protocol: it either moves the
    session to the state that Settlement.Step gives, or refuses and leaves the session as it was. */
module MediatorSession {
  import opened Outcomes
  import opened Settlement
  import opened Ledger

  const MAX_REASON_LENGTH := 128

  datatype Turn = Turn(
    room: nat, round: nat, sender: Party, asset: string, amount: nat, destination: string, isFee: bool)

  class Session {
    const room: Room
    var phase: Phase
    var round: nat
    var leg: nat
    var ackedA: bool
    var ackedB: bool
    var addressA: string
    var addressB: string
    var abortReason: string

    function Current(): (s: State)
      reads this
    {
      State(phase, round, leg, ackedA, ackedB)
    }

    /** What the constructor and restore both guarantee, whatever state was persisted. */
    predicate Valid()
      reads this
    {
      ValidRoom(room) && round < ROUND_MODULUS && leg <= 1
    }

    /** The session is in a state that a session under this room can reach: not so for every persisted state, nor after a
        restart under another fee position. */
    ghost predicate OnTrack()
      reads this
    {
      Reachable(room, Current())
    }

    constructor (room: Room, addressA: string)
      requires ValidRoom(room) && ValidAddress(addressA)
      ensures Valid() && OnTrack() && this.room == room && Current() == INITIAL
      ensures this.addressA == addressA && addressB == "" && abortReason == ""
    {
      this.room := room;
      phase, round, leg, ackedA, ackedB := WaitingForPeer, 0, 0, false, false;
      this.addressA, addressB, abortReason := addressA, "", "";
    }

    /** restore: the persisted position, with the acknowledgement flags down. */
    constructor Restore(room: Room, addressA: string, addressB: string, phase: Phase, round: nat, leg: nat, reason: string)
      requires ValidRoom(room) && round <= room.terms.rounds && leg <= 1
      requires addressA == "" || ValidAddress(addressA)
      requires addressB == "" || ValidAddress(addressB)
      ensures Valid() && this.room == room && Current() == State(phase, round, leg, false, false)
      ensures this.addressA == addressA && this.addressB == addressB && abortReason == reason
      ensures forall s: State :: Reachable(room, s) && s.phase == phase && s.round == round && s.leg == leg ==>
        Current() == Restored(s) && OnTrack()
    {
      this.room := room;
      this.phase, this.round, this.leg, ackedA, ackedB := phase, round, leg, false, false;
      this.addressA, this.addressB, abortReason := addressA, addressB, reason;
    }

    /** The public constructor: it throws on terms, address, room id or fee that do not validate. */
    static method Create(room: Room, addressA: string) returns (r: Result<Session>)
      ensures r.Ok? <==> ValidRoom(room) && ValidAddress(addressA)
      ensures r.Ok? ==> fresh(r.value) && r.value.Valid() && r.value.OnTrack() && r.value.room == room
      ensures r.Ok? ==> r.value.Current() == INITIAL
      ensures r.Ok? ==> r.value.addressA == addressA && r.value.addressB == "" && r.value.abortReason == ""
    {
      if !ValidRoom(room) || !ValidAddress(addressA) {
        return Refused;
      }
      var session := new Session(room, addressA);
      return Ok(session);
    }

    /** The restore factory: addresses may be blank, everything else validates as in the constructor. */
    static method Resume(room: Room, addressA: string, addressB: string, phase: Phase, round: nat, leg: nat, reason: string)
      returns (r: Result<Session>)
      ensures r.Ok? <==>
        && ValidRoom(room) && round <= room.terms.rounds && leg <= 1
        && (addressA == "" || ValidAddress(addressA)) && (addressB == "" || ValidAddress(addressB))
      ensures r.Ok? ==> fresh(r.value) && r.value.Valid() && r.value.room == room
      ensures r.Ok? ==> r.value.Current() == State(phase, round, leg, false, false)
      ensures r.Ok? ==> r.value.addressA == addressA && r.value.addressB == addressB && r.value.abortReason == reason
      ensures r.Ok? ==>
        forall s: State :: Reachable(room, s) && s.phase == phase && s.round == round && s.leg == leg ==>
          r.value.Current() == Restored(s) && r.value.OnTrack()
    {
      if !ValidRoom(room) || (addressA != "" && !ValidAddress(addressA)) || (addressB != "" && !ValidAddress(addressB))
         || round > room.terms.rounds || leg > 1 {
        return Refused;
      }
      var session := new Session.Restore(room, addressA, addressB, phase, round, leg, reason);
      return Ok(session);
    }

    /** The effect of an event: the state Settlement.Step gives, or a refusal that changes nothing; a session that was on
        track stays so. */
    twostate predicate Took(e: Event, accepted: bool)
      reads this
    {
      && (old(OnTrack()) && ValidTerms(room.terms) ==> OnTrack())
      && accepted == Step(room, old(Current()), e).Some?
      && (if accepted then Current() == Step(room, old(Current()), e).value
          else Current() == old(Current()) && abortReason == old(abortReason) && addressB == old(addressB))
    }

    method Join(id: nat, address: string) returns (accepted: bool)
      requires Valid()
      modifies `phase, `addressB
      ensures Valid() && Took(Event.Join(id, ValidAddress(address)), accepted)
      ensures accepted ==> addressB == address
    {
      StepIsReachable(Event.Join(id, ValidAddress(address)));
      if phase != WaitingForPeer || id != room.id || !ValidAddress(address) {
        return false;
      }
      addressB := address;
      var feeDueBeforeAnyRound :=
        room.fee > 0
        && (room.position == BeforeFirstRound || (room.position == BeforeLastRound && room.terms.rounds <= 1));
      phase := if feeDueBeforeAnyRound then WaitingForFeeSent else WaitingForSent;
      return true;
    }

    lemma StepIsReachable(e: Event)
      requires Valid()
      ensures OnTrack() && Step(room, Current(), e).Some? ==> Reachable(room, Step(room, Current(), e).value)
    {
      if OnTrack() && Step(room, Current(), e).Some? {
        StepKeepsReachable(room, Current(), e);
      }
    }

    function FirstSenderForRound(): (p: Party)
      reads this
    {
      if round % 2 != 0 then Other(room.terms.firstSender) else room.terms.firstSender
    }

    /** current_sender, which throws when nobody is due to send. */
    function CurrentSender(): (p: Option<Party>)
      reads this
    {
      if phase in {WaitingForPeer, Complete, Aborted, WaitingForFinalReceiptAck, WaitingForFeeConfirmation} then None
      else if phase == WaitingForFeeSent then Some(A)
      else Some(if leg == 0 then FirstSenderForRound() else Other(FirstSenderForRound()))
    }

    /** What the sender is asked to transfer next; nothing when nobody is due to send, or when the round lies past the last
        one and the tranche computation throws. */
    function CurrentTurn(): (t: Option<Turn>)
      requires Valid()
      reads this
    {
      if phase == WaitingForFeeSent then Some(Turn(room.id, round, A, room.feeAsset, room.fee, room.feeAddress, true))
      else
        match CurrentSender()
        case None => None
        case Some(sender) =>
          if round >= room.terms.rounds then None
          else if sender == A then
            Some(Turn(room.id, round, A, room.terms.assetA, Tranche(room.terms.totalA, room.terms.rounds, round), addressB, false))
          else
            Some(Turn(room.id, round, B, room.terms.assetB, Tranche(room.terms.totalB, room.terms.rounds, round), addressA, false))
    }

    /** The turn announced before a leg: in the sender's asset, to the other party's address, never zero; the sender's
        report and then the receiver's, for that turn, are accepted, and the sender's recorded payments have grown by
        exactly the amount announced and nobody else's. */
    lemma {:induction false} TurnIsWhatIsRecorded(h: History)
      requires Valid() && OnTrack() && phase == WaitingForSent
      ensures CurrentTurn().Some?
      ensures
        var turn, s := CurrentTurn().value, Current();
        var m := Signal(turn.room, turn.round, turn.sender);
        var sent, received := Sent(turn.sender, m), Received(Other(turn.sender), m);
        && !turn.isFee && turn.amount > 0
        && turn.asset == (if turn.sender == A then room.terms.assetA else room.terms.assetB)
        && turn.destination == (if turn.sender == A then addressB else addressA)
        && Step(room, s, sent).Some? && Step(room, Step(room, s, sent).value, received).Some?
        && var k := Record(room, Record(room, h, s, sent), Step(room, s, sent).value, received);
           && (turn.sender == A ==> k.paidA == h.paidA + turn.amount && k.paidB == h.paidB)
           && (turn.sender == B ==> k.paidB == h.paidB + turn.amount && k.paidA == h.paidA)
           && k.legs == h.legs + 1 && k.fees == h.fees
    {
      hide Advance, ValidAsset, ValidAddress;
      assert CurrentSender().value == Sender(room, Current());
      TranchePositive(room.terms.totalA, room.terms.rounds, round);
      TranchePositive(room.terms.totalB, room.terms.rounds, round);
    }

    /** The turn announced for the fee: from the creator, in the fee's asset and to its address, for exactly the fee; the
        report for it is accepted and counts as one fee leg. */
    lemma {:induction false} FeeTurnIsWhatIsRecorded(h: History)
      requires Valid() && OnTrack() && phase == WaitingForFeeSent
      ensures CurrentTurn().Some?
      ensures
        var turn, s := CurrentTurn().value, Current();
        var sent := Sent(turn.sender, Signal(turn.room, turn.round, turn.sender));
        && turn.isFee && turn.sender == A && turn.amount == room.fee > 0
        && turn.asset == room.feeAsset && turn.destination == room.feeAddress
        && Step(room, s, sent).Some?
        && Record(room, h, s, sent) == h.(fees := h.fees + 1, feeSlot := h.legs)
    {
      hide Advance, ValidAsset, ValidAddress;
    }

    predicate SignalValid(m: Signal)
      reads this
    {
      m.room == room.id && m.round == round && Some(m.sender) == CurrentSender()
    }

    method SenderReportedSent(from: Party, m: Signal) returns (accepted: bool)
      requires Valid()
      modifies `phase
      ensures Valid() && Took(Sent(from, m), accepted)
      ensures accepted ==> from == m.sender && m.room == room.id && m.round == old(round)
    {
      StepIsReachable(Sent(from, m));
      if phase == WaitingForFeeSent {
        if m.room != room.id || m.round != round || from != A || m.sender != A {
          return false;
        }
        var feeIsFinalAction := room.position == AfterLastRound;
        if room.requireConfirmation {
          phase := WaitingForFeeConfirmation;
        } else {
          phase := if feeIsFinalAction then Complete else WaitingForSent;
        }
        return true;
      }
      if phase != WaitingForSent || !SignalValid(m) || Some(from) != CurrentSender() {
        return false;
      }
      phase := WaitingForReceived;
      return true;
    }

    method ReceiverReportedReceived(from: Party, m: Signal) returns (accepted: bool)
      requires Valid()
      modifies `phase, `round, `leg, `ackedA, `ackedB
      ensures Valid() && Took(Received(from, m), accepted)
      ensures accepted ==> from == Other(m.sender) && m.room == room.id && m.round == old(round)
    {
      StepIsReachable(Received(from, m));
      if phase != WaitingForReceived || !SignalValid(m) {
        return false;
      }
      var sender := CurrentSender();
      if from != Other(sender.value) {
        return false;
      }
      AdvanceAfterReceipt();
      return true;
    }

    method AdvanceAfterReceipt()
      requires Valid()
      modifies `phase, `round, `leg, `ackedA, `ackedB
      ensures Valid() && Current() == Advance(room, old(Current()))
    {
      if leg == 0 {
        leg := 1;
        var isLastRound := NextRound(round) == room.terms.rounds;
        if isLastRound && (room.fee == 0 || room.position != AfterLastRound) {
          ackedA, ackedB := false, false;
          phase := WaitingForFinalReceiptAck;
        } else {
          phase := WaitingForSent;
        }
        return;
      }
      leg := 0;
      round := NextRound(round);
      if room.fee > 0 && room.position == BeforeLastRound && round == room.terms.rounds - 1 {
        phase := WaitingForFeeSent;
        return;
      }
      if round == room.terms.rounds {
        if room.fee > 0 && room.position == AfterLastRound {
          ackedA, ackedB := false, false;
          phase := WaitingForFinalReceiptAck;
        } else {
          phase := Complete;
        }
      } else {
        phase := WaitingForSent;
      }
    }

    method ConfirmFeeReceived() returns (accepted: bool)
      requires Valid()
      modifies `phase
      ensures Valid() && Took(ConfirmFee, accepted)
    {
      StepIsReachable(ConfirmFee);
      if phase != WaitingForFeeConfirmation {
        return false;
      }
      phase := if room.position == AfterLastRound then Complete else WaitingForSent;
      return true;
    }

    method AcknowledgeFinalReceipt(party: Party) returns (accepted: bool)
      requires Valid()
      modifies `phase, `ackedA, `ackedB
      ensures Valid() && Took(AckReceipt(party), accepted)
    {
      StepIsReachable(AckReceipt(party));
      if phase != WaitingForFinalReceiptAck || (if party == A then ackedA else ackedB) {
        return false;
      }
      if party == A {
        ackedA := true;
      } else {
        ackedB := true;
      }
      if ackedA && ackedB {
        var gateIsFeeLeg := room.fee > 0 && room.position == AfterLastRound && round == room.terms.rounds;
        phase := if gateIsFeeLeg then WaitingForFeeSent else WaitingForSent;
      }
      return true;
    }

    method AbortSession(reason: string) returns (accepted: bool)
      requires Valid()
      modifies `phase, `abortReason
      ensures Valid() && Took(Abort, accepted)
      ensures accepted ==> 0 < |abortReason| <= MAX_REASON_LENGTH
      ensures accepted && reason == "" ==> abortReason == "session aborted"
      ensures accepted && 0 < |reason| <= MAX_REASON_LENGTH ==> abortReason == reason
      ensures accepted && |reason| > MAX_REASON_LENGTH ==> abortReason == reason[..MAX_REASON_LENGTH]
    {
      StepIsReachable(Abort);
      if phase == Complete {
        return false;
      }
      var text := if reason == "" then "session aborted" else reason;
      abortReason := if |text| > MAX_REASON_LENGTH then text[..MAX_REASON_LENGTH] else text;
      phase := Aborted;
      return true;
    }
  }
}
