/** The script of a settlement: which events, by whom and about what, a session accepts on its way to completion.  It is
    written down without reference to the session's states, and is then shown to be exactly what the session accepts. */
module SettlementScript {
  import opened Outcomes
  import opened Settlement

  /** Who sends first in a round: the parties take turns. */
  function FirstOf(room: Room, r: nat): (p: Party)
  {
    if r % 2 == 1 then Other(room.terms.firstSender) else room.terms.firstSender
  }

  /** A leg: the sender reports its transfer and the other party its receipt. */
  function Leg(room: Room, r: nat, p: Party): (es: seq<Event>)
  {
    [Sent(p, Signal(room.id, r, p)), Received(Other(p), Signal(room.id, r, p))]
  }

  /** The fee: the creator reports it, and the operator confirms it where that is asked for. */
  function Fee(room: Room, r: nat): (es: seq<Event>)
  {
    [Sent(A, Signal(room.id, r, A))] + (if room.requireConfirmation then [ConfirmFee] else [])
  }

  /** The gate: both parties acknowledge, one of them first. */
  function Gate(x: Party): (es: seq<Event>)
  {
    [AckReceipt(x), AckReceipt(Other(x))]
  }

  /** What follows the first leg of a round: the gate if the second is the last transfer of all, the second leg, and the
      rounds to come. */
  function SecondHalf(room: Room, r: nat, x: Party): (es: seq<Event>)
    requires r < room.terms.rounds
    decreases room.terms.rounds - r, 0
  {
    (if r + 1 == room.terms.rounds && !FeeIsFinal(room) then Gate(x) else [])
    + Leg(room, r, Other(FirstOf(room, r))) + Rest(room, r + 1, x)
  }

  /** The rounds from the given one on, without a fee before the first of them. */
  function Rounds(room: Room, r: nat, x: Party): (es: seq<Event>)
    requires r < room.terms.rounds
    decreases room.terms.rounds - r, 1
  {
    Leg(room, r, FirstOf(room, r)) + SecondHalf(room, r, x)
  }

  /** Everything from the beginning of a round on: the fee if it is due now, then the rounds; after the last of them the
      gate and the fee that was put off to the end. */
  function Rest(room: Room, r: nat, x: Party): (es: seq<Event>)
    requires r <= room.terms.rounds
    decreases room.terms.rounds - r, 2
  {
    if r == room.terms.rounds then
      if FeeIsFinal(room) then Gate(x) + Fee(room, r) else []
    else
      (if room.fee > 0 && FeeRound(room) == r then Fee(room, r) else []) + Rounds(room, r, x)
  }

  /** The whole script, for a gate acknowledged first by x. */
  function Script(room: Room, x: Party): (es: seq<Event>)
  {
    [Join(room.id, true)] + Rest(room, 0, x)
  }

  // ----- what is left of it in a state -----

  function AfterFeeScript(room: Room, r: nat, x: Party): (es: seq<Event>)
    requires r <= room.terms.rounds
  {
    if r == room.terms.rounds then [] else Rounds(room, r, x)
  }

  function AfterLeg(room: Room, s: State, x: Party): (es: seq<Event>)
    requires s.round < room.terms.rounds
  {
    if s.leg == 0 then SecondHalf(room, s.round, x) else Rest(room, s.round + 1, x)
  }

  function AcksLeft(s: State, x: Party): (es: seq<Event>)
  {
    if s.ackedA then [AckReceipt(B)] else if s.ackedB then [AckReceipt(A)] else Gate(x)
  }

  function AfterGate(room: Room, s: State, x: Party): (es: seq<Event>)
    requires s.round <= room.terms.rounds
  {
    if s.round == room.terms.rounds then Fee(room, s.round)
    else Leg(room, s.round, Other(FirstOf(room, s.round))) + Rest(room, s.round + 1, x)
  }

  ghost function Left(room: Room, s: State, x: Party): (es: seq<Event>)
    requires ValidTerms(room.terms) && Reachable(room, s)
  {
    match s.phase
    case WaitingForPeer => Script(room, x)
    case WaitingForSent => Leg(room, s.round, Sender(room, s)) + AfterLeg(room, s, x)
    case WaitingForReceived =>
      [Received(Other(Sender(room, s)), Signal(room.id, s.round, Sender(room, s)))] + AfterLeg(room, s, x)
    case WaitingForFeeSent => Fee(room, s.round) + AfterFeeScript(room, s.round, x)
    case WaitingForFeeConfirmation => [ConfirmFee] + AfterFeeScript(room, s.round, x)
    case WaitingForFinalReceiptAck => AcksLeft(s, x) + AfterGate(room, s, x)
    case _ => []
  }

  /** Which acknowledgement order the script before an event calls for. */
  function FirstAck(s: State, e: Event, x: Party): (y: Party)
  {
    if e.AckReceipt? && !s.ackedA && !s.ackedB then e.party else x
  }

  lemma {:induction false} RestIs(room: Room, r: nat, x: Party)
    requires r < room.terms.rounds
    ensures room.fee > 0 && FeeRound(room) == r ==> Rest(room, r, x) == Fee(room, r) + Rounds(room, r, x)
    ensures !(room.fee > 0 && FeeRound(room) == r) ==> Rest(room, r, x) == Rounds(room, r, x)
  {
    hide Rounds;
    assert [] + Rounds(room, r, x) == Rounds(room, r, x);
  }

  lemma {:induction false} RoundsLeft(room: Room, s: State, x: Party)
    requires ValidTerms(room.terms) && Reachable(room, s) && s.phase == WaitingForSent && s.leg == 0
    ensures Left(room, s, x) == Rounds(room, s.round, x)
  {
    hide SecondHalf;
    assert Sender(room, s) == FirstOf(room, s.round);
  }

  lemma {:induction false} JoinFollows(room: Room, s: State, e: Event, x: Party)
    requires ValidTerms(room.terms) && Reachable(room, s) && Step(room, s, e).Some? && e.Join?
    ensures Reachable(room, Step(room, s, e).value) && Left(room, s, x) == [e] + Left(room, Step(room, s, e).value, x)
  {
    hide Rest, Rounds;
    var t := Step(room, s, e).value;
    RestIs(room, 0, x);
    if t.phase == WaitingForSent {
      RoundsLeft(room, t, x);
    }
  }

  /** After the second leg of a round comes the beginning of the next. */
  lemma {:induction false} RoundEnds(room: Room, s: State, x: Party)
    requires ValidTerms(room.terms) && s.round < room.terms.rounds && s.leg == 1
    ensures Reachable(room, Advance(room, s)) && Left(room, Advance(room, s), x) == Rest(room, s.round + 1, x)
  {
    hide Rounds;
    var t := Advance(room, s);
    assert t.round == s.round + 1 && t.leg == 0;
    if t.round < room.terms.rounds {
      RestIs(room, t.round, x);
      if t.phase == WaitingForSent {
        RoundsLeft(room, t, x);
      }
    }
  }

  /** After the first leg comes the second half. */
  lemma {:induction false} HalfRoundEnds(room: Room, s: State, x: Party)
    requires ValidTerms(room.terms) && s.round < room.terms.rounds && s.leg == 0
    ensures Reachable(room, Advance(room, s)) && Left(room, Advance(room, s), x) == SecondHalf(room, s.round, x)
  {
    hide Rest;
    var t := Advance(room, s);
    assert t.round == s.round && t.leg == 1;
    assert Sender(room, t) == Other(FirstOf(room, s.round));
    var second := Leg(room, s.round, Other(FirstOf(room, s.round))) + Rest(room, s.round + 1, x);
    if t.phase == WaitingForSent {
      assert SecondHalf(room, s.round, x) == second;
    } else {
      assert SecondHalf(room, s.round, x) == Gate(x) + second;
    }
  }

  lemma {:induction false} SentFollows(room: Room, s: State, e: Event, x: Party)
    requires ValidTerms(room.terms) && Reachable(room, s) && Step(room, s, e).Some? && e.Sent?
    ensures Reachable(room, Step(room, s, e).value) && Left(room, s, x) == [e] + Left(room, Step(room, s, e).value, x)
  {
    hide Rest, SecondHalf;
    var t := Step(room, s, e).value;
    assert Sender(room, t) == Sender(room, s);
    if s.phase == WaitingForFeeSent {
      assert Sender(room, t) == FirstOf(room, s.round);
    }
  }

  lemma {:induction false} ReceivedFollows(room: Room, s: State, e: Event, x: Party)
    requires ValidTerms(room.terms) && Reachable(room, s) && Step(room, s, e).Some? && e.Received?
    ensures Reachable(room, Step(room, s, e).value) && Left(room, s, x) == [e] + Left(room, Step(room, s, e).value, x)
  {
    hide Rest, SecondHalf, Advance;
    if s.leg == 0 {
      HalfRoundEnds(room, s, x);
    } else {
      RoundEnds(room, s, x);
    }
  }

  lemma {:induction false} OtherFollows(room: Room, s: State, e: Event, x: Party)
    requires ValidTerms(room.terms) && Reachable(room, s) && Step(room, s, e).Some? && (e.AckReceipt? || e.ConfirmFee?)
    ensures Reachable(room, Step(room, s, e).value)
    ensures Left(room, s, FirstAck(s, e, x)) == [e] + Left(room, Step(room, s, e).value, x)
  {
    var t := Step(room, s, e).value;
    StepKeepsReachable(room, s, e);
    if e.ConfirmFee? {
      assert Sender(room, t) == FirstOf(room, s.round);
    } else {
      assert s.round < room.terms.rounds ==> Sender(room, t) == Other(FirstOf(room, s.round));
    }
  }

  /** Every accepted event but an abort is the next one of what is left, and leaves the rest. */
  lemma {:induction false} StepFollows(room: Room, s: State, e: Event, x: Party)
    requires ValidTerms(room.terms) && Reachable(room, s) && s.phase != Aborted && Step(room, s, e).Some? && e != Abort
    ensures Reachable(room, Step(room, s, e).value)
    ensures Left(room, s, FirstAck(s, e, x)) == [e] + Left(room, Step(room, s, e).value, x)
  {
    hide Left, Step, Reachable;
    match e
    case Join(_, _) => JoinFollows(room, s, e, x);
    case Sent(_, _) => SentFollows(room, s, e, x);
    case Received(_, _) => ReceivedFollows(room, s, e, x);
    case AckReceipt(_) => OtherFollows(room, s, e, x);
    case ConfirmFee => OtherFollows(room, s, e, x);
  }

  /** What is left begins with an event the session accepts. */
  lemma {:induction false} NextAccepted(room: Room, s: State, x: Party)
    requires ValidTerms(room.terms) && Reachable(room, s) && s.phase != Complete && s.phase != Aborted
    ensures
      var es := Left(room, s, x);
      es != [] && es[0] != Abort && Step(room, s, es[0]).Some? && FirstAck(s, es[0], x) == x
  {
    hide Rest, SecondHalf, Rounds;
  }

  lemma {:induction false} ScriptCompletes(room: Room, s: State, x: Party)
    requires ValidTerms(room.terms) && Reachable(room, s) && s.phase != Aborted
    ensures Run(room, s, Left(room, s, x)).Some? && Run(room, s, Left(room, s, x)).value.phase == Complete
    decreases |Left(room, s, x)|
  {
    hide Step, Reachable, ValidTerms, FirstAck;
    if s.phase != Complete {
      var es := Left(room, s, x);
      NextAccepted(room, s, x);
      StepFollows(room, s, es[0], x);
      StepCounts(room, s, es[0]);
      var t := Step(room, s, es[0]).value;
      assert es[1..] == Left(room, t, x);
      ScriptCompletes(room, t, x);
    }
  }

  lemma {:induction false} CompletedFollows(room: Room, s: State, es: seq<Event>) returns (x: Party)
    requires ValidTerms(room.terms) && Reachable(room, s) && s.phase != Aborted
    requires Run(room, s, es).Some? && Run(room, s, es).value.phase == Complete
    ensures es == Left(room, s, x)
    decreases |es|
  {
    hide Step, Reachable, ValidTerms, FirstAck;
    if s.phase == Complete {
      CompleteEnds(room, s, es);
      x := A;
    } else {
      var t := Step(room, s, es[0]).value;
      if es[0] == Abort {
        AbortEnds(room, s);
        AbortedStays(room, t, es[1..]);
        assert false;
      }
      StepKeepsReachable(room, s, es[0]);
      StepCounts(room, s, es[0]);
      var y := CompletedFollows(room, t, es[1..]);
      StepFollows(room, s, es[0], y);
      x := FirstAck(s, es[0], y);
      assert es == [es[0]] + es[1..];
    }
  }

  lemma {:induction false} AbortEnds(room: Room, s: State)
    requires Step(room, s, Abort).Some?
    ensures Step(room, s, Abort).value.phase == Aborted
  {
  }

  /** A sequence of events is a completed session if and only if it is the script, for one of the two orders in which the
      gate can be acknowledged. */
  lemma {:induction false} CompletedExactlyByScript(room: Room, es: seq<Event>)
    requires ValidTerms(room.terms)
    ensures Run(room, INITIAL, es).Some? && Run(room, INITIAL, es).value.phase == Complete <==>
      es == Script(room, A) || es == Script(room, B)
  {
    hide Step, Script;
    ScriptCompletes(room, INITIAL, A);
    ScriptCompletes(room, INITIAL, B);
    assert forall x :: Left(room, INITIAL, x) == Script(room, x);
    if Run(room, INITIAL, es).Some? && Run(room, INITIAL, es).value.phase == Complete {
      var x := CompletedFollows(room, INITIAL, es);
      assert es == Script(room, x) && (x == A || x == B);
    }
  }

  /** A sequence of events is accepted from the start, without an abort, if and only if it is as much of the script as has
      happened so far. */
  lemma {:induction false} AcceptedExactlyByScript(room: Room, es: seq<Event>)
    requires ValidTerms(room.terms)
    ensures Run(room, INITIAL, es).Some? && Run(room, INITIAL, es).value.phase != Aborted <==>
      es <= Script(room, A) || es <= Script(room, B)
  {
    hide Step, Script, ValidTerms;
    if Run(room, INITIAL, es).Some? && Run(room, INITIAL, es).value.phase != Aborted {
      InitialIsReachable(room);
      RunKeepsReachable(room, INITIAL, es);
      var rest := CanComplete(room, Run(room, INITIAL, es).value);
      RunConcat(room, INITIAL, es, rest);
      CompletedExactlyByScript(room, es + rest);
    } else if es <= Script(room, A) {
      ScriptPrefix(room, A, es);
    } else if es <= Script(room, B) {
      ScriptPrefix(room, B, es);
    }
  }

  lemma {:induction false} InitialIsReachable(room: Room)
    ensures Reachable(room, INITIAL)
  {
  }

  lemma {:induction false} ScriptPrefix(room: Room, x: Party, es: seq<Event>)
    requires ValidTerms(room.terms) && es <= Script(room, x)
    ensures Run(room, INITIAL, es).Some? && Run(room, INITIAL, es).value.phase != Aborted
  {
    hide Step, Script, ValidTerms;
    var script := Script(room, x);
    var rest := script[|es|..];
    assert script == es + rest;
    CompletedExactlyByScript(room, script);
    PrefixRuns(room, INITIAL, es, rest);
    RunConcat(room, INITIAL, es, rest);
    if Run(room, INITIAL, es).value.phase == Aborted {
      AbortedStays(room, Run(room, INITIAL, es).value, rest);
    }
  }

  // ----- every report, counted -----

  function FeesIn(room: Room, r: nat, p: Party): (n: nat)
  {
    if p == A && room.fee > 0 && FeeRound(room) == r then 1 else 0
  }

  function LegsIn(room: Room, r: nat): (n: nat)
  {
    if r < room.terms.rounds then 1 else 0
  }

  lemma {:induction false} ConcatCounts(a: seq<Event>, b: seq<Event>, e: Event)
    ensures multiset(a + b)[e] == multiset(a)[e] + multiset(b)[e]
  {
    assert multiset(a + b) == multiset(a) + multiset(b);
  }

  function SentOf(room: Room, r: nat, p: Party): (e: Event)
  {
    Sent(p, Signal(room.id, r, p))
  }

  function ReceivedOf(room: Room, r: nat, p: Party): (e: Event)
  {
    Received(Other(p), Signal(room.id, r, p))
  }

  function FeeAt(room: Room, k: nat): (es: seq<Event>)
  {
    if room.fee > 0 && FeeRound(room) == k then Fee(room, k) else []
  }

  function GateAt(room: Room, k: nat, x: Party): (es: seq<Event>)
  {
    if k + 1 == room.terms.rounds && !FeeIsFinal(room) then Gate(x) else []
  }

  lemma {:induction false} LegCounts(room: Room, k: nat, p': Party, r: nat, p: Party)
    ensures multiset(Leg(room, k, p'))[SentOf(room, r, p)] == (if k == r && p' == p then 1 else 0)
    ensures multiset(Leg(room, k, p'))[ReceivedOf(room, r, p)] == (if k == r && p' == p then 1 else 0)
  {
    assert multiset(Leg(room, k, p')) == multiset{SentOf(room, k, p'), ReceivedOf(room, k, p')};
  }

  lemma {:induction false} FeeCounts(room: Room, k: nat, r: nat, p: Party)
    ensures multiset(FeeAt(room, k))[SentOf(room, r, p)] == (if k == r then FeesIn(room, r, p) else 0)
    ensures multiset(FeeAt(room, k))[ReceivedOf(room, r, p)] == 0
  {
    if FeeAt(room, k) != [] {
      var confirm := if room.requireConfirmation then [ConfirmFee] else [];
      ConcatCounts([SentOf(room, k, A)], confirm, SentOf(room, r, p));
      ConcatCounts([SentOf(room, k, A)], confirm, ReceivedOf(room, r, p));
    }
  }

  lemma {:induction false} GateCounts(room: Room, k: nat, x: Party, r: nat, p: Party)
    ensures multiset(Gate(x))[SentOf(room, r, p)] == multiset(Gate(x))[ReceivedOf(room, r, p)] == 0
    ensures multiset(GateAt(room, k, x))[SentOf(room, r, p)] == multiset(GateAt(room, k, x))[ReceivedOf(room, r, p)] == 0
  {
    assert multiset(Gate(x)) == multiset{AckReceipt(x), AckReceipt(Other(x))};
  }

  /** The parts of a round, counted. */
  lemma {:induction false} RestParts(room: Room, k: nat, x: Party, e: Event)
    requires k < room.terms.rounds
    ensures multiset(Rest(room, k, x))[e]
         == multiset(FeeAt(room, k))[e] + multiset(Leg(room, k, FirstOf(room, k)))[e] + multiset(GateAt(room, k, x))[e]
          + multiset(Leg(room, k, Other(FirstOf(room, k))))[e] + multiset(Rest(room, k + 1, x))[e]
  {
    hide Leg, Fee, Gate, FirstOf, FeeRound;
    var first, second := Leg(room, k, FirstOf(room, k)), Leg(room, k, Other(FirstOf(room, k)));
    var fee, gate, tail := FeeAt(room, k), GateAt(room, k, x), Rest(room, k + 1, x);
    assert Rest(room, k, x) == fee + Rounds(room, k, x);
    assert SecondHalf(room, k, x) == gate + second + tail;
    ConcatCounts(fee, first + (gate + second + tail), e);
    ConcatCounts(first, gate + second + tail, e);
    ConcatCounts(gate + second, tail, e);
    ConcatCounts(gate, second, e);
  }

  /** Reports of the given transfer in what is scripted from round k on. */
  lemma {:induction false} RestCounts(room: Room, k: nat, x: Party, r: nat, p: Party)
    requires k <= room.terms.rounds && room.terms.rounds > 0
    ensures multiset(Rest(room, k, x))[SentOf(room, r, p)] == (if k <= r then LegsIn(room, r) + FeesIn(room, r, p) else 0)
    ensures multiset(Rest(room, k, x))[ReceivedOf(room, r, p)] == (if k <= r then LegsIn(room, r) else 0)
    decreases room.terms.rounds - k
  {
    hide Rest, Leg, Fee, Gate, SentOf, ReceivedOf, FeeAt, GateAt;
    if k < room.terms.rounds {
      RestCounts(room, k + 1, x, r, p);
      RestParts(room, k, x, SentOf(room, r, p));
      RestParts(room, k, x, ReceivedOf(room, r, p));
      LegCounts(room, k, FirstOf(room, k), r, p);
      LegCounts(room, k, Other(FirstOf(room, k)), r, p);
      FeeCounts(room, k, r, p);
      GateCounts(room, k, x, r, p);
    } else {
      EndCounts(room, x, r, p);
    }
  }

  lemma {:induction false} EndCounts(room: Room, x: Party, r: nat, p: Party)
    requires room.terms.rounds > 0
    ensures multiset(Rest(room, room.terms.rounds, x))[SentOf(room, r, p)]
         == (if room.terms.rounds <= r then FeesIn(room, r, p) else 0)
    ensures multiset(Rest(room, room.terms.rounds, x))[ReceivedOf(room, r, p)] == 0
  {
    hide Gate, Fee, SentOf, ReceivedOf;
    var k := room.terms.rounds;
    if FeeIsFinal(room) {
      assert FeeAt(room, k) == Fee(room, k);
      FeeCounts(room, k, r, p);
      GateCounts(room, k, x, r, p);
      ConcatCounts(Gate(x), Fee(room, k), SentOf(room, r, p));
      ConcatCounts(Gate(x), Fee(room, k), ReceivedOf(room, r, p));
    }
  }

  /** In a completed session every party reports every one of its transfers as sent exactly once, and the other party
      every one as received exactly once; the only further report is that of the fee, by the creator. */
  lemma {:induction false} EveryTransferReportedOnce(room: Room, es: seq<Event>, r: nat, p: Party)
    requires ValidTerms(room.terms)
    requires Run(room, INITIAL, es).Some? && Run(room, INITIAL, es).value.phase == Complete
    ensures multiset(es)[Sent(p, Signal(room.id, r, p))] == LegsIn(room, r) + FeesIn(room, r, p)
    ensures multiset(es)[Received(Other(p), Signal(room.id, r, p))] == LegsIn(room, r)
  {
    hide Step, Rest;
    var x := CompletedFollows(room, INITIAL, es);
    RestCounts(room, 0, x, r, p);
    ConcatCounts([Join(room.id, true)], Rest(room, 0, x), Sent(p, Signal(room.id, r, p)));
    ConcatCounts([Join(room.id, true)], Rest(room, 0, x), Received(Other(p), Signal(room.id, r, p)));
  }

  // ----- who may report what, in every run -----

  function Receipts(es: seq<Event>): (n: nat)
  {
    if es == [] then 0 else (if es[0].Received? then 1 else 0) + Receipts(es[1..])
  }

  lemma {:induction false} ReceiptCounts(room: Room, s: State, e: Event)
    requires ValidTerms(room.terms) && Reachable(room, s) && Step(room, s, e).Some?
    ensures
      var t := Step(room, s, e).value;
      2 * t.round + t.leg == 2 * s.round + s.leg + (if e.Received? then 1 else 0)
  {
    hide Sender, SignalMatches;
  }

  lemma {:induction false} ReceiptsCount(room: Room, s: State, es: seq<Event>)
    requires ValidTerms(room.terms) && Reachable(room, s) && Run(room, s, es).Some?
    ensures var t := Run(room, s, es).value; 2 * t.round + t.leg == 2 * s.round + s.leg + Receipts(es)
    decreases |es|
  {
    hide Step, Reachable, ValidTerms;
    if es != [] {
      StepKeepsReachable(room, s, es[0]);
      ReceiptCounts(room, s, es[0]);
      ReceiptsCount(room, Step(room, s, es[0]).value, es[1..]);
    }
  }

  lemma {:induction false} StepAt(room: Room, es: seq<Event>, i: nat)
    requires Run(room, INITIAL, es).Some? && i < |es|
    ensures Run(room, INITIAL, es[..i]).Some? && Step(room, Run(room, INITIAL, es[..i]).value, es[i]).Some?
    ensures Run(room, INITIAL, es[..i + 1]) == Step(room, Run(room, INITIAL, es[..i]).value, es[i])
  {
    hide Step;
    assert es == es[..i] + es[i..] && es[..i + 1] == es[..i] + [es[i]];
    PrefixRuns(room, INITIAL, es[..i], es[i..]);
    RunConcat(room, INITIAL, es[..i], es[i..]);
    RunConcat(room, INITIAL, es[..i], [es[i]]);
    assert [es[i]][1..] == [];
    assert Run(room, Step(room, Run(room, INITIAL, es[..i]).value, es[i]).value, []).Some?;
  }

  lemma {:induction false} PrefixRuns(room: Room, s: State, a: seq<Event>, b: seq<Event>)
    requires Run(room, s, a + b).Some?
    ensures Run(room, s, a).Some?
    decreases |a|
  {
    hide Step;
    if a != [] {
      assert (a + b)[1..] == a[1..] + b;
      PrefixRuns(room, Step(room, s, a[0]).value, a[1..], b);
    }
  }

  /** A transfer waits for its receipt only right after its sender has reported it. */
  lemma {:induction false} ReceiptAwaited(room: Room, s: State, e: Event)
    requires ValidTerms(room.terms) && Reachable(room, s) && Step(room, s, e).Some? && Step(room, s, e).value.phase == WaitingForReceived
    ensures
      var t := Step(room, s, e).value;
      e == Sent(Sender(room, t), Signal(room.id, t.round, Sender(room, t)))
  {
    hide Reachable;
  }

  /** In every run, completed, aborted or under way: a transfer is reported as sent by its sender and as received by the
      other party, each for this room and for the round that follows those received in full, and a receipt comes right after
      the report of that very transfer. */
  lemma {:induction false} ReportsAreProper(room: Room, es: seq<Event>, i: nat)
    requires ValidTerms(room.terms) && Run(room, INITIAL, es).Some? && i < |es|
    ensures es[i].Sent? || es[i].Received? ==>
      es[i].signal.room == room.id && es[i].signal.round == Receipts(es[..i]) / 2
    ensures es[i].Sent? ==> es[i].from == es[i].signal.sender
    ensures es[i].Received? ==>
      es[i].from == Other(es[i].signal.sender) && i > 0 && es[i - 1] == Sent(es[i].signal.sender, es[i].signal)
  {
    StepAt(room, es, i);
    var s := Run(room, INITIAL, es[..i]).value;
    ReceiptsCount(room, INITIAL, es[..i]);
    RunKeepsReachable(room, INITIAL, es[..i]);
    assert es[..0] == [];
    if es[i].Received? {
      StepAt(room, es, i - 1);
      RunKeepsReachable(room, INITIAL, es[..i - 1]);
      ReceiptAwaited(room, Run(room, INITIAL, es[..i - 1]).value, es[i - 1]);
    }
  }
}
