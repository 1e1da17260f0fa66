/** Why drawn ids must be fresh: two workers that draw the same id between the existence test and the rename share one
    temporary path, and a right can then be used twice. */
module IssuanceCollision {
  import opened Outcomes
  import opened Bytes
  import opened Issuance
  import opened IssuanceSafety

  const CFG := Config(4, 4, 2)
  const ROOM: Block32 := BigEndian(0, 32)
  const RIGHT := Context(1, 0, 1, ROOM, 0)
  const PLAIN_JOB := Job(0, None)
  const CREDENTIAL_JOB := Job(1, Some(RIGHT))

  lemma {:induction false} Extend(es: seq<Event>, s: State, e: Event) returns (es': seq<Event>, t: State)
    requires Run(CFG, Initial(CFG), es) == Some(s) && Step(CFG, s, e).Some?
    ensures Some(t) == Step(CFG, s, e) && Run(CFG, Initial(CFG), es') == Some(t)
  {
    es', t := es + [e], Step(CFG, s, e).value;
    RunSnoc(Initial(CFG), es, e);
  }

  lemma {:induction false} RunSnoc(s: State, es: seq<Event>, e: Event)
    requires Run(CFG, s, es).Some?
    ensures Run(CFG, s, es + [e]) == Step(CFG, Run(CFG, s, es).value, e)
    decreases |es|
  {
    hide Step;
    if es == [] {
      assert es + [e] == [e] && [e][1..] == [];
    } else {
      assert (es + [e])[0] == es[0] && (es + [e])[1..] == es[1..] + [e];
      RunSnoc(Step(CFG, s, es[0]).value, es[1..], e);
    }
  }

  lemma {:induction false} BothVerified() returns (es: seq<Event>, s: State)
    ensures Run(CFG, Initial(CFG), es) == Some(s)
    ensures s == State([], [Verified(PLAIN_JOB), Verified(CREDENTIAL_JOB)], map[], map[], map[], multiset{}, 0, 0, 0, 0)
  {
    hide Run;
    es, s := [], Initial(CFG);
    assert Run(CFG, Initial(CFG), es) == Some(s) by {
      RunNothing(s);
    }
    assert s.workers == [Idle, Idle];
    es, s := Extend(es, s, Submit(PLAIN_JOB));
    es, s := Extend(es, s, Take(0));
    es, s := Extend(es, s, Submit(CREDENTIAL_JOB));
    es, s := Extend(es, s, Take(1));
    es, s := Extend(es, s, Verdict(0, true));
    es, s := Extend(es, s, Verdict(1, true));
    assert s.workers == [Verified(PLAIN_JOB), Verified(CREDENTIAL_JOB)];
    assert s.queue == [];
  }

  lemma {:induction false} RunNothing(s: State)
    ensures Run(CFG, s, []) == Some(s)
  {
  }

  const MARKED := map[RIGHT := Marker(0, 1, true)]

  lemma {:induction false} BothDrawing(es0: seq<Event>, s0: State) returns (es: seq<Event>, s: State)
    requires Run(CFG, Initial(CFG), es0) == Some(s0)
    requires s0 == State([], [Verified(PLAIN_JOB), Verified(CREDENTIAL_JOB)], map[], map[], map[], multiset{}, 0, 0, 0, 0)
    ensures Run(CFG, Initial(CFG), es) == Some(s)
    ensures s == State([], [Drawing(PLAIN_JOB, 0), Drawing(CREDENTIAL_JOB, 0)], MARKED, map[], map[], multiset{}, 0, 0, 2, 0)
  {
    hide Run;
    es, s := Extend(es0, s0, Claim(0));
    es, s := Extend(es, s, Claim(1));
    es, s := Extend(es, s, FinishMarker(1, true));
    assert s.markers == MARKED;
    es, s := Extend(es, s, BeginCount(0));
    es, s := Extend(es, s, BeginCount(1));
    es, s := Extend(es, s, EndCount(0, 0));
    es, s := Extend(es, s, EndCount(1, 0));
    assert s.workers == [Drawing(PLAIN_JOB, 0), Drawing(CREDENTIAL_JOB, 0)];
  }

  const STOLEN := TicketFile(CREDENTIAL_JOB, 1, true)

  const HALF_WRITTEN := TicketFile(CREDENTIAL_JOB, 1, false)

  lemma {:induction false} SameId(es0: seq<Event>, s0: State) returns (es: seq<Event>, s: State)
    requires Run(CFG, Initial(CFG), es0) == Some(s0)
    requires s0 == State([], [Drawing(PLAIN_JOB, 0), Drawing(CREDENTIAL_JOB, 0)], MARKED, map[], map[], multiset{}, 0, 0, 2, 0)
    ensures Run(CFG, Initial(CFG), es) == Some(s)
    ensures s == State([], [Writing(PLAIN_JOB, 7), Clearing(CREDENTIAL_JOB, 7)], MARKED, map[7 := TicketFile(PLAIN_JOB, 0, false)], map[], multiset{}, 0, 0, 2, 0)
  {
    hide Run;
    es, s := BothDraw(es0, s0);
    es, s := Extend(es, s, ClearTemporary(0));
    assert s.temporaries == map[];
    es, s := Extend(es, s, CreateTemporary(0, true));
    assert s.workers == [Writing(PLAIN_JOB, 7), Clearing(CREDENTIAL_JOB, 7)];
  }

  lemma {:induction false} BothDraw(es0: seq<Event>, s0: State) returns (es: seq<Event>, s: State)
    requires Run(CFG, Initial(CFG), es0) == Some(s0)
    requires s0 == State([], [Drawing(PLAIN_JOB, 0), Drawing(CREDENTIAL_JOB, 0)], MARKED, map[], map[], multiset{}, 0, 0, 2, 0)
    ensures Run(CFG, Initial(CFG), es) == Some(s)
    ensures s == State([], [Clearing(PLAIN_JOB, 7), Clearing(CREDENTIAL_JOB, 7)], MARKED, map[], map[], multiset{}, 0, 0, 2, 0)
  {
    hide Run;
    es, s := Extend(es0, s0, Draw(0, 7));
    es, s := Extend(es, s, Draw(1, 7));
    assert s.workers == [Clearing(PLAIN_JOB, 7), Clearing(CREDENTIAL_JOB, 7)];
  }

  /** The second worker clears away the first one's temporary file. */
  lemma {:induction false} SamePath(es0: seq<Event>, s0: State) returns (es: seq<Event>, s: State)
    requires Run(CFG, Initial(CFG), es0) == Some(s0)
    requires s0 == State([], [Writing(PLAIN_JOB, 7), Clearing(CREDENTIAL_JOB, 7)], MARKED, map[7 := TicketFile(PLAIN_JOB, 0, false)], map[], multiset{}, 0, 0, 2, 0)
    ensures Run(CFG, Initial(CFG), es) == Some(s)
    ensures s == State([], [Writing(PLAIN_JOB, 7), Writing(CREDENTIAL_JOB, 7)], MARKED, map[7 := HALF_WRITTEN], map[], multiset{}, 0, 0, 2, 0)
  {
    hide Run;
    es, s := Extend(es0, s0, ClearTemporary(1));
    assert s.temporaries == map[];
    es, s := Extend(es, s, CreateTemporary(1, true));
    assert s.workers == [Writing(PLAIN_JOB, 7), Writing(CREDENTIAL_JOB, 7)];
  }

  /** The plain job's rename moves the credential job's file. */
  lemma {:induction false} WrongFileRenamed(es0: seq<Event>, s0: State) returns (es: seq<Event>, s: State)
    requires Run(CFG, Initial(CFG), es0) == Some(s0)
    requires s0 == State([], [Writing(PLAIN_JOB, 7), Writing(CREDENTIAL_JOB, 7)], MARKED, map[7 := HALF_WRITTEN], map[], multiset{}, 0, 0, 2, 0)
    ensures Run(CFG, Initial(CFG), es) == Some(s)
    ensures s == State([], [Idle, Renaming(CREDENTIAL_JOB, 7)], MARKED, map[], map[7 := STOLEN], multiset{RIGHT}, 1, 0, 2, 0)
  {
    hide Run;
    es, s := Extend(es0, s0, WriteTemporary(1, true));
    assert s.temporaries == map[7 := STOLEN];
    es, s := Extend(es, s, WriteTemporary(0, true));
    assert s.workers == [Renaming(PLAIN_JOB, 7), Renaming(CREDENTIAL_JOB, 7)];
    es, s := Extend(es, s, Rename(0, true));
    assert s.workers == [Idle, Renaming(CREDENTIAL_JOB, 7)];
    assert s.temporaries == map[] && s.tickets == map[7 := STOLEN];
  }

  /** The credential job, finding its file gone, gives the right back although its ticket is durable. */
  lemma {:induction false} RightGivenBack(es0: seq<Event>, s0: State) returns (es: seq<Event>, s: State)
    requires Run(CFG, Initial(CFG), es0) == Some(s0)
    requires s0 == State([], [Idle, Renaming(CREDENTIAL_JOB, 7)], MARKED, map[], map[7 := STOLEN], multiset{RIGHT}, 1, 0, 2, 0)
    ensures Run(CFG, Initial(CFG), es) == Some(s)
    ensures s == State([], [Verified(CREDENTIAL_JOB), Idle], map[], map[], map[7 := STOLEN], multiset{RIGHT}, 1, 0, 2, 0)
  {
    hide Run;
    es, s := Extend(es0, s0, Rename(1, true));
    es, s := Extend(es, s, RollBack(1, true));
    assert s.markers == map[];
    es, s := Extend(es, s, Submit(CREDENTIAL_JOB));
    es, s := Extend(es, s, Take(0));
    es, s := Extend(es, s, Verdict(0, true));
    assert s.workers == [Verified(CREDENTIAL_JOB), Idle];
    assert s.queue == [] && s.temporaries == map[];
  }

  lemma {:induction false} RightClaimedAgain(es0: seq<Event>, s0: State) returns (es: seq<Event>, s: State)
    requires Run(CFG, Initial(CFG), es0) == Some(s0)
    requires s0 == State([], [Verified(CREDENTIAL_JOB), Idle], map[], map[], map[7 := STOLEN], multiset{RIGHT}, 1, 0, 2, 0)
    ensures Run(CFG, Initial(CFG), es) == Some(s)
    ensures s.workers == [Drawing(CREDENTIAL_JOB, 0), Idle]
    ensures s.temporaries == map[] && s.tickets == map[7 := STOLEN] && s.issued == multiset{RIGHT}
  {
    hide Run;
    es, s := Extend(es0, s0, Claim(0));
    es, s := Extend(es, s, FinishMarker(0, true));
    es, s := Extend(es, s, BeginCount(0));
    assert s.workers[0].seen == {7};
    es, s := Extend(es, s, EndCount(0, 1));
    assert s.workers == [Drawing(CREDENTIAL_JOB, 0), Idle];
  }

  lemma {:induction false} TicketWrittenAgain(es0: seq<Event>, s0: State) returns (es: seq<Event>, s: State)
    requires Run(CFG, Initial(CFG), es0) == Some(s0)
    requires s0.workers == [Drawing(CREDENTIAL_JOB, 0), Idle]
    requires s0.temporaries == map[] && s0.tickets == map[7 := STOLEN] && s0.issued == multiset{RIGHT}
    ensures Run(CFG, Initial(CFG), es) == Some(s) && s.workers == [Writing(CREDENTIAL_JOB, 8), Idle]
    ensures s.temporaries == map[8 := TicketFile(CREDENTIAL_JOB, 0, false)] && s.issued == multiset{RIGHT}
  {
    hide Run;
    es, s := DrawAgain(es0, s0);
    es, s := Extend(es, s, ClearTemporary(0));
    assert s.temporaries == map[];
    es, s := Extend(es, s, CreateTemporary(0, true));
    assert s.workers == [Writing(CREDENTIAL_JOB, 8), Idle];
  }

  lemma {:induction false} DrawAgain(es0: seq<Event>, s0: State) returns (es: seq<Event>, s: State)
    requires Run(CFG, Initial(CFG), es0) == Some(s0)
    requires s0.workers == [Drawing(CREDENTIAL_JOB, 0), Idle] && s0.tickets == map[7 := STOLEN]
    ensures Run(CFG, Initial(CFG), es) == Some(s) && s.workers == [Clearing(CREDENTIAL_JOB, 8), Idle]
    ensures s.temporaries == s0.temporaries && s.issued == s0.issued
  {
    hide Run;
    es, s := Extend(es0, s0, Draw(0, 8));
    assert s.workers == [Clearing(CREDENTIAL_JOB, 8), Idle];
  }

  lemma {:induction false} RightUsedAgain(es0: seq<Event>, s0: State) returns (es: seq<Event>, s: State)
    requires Run(CFG, Initial(CFG), es0) == Some(s0) && s0.workers == [Writing(CREDENTIAL_JOB, 8), Idle]
    requires s0.temporaries == map[8 := TicketFile(CREDENTIAL_JOB, 0, false)] && s0.issued == multiset{RIGHT}
    ensures Run(CFG, Initial(CFG), es) == Some(s) && s.issued[RIGHT] == 2
  {
    hide Run;
    es, s := Extend(es0, s0, WriteTemporary(0, true));
    assert s.temporaries[8] == TicketFile(CREDENTIAL_JOB, 0, true);
    es, s := Extend(es, s, Rename(0, true));
  }

  /** With colliding draws there is a run in which one context gets two durable tickets, so freshness is needed. */
  lemma {:induction false} CollidingDrawsIssueTwice() returns (es: seq<Event>)
    ensures Run(CFG, Initial(CFG), es).Some? && Run(CFG, Initial(CFG), es).value.issued[RIGHT] == 2
    ensures !FreshRun(CFG, Initial(CFG), es)
  {
    hide Run, FreshRun, Step;
    var s: State;
    es, s := BothVerified();
    es, s := BothDrawing(es, s);
    es, s := SameId(es, s);
    es, s := SamePath(es, s);
    es, s := WrongFileRenamed(es, s);
    es, s := RightGivenBack(es, s);
    es, s := RightClaimedAgain(es, s);
    es, s := TicketWrittenAgain(es, s);
    es, s := RightUsedAgain(es, s);
    if FreshRun(CFG, Initial(CFG), es) {
      OneTicketPerContext(CFG, es);
    }
  }
}
