/** What every ticket and every marker is owed to: a verdict that let a submitted job pass.  Jobs are counted over a run, from
    their submission over the verdict to the ticket, and no step makes one out of nothing. */
module IssuanceAccount {
  import opened Outcomes
  import opened Issuance
  import opened IssuanceSafety

  /** How often each job was submitted, passed its verification, became a durable ticket, and was collected. */
  datatype Tally = Tally(submitted: multiset<Job>, passed: multiset<Job>, made: multiset<Job>, collected: multiset<Job>)

  const NOTHING := Tally(multiset{}, multiset{}, multiset{}, multiset{})

  /** The tally after an event that led from s to t. */
  function Tallied(h: Tally, s: State, e: Event, t: State): (r: Tally)
  {
    match e
    case Submit(job) => h.(submitted := h.submitted + multiset{job})
    case Verdict(w, ok) =>
      if ok && w < |s.workers| && s.workers[w].Taken? then h.(passed := h.passed + multiset{s.workers[w].job}) else h
    case Rename(w, _) =>
      if w < |s.workers| && s.workers[w].Renaming? && s.workers[w].id in t.tickets && s.workers[w].id !in s.tickets
      then h.(made := h.made + multiset{t.tickets[s.workers[w].id].job}) else h
    case Collect(id) =>
      if id in s.tickets then h.(collected := h.collected + multiset{s.tickets[id].job}) else h
    case _ => h
  }

  function TallyRun(cfg: Config, h: Tally, s: State, es: seq<Event>): (r: Tally)
    requires Run(cfg, s, es).Some?
    decreases |es|
  {
    if es == [] then h
    else
      var t := Step(cfg, s, es[0]).value;
      TallyRun(cfg, Tallied(h, s, es[0], t), t, es[1..])
  }

  // ----- where jobs are -----

  function AwaitsVerdict(worker: Worker): (j: Option<Job>)
  {
    if worker.Taken? then Some(worker.job) else None
  }

  function PastVerdict(worker: Worker): (j: Option<Job>)
  {
    if worker.Idle? || worker.Taken? then None else Some(worker.job)
  }

  function Awaiting(workers: seq<Worker>): (js: seq<Option<Job>>)
  {
    seq(|workers|, i requires 0 <= i < |workers| => AwaitsVerdict(workers[i]))
  }

  function Past(workers: seq<Worker>): (js: seq<Option<Job>>)
  {
    seq(|workers|, i requires 0 <= i < |workers| => PastVerdict(workers[i]))
  }

  function Holding(tickets: map<Id, TicketFile>, j: Job): (ids: set<Id>)
  {
    set id | id in tickets && tickets[id].job == j
  }

  /** The accounts of one job: tickets and the work under way towards one are covered by verdicts that let it pass, these
      and the work still before its verdict by submissions, and no ticket is lost. */
  ghost predicate Accounted(s: State, h: Tally, j: Job)
  {
    && h.made[j] + multiset(Past(s.workers))[Some(j)] <= h.passed[j]
    && h.passed[j] + multiset(Awaiting(s.workers))[Some(j)] + multiset(s.queue)[j] <= h.submitted[j]
    && |Holding(s.tickets, j)| + h.collected[j] == h.made[j]
  }

  ghost predicate Earned(h: Tally, c: Context)
  {
    exists j: Job :: j.context == Some(c) && h.passed[j] > 0
  }

  ghost predicate InOrder(s: State, h: Tally)
  {
    && (forall j :: Accounted(s, h, j))
    && (forall c :: c in s.markers ==> Earned(h, c))
  }

  // ----- one worker moves -----

  function Is(found: Option<Job>, j: Job): (n: nat)
  {
    if found == Some(j) then 1 else 0
  }

  lemma {:induction false} MoveCounts(workers: seq<Worker>, w: nat, x: Worker, j: Job)
    requires w < |workers|
    ensures multiset(Past(workers[w := x]))[Some(j)] + Is(PastVerdict(workers[w]), j)
         == multiset(Past(workers))[Some(j)] + Is(PastVerdict(x), j)
    ensures multiset(Awaiting(workers[w := x]))[Some(j)] + Is(AwaitsVerdict(workers[w]), j)
         == multiset(Awaiting(workers))[Some(j)] + Is(AwaitsVerdict(x), j)
  {
    hide PastVerdict, AwaitsVerdict;
    assert Past(workers[w := x]) == Past(workers)[w := PastVerdict(x)];
    assert Awaiting(workers[w := x]) == Awaiting(workers)[w := AwaitsVerdict(x)];
  }

  lemma {:induction false} CountedOnce(workers: seq<Worker>, w: nat)
    requires w < |workers|
    ensures PastVerdict(workers[w]) in multiset(Past(workers)) && AwaitsVerdict(workers[w]) in multiset(Awaiting(workers))
  {
    assert Past(workers)[w] == PastVerdict(workers[w]);
    assert Awaiting(workers)[w] == AwaitsVerdict(workers[w]);
  }

  /** What the steps of a worker do to the accounts: it waits for no verdict afterwards; it is past its verdict with a job
      only if it was before or the verdict just came; and only a rename that ends the job makes a ticket, of that job. */
  ghost predicate Accountable(s: State, e: Event, t: State)
    requires IsWorkerStep(e) && e.w < |s.workers|
  {
    && |t.workers| == |s.workers| && t.workers == s.workers[e.w := t.workers[e.w]] && t.queue == s.queue
    && AwaitsVerdict(t.workers[e.w]).None?
    && (if e.Verdict? then s.workers[e.w].Taken? && PastVerdict(t.workers[e.w]) == (if e.ok then AwaitsVerdict(s.workers[e.w]) else None)
        else PastVerdict(t.workers[e.w]) in {None, PastVerdict(s.workers[e.w])} && PastVerdict(s.workers[e.w]).Some?)
    && (|| t.tickets == s.tickets
        || (&& e.Rename? && t.workers[e.w].Idle? && s.workers[e.w].Renaming? && s.workers[e.w].id !in s.tickets
            && exists file: TicketFile :: file.job == s.workers[e.w].job && t.tickets == s.tickets[s.workers[e.w].id := file]))
    && (forall c :: c in t.markers ==> c in s.markers || (PastVerdict(s.workers[e.w]).Some? && s.workers[e.w].job.context == Some(c)))
  }

  lemma {:induction false} RenameAccounts(s: State, e: Event, job: Job)
    requires e.Rename? && e.w < |s.workers| && s.workers[e.w].Renaming? && s.workers[e.w].job == job
    requires OwnsFile(s, e.w) && s.workers[e.w].id !in s.tickets
    ensures Accountable(s, e, Renamed(s, e.w, job, s.workers[e.w].id, e.ok))
  {
    var id := s.workers[e.w].id;
    assert s.temporaries[id].job == job;
  }

  lemma {:induction false} ClaimAccounts(s: State, e: Event, job: Job)
    requires e.Claim? && e.w < |s.workers| && PastVerdict(s.workers[e.w]) == Some(job)
    ensures Accountable(s, e, ClaimMarker(s, e.w, job))
  {
  }

  lemma {:induction false} MarkerStepAccounts(s: State, e: Event, job: Job)
    requires IsWorkerStep(e) && e.w < |s.workers| && PastVerdict(s.workers[e.w]) == Some(job)
    ensures e.FinishMarker? ==> Accountable(s, e, CompleteMarker(s, e.w, job, e.ok))
    ensures e.RollBack? ==> Accountable(s, e, RolledBack(s, e.w, job, e.ok))
  {
  }

  lemma {:induction false} FileStepAccounts(s: State, e: Event, job: Job, id: Id, attempt: nat)
    requires IsWorkerStep(e) && e.w < |s.workers| && PastVerdict(s.workers[e.w]) == Some(job)
    ensures e.Draw? ==> Accountable(s, e, DrawId(s, e.w, job, attempt, e.id))
    ensures e.CreateTemporary? ==> Accountable(s, e, Created(s, e.w, job, id, e.ok))
    ensures e.WriteTemporary? ==> Accountable(s, e, Written(s, e.w, job, id, e.ok))
  {
  }

  /** A move that touches neither tickets nor markers. */
  lemma {:induction false} QuietStepAccounts(s: State, e: Event, t: State)
    requires IsWorkerStep(e) && e.w < |s.workers| == |t.workers| && t.workers == s.workers[e.w := t.workers[e.w]]
    requires t.queue == s.queue && t.tickets == s.tickets && t.markers == s.markers && AwaitsVerdict(t.workers[e.w]).None?
    requires
      if e.Verdict? then s.workers[e.w].Taken? && PastVerdict(t.workers[e.w]) == (if e.ok then AwaitsVerdict(s.workers[e.w]) else None)
      else PastVerdict(t.workers[e.w]) in {None, PastVerdict(s.workers[e.w])} && PastVerdict(s.workers[e.w]).Some?
    ensures Accountable(s, e, t)
  {
  }

  lemma {:induction false} WorkerStepAccounts(cfg: Config, s: State, e: Event)
    requires IsWorkerStep(e) && e.w < |s.workers| && Step(cfg, s, e).Some? && OwnsFile(s, e.w) && DistinctDraws(s)
    ensures Accountable(s, e, Step(cfg, s, e).value)
  {
    hide Accountable, ClaimMarker, CompleteMarker, DrawId, Created, Written, Renamed, RolledBack;
    var worker, t := s.workers[e.w], Step(cfg, s, e).value;
    match e
    case Claim(_) => ClaimAccounts(s, e, worker.job);
    case FinishMarker(_, _) => MarkerStepAccounts(s, e, worker.job);
    case RollBack(_, _) => MarkerStepAccounts(s, e, worker.job);
    case Draw(_, _) => FileStepAccounts(s, e, worker.job, 0, worker.attempt);
    case CreateTemporary(_, _) => FileStepAccounts(s, e, worker.job, worker.id, 0);
    case WriteTemporary(_, _) => FileStepAccounts(s, e, worker.job, worker.id, 0);
    case Rename(_, _) =>
      assert DrawnId(worker) == Some(worker.id);
      RenameAccounts(s, e, worker.job);
    case _ => QuietStepAccounts(s, e, t);
  }

  // ----- the accounts after a step -----

  lemma {:induction false} HoldingOneMore(tickets: map<Id, TicketFile>, id: Id, file: TicketFile, j: Job)
    requires id !in tickets
    ensures |Holding(tickets[id := file], j)| == |Holding(tickets, j)| + (if file.job == j then 1 else 0)
  {
    var more := tickets[id := file];
    assert Holding(more, j) == Holding(tickets, j) + (if file.job == j then {id} else {});
  }

  lemma {:induction false} HoldingOneLess(tickets: map<Id, TicketFile>, id: Id, j: Job)
    requires id in tickets
    ensures |Holding(tickets - {id}, j)| + (if tickets[id].job == j then 1 else 0) == |Holding(tickets, j)|
  {
    assert Holding(tickets - {id}, j) == Holding(tickets, j) - (if tickets[id].job == j then {id} else {});
  }

  lemma {:induction false} AccountableStep(s: State, h: Tally, e: Event, t: State, j: Job)
    requires IsWorkerStep(e) && e.w < |s.workers| && Accountable(s, e, t) && Accounted(s, h, j)
    ensures Accounted(t, Tallied(h, s, e, t), j)
  {
    hide Past, Awaiting, Holding;
    var w := e.w;
    MoveCounts(s.workers, w, t.workers[w], j);
    CountedOnce(s.workers, w);
    if t.tickets != s.tickets {
      var file: TicketFile :| file.job == s.workers[w].job && t.tickets == s.tickets[s.workers[w].id := file];
      HoldingOneMore(s.tickets, s.workers[w].id, file, j);
    }
  }

  lemma {:induction false} CollectAccounts(s: State, h: Tally, id: Id, j: Job)
    requires Accounted(s, h, j)
    ensures Accounted(Collected(s, id), Tallied(h, s, Collect(id), Collected(s, id)), j)
  {
    hide Holding;
    if id in s.tickets {
      HoldingOneLess(s.tickets, id, j);
      var t := Collected(s, id);
      assert Past(t.workers) == Past(s.workers) && Awaiting(t.workers) == Awaiting(s.workers);
    }
  }

  lemma {:induction false} CrashAccounts(s: State, h: Tally, j: Job)
    requires Accounted(s, h, j)
    ensures Accounted(Restarted(s), h, j)
  {
    hide Holding;
    var t := Restarted(s);
    assert Some(j) !in Past(t.workers) && Some(j) !in Awaiting(t.workers);
  }

  lemma {:induction false} SubmitAccounts(cfg: Config, s: State, h: Tally, job: Job, j: Job)
    requires Accounted(s, h, j)
    ensures Accounted(Enqueue(cfg, s, job), h.(submitted := h.submitted + multiset{job}), j)
  {
    hide Past, Awaiting, Holding;
    assert multiset(s.queue + [job]) == multiset(s.queue) + multiset{job};
  }

  lemma {:induction false} TakeAccounts(s: State, h: Tally, w: nat, j: Job)
    requires w < |s.workers| && s.workers[w].Idle? && s.queue != [] && Accounted(s, h, j)
    ensures Accounted(Put(s, w, Taken(s.queue[0])).(queue := s.queue[1..]), h, j)
  {
    hide Past, Awaiting, Holding;
    MoveCounts(s.workers, w, Taken(s.queue[0]), j);
    assert s.queue == [s.queue[0]] + s.queue[1..];
    assert multiset(s.queue) == multiset{s.queue[0]} + multiset(s.queue[1..]);
  }

  lemma {:induction false} StepAccounts(cfg: Config, s: State, h: Tally, e: Event, j: Job)
    requires Step(cfg, s, e).Some? && Safe(s) && Accounted(s, h, j)
    ensures Accounted(Step(cfg, s, e).value, Tallied(h, s, e, Step(cfg, s, e).value), j)
  {
    hide Accounted, Accountable, WorkerStep, OwnsMarker, IssuedOnce;
    match e
    case Submit(job) => SubmitAccounts(cfg, s, h, job, j);
    case Collect(id) => CollectAccounts(s, h, id, j);
    case Crash => CrashAccounts(s, h, j);
    case Take(w) => TakeAccounts(s, h, w, j);
    case _ =>
      assert OwnsFile(s, e.w);
      WorkerStepAccounts(cfg, s, e);
      AccountableStep(s, h, e, Step(cfg, s, e).value, j);
  }

  lemma {:induction false} EarnedStays(h: Tally, s: State, e: Event, t: State, c: Context)
    requires Earned(h, c)
    ensures Earned(Tallied(h, s, e, t), c)
  {
    var j: Job :| j.context == Some(c) && h.passed[j] > 0;
    assert Tallied(h, s, e, t).passed[j] > 0;
  }

  lemma {:induction false} MarkersEarned(cfg: Config, s: State, h: Tally, e: Event, c: Context)
    requires Step(cfg, s, e).Some? && Safe(s) && InOrder(s, h) && c in Step(cfg, s, e).value.markers
    ensures Earned(Tallied(h, s, e, Step(cfg, s, e).value), c)
  {
    hide WorkerStep, OwnsMarker, IssuedOnce, Past, Awaiting, Holding, Earned, Tallied;
    var t := Step(cfg, s, e).value;
    if c in s.markers {
      EarnedStays(h, s, e, t, c);
    } else {
      assert IsWorkerStep(e);
      assert OwnsFile(s, e.w);
      WorkerStepAccounts(cfg, s, e);
      CountedOnce(s.workers, e.w);
      EarnedBy(s, h, s.workers[e.w].job, c);
      EarnedStays(h, s, e, t, c);
    }
  }

  lemma {:induction false} EarnedBy(s: State, h: Tally, j: Job, c: Context)
    requires InOrder(s, h) && j.context == Some(c) && Some(j) in multiset(Past(s.workers))
    ensures Earned(h, c)
  {
    hide Past, Awaiting, Holding;
    assert Accounted(s, h, j);
  }

  lemma {:induction false} StepInOrder(cfg: Config, s: State, h: Tally, e: Event)
    requires Step(cfg, s, e).Some? && Safe(s) && InOrder(s, h)
    ensures InOrder(Step(cfg, s, e).value, Tallied(h, s, e, Step(cfg, s, e).value))
  {
    hide Step, Safe, Accounted, Earned, Tallied;
    var t := Step(cfg, s, e).value;
    var k := Tallied(h, s, e, t);
    forall j ensures Accounted(t, k, j) {
      StepAccounts(cfg, s, h, e, j);
    }
    forall c | c in t.markers ensures Earned(k, c) {
      MarkersEarned(cfg, s, h, e, c);
    }
  }

  // ----- every run -----

  lemma {:induction false} RunInOrder(cfg: Config, s: State, h: Tally, es: seq<Event>)
    requires Safe(s) && Run(cfg, s, es).Some? && FreshRun(cfg, s, es) && InOrder(s, h)
    ensures InOrder(Run(cfg, s, es).value, TallyRun(cfg, h, s, es))
    decreases |es|
  {
    hide Step, Safe, InOrder, Tallied;
    if es != [] {
      var t := Step(cfg, s, es[0]).value;
      StepIsSafe(cfg, s, es[0]);
      StepInOrder(cfg, s, h, es[0]);
      RunInOrder(cfg, t, Tallied(h, s, es[0], t), es[1..]);
    }
  }

  lemma {:induction false} InitialInOrder(cfg: Config)
    ensures InOrder(Initial(cfg), NOTHING)
  {
    var s := Initial(cfg);
    forall j ensures Accounted(s, NOTHING, j) {
      assert Some(j) !in Past(s.workers) && Some(j) !in Awaiting(s.workers);
      assert Holding(s.tickets, j) == {};
    }
  }

  /** Over every interleaving with fresh draws, failures and crashes anywhere: of every job there are at most as many tickets
      as verdicts that let it pass, and at most as many of those as submissions; the tickets there were are those there are
      and those collected; a ticket is of a job that was submitted and passed, and a marker of a context one of whose jobs
      passed. */
  lemma {:induction false} EveryTicketWasEarned(cfg: Config, es: seq<Event>)
    requires Run(cfg, Initial(cfg), es).Some? && FreshRun(cfg, Initial(cfg), es)
    ensures
      var s, h := Run(cfg, Initial(cfg), es).value, TallyRun(cfg, NOTHING, Initial(cfg), es);
      && (forall j :: h.made[j] <= h.passed[j] <= h.submitted[j])
      && (forall j :: |Holding(s.tickets, j)| + h.collected[j] == h.made[j])
      && (forall id :: id in s.tickets ==> h.passed[s.tickets[id].job] > 0 && h.submitted[s.tickets[id].job] > 0)
      && (forall c :: c in s.markers ==> Earned(h, c))
  {
    hide Step, Safe, Earned, Tallied;
    var s, h := Run(cfg, Initial(cfg), es).value, TallyRun(cfg, NOTHING, Initial(cfg), es);
    InitialIsSafe(cfg);
    InitialInOrder(cfg);
    RunInOrder(cfg, Initial(cfg), NOTHING, es);
    forall j ensures h.made[j] <= h.passed[j] <= h.submitted[j] && |Holding(s.tickets, j)| + h.collected[j] == h.made[j] {
      assert Accounted(s, h, j);
    }
    forall id | id in s.tickets ensures h.passed[s.tickets[id].job] > 0 && h.submitted[s.tickets[id].job] > 0 {
      var j := s.tickets[id].job;
      assert Accounted(s, h, j);
      assert id in Holding(s.tickets, j);
    }
  }
}
