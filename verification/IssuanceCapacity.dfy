/** The ticket store's capacity is tested by an unlocked directory listing. Over every interleaving the store can exceed
    its limit by at most one ticket for each worker but one. */
module IssuanceCapacity {
  import opened Issuance
  import opened IssuanceSafety

  /** Past the capacity test, with the ticket not yet written. */
  predicate Admitted(worker: Worker)
  {
    worker.Drawing? || worker.Clearing? || worker.Creating? || worker.Writing? || worker.Renaming?
  }

  /** Still able to add a ticket: admitted, or counting with fewer tickets seen throughout than the limit. */
  predicate MayAdd(cfg: Config, worker: Worker)
  {
    Admitted(worker) || (worker.Counting? && |worker.seen| < cfg.maxTickets)
  }

  /** Admitted, or counting since no later than a given moment. */
  predicate Older(worker: Worker, begun: nat)
  {
    Admitted(worker) || (worker.Counting? && worker.begun <= begun)
  }

  function Adders(cfg: Config, s: State): (r: set<nat>)
  {
    set i: nat | i < |s.workers| && MayAdd(cfg, s.workers[i])
  }

  function Elders(s: State, begun: nat): (r: set<nat>)
  {
    set i: nat | i < |s.workers| && Older(s.workers[i], begun)
  }

  lemma {:induction false} IndicesBounded(r: set<nat>, n: nat)
    requires forall i :: i in r ==> i < n
    ensures |r| <= n
  {
    if n == 0 {
      assert r == {};
    } else {
      IndicesBounded(r - {n - 1}, n - 1);
    }
  }

  predicate SeenStands(s: State, i: nat)
    requires i < |s.workers|
  {
    s.workers[i].Counting? ==> s.workers[i].seen <= s.tickets.Keys && s.workers[i].begun < s.clock
  }

  predicate SeenGrows(s: State, i: nat, j: nat)
    requires i < |s.workers| && j < |s.workers|
  {
    s.workers[i].Counting? && s.workers[j].Counting? && s.workers[i].begun < s.workers[j].begun
    ==> s.workers[i].seen <= s.workers[j].seen
  }

  /** A worker that has seen the store full throughout: what has been added since it began to count came from distinct
      workers that had not counted again. */
  predicate FullSeen(cfg: Config, s: State, i: nat)
    requires i < |s.workers|
  {
    s.workers[i].Counting? && |s.workers[i].seen| >= cfg.maxTickets
    ==> |s.tickets.Keys - s.workers[i].seen| + |Elders(s, s.workers[i].begun)| <= cfg.workers
  }

  ghost predicate Bounded(cfg: Config, s: State)
  {
    && |s.workers| == cfg.workers > 0
    && (forall i :: 0 <= i < |s.workers| ==> SeenStands(s, i))
    && (forall i, j :: 0 <= i < |s.workers| && 0 <= j < |s.workers| ==> SeenGrows(s, i, j))
    && (forall i :: 0 <= i < |s.workers| ==> FullSeen(cfg, s, i))
    && |s.tickets.Keys| + |Adders(cfg, s)| <= cfg.maxTickets + cfg.workers - 1
  }

  /** A larger set of seen tickets began no earlier, so a worker that has seen few is an elder of one that has seen many. */
  lemma {:induction false} FewSeenIsElder(cfg: Config, s: State, i: nat, j: nat)
    requires Bounded(cfg, s) && i < |s.workers| && j < |s.workers|
    requires s.workers[i].Counting? && |s.workers[i].seen| >= cfg.maxTickets && MayAdd(cfg, s.workers[j])
    ensures Older(s.workers[j], s.workers[i].begun)
  {
    if s.workers[j].Counting? && s.workers[i].begun < s.workers[j].begun {
      assert SeenGrows(s, i, j);
      SmallerSet(s.workers[i].seen, s.workers[j].seen);
    }
  }

  lemma {:induction false} SmallerSet(a: set<nat>, b: set<nat>)
    requires a <= b
    ensures |a| <= |b|
  {
    assert b == a + (b - a);
  }

  // ----- the kinds of step -----

  /** One worker moves without touching the tickets, and can add only if it could before. */
  predicate Quiet(cfg: Config, s: State, t: State, w: nat)
  {
    && |s.workers| == |t.workers| && t.tickets == s.tickets && t.clock == s.clock
    && (forall i :: 0 <= i < |s.workers| && i != w ==> t.workers[i] == s.workers[i])
    && (w < |s.workers| ==> !t.workers[w].Counting? && (Admitted(t.workers[w]) ==> MayAdd(cfg, s.workers[w])))
  }

  lemma {:induction false} QuietElders(cfg: Config, s: State, t: State, w: nat, i: nat)
    requires Bounded(cfg, s) && Quiet(cfg, s, t, w) && i < |s.workers| && t.workers[i].Counting?
    requires |t.workers[i].seen| >= cfg.maxTickets
    ensures |Elders(t, t.workers[i].begun)| <= |Elders(s, s.workers[i].begun)|
  {
    var begun := s.workers[i].begun;
    assert i != w;
    forall j | j in Elders(t, begun) ensures j in Elders(s, begun) {
      if j == w {
        FewSeenIsElder(cfg, s, i, w);
      }
    }
    SmallerSet(Elders(t, begun), Elders(s, begun));
  }

  lemma {:induction false} QuietIsBounded(cfg: Config, s: State, t: State, w: nat)
    requires Bounded(cfg, s) && Quiet(cfg, s, t, w)
    ensures Bounded(cfg, t)
  {
    hide Elders, Adders;
    forall i | 0 <= i < |t.workers| ensures SeenStands(t, i) {
      assert SeenStands(s, i);
    }
    forall i, j | 0 <= i < |t.workers| && 0 <= j < |t.workers| ensures SeenGrows(t, i, j) {
      assert SeenGrows(s, i, j);
    }
    forall i | 0 <= i < |t.workers| ensures FullSeen(cfg, t, i) {
      assert FullSeen(cfg, s, i);
      if t.workers[i].Counting? && |t.workers[i].seen| >= cfg.maxTickets {
        QuietElders(cfg, s, t, w, i);
      }
    }
    QuietAdders(cfg, s, t, w);
  }

  lemma {:induction false} QuietAdders(cfg: Config, s: State, t: State, w: nat)
    requires Quiet(cfg, s, t, w)
    ensures |Adders(cfg, t)| <= |Adders(cfg, s)|
  {
    assert Adders(cfg, t) <= Adders(cfg, s);
    SmallerSet(Adders(cfg, t), Adders(cfg, s));
  }

  // begin counting

  lemma {:induction false} BeginIsBounded(cfg: Config, s: State, w: nat, job: Job)
    requires Bounded(cfg, s) && w < |s.workers| && s.workers[w].Claimed?
    ensures Bounded(cfg, Put(s, w, Counting(job, s.tickets.Keys, s.clock)).(clock := s.clock + 1))
  {
    hide Elders, Adders;
    var t := Put(s, w, Counting(job, s.tickets.Keys, s.clock)).(clock := s.clock + 1);
    forall i | 0 <= i < |t.workers| ensures SeenStands(t, i) {
      assert SeenStands(s, i);
    }
    forall i, j | 0 <= i < |t.workers| && 0 <= j < |t.workers| ensures SeenGrows(t, i, j) {
      assert SeenGrows(s, i, j) && SeenStands(s, i) && SeenStands(s, j);
    }
    forall i | 0 <= i < |t.workers| ensures FullSeen(cfg, t, i) {
      assert FullSeen(cfg, s, i) && SeenStands(s, i);
      BeginElders(cfg, s, t, w, i);
    }
    BeginAdders(cfg, s, t, w);
  }

  lemma {:induction false} BeginElders(cfg: Config, s: State, t: State, w: nat, i: nat)
    requires |s.workers| == |t.workers| == cfg.workers && w < |s.workers| && i < |s.workers|
    requires t.workers == s.workers[w := t.workers[w]] && t.workers[w].Counting?
    requires t.workers[w].begun == s.clock && t.workers[w].seen == s.tickets.Keys && t.tickets == s.tickets
    requires SeenStands(s, i) && FullSeen(cfg, s, i)
    ensures FullSeen(cfg, t, i)
  {
    if i == w {
      assert t.tickets.Keys - t.workers[w].seen == {};
      IndicesBounded(Elders(t, s.clock), cfg.workers);
    } else if t.workers[i].Counting? {
      var begun := s.workers[i].begun;
      assert Elders(t, begun) <= Elders(s, begun);
      SmallerSet(Elders(t, begun), Elders(s, begun));
    }
  }

  lemma {:induction false} BeginAdders(cfg: Config, s: State, t: State, w: nat)
    requires Bounded(cfg, s) && |s.workers| == |t.workers| && w < |s.workers|
    requires t.workers == s.workers[w := t.workers[w]] && t.workers[w].Counting?
    requires t.workers[w].seen == s.tickets.Keys && t.tickets == s.tickets
    ensures |t.tickets.Keys| + |Adders(cfg, t)| <= cfg.maxTickets + cfg.workers - 1
  {
    if |s.tickets.Keys| < cfg.maxTickets {
      IndicesBounded(Adders(cfg, t), cfg.workers);
    } else {
      assert Adders(cfg, t) <= Adders(cfg, s);
      SmallerSet(Adders(cfg, t), Adders(cfg, s));
    }
  }

  // a ticket is added

  predicate Adds(s: State, t: State, w: nat, id: Id)
  {
    && |s.workers| == |t.workers| && w < |s.workers| && t.clock == s.clock
    && t.workers == s.workers[w := Idle] && Admitted(s.workers[w])
    && t.tickets.Keys == s.tickets.Keys + {id}
  }

  lemma {:induction false} EldersLoseOne(s: State, t: State, w: nat, id: Id, begun: nat)
    requires Adds(s, t, w, id) && begun < s.clock
    ensures |Elders(t, begun)| == |Elders(s, begun)| - 1
  {
    assert Elders(t, begun) == Elders(s, begun) - {w} && w in Elders(s, begun);
  }

  lemma {:induction false} AddElders(cfg: Config, s: State, t: State, w: nat, id: Id, i: nat)
    requires Adds(s, t, w, id) && i < |s.workers| && SeenStands(s, i) && FullSeen(cfg, s, i)
    ensures FullSeen(cfg, t, i)
  {
    if t.workers[i].Counting? && |t.workers[i].seen| >= cfg.maxTickets {
      var begun, seen := s.workers[i].begun, s.workers[i].seen;
      EldersLoseOne(s, t, w, id, begun);
      hide Elders;
      assert t.tickets.Keys - seen <= (s.tickets.Keys - seen) + {id};
      SmallerSet(t.tickets.Keys - seen, (s.tickets.Keys - seen) + {id});
    }
  }

  lemma {:induction false} AddIsBounded(cfg: Config, s: State, t: State, w: nat, id: Id)
    requires Bounded(cfg, s) && Adds(s, t, w, id)
    ensures Bounded(cfg, t)
  {
    hide Elders, Adders;
    forall i | 0 <= i < |t.workers| ensures SeenStands(t, i) {
      assert SeenStands(s, i);
    }
    forall i, j | 0 <= i < |t.workers| && 0 <= j < |t.workers| ensures SeenGrows(t, i, j) {
      assert SeenGrows(s, i, j);
    }
    forall i | 0 <= i < |t.workers| ensures FullSeen(cfg, t, i) {
      assert FullSeen(cfg, s, i) && SeenStands(s, i);
      AddElders(cfg, s, t, w, id, i);
    }
    AddAdders(cfg, s, t, w, id);
  }

  lemma {:induction false} AddAdders(cfg: Config, s: State, t: State, w: nat, id: Id)
    requires Adds(s, t, w, id)
    ensures |t.tickets.Keys| + |Adders(cfg, t)| <= |s.tickets.Keys| + |Adders(cfg, s)|
  {
    assert Adders(cfg, t) == Adders(cfg, s) - {w} && w in Adders(cfg, s);
  }

  // a ticket is collected

  predicate Drops(s: State, t: State, id: Id)
  {
    && |s.workers| == |t.workers| && t.clock == s.clock && id in s.tickets
    && t.tickets.Keys == s.tickets.Keys - {id}
    && forall i :: 0 <= i < |s.workers| ==> t.workers[i] == Forget(s.workers[i], id)
  }

  lemma {:induction false} DropElders(cfg: Config, s: State, t: State, id: Id, i: nat)
    requires Drops(s, t, id) && i < |s.workers| && SeenStands(s, i) && FullSeen(cfg, s, i)
    ensures FullSeen(cfg, t, i)
  {
    if t.workers[i].Counting? && |t.workers[i].seen| >= cfg.maxTickets {
      var begun, seen := s.workers[i].begun, s.workers[i].seen;
      SmallerSet(t.workers[i].seen, seen);
      assert Elders(t, begun) == Elders(s, begun);
      assert t.tickets.Keys - t.workers[i].seen <= s.tickets.Keys - seen;
      SmallerSet(t.tickets.Keys - t.workers[i].seen, s.tickets.Keys - seen);
    }
  }

  /** The worker that began to count last among those that had seen the store full and now have not. */
  lemma {:induction false} LatestNewcomer(cfg: Config, s: State, t: State, k: nat) returns (w: nat)
    requires |s.workers| == |t.workers| && k <= |s.workers|
    requires exists i :: 0 <= i < k && Newcomer(cfg, s, t, i)
    requires forall i :: 0 <= i < k && Newcomer(cfg, s, t, i) ==> s.workers[i].Counting?
    ensures w < k && Newcomer(cfg, s, t, w) && s.workers[w].Counting?
    ensures forall i :: 0 <= i < k && Newcomer(cfg, s, t, i) ==> s.workers[i].begun <= s.workers[w].begun
  {
    hide Newcomer;
    if exists i :: 0 <= i < k - 1 && Newcomer(cfg, s, t, i) {
      w := LatestNewcomer(cfg, s, t, k - 1);
      if Newcomer(cfg, s, t, k - 1) && s.workers[k - 1].begun > s.workers[w].begun {
        w := k - 1;
      }
    } else {
      w := k - 1;
    }
  }

  predicate Newcomer(cfg: Config, s: State, t: State, i: nat)
    requires |s.workers| == |t.workers|
  {
    i < |s.workers| && MayAdd(cfg, t.workers[i]) && !MayAdd(cfg, s.workers[i])
  }

  lemma {:induction false} NoNewcomers(cfg: Config, s: State, t: State)
    requires |s.workers| == |t.workers| && forall i :: 0 <= i < |s.workers| ==> !Newcomer(cfg, s, t, i)
    ensures |Adders(cfg, t)| <= |Adders(cfg, s)|
  {
    forall i | i in Adders(cfg, t) ensures i in Adders(cfg, s) {
      assert !Newcomer(cfg, s, t, i);
    }
    SmallerSet(Adders(cfg, t), Adders(cfg, s));
  }

  /** Those that can add after a collection are all elders of the latest newcomer. */
  lemma {:induction false} AddersAreElders(cfg: Config, s: State, t: State, w: nat)
    requires Bounded(cfg, s) && |s.workers| == |t.workers| && w < |s.workers|
    requires s.workers[w].Counting? && |s.workers[w].seen| >= cfg.maxTickets
    requires forall i :: 0 <= i < |s.workers| && Newcomer(cfg, s, t, i) ==>
      s.workers[i].Counting? && s.workers[i].begun <= s.workers[w].begun
    ensures |Adders(cfg, t)| <= |Elders(s, s.workers[w].begun)|
  {
    var begun := s.workers[w].begun;
    forall i | i in Adders(cfg, t) ensures i in Elders(s, begun) {
      if !Newcomer(cfg, s, t, i) {
        FewSeenIsElder(cfg, s, w, i);
      }
    }
    SmallerSet(Adders(cfg, t), Elders(s, begun));
  }

  lemma {:induction false} DropAdders(cfg: Config, s: State, t: State, id: Id)
    requires Bounded(cfg, s) && Drops(s, t, id)
    ensures |t.tickets.Keys| + |Adders(cfg, t)| <= cfg.maxTickets + cfg.workers - 1
  {
    hide Adders, Elders, Newcomer, SeenGrows;
    assert |t.tickets.Keys| == |s.tickets.Keys| - 1;
    if forall i :: 0 <= i < |s.workers| ==> !Newcomer(cfg, s, t, i) {
      NoNewcomers(cfg, s, t);
    } else {
      forall i | 0 <= i < |s.workers| && Newcomer(cfg, s, t, i)
        ensures s.workers[i].Counting? && |s.workers[i].seen| == cfg.maxTickets
      {
        NewcomerSawFull(cfg, s, t, id, i);
      }
      var w := LatestNewcomer(cfg, s, t, |s.workers|);
      AddersAreElders(cfg, s, t, w);
      FullStore(cfg, s, w);
    }
  }

  lemma {:induction false} FullStore(cfg: Config, s: State, w: nat)
    requires w < |s.workers| && s.workers[w].Counting? && |s.workers[w].seen| == cfg.maxTickets
    requires SeenStands(s, w) && FullSeen(cfg, s, w)
    ensures |s.tickets.Keys| + |Elders(s, s.workers[w].begun)| <= cfg.maxTickets + cfg.workers
  {
    hide Elders;
    var seen := s.workers[w].seen;
    assert s.tickets.Keys == seen + (s.tickets.Keys - seen);
  }

  lemma {:induction false} NewcomerSawFull(cfg: Config, s: State, t: State, id: Id, w: nat)
    requires Drops(s, t, id) && w < |s.workers| && Newcomer(cfg, s, t, w)
    ensures s.workers[w].Counting? && |s.workers[w].seen| == cfg.maxTickets
  {
    assert t.workers[w] == Forget(s.workers[w], id);
    var seen := s.workers[w].seen;
    assert id in seen ==> |seen - {id}| == |seen| - 1;
    assert id !in seen ==> seen - {id} == seen;
  }

  lemma {:induction false} DropIsBounded(cfg: Config, s: State, t: State, id: Id)
    requires Bounded(cfg, s) && Drops(s, t, id)
    ensures Bounded(cfg, t)
  {
    hide Elders, Adders;
    forall i | 0 <= i < |t.workers| ensures SeenStands(t, i) {
      assert SeenStands(s, i);
    }
    forall i, j | 0 <= i < |t.workers| && 0 <= j < |t.workers| ensures SeenGrows(t, i, j) {
      assert SeenGrows(s, i, j);
    }
    forall i | 0 <= i < |t.workers| ensures FullSeen(cfg, t, i) {
      assert FullSeen(cfg, s, i) && SeenStands(s, i);
      DropElders(cfg, s, t, id, i);
    }
    DropAdders(cfg, s, t, id);
  }

  // ----- every step and every run -----

  lemma {:induction false} CrashIsBounded(cfg: Config, s: State)
    requires Bounded(cfg, s)
    ensures Bounded(cfg, Restarted(s))
  {
    hide Elders;
    var t := Restarted(s);
    assert forall i :: 0 <= i < |t.workers| ==> t.workers[i] == Idle;
    assert Adders(cfg, t) == {};
  }

  /** Which kind of step it is. */
  lemma {:induction false} WorkerStepKind(cfg: Config, s: State, e: Event)
    requires Step(cfg, s, e).Some? && IsWorkerStep(e)
    ensures e.w < |s.workers|
    ensures
      var t, w := Step(cfg, s, e).value, e.w;
      || Quiet(cfg, s, t, w)
      || (&& s.workers[w].Claimed?
          && t == Put(s, w, Counting(s.workers[w].job, s.tickets.Keys, s.clock)).(clock := s.clock + 1))
      || (s.workers[w].Renaming? && Adds(s, t, w, s.workers[w].id))
  {
    hide Quiet, Adds, ClaimMarker, CompleteMarker, DrawId, Created, Written, Renamed, RolledBack;
    var t, w := Step(cfg, s, e).value, e.w;
    var worker := s.workers[w];
    match e
    case BeginCount(_) =>
    case Rename(_, _) => RenameKind(cfg, s, t, w, worker.job, worker.id, e.ok);
    case Claim(_) => ClaimQuiet(cfg, s, w, worker.job);
    case FinishMarker(_, ok) => FinishQuiet(cfg, s, w, worker.job, ok);
    case Draw(_, id) => DrawQuiet(cfg, s, w, worker.job, worker.attempt, id);
    case CreateTemporary(_, ok) => CreateQuiet(cfg, s, w, worker.job, worker.id, ok);
    case WriteTemporary(_, ok) => WriteQuiet(cfg, s, w, worker.job, worker.id, ok);
    case RollBack(_, ok) => RollBackQuiet(cfg, s, w, worker.job, ok);
    case _ => PutQuiet(cfg, s, t, w);
  }

  lemma {:induction false} ClaimQuiet(cfg: Config, s: State, w: nat, job: Job)
    requires w < |s.workers| && s.workers[w] == Verified(job)
    ensures Quiet(cfg, s, ClaimMarker(s, w, job), w)
  {
  }

  lemma {:induction false} FinishQuiet(cfg: Config, s: State, w: nat, job: Job, ok: bool)
    requires w < |s.workers| && s.workers[w] == Marking(job)
    ensures Quiet(cfg, s, CompleteMarker(s, w, job, ok), w)
  {
  }

  lemma {:induction false} DrawQuiet(cfg: Config, s: State, w: nat, job: Job, attempt: nat, id: Id)
    requires w < |s.workers| && s.workers[w] == Drawing(job, attempt)
    ensures Quiet(cfg, s, DrawId(s, w, job, attempt, id), w)
  {
  }

  lemma {:induction false} CreateQuiet(cfg: Config, s: State, w: nat, job: Job, id: Id, ok: bool)
    requires w < |s.workers| && s.workers[w] == Creating(job, id)
    ensures Quiet(cfg, s, Created(s, w, job, id, ok), w)
  {
  }

  lemma {:induction false} WriteQuiet(cfg: Config, s: State, w: nat, job: Job, id: Id, ok: bool)
    requires w < |s.workers| && s.workers[w] == Writing(job, id)
    ensures Quiet(cfg, s, Written(s, w, job, id, ok), w)
  {
  }

  lemma {:induction false} RollBackQuiet(cfg: Config, s: State, w: nat, job: Job, ok: bool)
    requires w < |s.workers| && s.workers[w] == Failing(job)
    ensures Quiet(cfg, s, RolledBack(s, w, job, ok), w)
  {
  }

  lemma {:induction false} RenameKind(cfg: Config, s: State, t: State, w: nat, job: Job, id: Id, ok: bool)
    requires w < |s.workers| && s.workers[w] == Renaming(job, id) && t == Renamed(s, w, job, id, ok)
    ensures Quiet(cfg, s, t, w) || Adds(s, t, w, id)
  {
  }

  lemma {:induction false} PutQuiet(cfg: Config, s: State, t: State, w: nat)
    requires w < |s.workers| == |t.workers| && t.workers == s.workers[w := t.workers[w]]
    requires t.tickets == s.tickets && t.clock == s.clock
    requires !t.workers[w].Counting? && (Admitted(t.workers[w]) ==> MayAdd(cfg, s.workers[w]))
    ensures Quiet(cfg, s, t, w)
  {
  }

  lemma {:induction false} StepIsBounded(cfg: Config, s: State, e: Event)
    requires Step(cfg, s, e).Some? && Bounded(cfg, s)
    ensures Bounded(cfg, Step(cfg, s, e).value)
  {
    hide WorkerStep, Bounded;
    var t := Step(cfg, s, e).value;
    if IsWorkerStep(e) {
      WorkerStepKind(cfg, s, e);
      if Quiet(cfg, s, t, e.w) {
        QuietIsBounded(cfg, s, t, e.w);
      } else if s.workers[e.w].Claimed? {
        BeginIsBounded(cfg, s, e.w, s.workers[e.w].job);
      } else {
        AddIsBounded(cfg, s, t, e.w, s.workers[e.w].id);
      }
    } else if e.Submit? {
      QuietIsBounded(cfg, s, t, |s.workers|);
    } else if e.Take? {
      QuietIsBounded(cfg, s, t, e.w);
    } else if e.Collect? {
      if e.id in s.tickets {
        DropIsBounded(cfg, s, t, e.id);
      }
    } else {
      CrashIsBounded(cfg, s);
    }
  }

  lemma {:induction false} RunIsBounded(cfg: Config, s: State, es: seq<Event>)
    requires Run(cfg, s, es).Some? && Bounded(cfg, s)
    ensures Bounded(cfg, Run(cfg, s, es).value)
    decreases |es|
  {
    hide Step, Bounded;
    if es != [] {
      StepIsBounded(cfg, s, es[0]);
      RunIsBounded(cfg, Step(cfg, s, es[0]).value, es[1..]);
    }
  }

  /** Whatever the interleaving, the failures and the crashes, and whether or not drawn ids collide, the store never holds
      more tickets than its limit and all workers but one. */
  lemma {:induction false} StoreIsBounded(cfg: Config, es: seq<Event>)
    requires cfg.workers > 0 && Run(cfg, Initial(cfg), es).Some?
    ensures |Run(cfg, Initial(cfg), es).value.tickets| <= cfg.maxTickets + cfg.workers - 1
  {
    assert Adders(cfg, Initial(cfg)) == {};
    assert Bounded(cfg, Initial(cfg));
    RunIsBounded(cfg, Initial(cfg), es);
    assert |Run(cfg, Initial(cfg), es).value.tickets.Keys| <= cfg.maxTickets + cfg.workers - 1;
  }

  lemma {:induction false} WorkerStepKeepsQueue(cfg: Config, s: State, e: Event)
    requires !e.Submit? && !e.Collect? && !e.Crash? && !e.Take? && e.w < |s.workers|
    requires WorkerStep(cfg, s, e, s.workers[e.w]).Some?
    ensures WorkerStep(cfg, s, e, s.workers[e.w]).value.queue == s.queue
  {
  }

  lemma {:induction false} QueueStepIsBounded(cfg: Config, s: State, e: Event)
    requires |s.queue| <= cfg.capacity && Step(cfg, s, e).Some?
    ensures |Step(cfg, s, e).value.queue| <= cfg.capacity
  {
    hide WorkerStep;
    if !e.Submit? && !e.Collect? && !e.Crash? && !e.Take? {
      WorkerStepKeepsQueue(cfg, s, e);
    }
  }

  /** The queue never exceeds its capacity. */
  lemma {:induction false} QueueIsBounded(cfg: Config, s: State, es: seq<Event>)
    requires |s.queue| <= cfg.capacity && Run(cfg, s, es).Some?
    ensures |Run(cfg, s, es).value.queue| <= cfg.capacity
    decreases |es|
  {
    hide Step;
    if es != [] {
      QueueStepIsBounded(cfg, s, es[0]);
      QueueIsBounded(cfg, Step(cfg, s, es[0]).value, es[1..]);
    }
  }
}
