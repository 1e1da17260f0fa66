/** What issuance leaves behind: in a run without a crash and without a failed marker write or rollback, a right that was
    claimed and not given back has its ticket, and no temporary file stays. */
module IssuanceRest {
  import opened Outcomes
  import opened Issuance
  import opened IssuanceSafety

  /** Anything may fail but the writing of a marker and its rollback, and nothing crashes. */
  predicate Undisturbed(e: Event)
  {
    !e.Crash? && !(e.FinishMarker? && !e.ok) && !(e.RollBack? && !e.ok)
  }

  function FileOf(worker: Worker): (id: Option<Id>)
  {
    match worker
    case Writing(_, id) => Some(id)
    case Renaming(_, id) => Some(id)
    case _ => None
  }

  ghost predicate InUse(s: State, c: Context)
  {
    exists i :: 0 <= i < |s.workers| && Held(s.workers[i]) == Some(c)
  }

  ghost predicate BeingWritten(s: State, id: Id)
  {
    exists i :: 0 <= i < |s.workers| && FileOf(s.workers[i]) == Some(id)
  }

  ghost predicate Tidy(s: State)
  {
    && (forall c :: c in s.markers ==> s.issued[c] > 0 || InUse(s, c))
    && (forall id :: id in s.temporaries ==> BeingWritten(s, id))
  }

  /** What a worker gives up, it leaves in order. */
  ghost predicate LeavesInOrder(s: State, t: State, w: nat)
    requires w < |s.workers|
  {
    && |t.workers| == |s.workers|
    && (forall c :: c in t.markers ==> c in s.markers || Held(t.workers[w]) == Some(c))
    && (forall c :: Held(s.workers[w]) == Some(c) && Held(t.workers[w]) != Some(c) && c in t.markers ==> t.issued[c] > 0)
    && (forall c :: s.issued[c] > 0 ==> t.issued[c] > 0)
    && (forall id :: id in t.temporaries ==> id in s.temporaries || FileOf(t.workers[w]) == Some(id))
    && (forall id :: FileOf(s.workers[w]) == Some(id) && FileOf(t.workers[w]) != Some(id) ==> id !in t.temporaries)
  }

  lemma {:induction false} ClaimLeaves(s: State, w: nat, job: Job)
    requires w < |s.workers| && s.workers[w] == Verified(job)
    ensures LeavesInOrder(s, ClaimMarker(s, w, job), w)
  {
  }

  lemma {:induction false} CompleteLeaves(s: State, w: nat, job: Job)
    requires w < |s.workers| && s.workers[w] == Marking(job) && OwnsMarker(s, w)
    ensures LeavesInOrder(s, CompleteMarker(s, w, job, true), w)
  {
  }

  lemma {:induction false} RollBackLeaves(s: State, w: nat, job: Job)
    requires w < |s.workers| && s.workers[w] == Failing(job)
    ensures LeavesInOrder(s, RolledBack(s, w, job, true), w)
  {
  }

  lemma {:induction false} CreateLeaves(s: State, w: nat, job: Job, id: Id, ok: bool)
    requires w < |s.workers| && s.workers[w] == Creating(job, id)
    ensures LeavesInOrder(s, Created(s, w, job, id, ok), w)
  {
  }

  lemma {:induction false} WriteLeaves(s: State, w: nat, job: Job, id: Id, ok: bool)
    requires w < |s.workers| && s.workers[w] == Writing(job, id)
    ensures LeavesInOrder(s, Written(s, w, job, id, ok), w)
  {
  }

  /** A move that touches neither markers nor tickets, adds no file and gives nothing up. */
  lemma {:induction false} QuietLeaves(s: State, t: State, w: nat)
    requires w < |s.workers| == |t.workers| && t.markers == s.markers && t.issued == s.issued
    requires forall id :: id in t.temporaries ==> id in s.temporaries
    requires Held(t.workers[w]) == Held(s.workers[w]) && FileOf(s.workers[w]).None?
    ensures LeavesInOrder(s, t, w)
  {
  }

  lemma {:induction false} RenameLeaves(s: State, w: nat, job: Job, id: Id, ok: bool)
    requires w < |s.workers| && s.workers[w] == Renaming(job, id) && OwnsFile(s, w)
    ensures LeavesInOrder(s, Renamed(s, w, job, id, ok), w)
  {
  }

  lemma {:induction false} DrawLeaves(s: State, w: nat, job: Job, attempt: nat, id: Id)
    requires w < |s.workers| && s.workers[w] == Drawing(job, attempt)
    ensures LeavesInOrder(s, DrawId(s, w, job, attempt, id), w)
  {
  }

  lemma {:induction false} WorkerLeavesInOrder(cfg: Config, s: State, e: Event)
    requires Step(cfg, s, e).Some? && IsWorkerStep(e) && e.w < |s.workers| && OwnsFile(s, e.w) && OwnsMarker(s, e.w)
    requires Undisturbed(e)
    ensures LeavesInOrder(s, Step(cfg, s, e).value, e.w)
  {
    hide ClaimMarker, CompleteMarker, DrawId, Created, Written, Renamed, RolledBack, OwnsFile, OwnsMarker, LeavesInOrder;
    var w, worker, t := e.w, s.workers[e.w], Step(cfg, s, e).value;
    match e
    case Claim(_) => ClaimLeaves(s, w, worker.job);
    case FinishMarker(_, _) => CompleteLeaves(s, w, worker.job);
    case RollBack(_, _) => RollBackLeaves(s, w, worker.job);
    case Draw(_, id) => DrawLeaves(s, w, worker.job, worker.attempt, id);
    case CreateTemporary(_, ok) => CreateLeaves(s, w, worker.job, worker.id, ok);
    case WriteTemporary(_, ok) => WriteLeaves(s, w, worker.job, worker.id, ok);
    case Rename(_, ok) => RenameLeaves(s, w, worker.job, worker.id, ok);
    case _ => QuietLeaves(s, t, w);
  }

  lemma {:induction false} WorkerKeepsTidy(s: State, t: State, w: nat)
    requires Tidy(s) && OthersStand(s, t, w) && LeavesInOrder(s, t, w)
    ensures Tidy(t)
  {
    hide Held, FileOf;
    forall c | c in t.markers ensures t.issued[c] > 0 || InUse(t, c) {
      if Held(t.workers[w]) == Some(c) {
        assert InUse(t, c);
      } else if s.issued[c] == 0 {
        var i :| 0 <= i < |s.workers| && Held(s.workers[i]) == Some(c);
        if i != w {
          assert Held(t.workers[i]) == Some(c);
        }
      }
    }
    forall id | id in t.temporaries ensures BeingWritten(t, id) {
      if FileOf(t.workers[w]) == Some(id) {
        assert BeingWritten(t, id);
      } else {
        var i :| 0 <= i < |s.workers| && FileOf(s.workers[i]) == Some(id);
        if i != w {
          assert FileOf(t.workers[i]) == Some(id);
        }
      }
    }
  }

  /** Every worker is doing what it did, or had nothing in use and has nothing. */
  lemma {:induction false} OthersKeepTidy(s: State, t: State)
    requires Tidy(s) && |s.workers| == |t.workers| && t.markers == s.markers && t.issued == s.issued && t.temporaries == s.temporaries
    requires forall i :: 0 <= i < |s.workers| ==> Held(t.workers[i]) == Held(s.workers[i]) && FileOf(t.workers[i]) == FileOf(s.workers[i])
    ensures Tidy(t)
  {
    hide Held, FileOf;
    forall c | c in t.markers ensures t.issued[c] > 0 || InUse(t, c) {
      if s.issued[c] == 0 {
        var i :| 0 <= i < |s.workers| && Held(s.workers[i]) == Some(c);
        assert Held(t.workers[i]) == Some(c);
      }
    }
    forall id | id in t.temporaries ensures BeingWritten(t, id) {
      var i :| 0 <= i < |s.workers| && FileOf(s.workers[i]) == Some(id);
      assert FileOf(t.workers[i]) == Some(id);
    }
  }

  lemma {:induction false} StepKeepsTidy(cfg: Config, s: State, e: Event)
    requires Step(cfg, s, e).Some? && Safe(s) && Tidy(s) && Undisturbed(e)
    ensures Tidy(Step(cfg, s, e).value)
  {
    hide Step, Tidy, LeavesInOrder, Change, DistinctDraws, IssuedOnce;
    var t := Step(cfg, s, e).value;
    if IsWorkerStep(e) {
      SafeStepShape(cfg, s, e);
      ChangeMeans(s, t, e.w, DrawnBy(e));
      assert OwnsFile(s, e.w) && OwnsMarker(s, e.w);
      WorkerLeavesInOrder(cfg, s, e);
      WorkerKeepsTidy(s, t, e.w);
    } else {
      NothingGivenUp(cfg, s, e);
      OthersKeepTidy(s, t);
    }
  }

  lemma {:induction false} NothingGivenUp(cfg: Config, s: State, e: Event)
    requires Step(cfg, s, e).Some? && !IsWorkerStep(e) && Undisturbed(e)
    ensures
      var t := Step(cfg, s, e).value;
      && |s.workers| == |t.workers| && t.markers == s.markers && t.issued == s.issued && t.temporaries == s.temporaries
      && forall i :: 0 <= i < |s.workers| ==>
           Held(t.workers[i]) == Held(s.workers[i]) && FileOf(t.workers[i]) == FileOf(s.workers[i])
  {
    hide WorkerStep;
  }

  lemma {:induction false} ChangeMeans(s: State, t: State, w: nat, drawn: Option<Id>)
    requires Change(s, t, w, drawn)
    ensures OthersStand(s, t, w)
  {
  }

  lemma {:induction false} RunKeepsTidy(cfg: Config, s: State, es: seq<Event>)
    requires Safe(s) && Tidy(s) && Run(cfg, s, es).Some? && FreshRun(cfg, s, es)
    requires forall i :: 0 <= i < |es| ==> Undisturbed(es[i])
    ensures Tidy(Run(cfg, s, es).value)
    decreases |es|
  {
    hide Step, Safe, Tidy, Undisturbed;
    if es != [] {
      StepIsSafe(cfg, s, es[0]);
      StepKeepsTidy(cfg, s, es[0]);
      RunKeepsTidy(cfg, Step(cfg, s, es[0]).value, es[1..]);
    }
  }

  /** No right is burned: in an undisturbed run with fresh draws, whatever else failed on the way, every marker there is
      belongs to a ticket or to a job under way, and every temporary file to one being written; at rest every marker has
      its ticket and no temporary file is left. */
  lemma {:induction false} NoRightIsBurned(cfg: Config, es: seq<Event>)
    requires Run(cfg, Initial(cfg), es).Some? && FreshRun(cfg, Initial(cfg), es)
    requires forall i :: 0 <= i < |es| ==> Undisturbed(es[i])
    ensures
      var s := Run(cfg, Initial(cfg), es).value;
      && Tidy(s)
      && ((forall i :: 0 <= i < |s.workers| ==> s.workers[i].Idle?) ==>
            (forall c :: c in s.markers ==> s.issued[c] == 1) && s.temporaries == map[])
  {
    hide Step;
    var s := Run(cfg, Initial(cfg), es).value;
    InitialIsSafe(cfg);
    RunIsSafe(cfg, Initial(cfg), es);
    RunKeepsTidy(cfg, Initial(cfg), es);
    if forall i :: 0 <= i < |s.workers| ==> s.workers[i].Idle? {
      forall c | c in s.markers ensures s.issued[c] == 1 {
        assert !InUse(s, c);
        assert c in s.issued;
      }
      assert forall id :: id !in s.temporaries || BeingWritten(s, id);
      assert s.temporaries.Keys == {};
    }
  }
}
