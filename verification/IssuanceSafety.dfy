/** What every interleaving of the issuance steps keeps: one durable ticket per right, the marker behind it, and a
    rollback that only ever removes the caller's own marker. */
module IssuanceSafety {
  import opened Outcomes
  import opened Issuance

  // ----- one step -----

  lemma {:induction false} MarkersStay(cfg: Config, s: State, e: Event)
    requires Step(cfg, s, e).Some? && Safe(s)
    ensures
      var t := Step(cfg, s, e).value;
      && (forall i :: 0 <= i < |t.workers| ==> OwnsMarker(t, i))
      && IssuedOnce(t)
  {
    hide WorkerStep, OwnsFile, DistinctDraws;
    var t := Step(cfg, s, e).value;
    match e
    case Submit(_) => UnchangedOwners(s, t, |s.workers|);
    case Collect(id) =>
      forall i | 0 <= i < |t.workers| ensures OwnsMarker(t, i) {
        assert OwnsMarker(s, i);
      }
    case Crash =>
    case Take(w) => UnchangedOwners(s, t, w);
    case _ =>
      MarkersStayWorker(cfg, s, e);
  }

  /** Every worker but one stands as it did, and neither markers nor issued tickets changed. */
  lemma {:induction false} UnchangedOwners(s: State, t: State, w: nat)
    requires Safe(s) && |s.workers| == |t.workers| && s.markers == t.markers && s.issued == t.issued && s.boot == t.boot
    requires forall i :: 0 <= i < |s.workers| && i != w ==> s.workers[i] == t.workers[i]
    requires w < |t.workers| ==> Held(t.workers[w]).None? || Held(t.workers[w]) == Held(s.workers[w])
    ensures forall i :: 0 <= i < |t.workers| ==> OwnsMarker(t, i)
    ensures IssuedOnce(t)
  {
    forall i | 0 <= i < |t.workers| ensures OwnsMarker(t, i) {
      assert OwnsMarker(s, i);
    }
  }

  /** A step of a worker, as opposed to the queue, the collector or a crash. */
  predicate IsWorkerStep(e: Event)
  {
    !e.Submit? && !e.Collect? && !e.Crash? && !e.Take?
  }

  predicate OthersStand(s: State, t: State, w: nat)
  {
    && |s.workers| == |t.workers| && w < |s.workers| && s.boot == t.boot
    && forall i :: 0 <= i < |s.workers| && i != w ==> s.workers[i] == t.workers[i]
  }

  /** The five things a worker's step can do to the markers and the issued tickets. */
  predicate MarkerChange(s: State, t: State, w: nat)
    requires w < |s.workers| && w < |t.workers|
  {
    || (t.markers == s.markers && t.issued == s.issued && (Held(t.workers[w]).None? || Held(t.workers[w]) == Held(s.workers[w])))
    || (&& Held(t.workers[w]).Some? && Held(t.workers[w]).value !in s.markers && t.issued == s.issued
        && t.markers == s.markers[Held(t.workers[w]).value := Marker(s.boot, w, false)])
    || (&& Held(s.workers[w]).Some? && Held(t.workers[w]) == Held(s.workers[w]) && t.issued == s.issued
        && t.markers == s.markers[Held(s.workers[w]).value := Marker(s.boot, w, true)])
    || (&& Held(s.workers[w]).Some? && t.workers[w].Idle? && t.issued == s.issued
        && t.markers == s.markers - {Held(s.workers[w]).value})
    || (&& Held(s.workers[w]).Some? && t.workers[w].Idle? && t.markers == s.markers
        && t.issued == s.issued + multiset{Held(s.workers[w]).value})
  }

  /** What a worker's step can do to the files: only the temporary file of its own id changes, and a ticket appears only
      by its rename. */
  ghost predicate FileChange(s: State, t: State, w: nat, drawn: Option<Id>)
    requires w < |s.workers| && w < |t.workers|
  {
    var d, d' := DrawnId(s.workers[w]), DrawnId(t.workers[w]);
    && (d'.None? || d' == d || (d' == drawn && drawn.value !in s.tickets))
    && (forall id :: d != Some(id) ==>
          (id in t.temporaries <==> id in s.temporaries)
          && (id in t.temporaries ==> t.temporaries[id] == s.temporaries[id]))
    && t.collected == s.collected
    && ((t.tickets == s.tickets && t.made == s.made)
        || (&& d.Some? && d'.None? && d.value in s.temporaries && s.temporaries[d.value].complete
            && t.tickets == s.tickets[d.value := s.temporaries[d.value]] && t.made == s.made + 1))
    && OwnsFile(t, w)
  }

  ghost predicate Change(s: State, t: State, w: nat, drawn: Option<Id>)
  {
    OthersStand(s, t, w) && MarkerChange(s, t, w) && FileChange(s, t, w, drawn)
  }

  function DrawnBy(e: Event): (id: Option<Id>)
  {
    if e.Draw? then Some(e.id) else None
  }

  lemma {:induction false} ClaimShape(s: State, w: nat, job: Job)
    requires w < |s.workers| && s.workers[w] == Verified(job) && OwnsFile(s, w)
    ensures Change(s, ClaimMarker(s, w, job), w, None)
  {
  }

  lemma {:induction false} CompleteShape(s: State, w: nat, job: Job, ok: bool)
    requires w < |s.workers| && s.workers[w] == Marking(job) && OwnsFile(s, w)
    ensures Change(s, CompleteMarker(s, w, job, ok), w, None)
  {
  }

  lemma {:induction false} RenameShape(s: State, w: nat, job: Job, id: Id, ok: bool)
    requires w < |s.workers| && s.workers[w] == Renaming(job, id) && OwnsFile(s, w)
    ensures Change(s, Renamed(s, w, job, id, ok), w, None)
  {
  }

  lemma {:induction false} RollBackShape(s: State, w: nat, job: Job, ok: bool)
    requires w < |s.workers| && s.workers[w] == Failing(job) && OwnsFile(s, w)
    ensures Change(s, RolledBack(s, w, job, ok), w, None)
  {
  }

  lemma {:induction false} DrawShape(s: State, w: nat, job: Job, attempt: nat, id: Id)
    requires w < |s.workers| && s.workers[w] == Drawing(job, attempt) && OwnsFile(s, w)
    ensures Change(s, DrawId(s, w, job, attempt, id), w, Some(id))
  {
  }

  lemma {:induction false} CreateShape(s: State, w: nat, job: Job, id: Id, ok: bool)
    requires w < |s.workers| && s.workers[w] == Creating(job, id) && OwnsFile(s, w)
    ensures Change(s, Created(s, w, job, id, ok), w, None)
  {
  }

  lemma {:induction false} WriteShape(s: State, w: nat, job: Job, id: Id, ok: bool)
    requires w < |s.workers| && s.workers[w] == Writing(job, id) && OwnsFile(s, w)
    ensures Change(s, Written(s, w, job, id, ok), w, None)
  {
  }

  lemma {:induction false} ClearShape(s: State, w: nat, job: Job, id: Id)
    requires w < |s.workers| && s.workers[w] == Clearing(job, id) && OwnsFile(s, w)
    ensures Change(s, Put(s, w, Creating(job, id)).(temporaries := s.temporaries - {id}), w, None)
  {
  }

  /** A move that touches no file. */
  lemma {:induction false} PutShape(s: State, t: State, w: nat)
    requires w < |s.workers| == |t.workers| && t.workers == s.workers[w := t.workers[w]] && t.boot == s.boot
    requires t.markers == s.markers && t.issued == s.issued && t.temporaries == s.temporaries && t.tickets == s.tickets
    requires t.made == s.made && t.collected == s.collected
    requires Held(t.workers[w]).None? || Held(t.workers[w]) == Held(s.workers[w])
    requires DrawnId(t.workers[w]).None?
    ensures Change(s, t, w, None)
  {
  }

  lemma {:induction false} WorkerStepShape(cfg: Config, s: State, e: Event)
    requires Step(cfg, s, e).Some? && IsWorkerStep(e) && e.w < |s.workers| && OwnsFile(s, e.w)
    ensures Change(s, Step(cfg, s, e).value, e.w, DrawnBy(e))
  {
    hide Change, ClaimMarker, CompleteMarker, DrawId, Created, Written, Renamed, RolledBack;
    var w, worker, t := e.w, s.workers[e.w], Step(cfg, s, e).value;
    match e
    case Claim(_) => ClaimShape(s, w, worker.job);
    case FinishMarker(_, ok) => CompleteShape(s, w, worker.job, ok);
    case Rename(_, ok) => RenameShape(s, w, worker.job, worker.id, ok);
    case RollBack(_, ok) => RollBackShape(s, w, worker.job, ok);
    case Draw(_, id) => DrawShape(s, w, worker.job, worker.attempt, id);
    case CreateTemporary(_, ok) => CreateShape(s, w, worker.job, worker.id, ok);
    case WriteTemporary(_, ok) => WriteShape(s, w, worker.job, worker.id, ok);
    case ClearTemporary(_) => ClearShape(s, w, worker.job, worker.id);
    case Verdict(_, _) => PutShape(s, t, w);
    case BeginCount(_) => PutShape(s, t, w);
    case EndCount(_, _) => PutShape(s, t, w);
    case Throw(_) => PutShape(s, t, w);
  }

  lemma {:induction false} SafeStepShape(cfg: Config, s: State, e: Event)
    requires Step(cfg, s, e).Some? && IsWorkerStep(e) && Safe(s)
    ensures Change(s, Step(cfg, s, e).value, e.w, DrawnBy(e))
  {
    hide WorkerStep, Change;
    assert OwnsFile(s, e.w);
    WorkerStepShape(cfg, s, e);
  }

  lemma {:induction false} MarkersStayWorker(cfg: Config, s: State, e: Event)
    requires Step(cfg, s, e).Some? && Safe(s) && IsWorkerStep(e)
    ensures
      var t := Step(cfg, s, e).value;
      && (forall i :: 0 <= i < |t.workers| ==> OwnsMarker(t, i))
      && IssuedOnce(t)
  {
    var t, w := Step(cfg, s, e).value, e.w;
    SafeStepShape(cfg, s, e);
    MarkerChangeIsSafe(s, t, w);
  }

  lemma {:induction false} MarkerChangeIsSafe(s: State, t: State, w: nat)
    requires Safe(s) && OthersStand(s, t, w) && MarkerChange(s, t, w)
    ensures forall i :: 0 <= i < |t.workers| ==> OwnsMarker(t, i)
    ensures IssuedOnce(t)
  {
    hide OwnsMarker, IssuedOnce, Safe, Held;
    var h, k := Held(s.workers[w]), Held(t.workers[w]);
    if t.markers == s.markers && t.issued == s.issued && (k.None? || k == h) {
      UnchangedOwners(s, t, w);
    } else if k.Some? && k.value !in s.markers && t.issued == s.issued && t.markers == s.markers[k.value := Marker(s.boot, w, false)] {
      ClaimOwns(s, t, w, k.value);
    } else if h.Some? && k == h && t.issued == s.issued && t.markers == s.markers[h.value := Marker(s.boot, w, true)] {
      MarkerOwns(s, t, w, h.value);
    } else if h.Some? && t.workers[w].Idle? && t.issued == s.issued && t.markers == s.markers - {h.value} {
      RollBackOwns(s, t, w, h.value);
    } else {
      RenameOwns(s, t, w, h.value);
    }
  }

  lemma {:induction false} ClaimOwns(s: State, t: State, w: nat, c: Context)
    requires Safe(s) && OthersStand(s, t, w) && c !in s.markers && t.issued == s.issued
    requires t.markers == s.markers[c := Marker(s.boot, w, false)] && Held(t.workers[w]) == Some(c)
    ensures forall i :: 0 <= i < |t.workers| ==> OwnsMarker(t, i)
    ensures IssuedOnce(t)
  {
    assert c !in s.issued;
    forall i | 0 <= i < |t.workers| ensures OwnsMarker(t, i) {
      assert OwnsMarker(s, i);
    }
  }

  lemma {:induction false} MarkerOwns(s: State, t: State, w: nat, c: Context)
    requires Safe(s) && OthersStand(s, t, w) && Held(s.workers[w]) == Some(c) && t.issued == s.issued
    requires t.markers == s.markers[c := Marker(s.boot, w, true)] && Held(t.workers[w]) == Some(c)
    ensures forall i :: 0 <= i < |t.workers| ==> OwnsMarker(t, i)
    ensures IssuedOnce(t)
  {
    assert OwnsMarker(s, w);
    forall i | 0 <= i < |t.workers| ensures OwnsMarker(t, i) {
      assert OwnsMarker(s, i);
    }
  }

  lemma {:induction false} RollBackOwns(s: State, t: State, w: nat, c: Context)
    requires Safe(s) && OthersStand(s, t, w) && Held(s.workers[w]) == Some(c) && t.issued == s.issued
    requires t.markers == s.markers - {c} && t.workers[w].Idle?
    ensures forall i :: 0 <= i < |t.workers| ==> OwnsMarker(t, i)
    ensures IssuedOnce(t)
  {
    assert OwnsMarker(s, w);
    forall i | 0 <= i < |t.workers| ensures OwnsMarker(t, i) {
      assert OwnsMarker(s, i);
    }
  }

  lemma {:induction false} RenameOwns(s: State, t: State, w: nat, c: Context)
    requires Safe(s) && OthersStand(s, t, w) && Held(s.workers[w]) == Some(c)
    requires t.issued == s.issued + multiset{c} && t.markers == s.markers && t.workers[w].Idle?
    ensures forall i :: 0 <= i < |t.workers| ==> OwnsMarker(t, i)
    ensures IssuedOnce(t)
  {
    assert OwnsMarker(s, w);
    forall i | 0 <= i < |t.workers| ensures OwnsMarker(t, i) {
      assert OwnsMarker(s, i);
    }
  }

  lemma {:induction false} FileChangeIsSafe(s: State, t: State, e: Event)
    requires Safe(s) && IsWorkerStep(e) && OthersStand(s, t, e.w) && FileChange(s, t, e.w, DrawnBy(e)) && FreshDraw(s, e)
    ensures DistinctDraws(t)
    ensures forall i :: 0 <= i < |t.workers| ==> OwnsFile(t, i)
    ensures forall id :: id in t.tickets ==> t.tickets[id].complete
  {
    var w := e.w;
    forall i | 0 <= i < |t.workers| ensures OwnsFile(t, i) {
      if i != w {
        assert OwnsFile(s, i);
        assert DrawnId(s.workers[i]).Some? ==> DrawnId(s.workers[i]) != DrawnId(s.workers[w]);
      }
    }
  }

  lemma {:induction false} FilesStay(cfg: Config, s: State, e: Event)
    requires Step(cfg, s, e).Some? && Safe(s) && FreshDraw(s, e)
    ensures
      var t := Step(cfg, s, e).value;
      && DistinctDraws(t)
      && (forall i :: 0 <= i < |t.workers| ==> OwnsFile(t, i))
      && (forall id :: id in t.tickets ==> t.tickets[id].complete)
  {
    hide Step, DistinctDraws, OwnsFile, DrawnId;
    var t := Step(cfg, s, e).value;
    if IsWorkerStep(e) {
      SafeStepShape(cfg, s, e);
      FileChangeIsSafe(s, t, e);
    } else {
      NothingWritten(cfg, s, e);
      FilesStandStill(s, t);
    }
  }

  lemma {:induction false} NothingWritten(cfg: Config, s: State, e: Event)
    requires Step(cfg, s, e).Some? && !IsWorkerStep(e)
    ensures
      var t := Step(cfg, s, e).value;
      && |s.workers| == |t.workers| && t.temporaries == s.temporaries
      && (forall id :: id in t.tickets ==> id in s.tickets && t.tickets[id] == s.tickets[id])
      && (forall i :: 0 <= i < |t.workers| ==> t.workers[i] == s.workers[i] || DrawnId(t.workers[i]).None?)
  {
    hide WorkerStep;
  }

  /** Nothing was written, and each worker stands as it did or holds no id. */
  lemma {:induction false} FilesStandStill(s: State, t: State)
    requires Safe(s) && |s.workers| == |t.workers| && t.temporaries == s.temporaries
    requires forall id :: id in t.tickets ==> id in s.tickets && t.tickets[id] == s.tickets[id]
    requires forall i :: 0 <= i < |t.workers| ==> t.workers[i] == s.workers[i] || DrawnId(t.workers[i]).None?
    ensures DistinctDraws(t)
    ensures forall i :: 0 <= i < |t.workers| ==> OwnsFile(t, i)
    ensures forall id :: id in t.tickets ==> t.tickets[id].complete
  {
    forall i | 0 <= i < |t.workers| ensures OwnsFile(t, i) {
      assert OwnsFile(s, i);
    }
  }

  /** Every step of every worker, every failed call and every crash keeps the issuance rights safe. */
  lemma {:induction false} StepIsSafe(cfg: Config, s: State, e: Event)
    requires Step(cfg, s, e).Some? && Safe(s) && FreshDraw(s, e)
    ensures Safe(Step(cfg, s, e).value)
  {
    hide Step;
    MarkersStay(cfg, s, e);
    FilesStay(cfg, s, e);
  }

  /** A rollback removes no marker but the one its own worker created in this boot, and only under a right for which no
      ticket was ever made; no other step removes a marker. */
  lemma {:induction false} RollBackRemovesItsOwn(cfg: Config, s: State, e: Event, c: Context)
    requires Step(cfg, s, e).Some? && Safe(s)
    requires c in s.markers && c !in Step(cfg, s, e).value.markers
    ensures e.RollBack? && e.w < |s.workers|
    ensures s.workers[e.w].Failing? && s.workers[e.w].job.context == Some(c)
    ensures s.markers[c].boot == s.boot && s.markers[c].worker == e.w && s.issued[c] == 0
  {
    hide MarkerChange, FileChange, OwnsFile, DistinctDraws, IssuedOnce, WorkerStep, Held;
    assert IsWorkerStep(e);
    assert OwnsMarker(s, e.w);
    OnlyRollBackRemoves(cfg, s, e, c);
    HeldWhileFailing(s.workers[e.w]);
  }

  lemma {:induction false} HeldWhileFailing(worker: Worker)
    ensures worker.Failing? ==> Held(worker) == worker.job.context
  {
  }

  lemma {:induction false} OnlyRollBackRemoves(cfg: Config, s: State, e: Event, c: Context)
    requires IsWorkerStep(e) && e.w < |s.workers| && Step(cfg, s, e).Some?
    requires c in s.markers && c !in Step(cfg, s, e).value.markers
    ensures e.RollBack? && s.workers[e.w].Failing? && s.workers[e.w].job.context == Some(c)
  {
    hide DrawId, Created, Written, Renamed;
    match e
    case Draw(_, id) => MarkersKept(s, s.workers[e.w], e.w, id, true);
    case CreateTemporary(_, ok) => MarkersKept(s, s.workers[e.w], e.w, 0, ok);
    case WriteTemporary(_, ok) => MarkersKept(s, s.workers[e.w], e.w, 0, ok);
    case Rename(_, ok) => MarkersKept(s, s.workers[e.w], e.w, 0, ok);
    case _ =>
  }

  lemma {:induction false} MarkersKept(s: State, worker: Worker, w: nat, id: Id, ok: bool)
    requires w < |s.workers|
    ensures worker.Drawing? ==> DrawId(s, w, worker.job, worker.attempt, id).markers == s.markers
    ensures worker.Creating? ==> Created(s, w, worker.job, worker.id, ok).markers == s.markers
    ensures worker.Writing? ==> Written(s, w, worker.job, worker.id, ok).markers == s.markers
    ensures worker.Renaming? ==> Renamed(s, w, worker.job, worker.id, ok).markers == s.markers
  {
  }

  /** After a rollback that went through, the right can be claimed again. */
  lemma {:induction false} RollBackFreesTheRight(cfg: Config, s: State, w: nat, v: nat)
    requires Safe(s) && w < |s.workers| && v < |s.workers| && v != w
    requires s.workers[w].Failing? && s.workers[w].job.context.Some?
    requires s.workers[v].Verified? && s.workers[v].job.context == s.workers[w].job.context
    ensures
      var rolled := Step(cfg, s, RollBack(w, true));
      && rolled.Some?
      && var claimed := Step(cfg, rolled.value, Claim(v));
         claimed.Some? && claimed.value.workers[v] == Marking(s.workers[v].job)
    ensures Step(cfg, s, Claim(v)).Some? && Step(cfg, s, Claim(v)).value.workers[v].Idle?
  {
    assert OwnsMarker(s, w);
  }

  lemma {:induction false} OneMore(m: map<Id, TicketFile>, id: Id, file: TicketFile)
    requires id !in m
    ensures |m[id := file]| == |m| + 1
  {
    assert m[id := file].Keys == m.Keys + {id};
  }

  lemma {:induction false} OneLess(m: map<Id, TicketFile>, id: Id)
    requires id in m
    ensures |m - {id}| == |m| - 1
  {
    assert (m - {id}).Keys == m.Keys - {id};
  }

  lemma {:induction false} ChangeConserves(s: State, t: State, w: nat, drawn: Option<Id>)
    requires Safe(s) && Conserves(s) && Change(s, t, w, drawn)
    ensures Conserves(t)
  {
    hide OwnsFile, OwnsMarker, IssuedOnce, MarkerChange;
    var d := DrawnId(s.workers[w]);
    if t.tickets != s.tickets {
      assert d.value !in s.tickets;
      OneMore(s.tickets, d.value, s.temporaries[d.value]);
    }
  }

  lemma {:induction false} StepConserves(cfg: Config, s: State, e: Event)
    requires Step(cfg, s, e).Some? && Safe(s) && Conserves(s)
    ensures Conserves(Step(cfg, s, e).value)
  {
    hide WorkerStep, Safe, Change;
    if IsWorkerStep(e) {
      SafeStepShape(cfg, s, e);
      ChangeConserves(s, Step(cfg, s, e).value, e.w, DrawnBy(e));
    } else if e.Collect? && e.id in s.tickets {
      OneLess(s.tickets, e.id);
    }
  }

  // ----- every run -----

  /** The state after a run of events, and whether every id drawn on the way was fresh. */
  function Run(cfg: Config, s: State, es: seq<Event>): (t: Option<State>)
    decreases |es|
  {
    if es == [] then Some(s)
    else
      match Step(cfg, s, es[0])
      case None => None
      case Some(next) => Run(cfg, next, es[1..])
  }

  predicate FreshRun(cfg: Config, s: State, es: seq<Event>)
    decreases |es|
  {
    es == [] || (FreshDraw(s, es[0]) && (Step(cfg, s, es[0]).Some? ==> FreshRun(cfg, Step(cfg, s, es[0]).value, es[1..])))
  }

  lemma {:induction false} InitialIsSafe(cfg: Config)
    ensures Safe(Initial(cfg)) && Conserves(Initial(cfg))
  {
  }

  lemma {:induction false} RunIsSafe(cfg: Config, s: State, es: seq<Event>)
    requires Safe(s) && Conserves(s) && Run(cfg, s, es).Some? && FreshRun(cfg, s, es)
    ensures Safe(Run(cfg, s, es).value) && Conserves(Run(cfg, s, es).value)
    decreases |es|
  {
    hide Step, Safe, Conserves;
    if es != [] {
      StepIsSafe(cfg, s, es[0]);
      StepConserves(cfg, s, es[0]);
      RunIsSafe(cfg, Step(cfg, s, es[0]).value, es[1..]);
    }
  }

  /** Over every interleaving, with failures and crashes anywhere: no context ever gets a second durable ticket, the marker
      of one that has a ticket is never gone, no half-written ticket is ever visible, and every ticket made is either
      there or was collected. */
  lemma {:induction false} OneTicketPerContext(cfg: Config, es: seq<Event>)
    requires Run(cfg, Initial(cfg), es).Some? && FreshRun(cfg, Initial(cfg), es)
    ensures
      var s := Run(cfg, Initial(cfg), es).value;
      && (forall c :: s.issued[c] <= 1)
      && (forall c :: s.issued[c] == 1 ==> c in s.markers)
      && (forall id :: id in s.tickets ==> s.tickets[id].complete)
      && s.made == |s.tickets| + s.collected
  {
    InitialIsSafe(cfg);
    RunIsSafe(cfg, Initial(cfg), es);
    var s := Run(cfg, Initial(cfg), es).value;
    forall c ensures s.issued[c] <= 1 {
      if c in s.issued {
        assert s.issued[c] == 1;
      }
    }
  }
}
