/** That issuance gets anywhere: a job that nothing gets in the way of ends with its ticket. */
module IssuanceProgress {
  import opened Outcomes
  import opened Issuance
  import opened IssuanceSafety

  /** The next step of a worker, if nothing fails. */
  function NextStep(worker: Worker, w: nat, id: Id): (e: Event)
    requires !worker.Idle? && !worker.Failing?
  {
    match worker
    case Taken(_) => Verdict(w, true)
    case Verified(_) => Claim(w)
    case Marking(_) => FinishMarker(w, true)
    case Claimed(_) => BeginCount(w)
    case Counting(_, seen, _) => EndCount(w, |seen|)
    case Drawing(_, _) => Draw(w, id)
    case Clearing(_, _) => ClearTemporary(w)
    case Creating(_, _) => CreateTemporary(w, true)
    case Writing(_, _) => WriteTemporary(w, true)
    case Renaming(_, _) => Rename(w, true)
  }

  /** Steps left until the ticket is durable. */
  function StepsLeft(worker: Worker): (n: nat)
  {
    match worker
    case Taken(_) => 10
    case Verified(_) => 9
    case Marking(_) => 8
    case Claimed(_) => 7
    case Counting(_, _, _) => 6
    case Drawing(_, _) => 5
    case Clearing(_, _) => 4
    case Creating(_, _) => 3
    case Writing(_, _) => 2
    case Renaming(_, _) => 1
    case _ => 0
  }

  /** The store has room, the id is free, the right is unused or already claimed by the worker, and the worker's file stands
      as far as it has got. */
  ghost predicate Unhindered(cfg: Config, s: State, w: nat, job: Job, id: Id)
  {
    && w < |s.workers| && StepsLeft(s.workers[w]) > 0 && s.workers[w].job == job
    && |s.tickets| < cfg.maxTickets && id !in s.tickets
    && (job.context.Some? ==> (job.context.value in s.markers <==> StepsLeft(s.workers[w]) < 9))
    && match s.workers[w]
       case Counting(_, seen, _) => |seen| < cfg.maxTickets
       case Clearing(_, i) => i == id
       case Creating(_, i) => i == id && id !in s.temporaries
       case Writing(_, i) => i == id && id in s.temporaries && s.temporaries[id] == TicketFile(job, w, false)
       case Renaming(_, i) => i == id && id in s.temporaries && s.temporaries[id] == TicketFile(job, w, true)
       case _ => true
  }

  /** A ticket of the job is there, its right is used, and the worker is free again. */
  ghost predicate Issued(s: State, t: State, w: nat, job: Job, id: Id)
  {
    && t.tickets == s.tickets[id := TicketFile(job, w, true)] && t.made == s.made + 1
    && t.issued == (if job.context.Some? then s.issued + multiset{job.context.value} else s.issued)
    && (job.context.Some? ==> job.context.value in t.markers)
    && |t.workers| == |s.workers| && w < |t.workers| && t.workers[w].Idle?
  }

  ghost predicate Advances(cfg: Config, s: State, next: Option<State>, w: nat, job: Job, id: Id)
    requires w < |s.workers|
  {
    && next.Some? && |next.value.workers| == |s.workers|
    && (if s.workers[w].Renaming? then Issued(s, next.value, w, job, id)
        else
          && Unhindered(cfg, next.value, w, job, id) && StepsLeft(next.value.workers[w]) < StepsLeft(s.workers[w])
          && next.value.tickets == s.tickets && next.value.made == s.made && next.value.issued == s.issued)
  }

  lemma {:induction false} RightStep(cfg: Config, s: State, w: nat, job: Job, id: Id)
    requires Unhindered(cfg, s, w, job, id) && (s.workers[w].Taken? || s.workers[w].Verified? || s.workers[w].Marking?)
    ensures Advances(cfg, s, Step(cfg, s, NextStep(s.workers[w], w, id)), w, job, id)
  {
  }

  lemma {:induction false} CountStep(cfg: Config, s: State, w: nat, job: Job, id: Id)
    requires Unhindered(cfg, s, w, job, id) && (s.workers[w].Claimed? || s.workers[w].Counting?)
    ensures Advances(cfg, s, Step(cfg, s, NextStep(s.workers[w], w, id)), w, job, id)
  {
    assert |s.tickets.Keys| == |s.tickets|;
  }

  lemma {:induction false} DrawStep(cfg: Config, s: State, w: nat, job: Job, id: Id)
    requires Unhindered(cfg, s, w, job, id) && (s.workers[w].Drawing? || s.workers[w].Clearing?)
    ensures Advances(cfg, s, Step(cfg, s, NextStep(s.workers[w], w, id)), w, job, id)
  {
  }

  lemma {:induction false} FileStep(cfg: Config, s: State, w: nat, job: Job, id: Id)
    requires Unhindered(cfg, s, w, job, id) && (s.workers[w].Creating? || s.workers[w].Writing?)
    ensures Advances(cfg, s, Step(cfg, s, NextStep(s.workers[w], w, id)), w, job, id)
  {
  }

  lemma {:induction false} RenameStep(cfg: Config, s: State, w: nat, job: Job, id: Id)
    requires Unhindered(cfg, s, w, job, id) && (s.workers[w].Renaming?)
    ensures Advances(cfg, s, Step(cfg, s, NextStep(s.workers[w], w, id)), w, job, id)
  {
  }

  lemma {:induction false} UnhinderedStep(cfg: Config, s: State, w: nat, job: Job, id: Id)
    requires Unhindered(cfg, s, w, job, id)
    ensures Advances(cfg, s, Step(cfg, s, NextStep(s.workers[w], w, id)), w, job, id)
  {
    hide Advances, Step;
    match s.workers[w]
    case Taken(_) => RightStep(cfg, s, w, job, id);
    case Verified(_) => RightStep(cfg, s, w, job, id);
    case Marking(_) => RightStep(cfg, s, w, job, id);
    case Claimed(_) => CountStep(cfg, s, w, job, id);
    case Counting(_, _, _) => CountStep(cfg, s, w, job, id);
    case Drawing(_, _) => DrawStep(cfg, s, w, job, id);
    case Clearing(_, _) => DrawStep(cfg, s, w, job, id);
    case Creating(_, _) => FileStep(cfg, s, w, job, id);
    case Writing(_, _) => FileStep(cfg, s, w, job, id);
    case Renaming(_, _) => RenameStep(cfg, s, w, job, id);
  }

  lemma {:induction false} UnhinderedRun(cfg: Config, s: State, w: nat, job: Job, id: Id) returns (es: seq<Event>)
    requires Unhindered(cfg, s, w, job, id)
    ensures Run(cfg, s, es).Some? && Issued(s, Run(cfg, s, es).value, w, job, id)
    decreases StepsLeft(s.workers[w])
  {
    hide Step;
    UnhinderedStep(cfg, s, w, job, id);
    var e := NextStep(s.workers[w], w, id);
    var t := Step(cfg, s, e).value;
    var rest := [];
    if !s.workers[w].Renaming? {
      rest := UnhinderedRun(cfg, t, w, job, id);
    }
    es := [e] + rest;
    assert es[1..] == rest;
  }

  /** From any state with an idle worker, an empty queue and room in the store, every job whose right is unused can be
      submitted and gets its ticket, under any free id. */
  lemma {:induction false} EveryJobCanBeIssued(cfg: Config, s: State, w: nat, job: Job, id: Id) returns (es: seq<Event>)
    requires w < |s.workers| && s.workers[w].Idle? && s.queue == [] && cfg.capacity > 0
    requires |s.tickets| < cfg.maxTickets && id !in s.tickets
    requires job.context.Some? ==> job.context.value !in s.markers
    ensures Run(cfg, s, es).Some? && Issued(s, Run(cfg, s, es).value, w, job, id)
  {
    var submitted := Step(cfg, s, Submit(job)).value;
    assert submitted.queue == [job];
    var taken := Step(cfg, submitted, Take(w)).value;
    var rest := UnhinderedRun(cfg, taken, w, job, id);
    es := [Submit(job), Take(w)] + rest;
    assert es[1..] == [Take(w)] + rest && es[1..][1..] == rest;
    assert Run(cfg, submitted, es[1..]) == Run(cfg, taken, rest);
  }

  function DrawsOf(w: nat, ids: seq<Id>): (es: seq<Event>)
  {
    if ids == [] then [] else [Draw(w, ids[0])] + DrawsOf(w, ids[1..])
  }

  /** A worker draws again on an id that is taken, eight times in all, and only then gives up. */
  lemma {:induction false} DrawsAgain(cfg: Config, s: State, w: nat, job: Job, attempt: nat, ids: seq<Id>)
    requires w < |s.workers| && s.workers[w] == Drawing(job, attempt) && attempt + |ids| <= 8
    requires ids != [] && forall i :: 0 <= i < |ids| ==> ids[i] in s.tickets
    ensures Run(cfg, s, DrawsOf(w, ids))
         == Some(Put(s, w, if attempt + |ids| < 8 then Drawing(job, attempt + |ids|) else Failing(job)))
    decreases |ids|
  {
    var es := DrawsOf(w, ids);
    assert es[0] == Draw(w, ids[0]) && es[1..] == DrawsOf(w, ids[1..]);
    var t := Step(cfg, s, es[0]).value;
    if |ids| > 1 {
      DrawsAgain(cfg, t, w, job, attempt + 1, ids[1..]);
      var last := if attempt + |ids| < 8 then Drawing(job, attempt + |ids|) else Failing(job);
      assert t.workers[w := last] == s.workers[w := last];
    } else {
      assert es[1..] == [];
    }
  }
}
