/** Credential issuance as a step protocol: clients fill a bounded queue, workers take jobs through verification, the
    exclusive issuance marker and the ticket file, every file-system call is one step, any call may fail, clients collect
    tickets, and the process may crash between any two steps. */
module Issuance {
  import opened Outcomes
  import opened Bytes

  datatype Context = Context(version: U8, scope: U8, epoch: U32, room: Block32, party: U8)

  /** A request to sign, with the issuance right it uses if it is for a credential. */
  datatype Job = Job(target: nat, context: Option<Context>)

  type Id = nat

  /** Where a worker stands in process_job. */
  datatype Worker =
    | Idle
    | Taken(job: Job)
    | Verified(job: Job)
    | Marking(job: Job)
    | Claimed(job: Job)
    | Counting(job: Job, seen: set<Id>, begun: nat)
    | Drawing(job: Job, attempt: nat)
    | Clearing(job: Job, id: Id)
    | Creating(job: Job, id: Id)
    | Writing(job: Job, id: Id)
    | Renaming(job: Job, id: Id)
    | Failing(job: Job)

  /** A marker file remembers, for the proof, which worker of which boot created it. */
  datatype Marker = Marker(boot: nat, worker: nat, complete: bool)

  datatype TicketFile = TicketFile(job: Job, writer: nat, complete: bool)

  datatype Config = Config(capacity: nat, maxTickets: nat, workers: nat)

  /** The queue and the workers live in memory; markers, temporary files and tickets are on disk. `issued` counts, per
      context, the tickets that ever became durable; `made` and `collected` count all tickets. */
  datatype State = State(
    queue: seq<Job>, workers: seq<Worker>,
    markers: map<Context, Marker>, temporaries: map<Id, TicketFile>, tickets: map<Id, TicketFile>,
    issued: multiset<Context>, made: nat, collected: nat, clock: nat, boot: nat)

  /** The worker's steps carry its index. A false `ok` is a system call that failed. */
  datatype Event =
    | Submit(job: Job)
    | Take(w: nat)
    | Verdict(w: nat, ok: bool)
    | Claim(w: nat)
    | FinishMarker(w: nat, ok: bool)
    | BeginCount(w: nat)
    | EndCount(w: nat, count: nat)
    | Throw(w: nat)
    | Draw(w: nat, id: Id)
    | ClearTemporary(w: nat)
    | CreateTemporary(w: nat, ok: bool)
    | WriteTemporary(w: nat, ok: bool)
    | Rename(w: nat, ok: bool)
    | RollBack(w: nat, ok: bool)
    | Collect(id: Id)
    | Crash

  const MAX_ATTEMPTS := 8

  function Initial(cfg: Config): (s: State)
  {
    State([], seq(cfg.workers, _ => Idle), map[], map[], map[], multiset{}, 0, 0, 0, 0)
  }

  // ----- the steps -----

  function Put(s: State, w: nat, worker: Worker): (t: State)
    requires w < |s.workers|
  {
    s.(workers := s.workers[w := worker])
  }

  /** submit: a full queue answers busy and keeps nothing. */
  function Enqueue(cfg: Config, s: State, job: Job): (t: State)
  {
    if |s.queue| >= cfg.capacity then s else s.(queue := s.queue + [job])
  }

  /** record_issuance up to the exclusive creation: an existing marker ends the job. */
  function ClaimMarker(s: State, w: nat, job: Job): (t: State)
    requires w < |s.workers|
  {
    match job.context
    case None => Put(s, w, Claimed(job))
    case Some(c) =>
      if c in s.markers then Put(s, w, Idle)
      else Put(s, w, Marking(job)).(markers := s.markers[c := Marker(s.boot, w, false)])
  }

  /** A marker that could not be written is retained and the job ends. */
  function CompleteMarker(s: State, w: nat, job: Job, ok: bool): (t: State)
    requires w < |s.workers|
  {
    if !ok then Put(s, w, Idle)
    else
      match job.context
      case None => Put(s, w, Claimed(job))
      case Some(c) => Put(s, w, Claimed(job)).(markers := s.markers[c := Marker(s.boot, w, true)])
  }

  function DrawId(s: State, w: nat, job: Job, attempt: nat, id: Id): (t: State)
    requires w < |s.workers|
  {
    if id !in s.tickets then Put(s, w, Clearing(job, id))
    else if attempt + 1 < MAX_ATTEMPTS then Put(s, w, Drawing(job, attempt + 1))
    else Put(s, w, Failing(job))
  }

  function Created(s: State, w: nat, job: Job, id: Id, ok: bool): (t: State)
    requires w < |s.workers|
  {
    if !ok || id in s.temporaries then Put(s, w, Failing(job))
    else Put(s, w, Writing(job, id)).(temporaries := s.temporaries[id := TicketFile(job, w, false)])
  }

  function Written(s: State, w: nat, job: Job, id: Id, ok: bool): (t: State)
    requires w < |s.workers|
  {
    if !ok then Put(s, w, Failing(job)).(temporaries := s.temporaries - {id})
    else if id in s.temporaries && s.temporaries[id].writer == w
    then Put(s, w, Renaming(job, id)).(temporaries := s.temporaries[id := TicketFile(job, w, true)])
    else Put(s, w, Renaming(job, id))
  }

  /** The rename moves whatever stands at the temporary path; that is the moment a ticket becomes durable. */
  function Renamed(s: State, w: nat, job: Job, id: Id, ok: bool): (t: State)
    requires w < |s.workers|
  {
    if !ok || id !in s.temporaries then Put(s, w, Failing(job)).(temporaries := s.temporaries - {id})
    else
      var file := s.temporaries[id];
      Put(s, w, Idle).(
        temporaries := s.temporaries - {id},
        tickets := s.tickets[id := file],
        issued := if file.job.context.Some? then s.issued + multiset{file.job.context.value} else s.issued,
        made := s.made + 1)
  }

  /** rollback_uncommitted_issuance removes whatever marker stands at the path, and may itself fail. */
  function RolledBack(s: State, w: nat, job: Job, ok: bool): (t: State)
    requires w < |s.workers|
  {
    if ok && job.context.Some? then Put(s, w, Idle).(markers := s.markers - {job.context.value}) else Put(s, w, Idle)
  }

  function Forget(worker: Worker, id: Id): (r: Worker)
  {
    if worker.Counting? then worker.(seen := worker.seen - {id}) else worker
  }

  function Collected(s: State, id: Id): (t: State)
  {
    if id !in s.tickets then s
    else
      s.(tickets := s.tickets - {id},
         workers := seq(|s.workers|, i requires 0 <= i < |s.workers| => Forget(s.workers[i], id)),
         collected := s.collected + 1)
  }

  function Restarted(s: State): (t: State)
  {
    s.(queue := [], workers := seq(|s.workers|, _ => Idle), boot := s.boot + 1)
  }

  /** One step, or nothing when the event cannot happen in the state. The directory listing is not atomic: a count may
      include tickets that came or went meanwhile, but never misses one that was there throughout. */
  function Step(cfg: Config, s: State, e: Event): (t: Option<State>)
  {
    match e
    case Submit(job) => Some(Enqueue(cfg, s, job))
    case Collect(id) => Some(Collected(s, id))
    case Crash => Some(Restarted(s))
    case Take(w) =>
      if w < |s.workers| && s.workers[w].Idle? && s.queue != []
      then Some(Put(s, w, Taken(s.queue[0])).(queue := s.queue[1..])) else None
    case _ => if e.w < |s.workers| then WorkerStep(cfg, s, e, s.workers[e.w]) else None
  }

  function WorkerStep(cfg: Config, s: State, e: Event, worker: Worker): (t: Option<State>)
    requires !e.Submit? && !e.Collect? && !e.Crash? && !e.Take? && e.w < |s.workers|
  {
    match (worker, e)
    case (Taken(job), Verdict(w, ok)) => Some(Put(s, w, if ok then Verified(job) else Idle))
    case (Verified(_), Throw(w)) => Some(Put(s, w, Idle))
    case (Verified(job), Claim(w)) => Some(ClaimMarker(s, w, job))
    case (Marking(job), FinishMarker(w, ok)) => Some(CompleteMarker(s, w, job, ok))
    case (Claimed(job), BeginCount(w)) =>
      Some(Put(s, w, Counting(job, s.tickets.Keys, s.clock)).(clock := s.clock + 1))
    case (Counting(job, seen, _), EndCount(w, count)) =>
      if count < |seen| then None
      else Some(Put(s, w, if count >= cfg.maxTickets then Failing(job) else Drawing(job, 0)))
    case (Counting(job, _, _), Throw(w)) => Some(Put(s, w, Failing(job)))
    case (Drawing(job, attempt), Draw(w, id)) => Some(DrawId(s, w, job, attempt, id))
    case (Drawing(job, _), Throw(w)) => Some(Put(s, w, Failing(job)))
    case (Clearing(job, id), ClearTemporary(w)) =>
      Some(Put(s, w, Creating(job, id)).(temporaries := s.temporaries - {id}))
    case (Creating(job, id), CreateTemporary(w, ok)) => Some(Created(s, w, job, id, ok))
    case (Writing(job, id), WriteTemporary(w, ok)) => Some(Written(s, w, job, id, ok))
    case (Renaming(job, id), Rename(w, ok)) => Some(Renamed(s, w, job, id, ok))
    case (Failing(job), RollBack(w, ok)) => Some(RolledBack(s, w, job, ok))
    case _ => None
  }

  // ----- safety -----

  /** The issuance right a worker is in the middle of using: from the creation of its marker to the end of the job. */
  function Held(worker: Worker): (c: Option<Context>)
  {
    match worker
    case Idle => None
    case Taken(_) => None
    case Verified(_) => None
    case _ => worker.job.context
  }

  function DrawnId(worker: Worker): (id: Option<Id>)
  {
    match worker
    case Clearing(_, id) => Some(id)
    case Creating(_, id) => Some(id)
    case Writing(_, id) => Some(id)
    case Renaming(_, id) => Some(id)
    case _ => None
  }

  /** A drawn ticket id is one no other worker is using: what thirty-two random bytes are for. */
  predicate FreshDraw(s: State, e: Event)
  {
    e.Draw? ==> forall i :: 0 <= i < |s.workers| && i != e.w ==> DrawnId(s.workers[i]) != Some(e.id)
  }

  /** A worker using an issuance right owns its marker, and no ticket was ever made under that right. */
  predicate OwnsMarker(s: State, i: nat)
    requires i < |s.workers|
  {
    match Held(s.workers[i])
    case None => true
    case Some(c) =>
      c in s.markers && s.markers[c].boot == s.boot && s.markers[c].worker == i && s.issued[c] == 0
  }

  predicate OwnsFile(s: State, i: nat)
    requires i < |s.workers|
  {
    match s.workers[i]
    case Writing(job, id) => id in s.temporaries && s.temporaries[id].job == job && s.temporaries[id].writer == i
    case Renaming(job, id) => id in s.temporaries && s.temporaries[id] == TicketFile(job, i, true)
    case _ => true
  }

  predicate DistinctDraws(s: State)
  {
    && (forall i, j :: 0 <= i < j < |s.workers| && DrawnId(s.workers[i]).Some? ==>
          DrawnId(s.workers[i]) != DrawnId(s.workers[j]))
    && (forall i :: 0 <= i < |s.workers| && DrawnId(s.workers[i]).Some? ==> DrawnId(s.workers[i]).value !in s.tickets)
  }

  /** At most one durable ticket per issuance context, and its marker is still there. */
  ghost predicate IssuedOnce(s: State)
  {
    forall c :: c in s.issued ==> s.issued[c] == 1 && c in s.markers
  }

  ghost predicate Safe(s: State)
  {
    && (forall i :: 0 <= i < |s.workers| ==> OwnsMarker(s, i))
    && (forall i :: 0 <= i < |s.workers| ==> OwnsFile(s, i))
    && DistinctDraws(s)
    && IssuedOnce(s)
    && (forall id :: id in s.tickets ==> s.tickets[id].complete)
  }

  predicate Conserves(s: State)
  {
    s.made == |s.tickets| + s.collected
  }
}
