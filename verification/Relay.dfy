/** The build relay (Cliant/main.go, relayServer) and its reverse workers (Sarver/main.go). One step is
    one lock region or one channel operation; any number of requests and workers interleave. */
module Relay {
  import opened Prelude

  const QUEUE_CAPACITY := 16

  /** A posted result; job is the id of the job whose request the worker built. */
  datatype Result = Result(job: int, status: int, artifact: Option<int>)

  datatype Job = Job(id: int, archive: int)

  // ---------------------------------------------------------------- the server's shared state

  /** The jobs channel, the active map, and every job's one-slot Result channel. */
  datatype Core = Core(jobs: seq<Job>, active: map<int, Job>, results: map<int, Option<Result>>)

  function Registered(c: Core, job: Job): Core {
    c.(active := c.active[job.id := job], results := c.results[job.id := None])
  }

  predicate CanEnqueue(c: Core) {
    |c.jobs| < QUEUE_CAPACITY
  }

  function Enqueued(c: Core, job: Job): Core {
    if CanEnqueue(c) then c.(jobs := c.jobs + [job]) else c
  }

  function Unregistered(c: Core, id: int): Core {
    c.(active := c.active - {id})
  }

  predicate CanSend(c: Core, id: int) {
    id in c.results && c.results[id] == None
  }

  function SentTo(c: Core, id: int, r: Result): Core {
    if CanSend(c, id) then c.(results := c.results[id := Some(r)]) else c
  }

  function Taken(c: Core, id: int): Core {
    c.(results := c.results[id := None])
  }

  /** relayServer: each method is one lock region or one non-blocking channel operation. */
  class RelayServer {
    var jobs: seq<Job>
    var active: map<int, Job>
    var results: map<int, Option<Result>>

    function State(): Core
      reads this
    {
      Core(jobs, active, results)
    }

    constructor ()
      ensures State() == Core([], map[], map[])
    {
      jobs, active, results := [], map[], map[];
    }

    /** newJob, first lock region */
    method Register(id: int, archive: int) returns (job: Job)
      modifies this
      ensures job == Job(id, archive) && State() == Registered(old(State()), job)
    {
      job := Job(id, archive);
      results := results[id := None];
      active := active[id := job];
    }

    /** newJob, the non-blocking send */
    method TryEnqueue(job: Job) returns (ok: bool)
      modifies this`jobs
      ensures ok <==> |old(jobs)| < 16
      ensures State() == Enqueued(old(State()), job)
    {
      if |jobs| < QUEUE_CAPACITY {
        jobs := jobs + [job];
        return true;
      }
      return false;
    }

    /** newJob when the queue is full, and cleanupJob */
    method Unregister(id: int)
      modifies this`active
      ensures State() == Unregistered(old(State()), id)
    {
      active := active - {id};
    }

    /** handleReversePull's receive */
    method Dequeue() returns (job: Job)
      requires jobs != []
      modifies this`jobs
      ensures [job] + jobs == old(jobs) && State() == old(State()).(jobs := jobs)
    {
      job := jobs[0];
      jobs := jobs[1..];
    }

    /** hasJob */
    method HasJob(id: int) returns (ok: bool)
      ensures ok <==> id in active
    {
      ok := id in active;
    }

    /** getJob, and completeJob's lookup */
    method GetJob(id: int) returns (job: Option<Job>)
      ensures job == if id in active then Some(active[id]) else None
    {
      if id in active { job := Some(active[id]); } else { job := None; }
    }

    /** completeJob after its lookup: the non-blocking send */
    method TrySend(job: Job, r: Result) returns (ok: bool)
      modifies this`results
      ensures ok <==> CanSend(old(State()), job.id)
      ensures State() == SentTo(old(State()), job.id, r)
    {
      if job.id in results && results[job.id] == None {
        results := results[job.id := Some(r)];
        return true;
      }
      return false;
    }

    /** handleBuild's receive from job.Result */
    method Receive(job: Job) returns (r: Result)
      requires job.id in results && results[job.id].Some?
      modifies this`results
      ensures old(results[job.id]) == Some(r) && State() == Taken(old(State()), job.id)
    {
      r := results[job.id].value;
      results := results[job.id := None];
    }

    /** newJob as a whole */
    method NewJob(id: int, archive: int) returns (job: Option<Job>)
      modifies this
      ensures job == if |old(jobs)| < 16 then Some(Job(id, archive)) else None
      ensures job.Some? ==> jobs == old(jobs) + [job.value] && active == old(active)[id := job.value]
      ensures job.None? ==> jobs == old(jobs) && active == old(active) - {id}
      ensures results == old(results)[id := None]
    {
      var made := Register(id, archive);
      var ok := TryEnqueue(made);
      if ok {
        return Some(made);
      }
      Unregister(id);
      return None;
    }

    /** handleReversePull: skips the jobs whose request is gone. turns says how often its loop gets round before
        the deadline; in a turn without a job it waits. */
    method PullJob(turns: nat) returns (job: Option<Job>, ghost skipped: nat)
      modifies this`jobs
      ensures skipped <= |old(jobs)| && forall i :: 0 <= i < skipped ==> old(jobs)[i].id !in active
      ensures job.Some? ==>
                && skipped < |old(jobs)| && job.value == old(jobs)[skipped] && job.value.id in active
                && State() == old(State()).(jobs := old(jobs)[skipped + 1..])
      ensures job.None? ==>
                State() == old(State()).(jobs := old(jobs)[skipped..]) && (skipped == |old(jobs)| || skipped == turns)
    {
      skipped := 0;
      for turn := 0 to turns
        invariant skipped <= |old(jobs)| && jobs == old(jobs)[skipped..]
        invariant skipped == turn || skipped == |old(jobs)|
        invariant forall i :: 0 <= i < skipped ==> old(jobs)[i].id !in active
      {
        if jobs != [] {
          var next := Dequeue();
          assert next == old(jobs)[skipped] && jobs == old(jobs)[skipped + 1..];
          var ok := HasJob(next.id);
          if ok {
            return Some(next), skipped;
          }
          skipped := skipped + 1;
        }
      }
      job := None;
    }

    /** completeJob as a whole */
    method CompleteJob(id: int, r: Result) returns (ok: bool)
      modifies this`results
      ensures ok <==> id in active && CanSend(old(State()), active[id].id)
      ensures State() == if ok then old(State()).(results := old(results)[active[id].id := Some(r)]) else old(State())
    {
      var job := GetJob(id);
      if job == None {
        return false;
      }
      ok := TrySend(job.value, r);
    }
  }

  // ---------------------------------------------------------------- requests, workers, and their steps

  /** Where one /build request stands after its archive was saved. */
  datatype ClientPc =
    | InQueue                              // registered, about to enqueue
    | QueueFull                            // about to unregister
    | Waiting                              // selects on job.Result and the request's context
    | Replying(reply: Option<Result>)      // about to clean up; no reply means canceled
    | Leaving(reply: Option<Result>)       // unregistered, about to remove the archive
    | Ended(reply: Option<Result>)

  datatype Client = Client(archive: int, pc: ClientPc)

  /** Where one reverse worker, with the handler that serves it, stands. */
  datatype Worker =
    | Idle
    | Popped(job: Job)                     // received from jobs, about to check hasJob
    | Building(job: Job)                   // was dispatched the job
    | Posting(job: Job, r: Result)         // completeJob found the job, about to send

  datatype State = State(
    core: Core,
    clients: map<int, Client>,
    workers: map<int, Worker>,
    // history: jobs handed to workers, completions accepted, archives removed
    dispatched: seq<(int, int)>,
    completed: seq<int>,
    removed: multiset<int>)

  datatype Action =
    | Submit(id: int, archive: int)
    | Enqueue(id: int)
    | GiveUp(id: int)
    | TakeReply(id: int)
    | CancelRequest(id: int)
    | Cleanup(id: int)
    | RemoveArchive(id: int)
    | StartWorker(w: int)
    | Pop(w: int)
    | CheckJob(w: int)
    | LoseJob(w: int)                      // reply, download or post failed: the worker polls again
    | Post(w: int, r: Result)              // getJob and completeJob's lookup
    | Send(w: int)

  function Init(): State {
    State(Core([], map[], map[]), map[], map[], [], [], multiset{})
  }

  predicate Enabled(s: State, a: Action) {
    match a
    case Submit(id, archive) => id !in s.clients && forall k <- s.clients :: s.clients[k].archive != archive
    case Enqueue(id) => id in s.clients && s.clients[id].pc == InQueue
    case GiveUp(id) => id in s.clients && s.clients[id].pc == QueueFull
    case TakeReply(id) => id in s.clients && s.clients[id].pc == Waiting && id in s.core.results && s.core.results[id].Some?
    case CancelRequest(id) => id in s.clients && s.clients[id].pc == Waiting
    case Cleanup(id) => id in s.clients && s.clients[id].pc.Replying?
    case RemoveArchive(id) => id in s.clients && s.clients[id].pc.Leaving?
    case StartWorker(w) => w !in s.workers
    case Pop(w) => w in s.workers && s.workers[w] == Idle && s.core.jobs != []
    case CheckJob(w) => w in s.workers && s.workers[w].Popped?
    case LoseJob(w) => w in s.workers && s.workers[w].Building?
    case Post(w, r) => w in s.workers && s.workers[w].Building? && r.job == s.workers[w].job.id
    case Send(w) => w in s.workers && s.workers[w].Posting?
  }

  function Move(s: State, id: int, pc: ClientPc): State
    requires id in s.clients
  {
    s.(clients := s.clients[id := s.clients[id].(pc := pc)])
  }

  function Work(s: State, w: int, to: Worker): State {
    s.(workers := s.workers[w := to])
  }

  function Next(s: State, a: Action): State
    requires Enabled(s, a)
  {
    var c := s.core;
    match a
    case Submit(id, archive) =>
      s.(core := Registered(c, Job(id, archive)), clients := s.clients[id := Client(archive, InQueue)])
    case Enqueue(id) =>
      Move(s, id, if CanEnqueue(c) then Waiting else QueueFull).(core := Enqueued(c, Job(id, s.clients[id].archive)))
    case GiveUp(id) => Move(s, id, Leaving(None)).(core := Unregistered(c, id))
    case TakeReply(id) => Move(s, id, Replying(c.results[id])).(core := Taken(c, id))
    case CancelRequest(id) => Move(s, id, Replying(None))
    case Cleanup(id) => Move(s, id, Leaving(s.clients[id].pc.reply)).(core := Unregistered(c, id))
    case RemoveArchive(id) =>
      Move(s, id, Ended(s.clients[id].pc.reply)).(removed := s.removed + multiset{s.clients[id].archive})
    case StartWorker(w) => Work(s, w, Idle)
    case Pop(w) => Work(s, w, Popped(c.jobs[0])).(core := c.(jobs := c.jobs[1..]))
    case CheckJob(w) =>
      var job := s.workers[w].job;
      if job.id in c.active then Work(s, w, Building(job)).(dispatched := s.dispatched + [(job.id, w)]) else Work(s, w, Idle)
    case LoseJob(w) => Work(s, w, Idle)
    case Post(w, r) =>
      if s.workers[w].job.id in c.active then Work(s, w, Posting(s.workers[w].job, r)) else Work(s, w, Idle)
    case Send(w) =>
      var job, r := s.workers[w].job, s.workers[w].r;
      Work(s, w, Idle).(core := SentTo(c, job.id, r), completed := if CanSend(c, job.id) then s.completed + [job.id] else s.completed)
  }

  // ---------------------------------------------------------------- the invariant

  /** Between registration and cleanup. */
  predicate IsActive(pc: ClientPc) {
    pc.InQueue? || pc.QueueFull? || pc.Waiting? || pc.Replying?
  }

  /** The active map is exactly the requests between registration and cleanup. */
  ghost predicate ActiveInv(s: State) {
    && (forall id <- s.clients :: id in s.core.results && (id in s.core.active <==> IsActive(s.clients[id].pc)))
    && (forall id <- s.core.active :: id in s.clients && s.core.active[id] == Job(id, s.clients[id].archive))
    && (forall id <- s.core.results :: id in s.clients)
  }

  /** Job id is past its queueing: in the queue, with a worker, or done with. */
  predicate WasQueued(s: State, id: int) {
    id in s.clients && !s.clients[id].pc.InQueue? && !s.clients[id].pc.QueueFull?
  }

  ghost predicate InJobs(s: State, id: int) {
    exists i :: 0 <= i < |s.core.jobs| && s.core.jobs[i].id == id
  }

  ghost predicate Dispatched(s: State, id: int) {
    exists i :: 0 <= i < |s.dispatched| && s.dispatched[i].0 == id
  }

  /** A job is in one place only: once in the queue, or with one worker, which alone it is dispatched to. */
  ghost predicate QueueInv(s: State) {
    && |s.core.jobs| <= QUEUE_CAPACITY
    && (forall i :: 0 <= i < |s.core.jobs| ==> WasQueued(s, s.core.jobs[i].id))
    && (forall i, j :: 0 <= i < j < |s.core.jobs| ==> s.core.jobs[i].id != s.core.jobs[j].id)
    && (forall w <- s.workers :: s.workers[w] != Idle ==>
      WasQueued(s, s.workers[w].job.id) && !InJobs(s, s.workers[w].job.id))
    && (forall w <- s.workers, x <- s.workers ::
      s.workers[w] != Idle && s.workers[x] != Idle && s.workers[w].job.id == s.workers[x].job.id ==> w == x)
  }

  ghost predicate DispatchInv(s: State) {
    && (forall i :: 0 <= i < |s.dispatched| ==> WasQueued(s, s.dispatched[i].0) && !InJobs(s, s.dispatched[i].0))
    && (forall i, j :: 0 <= i < j < |s.dispatched| ==> s.dispatched[i].0 != s.dispatched[j].0)
    && (forall w <- s.workers :: s.workers[w].Popped? ==> !Dispatched(s, s.workers[w].job.id))
    && (forall w <- s.workers :: s.workers[w].Building? || s.workers[w].Posting? ==>
      (s.workers[w].job.id, w) in s.dispatched)
  }

  /** At most one completion is accepted for a job, and it was posted for that job. */
  ghost predicate CompleteInv(s: State) {
    && (forall i :: 0 <= i < |s.completed| ==> Dispatched(s, s.completed[i]) && s.completed[i] in s.clients)
    && (forall i, j :: 0 <= i < j < |s.completed| ==> s.completed[i] != s.completed[j])
    && (forall w <- s.workers :: s.workers[w] != Idle ==> s.workers[w].job.id !in s.completed)
    && (forall w <- s.workers :: s.workers[w].Posting? ==> s.workers[w].r.job == s.workers[w].job.id)
    && (forall id <- s.core.results :: s.core.results[id].Some? ==> id in s.completed && s.core.results[id].value.job == id)
    && (forall id <- s.clients :: ReplyOf(s.clients[id].pc).Some? ==>
      id in s.completed && ReplyOf(s.clients[id].pc).value.job == id)
  }

  function ReplyOf(pc: ClientPc): Option<Result> {
    match pc
    case Replying(r) => r
    case Leaving(r) => r
    case Ended(r) => r
    case _ => None
  }

  /** A request's archive is removed once, as the last thing the request does. */
  ghost predicate ArchiveInv(s: State) {
    && (forall id <- s.clients, k <- s.clients :: s.clients[id].archive == s.clients[k].archive ==> id == k)
    && (forall id <- s.clients :: s.removed[s.clients[id].archive] == if s.clients[id].pc.Ended? then 1 else 0)
    && (forall f <- s.removed :: exists id <- s.clients :: s.clients[id].archive == f)
  }

  ghost predicate Inv(s: State) {
    ActiveInv(s) && QueueInv(s) && DispatchInv(s) && CompleteInv(s) && ArchiveInv(s)
  }

  lemma ActiveStep(s: State, a: Action)
    requires ActiveInv(s) && Enabled(s, a)
    ensures ActiveInv(Next(s, a))
  {
    hide ActiveInv, Next, Enabled;
    if WorkerStep(a) || a.Pop? {
      ActiveWorker(s, a);
    } else if a.Submit? || a.GiveUp? || a.Cleanup? {
      ActiveEnds(s, a);
    } else {
      ActiveMiddle(s, a);
    }
  }

  lemma ActiveWorker(s: State, a: Action)
    requires ActiveInv(s) && Enabled(s, a) && (WorkerStep(a) || a.Pop?)
    ensures ActiveInv(Next(s, a))
  {
    SameRequests(s, a);
    hide Next, Enabled;
  }

  /** Steps of a worker leave requests and the active map alone. */
  lemma SameRequests(s: State, a: Action)
    requires Enabled(s, a) && (WorkerStep(a) || a.Pop?)
    ensures var t := Next(s, a);
            && t.clients == s.clients && t.core.active == s.core.active && t.core.results.Keys == s.core.results.Keys
  {
  }

  /** A request becomes active, or ceases to be. */
  lemma ActiveEnds(s: State, a: Action)
    requires ActiveInv(s) && Enabled(s, a) && (a.Submit? || a.GiveUp? || a.Cleanup?)
    ensures ActiveInv(Next(s, a))
  {
  }

  lemma ActiveMiddle(s: State, a: Action)
    requires ActiveInv(s) && Enabled(s, a) && (a.Enqueue? || a.TakeReply? || a.CancelRequest? || a.RemoveArchive?)
    ensures ActiveInv(Next(s, a))
  {
  }

  /** Steps of a worker that neither take a job nor complete one. */
  predicate WorkerStep(a: Action) {
    a.StartWorker? || a.CheckJob? || a.LoseJob? || a.Post? || a.Send?
  }

  lemma QueueStep(s: State, a: Action)
    requires QueueInv(s) && Enabled(s, a)
    ensures QueueInv(Next(s, a))
  {
    hide QueueInv, Next, Enabled;
    if a.Enqueue? {
      QueueEnqueue(s, a);
    } else if a.Pop? {
      QueuePop(s, a);
    } else if WorkerStep(a) {
      QueueWorker(s, a);
    } else {
      QueueClient(s, a);
    }
  }

  lemma QueueEnqueue(s: State, a: Action)
    requires QueueInv(s) && Enabled(s, a) && a.Enqueue?
    ensures QueueInv(Next(s, a))
  {
  }

  lemma QueuePop(s: State, a: Action)
    requires QueueInv(s) && Enabled(s, a) && a.Pop?
    ensures QueueInv(Next(s, a))
  {
  }

  lemma QueueWorker(s: State, a: Action)
    requires QueueInv(s) && Enabled(s, a) && WorkerStep(a)
    ensures QueueInv(Next(s, a))
  {
    hide QueueInv, Next, Enabled;
    if a.Send? { QueueWorkerSend(s, a); } else { QueueWorkerRest(s, a); }
  }

  lemma QueueWorkerSend(s: State, a: Action)
    requires QueueInv(s) && Enabled(s, a) && WorkerStep(a) && a.Send?
    ensures QueueInv(Next(s, a))
  {
  }

  lemma QueueWorkerRest(s: State, a: Action)
    requires QueueInv(s) && Enabled(s, a) && WorkerStep(a) && !a.Send?
    ensures QueueInv(Next(s, a))
  {
    hide Next, Enabled;
    SameRequests(s, a);
    WorkerMoves(s, a);
  }

  /** Such a worker becomes idle, or goes on with its job. */
  lemma WorkerMoves(s: State, a: Action)
    requires Enabled(s, a) && WorkerStep(a) && !a.Send?
    ensures var t := Next(s, a);
            && t.core == s.core && t.completed == s.completed && t.removed == s.removed
            && (forall w <- t.workers :: w == a.w || (w in s.workers && t.workers[w] == s.workers[w]))
            && (forall w <- s.workers :: w in t.workers)
            && (t.workers[a.w] != Idle ==>
                  a.w in s.workers && s.workers[a.w] != Idle && t.workers[a.w].job == s.workers[a.w].job)
  {
  }

  lemma QueueClient(s: State, a: Action)
    requires QueueInv(s) && Enabled(s, a) && !a.Enqueue? && !a.Pop? && !WorkerStep(a)
    ensures QueueInv(Next(s, a))
  {
  }

  lemma DispatchStep(s: State, a: Action)
    requires QueueInv(s) && DispatchInv(s) && Enabled(s, a)
    ensures DispatchInv(Next(s, a))
  {
    hide QueueInv, DispatchInv, Next, Enabled;
    if a.Enqueue? || a.Pop? {
      DispatchQueue(s, a);
    } else if WorkerStep(a) {
      DispatchWorker(s, a);
    } else {
      DispatchClient(s, a);
    }
  }

  lemma DispatchQueue(s: State, a: Action)
    requires QueueInv(s) && DispatchInv(s) && Enabled(s, a) && (a.Enqueue? || a.Pop?)
    ensures DispatchInv(Next(s, a))
  {
  }

  lemma DispatchWorker(s: State, a: Action)
    requires QueueInv(s) && DispatchInv(s) && Enabled(s, a) && WorkerStep(a)
    ensures DispatchInv(Next(s, a))
  {
    hide QueueInv, DispatchInv, Next, Enabled;
    if a.CheckJob? { DispatchWorkerCheck(s, a); } else { DispatchWorkerRest(s, a); }
  }

  lemma DispatchWorkerCheck(s: State, a: Action)
    requires QueueInv(s) && DispatchInv(s) && Enabled(s, a) && WorkerStep(a) && a.CheckJob?
    ensures DispatchInv(Next(s, a))
  {
  }

  lemma DispatchWorkerRest(s: State, a: Action)
    requires QueueInv(s) && DispatchInv(s) && Enabled(s, a) && WorkerStep(a) && !a.CheckJob?
    ensures DispatchInv(Next(s, a))
  {
    hide Enabled;
    if a.Send? { DispatchSend(s, a); } else { DispatchLoses(s, a); }
  }

  lemma DispatchSend(s: State, a: Action)
    requires QueueInv(s) && DispatchInv(s) && Enabled(s, a) && a.Send?
    ensures DispatchInv(Next(s, a))
  {
  }

  lemma DispatchLoses(s: State, a: Action)
    requires QueueInv(s) && DispatchInv(s) && Enabled(s, a) && (a.StartWorker? || a.LoseJob? || a.Post?)
    ensures DispatchInv(Next(s, a))
  {
  }

  lemma DispatchClient(s: State, a: Action)
    requires DispatchInv(s) && Enabled(s, a) && !a.Enqueue? && !a.Pop? && !WorkerStep(a)
    ensures DispatchInv(Next(s, a))
  {
  }

  lemma DispatchedStays(s: State, a: Action, id: int)
    requires Enabled(s, a) && Dispatched(s, id)
    ensures Dispatched(Next(s, a), id)
  {
    var i :| 0 <= i < |s.dispatched| && s.dispatched[i].0 == id;
    assert Next(s, a).dispatched[i].0 == id;
  }

  /** Nothing that is still queued was completed. */
  lemma QueuedNotCompleted(s: State, i: nat)
    requires QueueInv(s) && DispatchInv(s) && CompleteInv(s) && i < |s.core.jobs|
    ensures s.core.jobs[i].id !in s.completed
  {
    assert InJobs(s, s.core.jobs[i].id);
  }

  lemma CompleteStep(s: State, a: Action)
    requires ActiveInv(s) && QueueInv(s) && DispatchInv(s) && CompleteInv(s) && Enabled(s, a)
    ensures CompleteInv(Next(s, a))
  {
    hide ActiveInv, QueueInv, DispatchInv, CompleteInv, Next;
    if a.Pop? {
      QueuedNotCompleted(s, 0);
      CompletePop(s, a);
    } else if a.Send? {
      CompleteSend(s, a.w);
    } else if WorkerStep(a) {
      CompleteWorker(s, a);
    } else {
      CompleteClient(s, a);
    }
  }

  lemma CompletePop(s: State, a: Action)
    requires CompleteInv(s) && Enabled(s, a) && a.Pop? && s.core.jobs[0].id !in s.completed
    ensures CompleteInv(Next(s, a))
  {
    hide Dispatched;
    CompletedStay(s, a);
  }

  lemma CompletedStay(s: State, a: Action)
    requires CompleteInv(s) && Enabled(s, a)
    ensures forall i :: 0 <= i < |s.completed| ==> Dispatched(Next(s, a), s.completed[i])
  {
    hide Dispatched, Next, Enabled;
    forall i | 0 <= i < |s.completed|
      ensures Dispatched(Next(s, a), s.completed[i])
    {
      DispatchedStays(s, a, s.completed[i]);
    }
  }

  lemma CompleteWorker(s: State, a: Action)
    requires CompleteInv(s) && Enabled(s, a) && WorkerStep(a) && !a.Send?
    ensures CompleteInv(Next(s, a))
  {
    hide Dispatched;
    CompletedStay(s, a);
    SameRequests(s, a);
    hide Enabled;
  }

  lemma CompleteClient(s: State, a: Action)
    requires CompleteInv(s) && Enabled(s, a) && !WorkerStep(a) && !a.Pop?
    ensures CompleteInv(Next(s, a))
  {
    hide CompleteInv, Next, Enabled;
    if a.TakeReply? { CompleteReply(s, a); } else { CompleteOther(s, a); }
  }

  lemma CompleteReply(s: State, a: Action)
    requires CompleteInv(s) && Enabled(s, a) && a.TakeReply?
    ensures CompleteInv(Next(s, a))
  {
    hide Dispatched;
    CompletedStay(s, a);
  }

  lemma CompleteOther(s: State, a: Action)
    requires CompleteInv(s) && Enabled(s, a) && !WorkerStep(a) && !a.Pop? && !a.TakeReply?
    ensures CompleteInv(Next(s, a))
  {
    hide Dispatched, Next, Enabled;
    CompletedStay(s, a);
    RequestMoves(s, a);
  }

  /** Such a request keeps its reply, and gets none. */
  lemma RequestMoves(s: State, a: Action)
    requires Enabled(s, a) && !WorkerStep(a) && !a.Pop? && !a.TakeReply?
    ensures var t := Next(s, a);
            && t.workers == s.workers && t.completed == s.completed && t.dispatched == s.dispatched
            && (forall id <- s.clients :: id in t.clients)
            && (forall id <- t.clients ::
              ReplyOf(t.clients[id].pc).Some? ==> id in s.clients && ReplyOf(t.clients[id].pc) == ReplyOf(s.clients[id].pc))
            && (forall id <- t.core.results :: t.core.results[id].Some? ==> id in s.core.results && t.core.results[id] == s.core.results[id])
  {
  }

  /** The Result channel of a job that a worker still holds is empty and was never used. */
  lemma CompleteSend(s: State, w: int)
    requires ActiveInv(s) && QueueInv(s) && DispatchInv(s) && CompleteInv(s) && Enabled(s, Send(w))
    ensures CanSend(s.core, s.workers[w].job.id)
    ensures CompleteInv(Next(s, Send(w)))
  {
    hide Dispatched, ActiveInv, QueueInv, DispatchInv;
    HeldJob(s, w);
    DispatchedStays(s, Send(w), s.workers[w].job.id);
    CompletedStay(s, Send(w));
  }

  lemma HeldJob(s: State, w: int)
    requires ActiveInv(s) && QueueInv(s) && DispatchInv(s) && CompleteInv(s) && Enabled(s, Send(w))
    ensures var id := s.workers[w].job.id;
            && CanSend(s.core, id) && Dispatched(s, id) && id in s.clients && id !in s.completed
            && forall x <- s.workers :: x != w && s.workers[x] != Idle ==> s.workers[x].job.id != id
  {
    var id := s.workers[w].job.id;
    assert WasQueued(s, id);
    assert (id, w) in s.dispatched;
  }

  lemma ArchiveStep(s: State, a: Action)
    requires ArchiveInv(s) && Enabled(s, a)
    ensures ArchiveInv(Next(s, a))
  {
    hide ArchiveInv, Next, Enabled;
    if a.Submit? || a.RemoveArchive? {
      ArchiveStepRequest(s, a);
    } else {
      ArchiveStepOther(s, a);
    }
  }

  lemma ArchiveStepOther(s: State, a: Action)
    requires ArchiveInv(s) && Enabled(s, a) && !a.Submit? && !a.RemoveArchive?
    ensures ArchiveInv(Next(s, a))
  {
    SameArchives(s, a);
    hide Next, Enabled;
  }

  lemma SameArchives(s: State, a: Action)
    requires Enabled(s, a) && !a.Submit? && !a.RemoveArchive?
    ensures var t := Next(s, a);
            && t.removed == s.removed && t.clients.Keys == s.clients.Keys
            && forall id <- s.clients ::
              t.clients[id].archive == s.clients[id].archive && (t.clients[id].pc.Ended? <==> s.clients[id].pc.Ended?)
  {
  }

  lemma ArchiveStepRequest(s: State, a: Action)
    requires ArchiveInv(s) && Enabled(s, a) && (a.Submit? || a.RemoveArchive?)
    ensures ArchiveInv(Next(s, a))
  {
    KnownArchives(s, a);
  }

  /** Only archives of requests are ever removed. */
  lemma KnownArchives(s: State, a: Action)
    requires ArchiveInv(s) && Enabled(s, a)
    ensures forall f <- Next(s, a).removed :: exists id <- Next(s, a).clients :: Next(s, a).clients[id].archive == f
  {
    var t := Next(s, a);
    assert forall id <- s.clients :: id in t.clients && t.clients[id].archive == s.clients[id].archive;
    forall f <- t.removed
      ensures exists id <- t.clients :: t.clients[id].archive == f
    {
      if f in s.removed {
        var id :| id in s.clients && s.clients[id].archive == f;
        assert t.clients[id].archive == f;
      } else {
        assert a.RemoveArchive? && t.clients[a.id].archive == f;
      }
    }
  }

  lemma InvStep(s: State, a: Action)
    requires Inv(s) && Enabled(s, a)
    ensures Inv(Next(s, a))
  {
    ActiveStep(s, a);
    QueueStep(s, a);
    DispatchStep(s, a);
    CompleteStep(s, a);
    ArchiveStep(s, a);
  }

  // ---------------------------------------------------------------- every run

  ghost predicate Run(states: seq<State>, acts: seq<Action>) {
    && |states| == |acts| + 1 && states[0] == Init()
    && forall i :: 0 <= i < |acts| ==> Enabled(states[i], acts[i]) && states[i + 1] == Next(states[i], acts[i])
  }

  lemma {:induction false} RunKeepsInv(states: seq<State>, acts: seq<Action>)
    requires Run(states, acts)
    ensures Inv(states[|acts|])
  {
    if acts != [] {
      var n := |acts| - 1;
      RunKeepsInv(states[..n + 1], acts[..n]);
      InvStep(states[n], acts[n]);
    }
  }

  /** Every job is dispatched to at most one worker, and at most one completion of it is accepted. */
  lemma AtMostOnce(states: seq<State>, acts: seq<Action>)
    requires Run(states, acts)
    ensures var s := states[|acts|];
            && (forall d <- s.dispatched, e <- s.dispatched :: d.0 == e.0 ==> d == e)
            && (forall i, j :: 0 <= i < j < |s.completed| ==> s.completed[i] != s.completed[j])
            && (forall id <- s.completed :: exists d <- s.dispatched :: d.0 == id)
            && |s.core.jobs| <= 16
  {
    RunKeepsInv(states, acts);
    var s := states[|acts|];
    forall id <- s.completed
      ensures exists d <- s.dispatched :: d.0 == id
    {
      assert Dispatched(s, id);
      var i :| 0 <= i < |s.dispatched| && s.dispatched[i].0 == id;
      assert s.dispatched[i] in s.dispatched;
    }
  }

  /** A client is answered with a result that was posted for its own job, and once. */
  lemma RepliesAreOwn(states: seq<State>, acts: seq<Action>, id: int)
    requires Run(states, acts) && id in states[|acts|].clients
    ensures var s := states[|acts|];
            ReplyOf(s.clients[id].pc).Some? ==> ReplyOf(s.clients[id].pc).value.job == id && id in s.completed
    ensures var s := states[|acts|];
            id in s.core.active <==> IsActive(s.clients[id].pc)
    ensures var s := states[|acts|];
            s.removed[s.clients[id].archive] == if s.clients[id].pc.Ended? then 1 else 0
  {
    RunKeepsInv(states, acts);
  }

  // ---------------------------------------------------------------- what a reply is

  /** The result that worker w posted last. */
  function LastPost(acts: seq<Action>, w: int): Option<Result> {
    if acts == [] then None
    else
      var n := |acts| - 1;
      if acts[n].Post? && acts[n].w == w then Some(acts[n].r) else LastPost(acts[..n], w)
  }

  /** The result that was posted when a completion of job id was accepted last. */
  function AcceptedFor(states: seq<State>, acts: seq<Action>, id: int): Option<Result>
    requires |states| == |acts| + 1
    decreases |acts|
  {
    if acts == [] then None
    else
      var n := |acts| - 1;
      if acts[n].Send? && states[n + 1].completed == states[n].completed + [id] then LastPost(acts[..n], acts[n].w)
      else AcceptedFor(states[..n + 1], acts[..n], id)
  }

  /** A worker that posts holds what it posted. */
  lemma {:induction false} PostingIsLast(states: seq<State>, acts: seq<Action>, w: int)
    requires Run(states, acts) && w in states[|acts|].workers && states[|acts|].workers[w].Posting?
    ensures LastPost(acts, w) == Some(states[|acts|].workers[w].r)
  {
    hide Next, Enabled;
    NoWorkers();
    var n := |acts| - 1;
    PostingStep(states[n], acts[n], w);
    if !acts[n].Post? || acts[n].w != w { PostingIsLast(states[..n + 1], acts[..n], w); }
  }

  lemma NoWorkers()
    ensures Init().workers == map[] && Init().clients == map[] && Init().core.results == map[]
  {
  }

  lemma PostingStep(s: State, a: Action, w: int)
    requires Enabled(s, a) && w in Next(s, a).workers && Next(s, a).workers[w].Posting?
    ensures if a.Post? && a.w == w then Next(s, a).workers[w].r == a.r else w in s.workers && Next(s, a).workers[w] == s.workers[w]
  {
  }

  /** What waits in a job's Result channel, and what its client is answered with, is the whole result of the
      one post whose completion was accepted for it. */
  lemma {:induction false} ReplyIsPosted(states: seq<State>, acts: seq<Action>, id: int)
    requires Run(states, acts) && id in states[|acts|].clients
    ensures var s, r := states[|acts|], AcceptedFor(states, acts, id);
            && (id in s.core.results && s.core.results[id].Some? ==> s.core.results[id] == r)
            && (ReplyOf(s.clients[id].pc).Some? ==> ReplyOf(s.clients[id].pc) == r)
    decreases |acts|
  {
    hide Next, Enabled, Inv;
    NoWorkers();
    var n := |acts| - 1;
    var before, s, a := states[..n + 1], states[n], acts[n];
    RunKeepsInv(before, acts[..n]);
    if a.Send? {
      PostingAt(s, a);
      PostingIsLast(before, acts[..n], a.w);
      ReplySend(s, a, id);
    } else {
      ReplyOther(s, a, id);
    }
    if id in s.clients { ReplyIsPosted(before, acts[..n], id); }
  }

  lemma PostingAt(s: State, a: Action)
    requires Enabled(s, a) && a.Send?
    ensures a.w in s.workers && s.workers[a.w].Posting?
  {
  }

  /** An accepted completion fills the empty slot of its own job with what was posted, and touches no other. */
  lemma ReplySend(s: State, a: Action, id: int)
    requires Inv(s) && Enabled(s, a) && a.Send?
    ensures var t := Next(s, a);
            && t.clients == s.clients
            && if t.completed == s.completed + [id] then
                 && id in t.core.results && t.core.results[id] == Some(s.workers[a.w].r)
                 && (id in s.clients ==> ReplyOf(s.clients[id].pc) == None)
               else (id in s.core.results <==> id in t.core.results) && (id in t.core.results ==> t.core.results[id] == s.core.results[id])
  {
    hide Inv, Dispatched, ActiveInv, QueueInv, DispatchInv;
    HeldByPost(s, a.w);
    if Next(s, a).completed == s.completed + [id] {
      assert (s.completed + [id])[|s.completed|] == id;
    } else {
      assert CanSend(s.core, s.workers[a.w].job.id);
    }
  }

  lemma HeldByPost(s: State, w: int)
    requires Inv(s) && Enabled(s, Send(w))
    ensures var id := s.workers[w].job.id;
            CanSend(s.core, id) && id !in s.completed && CompleteInv(s)
  {
    hide ActiveInv, QueueInv, DispatchInv, CompleteInv, ArchiveInv;
    HeldJob(s, w);
  }

  /** Other steps fill no slot; a reply comes out of the slot. */
  lemma ReplyOther(s: State, a: Action, id: int)
    requires Enabled(s, a) && !a.Send? && id in Next(s, a).clients
    ensures var t := Next(s, a);
            && (id in t.core.results && t.core.results[id].Some? ==>
                  id in s.clients && id in s.core.results && t.core.results[id] == s.core.results[id])
            && (ReplyOf(t.clients[id].pc).Some? ==>
                  id in s.clients && (ReplyOf(t.clients[id].pc) == ReplyOf(s.clients[id].pc)
                    || (id in s.core.results && ReplyOf(t.clients[id].pc) == s.core.results[id])))
  {
  }

  /** Only its own client or a full queue ends a request without a reply. */
  lemma {:induction false} NoReplyMeansCanceled(states: seq<State>, acts: seq<Action>, id: int)
    requires Run(states, acts) && id in states[|acts|].clients
    requires var pc := states[|acts|].clients[id].pc; (pc.Replying? || pc.Leaving? || pc.Ended?) && ReplyOf(pc) == None
    ensures CancelRequest(id) in acts || GiveUp(id) in acts
  {
    hide Next, Enabled;
    NoWorkers();
    var n := |acts| - 1;
    if acts[n] != CancelRequest(id) && acts[n] != GiveUp(id) {
      LeavesStep(states[n], acts[n], id);
      NoReplyMeansCanceled(states[..n + 1], acts[..n], id);
    }
  }

  lemma LeavesStep(s: State, a: Action, id: int)
    requires Enabled(s, a) && id in Next(s, a).clients && a != CancelRequest(id) && a != GiveUp(id)
    requires var pc := Next(s, a).clients[id].pc; (pc.Replying? || pc.Leaving? || pc.Ended?) && ReplyOf(pc) == None
    ensures id in s.clients && var pc := s.clients[id].pc; (pc.Replying? || pc.Leaving? || pc.Ended?) && ReplyOf(pc) == None
  {
  }

  /** A post that completeJob let through is never turned away by a full Result channel. */
  lemma SendAlwaysAccepted(states: seq<State>, acts: seq<Action>, w: int)
    requires Run(states, acts) && Enabled(states[|acts|], Send(w))
    ensures CanSend(states[|acts|].core, states[|acts|].workers[w].job.id)
  {
    RunKeepsInv(states, acts);
    CompleteSend(states[|acts|], w);
  }

  lemma EndedStep(s: State, a: Action, id: int)
    requires ActiveInv(s) && Enabled(s, a) && id in s.clients && s.clients[id].pc.Ended?
    ensures var t := Next(s, a);
            id in t.clients && t.clients[id] == s.clients[id] && forall d <- t.dispatched | d.0 == id :: d in s.dispatched
  {
  }

  /** A request that ended keeps its reply, and its job is never dispatched any more. */
  lemma {:induction false} EndedStaysEnded(states: seq<State>, acts: seq<Action>, k: nat, id: int)
    requires Run(states, acts) && k <= |acts| && id in states[k].clients && states[k].clients[id].pc.Ended?
    ensures var s, t := states[k], states[|acts|];
            && id in t.clients && t.clients[id] == s.clients[id]
            && forall d <- t.dispatched | d.0 == id :: d in s.dispatched
    decreases |acts|
  {
    if k < |acts| {
      var n := |acts| - 1;
      EndedStaysEnded(states[..n + 1], acts[..n], k, id);
      RunKeepsInv(states[..n + 1], acts[..n]);
      assert ActiveInv(states[n]) && states[n + 1] == Next(states[n], acts[n]);
      hide Inv, ActiveInv, Next;
      EndedStep(states[n], acts[n], id);
    }
  }

  // ---------------------------------------------------------------- undisturbed handlers

  predicate CanTake(s: State, acts: seq<Action>)
    decreases |acts|
  {
    acts == [] || (Enabled(s, acts[0]) && CanTake(Next(s, acts[0]), acts[1..]))
  }

  function After(s: State, acts: seq<Action>): State
    requires CanTake(s, acts)
    decreases |acts|
  {
    if acts == [] then s else After(Next(s, acts[0]), acts[1..])
  }

  lemma TakeFirst(s: State, a: Action, more: seq<Action>)
    requires Enabled(s, a)
    ensures CanTake(s, [a] + more) <==> CanTake(Next(s, a), more)
    ensures CanTake(Next(s, a), more) ==> After(s, [a] + more) == After(Next(s, a), more)
  {
    assert ([a] + more)[1..] == more;
  }

  /** The worker's steps behind turns of the pulling loop. */
  function Pulls(w: int, turns: nat): seq<Action> {
    if turns == 0 then [] else [Pop(w)] + ([CheckJob(w)] + Pulls(w, turns - 1))
  }

  /** A pull that nothing disturbs is such steps: it skips what RelayServer.PullJob skips, and the job it returns
      is dispatched to its worker. */
  lemma {:induction false} PullIsRun(s: State, w: int, skipped: nat, found: bool)
    requires w in s.workers && s.workers[w] == Idle && skipped + (if found then 1 else 0) <= |s.core.jobs|
    requires forall i :: 0 <= i < skipped ==> s.core.jobs[i].id !in s.core.active
    requires found ==> s.core.jobs[skipped].id in s.core.active
    ensures var jobs, acts := s.core.jobs, Pulls(w, if found then skipped + 1 else skipped);
            && CanTake(s, acts)
            && After(s, acts) ==
               if found then
                 s.(core := s.core.(jobs := jobs[skipped + 1..]), workers := s.workers[w := Building(jobs[skipped])],
                   dispatched := s.dispatched + [(jobs[skipped].id, w)])
               else s.(core := s.core.(jobs := jobs[skipped..]))
    decreases skipped
  {
    hide Next, Enabled, CanTake, After;
    var jobs := s.core.jobs;
    NothingTaken();
    if skipped > 0 || found {
      var more := Pulls(w, if found then skipped else skipped - 1);
      var checked := PullTurn(s, w, more);
      if skipped > 0 {
        PullIsRun(checked, w, skipped - 1, found);
        assert jobs[1..][skipped - 1..] == jobs[skipped..];
        if found { assert jobs[1..][skipped..] == jobs[skipped + 1..]; }
      }
    } else {
      assert jobs[0..] == jobs;
    }
  }

  lemma NothingTaken()
    ensures forall s: State :: CanTake(s, []) && After(s, []) == s
  {
  }

  /** The first turn skips the first job, or hands it to the worker. */
  lemma PullTurn(s: State, w: int, more: seq<Action>) returns (checked: State)
    requires w in s.workers && s.workers[w] == Idle && s.core.jobs != []
    ensures var jobs := s.core.jobs;
            checked == if jobs[0].id in s.core.active then
                         s.(core := s.core.(jobs := jobs[1..]), workers := s.workers[w := Building(jobs[0])],
                           dispatched := s.dispatched + [(jobs[0].id, w)])
                       else s.(core := s.core.(jobs := jobs[1..]))
    ensures var acts := [Pop(w)] + ([CheckJob(w)] + more);
            (CanTake(s, acts) <==> CanTake(checked, more)) && (CanTake(checked, more) ==> After(s, acts) == After(checked, more))
  {
    hide CanTake, After;
    var jobs := s.core.jobs;
    var popped := Next(s, Pop(w));
    checked := Next(popped, CheckJob(w));
    TakeFirst(s, Pop(w), [CheckJob(w)] + more);
    TakeFirst(popped, CheckJob(w), more);
    assert s.workers[w := Popped(jobs[0])][w := Idle] == s.workers;
    assert s.workers[w := Popped(jobs[0])][w := Building(jobs[0])] == s.workers[w := Building(jobs[0])];
  }

  /** RelayServer.NewJob: a request is left waiting for its result, or leaves again when the queue is full. */
  lemma NewJobIsRun(s: State, id: int, archive: int)
    requires Enabled(s, Submit(id, archive)) && id !in s.core.active
    ensures var job, fits := Job(id, archive), CanEnqueue(s.core);
            var acts := if fits then [Submit(id, archive), Enqueue(id)] else [Submit(id, archive), Enqueue(id), GiveUp(id)];
            && CanTake(s, acts)
            && After(s, acts) == s.(
               clients := s.clients[id := Client(archive, if fits then Waiting else Leaving(None))],
               core := Core(if fits then s.core.jobs + [job] else s.core.jobs,
                            if fits then s.core.active[id := job] else s.core.active, s.core.results[id := None]))
  {
    var submit, job := Submit(id, archive), Job(id, archive);
    var submitted := Next(s, submit);
    var queued := Next(submitted, Enqueue(id));
    TakeFirst(s, submit, [Enqueue(id)]);
    TakeFirst(submitted, Enqueue(id), []);
    if !CanEnqueue(s.core) {
      TakeFirst(s, submit, [Enqueue(id), GiveUp(id)]);
      TakeFirst(submitted, Enqueue(id), [GiveUp(id)]);
      TakeFirst(queued, GiveUp(id), []);
      assert s.core.active[id := job] - {id} == s.core.active;
    }
  }

  /** RelayServer.CompleteJob for a job that a worker builds: it is accepted exactly if the request is still there. */
  lemma CompleteIsRun(s: State, w: int, r: Result)
    requires Inv(s) && Enabled(s, Post(w, r))
    ensures var id := s.workers[w].job.id; var ok := id in s.core.active;
            var acts := if ok then [Post(w, r), Send(w)] else [Post(w, r)];
            && CanTake(s, acts) && (ok ==> s.core.active[id].id == id && CanSend(s.core, id))
            && After(s, acts) == s.(workers := s.workers[w := Idle],
                core := if ok then s.core.(results := s.core.results[id := Some(r)]) else s.core,
                completed := if ok then s.completed + [id] else s.completed)
  {
    hide Inv;
    var id := s.workers[w].job.id;
    var posted := Next(s, Post(w, r));
    if id in s.core.active {
      PostCanSend(s, w, r);
      TakeFirst(s, Post(w, r), [Send(w)]);
      TakeFirst(posted, Send(w), []);
      assert s.workers[w := Posting(s.workers[w].job, r)][w := Idle] == s.workers[w := Idle];
    } else {
      TakeFirst(s, Post(w, r), []);
    }
  }

  /** RelayServer.Receive, and the rest of handleBuild: the request ends with the result in its slot, its job
      unregistered and its archive removed. */
  lemma ReceiveIsRun(s: State, id: int, r: Result)
    requires id in s.clients && s.clients[id].pc == Waiting && id in s.core.results && s.core.results[id] == Some(r)
    ensures var acts, archive := [TakeReply(id), Cleanup(id), RemoveArchive(id)], s.clients[id].archive;
            && CanTake(s, acts)
            && After(s, acts) == s.(
               clients := s.clients[id := Client(archive, Ended(Some(r)))],
               core := s.core.(active := s.core.active - {id}, results := s.core.results[id := None]),
               removed := s.removed + multiset{archive})
  {
    var taken := Next(s, TakeReply(id));
    LeaveIsRun(taken, id);
    TakeFirst(s, TakeReply(id), [Cleanup(id), RemoveArchive(id)]);
    assert [TakeReply(id)] + [Cleanup(id), RemoveArchive(id)] == [TakeReply(id), Cleanup(id), RemoveArchive(id)];
  }

  /** A request whose client is gone ends without a reply, but leaves its Result channel as it is. */
  lemma CancelIsRun(s: State, id: int)
    requires id in s.clients && s.clients[id].pc == Waiting
    ensures var acts, archive := [CancelRequest(id), Cleanup(id), RemoveArchive(id)], s.clients[id].archive;
            && CanTake(s, acts)
            && After(s, acts) == s.(
               clients := s.clients[id := Client(archive, Ended(None))], core := s.core.(active := s.core.active - {id}),
               removed := s.removed + multiset{archive})
  {
    LeaveIsRun(Next(s, CancelRequest(id)), id);
    TakeFirst(s, CancelRequest(id), [Cleanup(id), RemoveArchive(id)]);
    assert [CancelRequest(id)] + [Cleanup(id), RemoveArchive(id)] == [CancelRequest(id), Cleanup(id), RemoveArchive(id)];
  }

  lemma LeaveIsRun(s: State, id: int)
    requires id in s.clients && s.clients[id].pc.Replying?
    ensures var acts, archive := [Cleanup(id), RemoveArchive(id)], s.clients[id].archive;
            && CanTake(s, acts)
            && After(s, acts) == s.(
               clients := s.clients[id := Client(archive, Ended(s.clients[id].pc.reply))],
               core := s.core.(active := s.core.active - {id}), removed := s.removed + multiset{archive})
  {
    var left := Next(s, Cleanup(id));
    TakeFirst(s, Cleanup(id), [RemoveArchive(id)]);
    TakeFirst(left, RemoveArchive(id), []);
  }

  predicate OfRequest(a: Action, id: int) {
    (a.Enqueue? || a.GiveUp? || a.TakeReply? || a.CancelRequest? || a.Cleanup? || a.RemoveArchive?) && a.id == id
  }

  predicate OfWorker(a: Action, w: int) {
    (a.StartWorker? || a.Pop? || a.CheckJob? || a.LoseJob? || a.Post? || a.Send?) && a.w == w
  }

  /** Where a worker may go from where it stands, and by which step. */
  predicate WorkerOrder(before: Worker, a: Action, after: Worker) {
    match before
    case Idle => a.Pop? && after.Popped?
    case Popped(job) => a.CheckJob? && (after == Building(job) || after == Idle)
    case Building(job) => (a.LoseJob? && after == Idle) || (a.Post? && (after == Posting(job, a.r) || after == Idle))
    case Posting(_, _) => a.Send? && after == Idle
  }

  predicate RequestOrder(before: ClientPc, after: ClientPc) {
    match before
    case InQueue => after == Waiting || after == QueueFull
    case QueueFull => after == Leaving(None)
    case Waiting => after.Replying?
    case Replying(reply) => after == Leaving(reply)
    case Leaving(reply) => after == Ended(reply)
    case Ended(_) => false
  }

  /** Workers and requests go through their stages in order: a worker is rid of its job before it takes another. */
  lemma StepsInOrder(s: State, a: Action)
    requires Enabled(s, a)
    ensures var t := Next(s, a);
            && (forall w :: OfWorker(a, w) ==>
                  w in t.workers && if w in s.workers then WorkerOrder(s.workers[w], a, t.workers[w]) else a.StartWorker? && t.workers[w] == Idle)
            && (forall id :: OfRequest(a, id) ==>
                  id in s.clients && id in t.clients && t.clients[id].archive == s.clients[id].archive
                  && RequestOrder(s.clients[id].pc, t.clients[id].pc))
            && (a.Submit? ==> a.id in t.clients && t.clients[a.id] == Client(a.archive, InQueue))
  {
  }

  /** A request that has not ended can always go on by itself, as its client may cancel it. */
  lemma RequestGoesOn(s: State, id: int) returns (a: Action)
    requires id in s.clients && !s.clients[id].pc.Ended?
    ensures OfRequest(a, id) && Enabled(s, a) && Next(s, a).clients[id].pc != s.clients[id].pc
    ensures s.clients[id].pc == Waiting && id in s.core.results && s.core.results[id].Some? ==> a == TakeReply(id)
  {
    match s.clients[id].pc
    case InQueue => a := Enqueue(id);
    case QueueFull => a := GiveUp(id);
    case Waiting => a := if id in s.core.results && s.core.results[id].Some? then TakeReply(id) else CancelRequest(id);
    case Replying(_) => a := Cleanup(id);
    case Leaving(_) => a := RemoveArchive(id);
  }

  /** So can a worker that holds a job, and it is idle again after at most two steps. */
  lemma WorkerComesBack(s: State, w: int, r: Result) returns (acts: seq<Action>)
    requires w in s.workers && s.workers[w] != Idle && r.job == s.workers[w].job.id
    ensures CanTake(s, acts) && |acts| <= 2 && forall a <- acts :: OfWorker(a, w)
    ensures w in After(s, acts).workers && After(s, acts).workers[w] == Idle
  {
    var a := match s.workers[w] case Popped(_) => CheckJob(w) case Building(_) => LoseJob(w) case Posting(_, _) => Send(w);
    var t := Next(s, a);
    acts := [a];
    TakeFirst(s, a, []);
    if t.workers[w] != Idle {
      acts := [a, LoseJob(w)];
      TakeFirst(s, a, [LoseJob(w)]);
      TakeFirst(t, LoseJob(w), []);
      assert [a] + [LoseJob(w)] == acts;
    } else {
      assert [a] + [] == acts;
    }
  }

  lemma PostCanSend(s: State, w: int, r: Result)
    requires Inv(s) && Enabled(s, Post(w, r))
    ensures var id := s.workers[w].job.id;
            id in s.core.active ==> s.core.active[id].id == id && CanSend(s.core, id)
  {
    hide QueueInv, DispatchInv, CompleteInv, ArchiveInv;
    InvStep(s, Post(w, r));
    if s.workers[w].job.id in s.core.active { CompleteSend(Next(s, Post(w, r)), w); }
  }
}
