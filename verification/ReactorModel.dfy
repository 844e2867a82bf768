/**
 * The coroutine reactor: its jobs, its pending records and the queues that hold
 * them. A resumed coroutine is an arbitrary finite list of the calls it makes
 * before it suspends again; the kernel completes each in-flight entry once.
 */
module ReactorModel {
  import opened Wrappers
  import opened JobForest
  import opened SortedList

  /** What a completion carries; cancelled is the flag of the promise it will resume. */
  datatype UserData = UserData(parent: nat, isUring: bool, cancelled: bool)

  /**
   * The reactor's fields, the kernel's in-flight set, and resuming, the record
   * whose coroutine runs now. started counts the jobs started so far.
   */
  datatype Reactor = Reactor(
    timeTasks: seq<Timer>,
    readyQueue: seq<nat>,
    sqeWaiters: seq<nat>,
    inFlight: set<nat>,
    inflightJobs: int,
    inflightCompletions: int,
    jobs: Jobs,
    records: map<nat, UserData>,
    currentJob: Option<nat>,
    resuming: Option<nat>,
    started: nat)

  const Empty := Reactor([], [], [], {}, 0, 0, map[], map[], None, None, 0)

  /** A call made by a running coroutine; id and j are the addresses the pools hand out. */
  datatype Call =
    | Enqueue(id: nat)
    | Sleep(id: nat, resume: int, now: int)
    | WaitForSqe(id: nat)
    | GetSqe(id: nat, space: bool)
    | Spawn(j: nat, id: nat)
    | SpawnDetached(j: nat, id: nat)
    | MarkCancelled(j: nat)
    | CancelPromise(id: nat)

  /** One step of run's loops, or a spawn from outside. */
  datatype Step =
    | SpawnRoot(j: nat, id: nat)
    | UpdateTimers(now: int)
    | Completion(id: nat, calls: seq<Call>)
    | ResumeReady(calls: seq<Call>)
    | ResumeWaiter(calls: seq<Call>)

  // ----- Lifetimes -----

  /** A new record of the current job. */
  ghost function BeginData(s: Reactor, id: nat, isUring: bool): Reactor
    requires s.currentJob.Some? && s.currentJob.value in s.jobs
  {
    var j := s.currentJob.value;
    s.(records := s.records[id := UserData(j, isUring, false)],
       jobs := s.jobs[j := s.jobs[j].(completions := s.jobs[j].completions + {id})])
  }

  /** The jobs after a record of job j is gone: j ends if it has nothing left. */
  ghost function WithoutData(jobs: Jobs, j: nat, id: nat): Jobs
    requires Rooted(jobs) && j in jobs
  {
    var jobs1 := WithoutCompletion(jobs, j, id);
    if Idle(jobs1[j]) then Ended(jobs1, j) else jobs1
  }

  ghost function EndData(s: Reactor, id: nat): Reactor
    requires Rooted(s.jobs) && id in s.records && s.records[id].parent in s.jobs
  {
    var jobs' := WithoutData(s.jobs, s.records[id].parent, id);
    s.(jobs := jobs', inflightJobs := s.inflightJobs - (|s.jobs| - |jobs'|), records := s.records - {id}, resuming := None)
  }

  /** A new job under parent. */
  ghost function BeginJob(s: Reactor, parent: Option<nat>, j: nat): Reactor
    requires parent.Some? ==> parent.value in s.jobs
  {
    var job := Job(parent, false, {}, {}, s.started);
    var jobs1 := match parent
                 case None => s.jobs
                 case Some(p) => s.jobs[p := s.jobs[p].(children := s.jobs[p].children + {j})];
    s.(jobs := jobs1[j := job], inflightJobs := s.inflightJobs + 1, started := s.started + 1)
  }

  // ----- Calls -----

  ghost function MarkIfCancelled(s: Reactor, id: nat): Reactor
    requires id in s.records && s.records[id].parent in s.jobs
  {
    var d := s.records[id];
    s.(records := s.records[id := d.(cancelled := d.cancelled || s.jobs[d.parent].cancelled)])
  }

  ghost function EnqueueData(s: Reactor, id: nat): Reactor
    requires s.currentJob.Some? && s.currentJob.value in s.jobs
  {
    var s1 := MarkIfCancelled(BeginData(s, id, false), id);
    s1.(readyQueue := s1.readyQueue + [id])
  }

  ghost function AddSleep(s: Reactor, id: nat, resume: int, now: int): Reactor
    requires s.currentJob.Some? && s.currentJob.value in s.jobs
  {
    var s1 := MarkIfCancelled(BeginData(s, id, false), id);
    if resume < now then s1.(readyQueue := s1.readyQueue + [id])
    else s1.(timeTasks := Insert(s1.timeTasks, Timer(resume, id)))
  }

  ghost function EnqueueWaiter(s: Reactor, id: nat): Reactor
    requires s.currentJob.Some? && s.currentJob.value in s.jobs
  {
    var s1 := MarkIfCancelled(BeginData(s, id, false), id);
    if s1.jobs[s.currentJob.value].cancelled then s1.(readyQueue := s1.readyQueue + [id])
    else s1.(sqeWaiters := s1.sqeWaiters + [id])
  }

  ghost function GetEntry(s: Reactor, id: nat, space: bool): Reactor
    requires s.currentJob.Some? && s.currentJob.value in s.jobs
  {
    if !space then s
    else
      var s1 := BeginData(s, id, true);
      s1.(inFlight := s1.inFlight + {id}, inflightCompletions := s1.inflightCompletions + 1)
  }

  /** spawn: a new job whose first and only act so far is to enqueue its coroutine. */
  ghost function SpawnUnder(s: Reactor, parent: Option<nat>, j: nat, id: nat): Reactor
    requires parent.Some? ==> parent.value in s.jobs
  {
    var s1 := BeginJob(s, parent, j).(currentJob := Some(j));
    EnqueueData(s1, id).(currentJob := s.currentJob)
  }

  ghost predicate CanCall(s: Reactor, c: Call) {
    match c
    case MarkCancelled(j) => j in s.jobs
    case CancelPromise(id) => id in s.records
    case Spawn(j, id) => j !in s.jobs && id !in s.records
    case SpawnDetached(j, id) => j !in s.jobs && id !in s.records
    case _ => c.id !in s.records
  }

  ghost function DoCall(s: Reactor, c: Call): Reactor
    requires CanCall(s, c) && s.currentJob.Some? && s.currentJob.value in s.jobs
  {
    match c
    case Enqueue(id) => EnqueueData(s, id)
    case Sleep(id, resume, now) => AddSleep(s, id, resume, now)
    case WaitForSqe(id) => EnqueueWaiter(s, id)
    case GetSqe(id, space) => GetEntry(s, id, space)
    case Spawn(j, id) => SpawnUnder(s, s.currentJob, j, id)
    case SpawnDetached(j, id) => SpawnUnder(s, None, j, id)
    case MarkCancelled(j) => s.(jobs := s.jobs[j := s.jobs[j].(cancelled := true)])
    case CancelPromise(id) => s.(records := s.records[id := s.records[id].(cancelled := true)])
  }

  // ----- Timers -----

  function Ids(ts: seq<Timer>): (r: seq<nat>)
    ensures |r| == |ts|
  {
    seq(|ts|, i requires 0 <= i < |ts| => ts[i].data)
  }

  /** The entries whose job is cancelled, or is not, in list order. */
  function OfCancelled(jobs: Jobs, records: map<nat, UserData>, ts: seq<Timer>, cancelled: bool): seq<Timer>
    requires LiveTimers(jobs, records, ts)
  {
    if ts == [] then []
    else if TimerCancelled(jobs, records, ts[0]) == cancelled then [ts[0]] + OfCancelled(jobs, records, ts[1..], cancelled)
    else OfCancelled(jobs, records, ts[1..], cancelled)
  }

  predicate LiveTimers(jobs: Jobs, records: map<nat, UserData>, ts: seq<Timer>) {
    forall t :: t in ts ==> t.data in records && records[t.data].parent in jobs
  }

  predicate TimerCancelled(jobs: Jobs, records: map<nat, UserData>, t: Timer)
    requires t.data in records && records[t.data].parent in jobs
  {
    jobs[records[t.data].parent].cancelled
  }

  ghost predicate TimersLive(s: Reactor) {
    LiveTimers(s.jobs, s.records, s.timeTasks)
  }

  /** update_timer_tasks: the expired entries become ready, then those of cancelled jobs. */
  ghost function Expire(s: Reactor, now: int): Reactor
    requires TimersLive(s)
  {
    var k := LowerBound(s.timeTasks, now);
    var rest := s.timeTasks[k..];
    var dropped := Ids(OfCancelled(s.jobs, s.records, rest, true));
    s.(readyQueue := s.readyQueue + Ids(s.timeTasks[..k]) + dropped,
       timeTasks := OfCancelled(s.jobs, s.records, rest, false),
       records := map id | id in s.records :: if id in dropped then s.records[id].(cancelled := true) else s.records[id])
  }

  // ----- Resuming -----

  ghost function BeginResume(s: Reactor, id: nat): Reactor
    requires id in s.records
  {
    s.(resuming := Some(id), currentJob := Some(s.records[id].parent))
  }

  ghost predicate CanCalls(s: Reactor, calls: seq<Call>)
    decreases |calls|
  {
    calls == [] ||
    (CanCall(s, calls[0]) && s.currentJob.Some? && s.currentJob.value in s.jobs && CanCalls(DoCall(s, calls[0]), calls[1..]))
  }

  ghost function DoCalls(s: Reactor, calls: seq<Call>): Reactor
    requires CanCalls(s, calls)
    decreases |calls|
  {
    if calls == [] then s else DoCalls(DoCall(s, calls[0]), calls[1..])
  }

  /** resume_stall_check: run the coroutine under its job, then end its record. */
  ghost predicate CanResume(s: Reactor, id: nat, calls: seq<Call>) {
    && id in s.records
    && CanCalls(BeginResume(s, id), calls)
    && var s1 := DoCalls(BeginResume(s, id), calls);
       Rooted(s1.jobs) && id in s1.records && s1.records[id].parent in s1.jobs
  }

  ghost function Resume(s: Reactor, id: nat, calls: seq<Call>): Reactor
    requires CanResume(s, id, calls)
  {
    EndData(DoCalls(BeginResume(s, id), calls).(currentJob := s.currentJob), id)
  }

  ghost predicate CanStep(s: Reactor, a: Step) {
    match a
    case SpawnRoot(j, id) => j !in s.jobs && id !in s.records
    case UpdateTimers(now) => TimersLive(s)
    case Completion(id, calls) => id in s.inFlight && CanResume(TakeCompletion(s, id), id, calls)
    case ResumeReady(calls) => s.readyQueue != [] && CanResume(TakeReady(s), s.readyQueue[0], calls)
    case ResumeWaiter(calls) => s.sqeWaiters != [] && CanResume(TakeWaiter(s), s.sqeWaiters[0], calls)
  }

  ghost function TakeCompletion(s: Reactor, id: nat): Reactor {
    s.(inFlight := s.inFlight - {id}, inflightCompletions := s.inflightCompletions - 1)
  }

  ghost function TakeReady(s: Reactor): Reactor
    requires s.readyQueue != []
  {
    s.(readyQueue := s.readyQueue[1..])
  }

  ghost function TakeWaiter(s: Reactor): Reactor
    requires s.sqeWaiters != []
  {
    s.(sqeWaiters := s.sqeWaiters[1..])
  }

  ghost function DoStep(s: Reactor, a: Step): Reactor
    requires CanStep(s, a)
  {
    match a
    case SpawnRoot(j, id) => SpawnUnder(s, None, j, id)
    case UpdateTimers(now) => Expire(s, now)
    case Completion(id, calls) => Resume(TakeCompletion(s, id), id, calls)
    case ResumeReady(calls) => Resume(TakeReady(s), s.readyQueue[0], calls)
    case ResumeWaiter(calls) => Resume(TakeWaiter(s), s.sqeWaiters[0], calls)
  }

  ghost predicate CanRun(s: Reactor, steps: seq<Step>)
    decreases |steps|
  {
    steps == [] || (CanStep(s, steps[0]) && CanRun(DoStep(s, steps[0]), steps[1..]))
  }

  ghost function Run(s: Reactor, steps: seq<Step>): Reactor
    requires CanRun(s, steps)
    decreases |steps|
  {
    if steps == [] then s else Run(DoStep(s, steps[0]), steps[1..])
  }

  // ----- The invariant -----

  /** Where the records are: each queue, the kernel, and the coroutine that runs. */
  ghost function Places(s: Reactor): multiset<nat> {
    multiset(s.readyQueue) + multiset(Ids(s.timeTasks)) + multiset(s.sqeWaiters) + multiset(s.inFlight)
    + (if s.resuming.Some? then multiset{s.resuming.value} else multiset{})
  }

  /** Completion links: a record is pending with its own job and no other. */
  ghost predicate DataLinked(jobs: Jobs, records: map<nat, UserData>) {
    && (forall id :: id in records ==> records[id].parent in jobs && id in jobs[records[id].parent].completions)
    && (forall j, id :: j in jobs && id in jobs[j].completions ==> id in records && records[id].parent == j)
  }

  ghost predicate AllBusy(jobs: Jobs, started: nat) {
    forall j :: j in jobs ==> !Idle(jobs[j]) && jobs[j].birth < started
  }

  ghost predicate Inv(s: Reactor) {
    && Linked(s.jobs) && DataLinked(s.jobs, s.records) && AllBusy(s.jobs, s.started)
    && s.inflightJobs == |s.jobs|
    && s.inflightCompletions == |s.inFlight|
    && Places(s) == multiset(s.records.Keys)
    && Sorted(s.timeTasks)
    && (if s.resuming.Some? then
          s.resuming.value in s.records && s.currentJob == Some(s.records[s.resuming.value].parent)
        else s.currentJob == None)
  }

  lemma EmptyInv()
    ensures Inv(Empty)
  {
  }

  /** The same records with the same jobs; only promise flags may differ. */
  ghost predicate SameParents(r: map<nat, UserData>, r': map<nat, UserData>) {
    r'.Keys == r.Keys && forall id :: id in r' ==> r'[id].parent == r[id].parent
  }

  lemma KeysPlus(keys: set<nat>, keys': set<nat>, id: nat)
    requires id !in keys && keys' == keys + {id}
    ensures multiset(keys') == multiset(keys) + multiset{id}
  {
  }

  lemma KeysMinus(keys: set<nat>, keys': set<nat>, id: nat)
    requires id in keys && keys' == keys - {id}
    ensures multiset(keys) == multiset(keys') + multiset{id}
  {
    assert keys == keys' + {id};
  }

  function WithCompletion(jobs: Jobs, j: nat, id: nat): Jobs
    requires j in jobs
  {
    jobs[j := jobs[j].(completions := jobs[j].completions + {id})]
  }

  lemma WithCompletionLinked(jobs: Jobs, records: map<nat, UserData>, records': map<nat, UserData>, started: nat, j: nat, id: nat)
    requires Linked(jobs) && DataLinked(jobs, records) && AllBusy(jobs, started) && j in jobs && id !in records
    requires records'.Keys == records.Keys + {id} && records'[id].parent == j
    requires forall i :: i in records ==> records'[i].parent == records[i].parent
    ensures var jobs' := WithCompletion(jobs, j, id);
            Linked(jobs') && DataLinked(jobs', records') && AllBusy(jobs', started)
  {
    LinkedFrame(jobs, WithCompletion(jobs, j, id));
    WithCompletionData(jobs, records, records', j, id);
  }

  lemma WithCompletionData(jobs: Jobs, records: map<nat, UserData>, records': map<nat, UserData>, j: nat, id: nat)
    requires DataLinked(jobs, records) && j in jobs && id !in records
    requires records'.Keys == records.Keys + {id} && records'[id].parent == j
    requires forall i :: i in records ==> records'[i].parent == records[i].parent
    ensures DataLinked(WithCompletion(jobs, j, id), records')
  {
    var jobs' := WithCompletion(jobs, j, id);
    forall i | i in records' ensures records'[i].parent in jobs' && i in jobs'[records'[i].parent].completions {
      assert i != id ==> i in records;
    }
    forall k, i | k in jobs' && i in jobs'[k].completions ensures i in records' && records'[i].parent == k {
      assert i in jobs[k].completions || (k == j && i == id);
    }
  }

  /** A new record of job j, put in exactly one place, keeps the invariant. */
  lemma NewRecordInv(s: Reactor, s': Reactor, j: nat, id: nat)
    requires Inv(s) && j in s.jobs && id !in s.records
    requires s'.jobs == WithCompletion(s.jobs, j, id)
    requires s'.records.Keys == s.records.Keys + {id} && s'.records[id].parent == j
    requires forall i :: i in s.records ==> s'.records[i].parent == s.records[i].parent
    requires s'.inflightJobs == s.inflightJobs && s'.started == s.started
    requires s'.resuming == s.resuming && s'.currentJob == s.currentJob
    requires s'.inflightCompletions == |s'.inFlight| && Sorted(s'.timeTasks)
    requires Places(s') == Places(s) + multiset{id}
    ensures Inv(s')
  {
    KeysPlus(s.records.Keys, s'.records.Keys, id);
    assert s'.jobs.Keys == s.jobs.Keys;
    WithCompletionLinked(s.jobs, s.records, s'.records, s.started, j, id);
  }

  lemma IdsInsert(ts: seq<Timer>, t: Timer)
    ensures multiset(Ids(Insert(ts, t))) == multiset(Ids(ts)) + multiset{t.data}
  {
    var i := LowerBound(ts, t.time);
    IdsConcat(ts[..i] + [t], ts[i..]);
    IdsConcat(ts[..i], [t]);
    IdsConcat(ts[..i], ts[i..]);
    assert ts == ts[..i] + ts[i..];
    assert Ids([t]) == [t.data];
  }

  lemma IdsConcat(a: seq<Timer>, b: seq<Timer>)
    ensures Ids(a + b) == Ids(a) + Ids(b)
  {
  }

  lemma EnqueueInv(s: Reactor, id: nat)
    requires Inv(s) && s.currentJob.Some? && s.currentJob.value in s.jobs && id !in s.records
    ensures Inv(EnqueueData(s, id))
  {
    NewRecordInv(s, EnqueueData(s, id), s.currentJob.value, id);
  }

  lemma AddSleepInv(s: Reactor, id: nat, resume: int, now: int)
    requires Inv(s) && s.currentJob.Some? && s.currentJob.value in s.jobs && id !in s.records
    ensures Inv(AddSleep(s, id, resume, now))
  {
    IdsInsert(s.timeTasks, Timer(resume, id));
    InsertSorted(s.timeTasks, Timer(resume, id));
    NewRecordInv(s, AddSleep(s, id, resume, now), s.currentJob.value, id);
  }

  lemma EnqueueWaiterInv(s: Reactor, id: nat)
    requires Inv(s) && s.currentJob.Some? && s.currentJob.value in s.jobs && id !in s.records
    ensures Inv(EnqueueWaiter(s, id))
  {
    NewRecordInv(s, EnqueueWaiter(s, id), s.currentJob.value, id);
  }

  lemma GetEntryInv(s: Reactor, id: nat, space: bool)
    requires Inv(s) && s.currentJob.Some? && s.currentJob.value in s.jobs && id !in s.records
    ensures Inv(GetEntry(s, id, space))
  {
    if space {
      assert Places(s)[id] == 0;
      assert multiset(s.inFlight + {id}) == multiset(s.inFlight) + multiset{id};
      NewRecordInv(s, GetEntry(s, id, space), s.currentJob.value, id);
    }
  }

  /** The jobs after a spawn: j is new, with its first record, under parent. */
  function WithJob(jobs: Jobs, parent: Option<nat>, j: nat, id: nat, birth: nat): Jobs
    requires parent.Some? ==> parent.value in jobs
  {
    var job := Job(parent, false, {}, {id}, birth);
    match parent
    case None => jobs[j := job]
    case Some(p) => jobs[p := jobs[p].(children := jobs[p].children + {j})][j := job]
  }

  lemma WithJobLinked(jobs: Jobs, started: nat, parent: Option<nat>, j: nat, id: nat)
    requires Linked(jobs) && AllBusy(jobs, started) && j !in jobs
    requires parent.Some? ==> parent.value in jobs
    ensures Linked(WithJob(jobs, parent, j, id, started))
  {
    var jobs' := WithJob(jobs, parent, j, id, started);
    assert jobs'.Keys == jobs.Keys + {j};
    forall k | k in jobs' && jobs'[k].parent.Some?
      ensures var p := jobs'[k].parent.value;
              p in jobs' && jobs'[p].birth < jobs'[k].birth && k in jobs'[p].children
    {
      if k != j { assert jobs[k].parent.value in jobs; }
    }
    forall k, c | k in jobs' && c in jobs'[k].children
      ensures c in jobs' && jobs'[c].parent == Some(k)
    {
      if c != j { assert k in jobs && c in jobs[k].children; }
    }
  }

  lemma WithJobSize(jobs: Jobs, parent: Option<nat>, j: nat, id: nat, birth: nat)
    requires j !in jobs && (parent.Some? ==> parent.value in jobs)
    ensures |WithJob(jobs, parent, j, id, birth)| == |jobs| + 1
  {
    assert WithJob(jobs, parent, j, id, birth).Keys == jobs.Keys + {j};
    assert |jobs.Keys + {j}| == |jobs.Keys| + 1;
  }

  lemma WithJobData(jobs: Jobs, records: map<nat, UserData>, records': map<nat, UserData>, started: nat, parent: Option<nat>, j: nat, id: nat)
    requires DataLinked(jobs, records) && AllBusy(jobs, started) && j !in jobs && id !in records
    requires parent.Some? ==> parent.value in jobs
    requires records'.Keys == records.Keys + {id} && records'[id].parent == j
    requires forall i :: i in records ==> records'[i].parent == records[i].parent
    ensures var jobs' := WithJob(jobs, parent, j, id, started);
            DataLinked(jobs', records') && AllBusy(jobs', started + 1)
  {
    var jobs' := WithJob(jobs, parent, j, id, started);
    assert jobs'.Keys == jobs.Keys + {j};
    forall k, i | k in jobs' && i in jobs'[k].completions ensures i in records' && records'[i].parent == k {
      if k != j { assert i in jobs[k].completions; }
    }
  }

  ghost function Spawned(s: Reactor, parent: Option<nat>, j: nat, id: nat): Reactor
    requires parent.Some? ==> parent.value in s.jobs
  {
    s.(jobs := WithJob(s.jobs, parent, j, id, s.started), records := s.records[id := UserData(j, false, false)],
       readyQueue := s.readyQueue + [id], inflightJobs := s.inflightJobs + 1, started := s.started + 1)
  }

  /** A spawn adds one job whose one record is ready, and nothing else. */
  lemma SpawnAddsOneJob(s: Reactor, parent: Option<nat>, j: nat, id: nat)
    requires parent.Some? ==> parent.value in s.jobs
    requires j !in s.jobs
    ensures SpawnUnder(s, parent, j, id) == Spawned(s, parent, j, id)
  {
    var s1 := BeginJob(s, parent, j);
    assert s1.jobs[j] == Job(parent, false, {}, {}, s.started);
    assert {} + {id} == {id};
    assert s1.jobs[j].(completions := {} + {id}) == Job(parent, false, {}, {id}, s.started);
  }

  lemma SpawnInv(s: Reactor, parent: Option<nat>, j: nat, id: nat)
    requires Inv(s) && j !in s.jobs && id !in s.records && (parent.Some? ==> parent.value in s.jobs)
    ensures Inv(Spawned(s, parent, j, id))
  {
    var jobs', records' := WithJob(s.jobs, parent, j, id, s.started), s.records[id := UserData(j, false, false)];
    WithJobLinked(s.jobs, s.started, parent, j, id);
    WithJobData(s.jobs, s.records, records', s.started, parent, j, id);
    WithJobSize(s.jobs, parent, j, id, s.started);
    KeysPlus(s.records.Keys, records'.Keys, id);
    AddReady(s, jobs', records', id);
  }

  lemma AddReady(s: Reactor, jobs': Jobs, records': map<nat, UserData>, id: nat)
    requires Inv(s)
    requires Linked(jobs') && DataLinked(jobs', records') && AllBusy(jobs', s.started + 1) && |jobs'| == |s.jobs| + 1
    requires multiset(records'.Keys) == multiset(s.records.Keys) + multiset{id}
    requires forall i :: i in s.records ==> i in records' && records'[i].parent == s.records[i].parent
    ensures Inv(s.(jobs := jobs', records := records', readyQueue := s.readyQueue + [id],
                   inflightJobs := s.inflightJobs + 1, started := s.started + 1))
  {
  }

  /** What links jobs and records is in the completions, not in the flags. */
  lemma FlagsDoNotLink(jobs: Jobs, jobs': Jobs, records: map<nat, UserData>, started: nat)
    requires Linked(jobs) && DataLinked(jobs, records) && AllBusy(jobs, started) && jobs'.Keys == jobs.Keys
    requires forall j :: j in jobs ==> jobs'[j] == jobs[j].(cancelled := jobs'[j].cancelled)
    ensures Linked(jobs') && DataLinked(jobs', records) && AllBusy(jobs', started)
  {
    LinkedFrame(jobs, jobs');
    forall j, id | j in jobs' && id in jobs'[j].completions ensures id in records && records[id].parent == j {
      assert id in jobs[j].completions;
    }
  }

  lemma MarkCancelledInv(s: Reactor, j: nat)
    requires Inv(s) && j in s.jobs
    ensures Inv(s.(jobs := s.jobs[j := s.jobs[j].(cancelled := true)]))
  {
    var jobs' := s.jobs[j := s.jobs[j].(cancelled := true)];
    assert jobs'.Keys == s.jobs.Keys;
    FlagsDoNotLink(s.jobs, jobs', s.records, s.started);
  }

  lemma CancelPromiseInv(s: Reactor, id: nat)
    requires Inv(s) && id in s.records
    ensures Inv(s.(records := s.records[id := s.records[id].(cancelled := true)]))
  {
    assert s.records[id := s.records[id].(cancelled := true)].Keys == s.records.Keys;
  }

  lemma CallInv(s: Reactor, c: Call)
    requires Inv(s) && CanCall(s, c) && s.currentJob.Some? && s.currentJob.value in s.jobs
    ensures Inv(DoCall(s, c)) && DoCall(s, c).resuming == s.resuming && DoCall(s, c).currentJob == s.currentJob
    ensures s.resuming.Some? ==> DoCall(s, c).records[s.resuming.value].parent == s.records[s.resuming.value].parent
  {
    match c
    case Enqueue(id) => EnqueueInv(s, id);
    case Sleep(id, resume, now) => AddSleepInv(s, id, resume, now);
    case WaitForSqe(id) => EnqueueWaiterInv(s, id);
    case GetSqe(id, space) => GetEntryInv(s, id, space);
    case Spawn(j, id) => SpawnAddsOneJob(s, s.currentJob, j, id); SpawnInv(s, s.currentJob, j, id);
    case SpawnDetached(j, id) => SpawnAddsOneJob(s, None, j, id); SpawnInv(s, None, j, id);
    case MarkCancelled(j) => MarkCancelledInv(s, j);
    case CancelPromise(id) => CancelPromiseInv(s, id);
  }

  lemma {:induction false} CallsInv(s: Reactor, calls: seq<Call>)
    requires Inv(s) && CanCalls(s, calls) && s.resuming.Some?
    ensures var s' := DoCalls(s, calls);
            Inv(s') && s'.resuming == s.resuming && s'.currentJob == s.currentJob
    decreases |calls|
  {
    if calls != [] {
      CallInv(s, calls[0]);
      CallsInv(DoCall(s, calls[0]), calls[1..]);
    }
  }

  // ----- Ending a record -----

  function WithoutCompletion(jobs: Jobs, j: nat, id: nat): Jobs
    requires j in jobs
  {
    jobs[j := jobs[j].(completions := jobs[j].completions - {id})]
  }

  lemma WithoutCompletionLinked(jobs: Jobs, records: map<nat, UserData>, j: nat, id: nat)
    requires Linked(jobs) && DataLinked(jobs, records) && id in records && records[id].parent == j
    ensures var jobs1 := WithoutCompletion(jobs, j, id);
            Linked(jobs1) && DataLinked(jobs1, records - {id}) && jobs1.Keys == jobs.Keys
  {
    LinkedFrame(jobs, WithoutCompletion(jobs, j, id));
    WithoutCompletionData(jobs, records, j, id);
  }

  lemma WithoutCompletionData(jobs: Jobs, records: map<nat, UserData>, j: nat, id: nat)
    requires DataLinked(jobs, records) && id in records && records[id].parent == j
    ensures DataLinked(WithoutCompletion(jobs, j, id), records - {id})
  {
    var jobs1, records1 := WithoutCompletion(jobs, j, id), records - {id};
    forall i | i in records1 ensures records1[i].parent in jobs1 && i in jobs1[records1[i].parent].completions {
      assert i in records && i != id;
    }
    forall k, i | k in jobs1 && i in jobs1[k].completions ensures i in records1 && records1[i].parent == k {
      assert i in jobs[k].completions;
    }
  }

  lemma EndedData(jobs: Jobs, records: map<nat, UserData>, j: nat)
    requires Rooted(jobs) && DataLinked(jobs, records) && j in jobs && Idle(jobs[j])
    ensures DataLinked(Ended(jobs, j), records)
  {
    DoomedIsChain(jobs, j);
    DoomedHaveNoData(jobs, j);
    var jobs' := Ended(jobs, j);
    forall i | i in records ensures records[i].parent in jobs' {
      assert i in jobs[records[i].parent].completions;
    }
  }

  lemma WithoutDataLinked(jobs: Jobs, records: map<nat, UserData>, started: nat, j: nat, id: nat)
    requires Linked(jobs) && DataLinked(jobs, records) && AllBusy(jobs, started)
    requires id in records && records[id].parent == j
    ensures var jobs' := WithoutData(jobs, j, id);
            Linked(jobs') && DataLinked(jobs', records - {id}) && AllBusy(jobs', started)
  {
    var jobs1 := WithoutCompletion(jobs, j, id);
    WithoutCompletionLinked(jobs, records, j, id);
    if Idle(jobs1[j]) {
      EndedLinked(jobs1, j);
      EndedBusy(jobs1, j);
      EndedData(jobs1, records - {id}, j);
    }
  }

  /** A job that ends has no pending completion left. */
  lemma DoomedHaveNoData(jobs: Jobs, j: nat)
    requires Rooted(jobs) && j in jobs && Idle(jobs[j])
    ensures forall k :: k in Doomed(jobs, j) ==> k in jobs && jobs[k].completions == {}
  {
    DoomedIsChain(jobs, j);
    var ch := Doomed(jobs, j);
    forall k | k in ch ensures k in jobs && jobs[k].completions == {} {
      var i :| 0 <= i < |ch| && ch[i] == k;
      assert i > 0 ==> LastOf(jobs, ch[i], ch[i - 1]);
    }
  }

  lemma EndDataInv(s: Reactor, id: nat)
    requires Inv(s) && s.resuming == Some(id)
    ensures Inv(EndData(s.(currentJob := None), id))
  {
    WithoutDataLinked(s.jobs, s.records, s.started, s.records[id].parent, id);
    var records' := s.records - {id};
    KeysMinus(s.records.Keys, records'.Keys, id);
    DropResuming(s, WithoutData(s.jobs, s.records[id].parent, id), records', id);
  }

  lemma DropResuming(s: Reactor, jobs': Jobs, records': map<nat, UserData>, id: nat)
    requires Inv(s) && s.resuming == Some(id)
    requires Linked(jobs') && DataLinked(jobs', records') && AllBusy(jobs', s.started)
    requires multiset(s.records.Keys) == multiset(records'.Keys) + multiset{id}
    ensures Inv(s.(currentJob := None, jobs := jobs', inflightJobs := s.inflightJobs - (|s.jobs| - |jobs'|),
                   records := records', resuming := None))
  {
    var s' := s.(currentJob := None, jobs := jobs', inflightJobs := s.inflightJobs - (|s.jobs| - |jobs'|),
                 records := records', resuming := None);
    PlacesWithout(s, s', id);
    Cancel(Places(s'), multiset(records'.Keys), id);
  }

  lemma Cancel(a: multiset<nat>, b: multiset<nat>, id: nat)
    requires a + multiset{id} == b + multiset{id}
    ensures a == b
  {
    assert a == (a + multiset{id}) - multiset{id};
  }

  lemma PlacesWithout(s: Reactor, s': Reactor, id: nat)
    requires s.resuming == Some(id) && s'.resuming == None
    requires s'.readyQueue == s.readyQueue && s'.timeTasks == s.timeTasks && s'.sqeWaiters == s.sqeWaiters && s'.inFlight == s.inFlight
    ensures Places(s) == Places(s') + multiset{id}
  {
  }

  // ----- Timers -----

  lemma {:induction false} OfCancelledMembers(s: Reactor, ts: seq<Timer>, b: bool)
    requires LiveTimers(s.jobs, s.records, ts)
    ensures forall t :: t in OfCancelled(s.jobs, s.records, ts, b) <==> t in ts && TimerCancelled(s.jobs, s.records, t) == b
  {
    if ts != [] {
      OfCancelledMembers(s, ts[1..], b);
      assert ts == [ts[0]] + ts[1..];
    }
  }

  lemma SortedFront(t: Timer, ts: seq<Timer>)
    requires Sorted(ts) && forall u :: u in ts ==> t.time <= u.time
    ensures Sorted([t] + ts)
  {
  }

  lemma SortedRest(ts: seq<Timer>)
    requires ts != [] && Sorted(ts)
    ensures Sorted(ts[1..]) && forall u :: u in ts[1..] ==> ts[0].time <= u.time
  {
  }

  lemma {:induction false} OfCancelledSorted(s: Reactor, ts: seq<Timer>, b: bool)
    requires LiveTimers(s.jobs, s.records, ts) && Sorted(ts)
    ensures Sorted(OfCancelled(s.jobs, s.records, ts, b))
    ensures forall t :: t in OfCancelled(s.jobs, s.records, ts, b) <==> t in ts && TimerCancelled(s.jobs, s.records, t) == b
  {
    OfCancelledMembers(s, ts, b);
    if ts != [] {
      SortedRest(ts);
      OfCancelledSorted(s, ts[1..], b);
      SortedFront(ts[0], OfCancelled(s.jobs, s.records, ts[1..], b));
    }
  }

  lemma {:induction false} OfCancelledSplits(s: Reactor, ts: seq<Timer>)
    requires LiveTimers(s.jobs, s.records, ts)
    ensures multiset(ts) == multiset(OfCancelled(s.jobs, s.records, ts, true)) + multiset(OfCancelled(s.jobs, s.records, ts, false))
  {
    if ts != [] {
      OfCancelledSplits(s, ts[1..]);
      assert ts == [ts[0]] + ts[1..];
    }
  }

  lemma IdsFront(t: Timer, ts: seq<Timer>)
    ensures Ids([t] + ts) == [t.data] + Ids(ts) && multiset(Ids([t] + ts)) == multiset{t.data} + multiset(Ids(ts))
  {
    assert Ids([t] + ts) == [t.data] + Ids(ts);
  }

  lemma {:induction false} OfCancelledSplitsIds(s: Reactor, ts: seq<Timer>)
    requires LiveTimers(s.jobs, s.records, ts)
    ensures multiset(Ids(ts)) == multiset(Ids(OfCancelled(s.jobs, s.records, ts, true))) + multiset(Ids(OfCancelled(s.jobs, s.records, ts, false)))
  {
    if ts != [] {
      var t, rest := ts[0], ts[1..];
      var yes, no := OfCancelled(s.jobs, s.records, rest, true), OfCancelled(s.jobs, s.records, rest, false);
      OfCancelledSplitsIds(s, rest);
      assert ts == [t] + rest;
      IdsFront(t, rest);
      if TimerCancelled(s.jobs, s.records, t) { IdsFront(t, yes); } else { IdsFront(t, no); }
    }
  }

  lemma SplitByTime(ts: seq<Timer>, a: seq<Timer>, b: seq<Timer>, now: int)
    requires ts == a + b
    requires forall i :: 0 <= i < |a| ==> a[i].time < now
    requires forall i :: 0 <= i < |b| ==> now <= b[i].time
    ensures forall t :: t in a <==> t in ts && t.time < now
    ensures forall t :: t in b <==> t in ts && now <= t.time
  {
  }

  lemma ExpiredPrefix(ts: seq<Timer>, now: int)
    requires Sorted(ts)
    ensures var k := LowerBound(ts, now);
            && ts == ts[..k] + ts[k..] && Sorted(ts[..k]) && Sorted(ts[k..])
            && (forall t :: t in ts[..k] <==> t in ts && t.time < now)
            && (forall t :: t in ts[k..] <==> t in ts && now <= t.time)
  {
    LowerBoundIs(ts, now);
    var k := LowerBound(ts, now);
    SplitByTime(ts, ts[..k], ts[k..], now);
  }

  lemma TimersAreLive(s: Reactor)
    requires Inv(s)
    ensures TimersLive(s)
  {
    forall t | t in s.timeTasks ensures t.data in s.records {
      var i :| 0 <= i < |s.timeTasks| && s.timeTasks[i] == t;
      assert Ids(s.timeTasks)[i] == t.data;
      assert t.data in Places(s);
    }
  }

  /**
   * update_timer_tasks moves exactly the entries before now, in time order,
   * and then exactly those of cancelled jobs, in time order; the rest stay.
   */
  lemma ExpireMovesExactly(s: Reactor, now: int) returns (expired: seq<Timer>, dropped: seq<Timer>)
    requires Inv(s)
    ensures TimersLive(s)
    ensures var s' := Expire(s, now);
            && s'.readyQueue == s.readyQueue + Ids(expired) + Ids(dropped)
            && Sorted(expired) && Sorted(dropped) && Sorted(s'.timeTasks)
            && multiset(s.timeTasks) == multiset(expired) + multiset(dropped) + multiset(s'.timeTasks)
            && (forall t :: t in expired <==> t in s.timeTasks && t.time < now)
            && (forall t :: t in dropped <==>
                  t in s.timeTasks && now <= t.time && s.jobs[s.records[t.data].parent].cancelled)
            && (forall t :: t in s'.timeTasks <==>
                  t in s.timeTasks && now <= t.time && !s.jobs[s.records[t.data].parent].cancelled)
            && s'.jobs == s.jobs && s'.sqeWaiters == s.sqeWaiters && s'.inFlight == s.inFlight
            && s'.records.Keys == s.records.Keys
  {
    TimersAreLive(s);
    expired, dropped := TimersPart(s, now);
  }

  /** The timers fall into the expired, those of cancelled jobs and the rest. */
  lemma TimersPart(s: Reactor, now: int) returns (expired: seq<Timer>, dropped: seq<Timer>)
    requires TimersLive(s) && Sorted(s.timeTasks)
    ensures var k := LowerBound(s.timeTasks, now);
            expired == s.timeTasks[..k] && dropped == OfCancelled(s.jobs, s.records, s.timeTasks[k..], true)
    ensures var kept := Expire(s, now).timeTasks;
            && Sorted(expired) && Sorted(dropped) && Sorted(kept)
            && multiset(s.timeTasks) == multiset(expired) + multiset(dropped) + multiset(kept)
            && (forall t :: t in expired <==> t in s.timeTasks && t.time < now)
            && (forall t :: t in dropped <==>
                  t in s.timeTasks && now <= t.time && s.jobs[s.records[t.data].parent].cancelled)
            && (forall t :: t in kept <==>
                  t in s.timeTasks && now <= t.time && !s.jobs[s.records[t.data].parent].cancelled)
  {
    var k := LowerBound(s.timeTasks, now);
    ExpiredPrefix(s.timeTasks, now);
    var rest := s.timeTasks[k..];
    OfCancelledSorted(s, rest, true);
    OfCancelledSorted(s, rest, false);
    OfCancelledSplits(s, rest);
    expired, dropped := s.timeTasks[..k], OfCancelled(s.jobs, s.records, rest, true);
  }

  lemma ExpirePlaces(s: Reactor, now: int)
    requires TimersLive(s)
    ensures Places(Expire(s, now)) == Places(s)
  {
    var k := LowerBound(s.timeTasks, now);
    var rest := s.timeTasks[k..];
    assert s.timeTasks == s.timeTasks[..k] + rest;
    IdsConcat(s.timeTasks[..k], rest);
    OfCancelledSplitsIds(s, rest);
  }

  lemma ExpireInv(s: Reactor, now: int)
    requires Inv(s) && TimersLive(s)
    ensures Inv(Expire(s, now))
  {
    ExpirePlaces(s, now);
    var k := LowerBound(s.timeTasks, now);
    OfCancelledSorted(s, s.timeTasks[k..], false);
    SameRecordsInv(s, Expire(s, now));
  }

  lemma SameRecordsInv(s: Reactor, s': Reactor)
    requires Inv(s) && SameParents(s.records, s'.records)
    requires s'.jobs == s.jobs && s'.started == s.started && s'.inflightJobs == s.inflightJobs
    requires s'.inflightCompletions == s.inflightCompletions && s'.inFlight == s.inFlight
    requires s'.currentJob == s.currentJob && s'.resuming == s.resuming
    requires Places(s') == Places(s) && Sorted(s'.timeTasks)
    ensures Inv(s')
  {
  }

  // ----- Whole steps -----

  /** A record leaves its queue to be resumed. */
  lemma BeginResumeInv(s: Reactor, s1: Reactor, id: nat)
    requires Inv(s) && s.resuming == None && id in s.records
    requires s1 == s.(readyQueue := s1.readyQueue, sqeWaiters := s1.sqeWaiters, inFlight := s1.inFlight, inflightCompletions := s1.inflightCompletions)
    requires s1.inflightCompletions == |s1.inFlight| && Places(s) == Places(s1) + multiset{id}
    ensures Inv(BeginResume(s1, id))
  {
    assert Places(BeginResume(s1, id)) == Places(s1) + multiset{id};
  }

  lemma ResumeInv(s: Reactor, s1: Reactor, id: nat, calls: seq<Call>)
    requires Inv(s) && s.resuming == None && id in s.records
    requires s1 == s.(readyQueue := s1.readyQueue, sqeWaiters := s1.sqeWaiters, inFlight := s1.inFlight, inflightCompletions := s1.inflightCompletions)
    requires s1.inflightCompletions == |s1.inFlight| && Places(s) == Places(s1) + multiset{id}
    requires CanResume(s1, id, calls)
    ensures Inv(Resume(s1, id, calls)) && Resume(s1, id, calls).resuming == None
  {
    BeginResumeInv(s, s1, id);
    CallsInv(BeginResume(s1, id), calls);
    EndDataInv(DoCalls(BeginResume(s1, id), calls), id);
  }

  /** The record at the front of a queue, or in flight, is live. */
  lemma PlacedIsLive(s: Reactor, id: nat)
    requires Inv(s) && id in Places(s)
    ensures id in s.records && Places(s)[id] == 1
  {
    assert id in multiset(s.records.Keys);
  }

  lemma CompletionInv(s: Reactor, id: nat, calls: seq<Call>)
    requires Inv(s) && s.resuming == None && CanStep(s, Completion(id, calls))
    ensures Inv(DoStep(s, Completion(id, calls))) && DoStep(s, Completion(id, calls)).resuming == None
  {
    assert multiset(s.inFlight) == multiset(s.inFlight - {id}) + multiset{id};
    PlacedIsLive(s, id);
    ResumeInv(s, TakeCompletion(s, id), id, calls);
  }

  lemma ResumeReadyInv(s: Reactor, calls: seq<Call>)
    requires Inv(s) && s.resuming == None && CanStep(s, ResumeReady(calls))
    ensures Inv(DoStep(s, ResumeReady(calls))) && DoStep(s, ResumeReady(calls)).resuming == None
  {
    TakeReadyPlaces(s);
    PlacedIsLive(s, s.readyQueue[0]);
    ResumeInv(s, TakeReady(s), s.readyQueue[0], calls);
  }

  lemma ResumeWaiterInv(s: Reactor, calls: seq<Call>)
    requires Inv(s) && s.resuming == None && CanStep(s, ResumeWaiter(calls))
    ensures Inv(DoStep(s, ResumeWaiter(calls))) && DoStep(s, ResumeWaiter(calls)).resuming == None
  {
    TakeWaiterPlaces(s);
    PlacedIsLive(s, s.sqeWaiters[0]);
    ResumeInv(s, TakeWaiter(s), s.sqeWaiters[0], calls);
  }

  lemma StepInv(s: Reactor, a: Step)
    requires Inv(s) && s.resuming == None && CanStep(s, a)
    ensures Inv(DoStep(s, a)) && DoStep(s, a).resuming == None
  {
    match a
    case SpawnRoot(j, id) => SpawnAddsOneJob(s, None, j, id); SpawnInv(s, None, j, id);
    case UpdateTimers(now) => ExpireInv(s, now);
    case Completion(id, calls) => CompletionInv(s, id, calls);
    case ResumeReady(calls) => ResumeReadyInv(s, calls);
    case ResumeWaiter(calls) => ResumeWaiterInv(s, calls);
  }

  /** The invariant holds after every run, in whatever order the loops of run take their turns. */
  lemma {:induction false} RunInv(s: Reactor, steps: seq<Step>)
    requires Inv(s) && s.resuming == None && CanRun(s, steps)
    ensures Inv(Run(s, steps)) && Run(s, steps).resuming == None
    decreases |steps|
  {
    if steps != [] {
      StepInv(s, steps[0]);
      RunInv(DoStep(s, steps[0]), steps[1..]);
    }
  }

  // ----- What may step -----

  /** Each call starts jobs and records at free addresses, and cancels live ones: all that a run demands of a coroutine. */
  ghost predicate WellAddressed(s: Reactor, calls: seq<Call>)
    decreases |calls|
  {
    calls == [] ||
    (CanCall(s, calls[0])
     && (s.currentJob.Some? && s.currentJob.value in s.jobs ==> WellAddressed(DoCall(s, calls[0]), calls[1..])))
  }

  lemma {:induction false} CallsRunIff(s: Reactor, calls: seq<Call>)
    requires Inv(s) && s.resuming.Some?
    ensures CanCalls(s, calls) <==> WellAddressed(s, calls)
    decreases |calls|
  {
    assert s.currentJob.Some? && s.currentJob.value in s.jobs;
    if calls != [] && CanCall(s, calls[0]) {
      CallInv(s, calls[0]);
      CallsRunIff(DoCall(s, calls[0]), calls[1..]);
    }
  }

  lemma ResumeRunsIff(s: Reactor, s1: Reactor, id: nat, calls: seq<Call>)
    requires Inv(s) && s.resuming == None && id in s.records
    requires s1 == s.(readyQueue := s1.readyQueue, sqeWaiters := s1.sqeWaiters, inFlight := s1.inFlight, inflightCompletions := s1.inflightCompletions)
    requires s1.inflightCompletions == |s1.inFlight| && Places(s) == Places(s1) + multiset{id}
    ensures CanResume(s1, id, calls) <==> WellAddressed(BeginResume(s1, id), calls)
  {
    BeginResumeInv(s, s1, id);
    CallsRunIff(BeginResume(s1, id), calls);
    if CanCalls(BeginResume(s1, id), calls) { CallsInv(BeginResume(s1, id), calls); }
  }

  // Between turns nothing else can be in the way: a record in flight, at the front of
  // the ready queue or first of the waiters is live and can be resumed whatever
  // well-addressed calls its coroutine makes, and timers can always be updated.

  lemma CompletionRunsIff(s: Reactor, id: nat, calls: seq<Call>)
    requires Inv(s) && s.resuming == None && id in s.inFlight
    ensures id in s.records
    ensures CanStep(s, Completion(id, calls)) <==> WellAddressed(BeginResume(TakeCompletion(s, id), id), calls)
  {
    assert multiset(s.inFlight) == multiset(s.inFlight - {id}) + multiset{id};
    PlacedIsLive(s, id);
    ResumeRunsIff(s, TakeCompletion(s, id), id, calls);
  }

  lemma FrontAndRest(q: seq<nat>)
    requires q != []
    ensures multiset(q) == multiset(q[1..]) + multiset{q[0]}
  {
    assert q == [q[0]] + q[1..];
  }

  lemma TakeReadyPlaces(s: Reactor)
    requires s.readyQueue != []
    ensures Places(s) == Places(TakeReady(s)) + multiset{s.readyQueue[0]} && s.readyQueue[0] in Places(s)
  {
    FrontAndRest(s.readyQueue);
  }

  lemma TakeWaiterPlaces(s: Reactor)
    requires s.sqeWaiters != []
    ensures Places(s) == Places(TakeWaiter(s)) + multiset{s.sqeWaiters[0]} && s.sqeWaiters[0] in Places(s)
  {
    FrontAndRest(s.sqeWaiters);
  }

  lemma ReadyRunsIff(s: Reactor, calls: seq<Call>)
    requires Inv(s) && s.resuming == None && s.readyQueue != []
    ensures s.readyQueue[0] in s.records
    ensures CanStep(s, ResumeReady(calls)) <==> WellAddressed(BeginResume(TakeReady(s), s.readyQueue[0]), calls)
  {
    TakeReadyPlaces(s);
    PlacedIsLive(s, s.readyQueue[0]);
    ResumeRunsIff(s, TakeReady(s), s.readyQueue[0], calls);
  }

  lemma WaiterRunsIff(s: Reactor, calls: seq<Call>)
    requires Inv(s) && s.resuming == None && s.sqeWaiters != []
    ensures s.sqeWaiters[0] in s.records
    ensures CanStep(s, ResumeWaiter(calls)) <==> WellAddressed(BeginResume(TakeWaiter(s), s.sqeWaiters[0]), calls)
  {
    TakeWaiterPlaces(s);
    PlacedIsLive(s, s.sqeWaiters[0]);
    ResumeRunsIff(s, TakeWaiter(s), s.sqeWaiters[0], calls);
  }

  /** As long as empty is false, the loop of run has a turn to take, or only the timers to wait for. */
  lemma RunHasATurn(s: Reactor, now: int)
    requires Inv(s) && s.resuming == None
    ensures CanStep(s, UpdateTimers(now))
    ensures !IsEmpty(s) ==>
              || s.timeTasks != []
              || CanStep(s, ResumeReady([])) || CanStep(s, ResumeWaiter([])) || exists id :: CanStep(s, Completion(id, []))
  {
    TimersAreLive(s);
    if s.readyQueue != [] {
      ReadyRunsIff(s, []);
    } else if s.sqeWaiters != [] {
      WaiterRunsIff(s, []);
    } else if s.inFlight != {} {
      var id :| id in s.inFlight;
      CompletionRunsIff(s, id, []);
    }
  }

  // ----- Main results -----

  /** Every live record is in exactly one place, once, and pending with exactly its own job. */
  lemma OnePlace(s: Reactor, id: nat)
    requires Inv(s)
    ensures Places(s)[id] == if id in s.records then 1 else 0
    ensures forall j :: j in s.jobs ==> (id in s.jobs[j].completions <==> id in s.records && s.records[id].parent == j)
  {
    OnceEach(s.records.Keys, id);
    PendingOnce(s.jobs, s.records, id);
  }

  lemma OnceEach(keys: set<nat>, id: nat)
    ensures multiset(keys)[id] == if id in keys then 1 else 0
  {
  }

  lemma PendingOnce(jobs: Jobs, records: map<nat, UserData>, id: nat)
    requires DataLinked(jobs, records)
    ensures forall j :: j in jobs ==> (id in jobs[j].completions <==> id in records && records[id].parent == j)
  {
  }

  /** A completion is pending somewhere below job k. */
  ghost predicate HasWork(jobs: Jobs, records: map<nat, UserData>, k: nat)
    requires Rooted(jobs)
    requires forall id :: id in records ==> records[id].parent in jobs
  {
    exists id :: id in records && AncestorOrSelf(jobs, k, records[id].parent)
  }

  /** Below every live job a completion is pending, and above every pending completion the jobs are live. */
  lemma LiveIffHasWork(s: Reactor, k: nat)
    requires Inv(s)
    ensures k in s.jobs <==> HasWork(s.jobs, s.records, k)
  {
    if k in s.jobs {
      var j := BusyDescendant(s.jobs, k, s.started);
      var id :| id in s.jobs[j].completions;
      assert id in s.records && AncestorOrSelf(s.jobs, k, s.records[id].parent);
    }
    if HasWork(s.jobs, s.records, k) {
      var id :| id in s.records && AncestorOrSelf(s.jobs, k, s.records[id].parent);
      AncestorIsLive(s.jobs, k, s.records[id].parent);
    }
  }

  /**
   * Ending a record frees exactly the jobs below which no other completion is
   * pending, and leaves the parents of the others as they were.
   */
  lemma EndFreesExactlyTheWorkless(s: Reactor, id: nat)
    requires Inv(s) && s.resuming == Some(id)
    ensures var s' := EndData(s.(currentJob := None), id);
            && s'.jobs.Keys <= s.jobs.Keys
            && (forall k :: k in s'.jobs ==> s'.jobs[k].parent == s.jobs[k].parent)
            && (forall k :: k in s.jobs ==> (k in s'.jobs <==> HasWork(s.jobs, s.records - {id}, k)))
            && s.inflightJobs - s'.inflightJobs == |s.jobs| - |s'.jobs|
  {
    var s' := EndData(s.(currentJob := None), id);
    EndDataInv(s, id);
    WithoutDataShape(s.jobs, s.records[id].parent, id);
    forall k | k in s.jobs ensures k in s'.jobs <==> HasWork(s.jobs, s.records - {id}, k) {
      LiveIffHasWork(s', k);
      forall d | d in s'.records
        ensures AncestorOrSelf(s'.jobs, k, s'.records[d].parent) == AncestorOrSelf(s.jobs, k, s.records[d].parent)
      {
        AncestorFrame(s.jobs, s'.jobs, k, s'.records[d].parent);
      }
    }
  }

  lemma WithoutDataShape(jobs: Jobs, j: nat, id: nat)
    requires Rooted(jobs) && j in jobs
    ensures var jobs' := WithoutData(jobs, j, id);
            && jobs'.Keys <= jobs.Keys
            && forall k :: k in jobs' ==> jobs'[k].parent == jobs[k].parent && jobs'[k].birth == jobs[k].birth
  {
    var jobs1 := WithoutCompletion(jobs, j, id);
    assert jobs1.Keys == jobs.Keys;
    assert Rooted(jobs1);
  }

  /** reactor::empty */
  predicate IsEmpty(s: Reactor) {
    s.readyQueue == [] && s.timeTasks == [] && s.sqeWaiters == [] && s.inflightCompletions == 0
  }

  /** When empty ends run, nothing has leaked: no record and no job is live. */
  lemma EmptyMeansDone(s: Reactor)
    requires Inv(s) && s.resuming == None
    ensures IsEmpty(s) <==> s.records == map[]
    ensures IsEmpty(s) <==> s.jobs == map[]
    ensures IsEmpty(s) ==> s.inflightJobs == 0
  {
    PlacesSize(s);
    assert |s.records.Keys| == |multiset(s.records.Keys)|;
    assert IsEmpty(s) <==> s.records.Keys == {};
    if s.records == map[] {
      forall k ensures k !in s.jobs { LiveIffHasWork(s, k); }
      assert s.jobs == map[];
    }
    if s.jobs == map[] {
      forall id ensures id !in s.records {}
      assert s.records == map[];
    }
  }

  lemma PlacesSize(s: Reactor)
    requires s.resuming == None
    ensures |Places(s)| == |s.readyQueue| + |s.timeTasks| + |s.sqeWaiters| + |s.inFlight|
  {
  }

  /** Over every run from the start, when run's loop ends no job is live. */
  lemma RunLeaksNothing(steps: seq<Step>)
    requires CanRun(Empty, steps)
    ensures var s := Run(Empty, steps);
            IsEmpty(s) ==> s.jobs == map[] && s.records == map[] && s.inflightJobs == 0 && s.inFlight == {}
  {
    EmptyInv();
    RunInv(Empty, steps);
    EmptyMeansDone(Run(Empty, steps));
  }
}
