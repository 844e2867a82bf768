/** Where each call of a coroutine puts its record, and when a record is resumed, over whole runs. */
module ReactorRuns {
  import opened Wrappers
  import opened JobForest
  import opened SortedList
  import opened ReactorModel

  // ----- One call -----

  ghost predicate NewRecord(s: Reactor, s': Reactor, id: nat, d: UserData) {
    id !in s.records && s'.records == s.records[id := d]
  }

  ghost predicate SameTimers(s: Reactor, s': Reactor) {
    s'.timeTasks == s.timeTasks
  }

  ghost predicate SameKernel(s: Reactor, s': Reactor) {
    s'.inFlight == s.inFlight && s'.inflightCompletions == s.inflightCompletions
  }

  ghost predicate Readied(s: Reactor, s': Reactor, id: nat) {
    s'.readyQueue == s.readyQueue + [id] && s'.sqeWaiters == s.sqeWaiters && SameTimers(s, s') && SameKernel(s, s')
  }

  ghost predicate Timed(s: Reactor, s': Reactor, id: nat, resume: int) {
    && s'.readyQueue == s.readyQueue && s'.sqeWaiters == s.sqeWaiters && SameKernel(s, s')
    && multiset(s'.timeTasks) == multiset(s.timeTasks) + multiset{Timer(resume, id)} && Sorted(s'.timeTasks)
  }

  ghost predicate Waits(s: Reactor, s': Reactor, id: nat) {
    s'.readyQueue == s.readyQueue && s'.sqeWaiters == s.sqeWaiters + [id] && SameTimers(s, s') && SameKernel(s, s')
  }

  ghost predicate SameQueues(s: Reactor, s': Reactor) {
    s'.readyQueue == s.readyQueue && s'.sqeWaiters == s.sqeWaiters && SameTimers(s, s')
  }

  /**
   * Where a call puts its record, and whether the record's promise starts cancelled: with its job,
   * but not that of a ring entry, which is only cancelled later.
   */
  ghost predicate Gains(s: Reactor, c: Call, s': Reactor)
    requires s.currentJob.Some? && s.currentJob.value in s.jobs
  {
    var j := s.currentJob.value;
    var cancelled := s.jobs[j].cancelled;
    match c
    case Enqueue(id) => NewRecord(s, s', id, UserData(j, false, cancelled)) && Readied(s, s', id)
    case Sleep(id, resume, now) =>
      && NewRecord(s, s', id, UserData(j, false, cancelled))
      && (resume < now ==> Readied(s, s', id)) && (now <= resume ==> Timed(s, s', id, resume))
    case WaitForSqe(id) =>
      && NewRecord(s, s', id, UserData(j, false, cancelled))
      && (cancelled ==> Readied(s, s', id)) && (!cancelled ==> Waits(s, s', id))
    case GetSqe(id, space) =>
      && (!space ==> s' == s)
      && (space ==> NewRecord(s, s', id, UserData(j, true, false)) && SameQueues(s, s') && s'.inFlight == s.inFlight + {id}
                    && s'.inflightCompletions == s.inflightCompletions + 1)
    case Spawn(k, id) => Spawned(s, s', Some(j), k, id)
    case SpawnDetached(k, id) => Spawned(s, s', None, k, id)
    case MarkCancelled(k) =>
      && SameQueues(s, s') && SameKernel(s, s') && s'.records == s.records
      && k in s.jobs && s'.jobs == s.jobs[k := s.jobs[k].(cancelled := true)]
    case CancelPromise(id) =>
      && SameQueues(s, s') && SameKernel(s, s') && s'.jobs == s.jobs
      && id in s.records && s'.records == s.records[id := s.records[id].(cancelled := true)]
  }

  /** A new job that is not cancelled, under parent, and its coroutine is ready. */
  ghost predicate Spawned(s: Reactor, s': Reactor, parent: Option<nat>, k: nat, id: nat) {
    && k !in s.jobs && k in s'.jobs && s'.jobs[k] == Job(parent, false, {}, {id}, s.started)
    && NewRecord(s, s', id, UserData(k, false, false)) && Readied(s, s', id)
  }

  lemma SleepGains(s: Reactor, id: nat, resume: int, now: int)
    requires Inv(s) && CanCall(s, Sleep(id, resume, now)) && s.currentJob.Some? && s.currentJob.value in s.jobs
    ensures Gains(s, Sleep(id, resume, now), DoCall(s, Sleep(id, resume, now)))
  {
    InsertSorted(s.timeTasks, Timer(resume, id));
  }

  lemma SpawnGains(s: Reactor, parent: Option<nat>, k: nat, id: nat)
    requires k !in s.jobs && id !in s.records && (parent.Some? ==> parent.value in s.jobs)
    ensures Spawned(s, SpawnUnder(s, parent, k, id), parent, k, id)
  {
  }

  /** Each call puts its record in its place, and nothing else moves. */
  lemma CallGains(s: Reactor, c: Call)
    requires Inv(s) && CanCall(s, c) && s.currentJob.Some? && s.currentJob.value in s.jobs
    ensures Gains(s, c, DoCall(s, c))
  {
    match c
    case Sleep(id, resume, now) => SleepGains(s, id, resume, now);
    case Spawn(k, id) => SpawnGains(s, s.currentJob, k, id);
    case SpawnDetached(k, id) => SpawnGains(s, None, k, id);
    case _ =>
  }

  // ----- Nothing that waits is disturbed -----

  /** The queues only grow at their ends, timers and ring entries stay, and so do the jobs of records. */
  ghost predicate Grows(s: Reactor, s': Reactor) {
    && s.readyQueue <= s'.readyQueue && s.sqeWaiters <= s'.sqeWaiters && s.inFlight <= s'.inFlight
    && forall t :: t in s.timeTasks ==> t in s'.timeTasks
  }

  lemma CallGrows(s: Reactor, c: Call)
    requires CanCall(s, c) && s.currentJob.Some? && s.currentJob.value in s.jobs
    ensures Grows(s, DoCall(s, c))
  {
    if c.Sleep? { InsertKeeps(s.timeTasks, Timer(c.resume, c.id)); }
  }

  lemma InsertKeeps(ts: seq<Timer>, t: Timer)
    ensures t in Insert(ts, t) && forall u :: u in ts ==> u in Insert(ts, t)
  {
    var i := LowerBound(ts, t.time);
    assert ts == ts[..i] + ts[i..];
    assert Insert(ts, t)[i] == t;
  }

  lemma {:induction false} CallsGrow(s: Reactor, calls: seq<Call>)
    requires CanCalls(s, calls)
    ensures Grows(s, DoCalls(s, calls))
    decreases |calls|
  {
    if calls != [] {
      CallGrows(s, calls[0]);
      CallsGrow(DoCall(s, calls[0]), calls[1..]);
    }
  }

  lemma ResumeGrows(s: Reactor, id: nat, calls: seq<Call>)
    requires CanResume(s, id, calls)
    ensures Grows(s, Resume(s, id, calls))
  {
    CallsGrow(BeginResume(s, id), calls);
  }

  /** The step in which a record is resumed. */
  ghost predicate Resumes(s: Reactor, a: Step, id: nat) {
    match a
    case Completion(i, _) => i == id
    case ResumeReady(_) => s.readyQueue != [] && s.readyQueue[0] == id
    case ResumeWaiter(_) => s.sqeWaiters != [] && s.sqeWaiters[0] == id
    case _ => false
  }

  /** No step of the run resumes the record. */
  ghost predicate NeverResumed(s: Reactor, steps: seq<Step>, id: nat)
    requires CanRun(s, steps)
    decreases |steps|
  {
    steps != [] ==> !Resumes(s, steps[0], id) && NeverResumed(DoStep(s, steps[0]), steps[1..], id)
  }

  lemma OnceIn(s: Reactor, id: nat)
    requires Inv(s) && id in Places(s)
    ensures multiset(s.readyQueue)[id] + multiset(Ids(s.timeTasks))[id] + multiset(s.sqeWaiters)[id] + multiset(s.inFlight)[id] <= 1
  {
    PlacedIsLive(s, id);
  }

  lemma TimerElsewhere(s: Reactor, t: Timer)
    requires Inv(s) && t in s.timeTasks
    ensures t.data in s.records && t.data !in s.readyQueue && t.data !in s.sqeWaiters && t.data !in s.inFlight
  {
    var i :| 0 <= i < |s.timeTasks| && s.timeTasks[i] == t;
    assert Ids(s.timeTasks)[i] == t.data;
    assert t.data in multiset(Ids(s.timeTasks));
    PlacedIsLive(s, t.data);
    OnceIn(s, t.data);
    assert t.data !in multiset(s.readyQueue) && t.data !in multiset(s.sqeWaiters) && t.data !in multiset(s.inFlight);
  }

  // ----- Sleeping -----

  /** The turn at which a sleep until this time ends: the clock is past it, or its job is cancelled. */
  ghost predicate Wakes(s: Reactor, a: Step, id: nat, resume: int) {
    && a.UpdateTimers? && id in s.records && s.records[id].parent in s.jobs
    && (resume < a.now || s.jobs[s.records[id].parent].cancelled)
  }

  ghost predicate NeverWoken(s: Reactor, steps: seq<Step>, id: nat, resume: int)
    requires CanRun(s, steps)
    decreases |steps|
  {
    steps != [] ==> !Wakes(s, steps[0], id, resume) && NeverWoken(DoStep(s, steps[0]), steps[1..], id, resume)
  }

  lemma StepSleeps(s: Reactor, a: Step, t: Timer)
    requires Inv(s) && s.resuming == None && CanStep(s, a) && t in s.timeTasks && !Wakes(s, a, t.data, t.time)
    ensures t in DoStep(s, a).timeTasks && !Resumes(s, a, t.data)
  {
    TimerElsewhere(s, t);
    match a
    case SpawnRoot(j, id) => SpawnGains(s, None, j, id);
    case UpdateTimers(now) =>
      var _, _ := ExpireMovesExactly(s, now);
      assert s.records[t.data].parent in s.jobs;
    case Completion(id, calls) => ResumeGrows(TakeCompletion(s, id), id, calls);
    case ResumeReady(calls) => ResumeGrows(TakeReady(s), s.readyQueue[0], calls);
    case ResumeWaiter(calls) => ResumeGrows(TakeWaiter(s), s.sqeWaiters[0], calls);
  }

  /** A record among the timers stays there, and is not resumed, until a turn at which its sleep ends. */
  lemma {:induction false} SleepsOn(s: Reactor, steps: seq<Step>, t: Timer)
    requires Inv(s) && s.resuming == None && CanRun(s, steps) && t in s.timeTasks && NeverWoken(s, steps, t.data, t.time)
    ensures t in Run(s, steps).timeTasks && NeverResumed(s, steps, t.data)
    decreases |steps|
  {
    if steps != [] {
      StepSleeps(s, steps[0], t);
      StepInv(s, steps[0]);
      SleepsOn(DoStep(s, steps[0]), steps[1..], t);
    }
  }

  lemma {:induction false} CallsSleep(s: Reactor, calls: seq<Call>, k: nat)
    requires CanCalls(s, calls) && k < |calls| && calls[k].Sleep? && calls[k].now <= calls[k].resume
    ensures Timer(calls[k].resume, calls[k].id) in DoCalls(s, calls).timeTasks
    decreases |calls|
  {
    var s1 := DoCall(s, calls[0]);
    if k == 0 {
      InsertKeeps(s.timeTasks, Timer(calls[0].resume, calls[0].id));
      CallsGrow(s1, calls[1..]);
    } else {
      CallsSleep(s1, calls[1..], k - 1);
    }
  }

  /** The calls that the coroutine resumed in a step makes. */
  function CallsOf(a: Step): seq<Call> {
    match a
    case Completion(_, calls) => calls
    case ResumeReady(calls) => calls
    case ResumeWaiter(calls) => calls
    case _ => []
  }

  lemma StepPutsTimer(s: Reactor, a: Step, k: nat)
    requires CanStep(s, a) && k < |CallsOf(a)| && CallsOf(a)[k].Sleep? && CallsOf(a)[k].now <= CallsOf(a)[k].resume
    ensures Timer(CallsOf(a)[k].resume, CallsOf(a)[k].id) in DoStep(s, a).timeTasks
  {
    match a
    case Completion(id, calls) => CallsSleep(BeginResume(TakeCompletion(s, id), id), calls, k);
    case ResumeReady(calls) => CallsSleep(BeginResume(TakeReady(s), s.readyQueue[0]), calls, k);
    case ResumeWaiter(calls) => CallsSleep(BeginResume(TakeWaiter(s), s.sqeWaiters[0]), calls, k);
  }

  /**
   * A coroutine that goes to sleep until a time that has not passed is not resumed before a turn
   * of the timers at a later time, or one at which its job is cancelled, whatever else runs.
   */
  lemma SleepIsKept(s: Reactor, a: Step, k: nat, rest: seq<Step>)
    requires Inv(s) && s.resuming == None && CanStep(s, a)
    requires k < |CallsOf(a)| && CallsOf(a)[k].Sleep? && CallsOf(a)[k].now <= CallsOf(a)[k].resume
    requires CanRun(DoStep(s, a), rest) && NeverWoken(DoStep(s, a), rest, CallsOf(a)[k].id, CallsOf(a)[k].resume)
    ensures NeverResumed(DoStep(s, a), rest, CallsOf(a)[k].id)
  {
    StepPutsTimer(s, a, k);
    StepInv(s, a);
    SleepsOn(DoStep(s, a), rest, Timer(CallsOf(a)[k].resume, CallsOf(a)[k].id));
  }

  lemma InIds(ts: seq<Timer>, t: Timer)
    ensures t in ts ==> t.data in Ids(ts)
    ensures t.data in Ids(ts) ==> exists u :: u in ts && u.data == t.data
  {
    if t in ts {
      var i :| 0 <= i < |ts| && ts[i] == t;
      assert Ids(ts)[i] == t.data;
    }
    if t.data in Ids(ts) {
      var i :| 0 <= i < |ts| && Ids(ts)[i] == t.data;
      assert ts[i] in ts;
    }
  }

  lemma TwiceIn(q: seq<nat>, i: nat, j: nat)
    requires i < j < |q| && q[i] == q[j]
    ensures multiset(q)[q[i]] >= 2
  {
    assert q == q[..j] + q[j..];
    assert q[..j][i] == q[i] && q[i] in multiset(q[..j]);
    assert q[j..][0] == q[i] && q[i] in multiset(q[j..]);
  }

  /** A record has one timer at most. */
  lemma OneTimer(s: Reactor, t: Timer, u: Timer)
    requires Inv(s) && t in s.timeTasks && u in s.timeTasks && t.data == u.data
    ensures t == u
  {
    var i :| 0 <= i < |s.timeTasks| && s.timeTasks[i] == t;
    var j :| 0 <= j < |s.timeTasks| && s.timeTasks[j] == u;
    var ids := Ids(s.timeTasks);
    assert ids[i] == ids[j] == t.data;
    TimerElsewhere(s, t);
    assert t.data in multiset(ids);
    OnceIn(s, t.data);
    if i < j { TwiceIn(ids, i, j); }
    if j < i { TwiceIn(ids, j, i); }
  }

  lemma Behind(q: seq<nat>, a: seq<nat>, b: seq<nat>, r: seq<nat>)
    requires r == q + a + b
    ensures q <= r && r[|q|..] == a + b
  {
  }

  /** And at such a turn it joins the ready queue, behind all that was there, and is cancelled if it was or its time has not come. */
  lemma WokenIsReady(s: Reactor, now: int, t: Timer)
    requires Inv(s) && s.resuming == None && t in s.timeTasks && CanStep(s, UpdateTimers(now)) && Wakes(s, UpdateTimers(now), t.data, t.time)
    ensures var s' := DoStep(s, UpdateTimers(now));
            && s.readyQueue <= s'.readyQueue && t.data in s'.readyQueue[|s.readyQueue|..]
            && t.data in s'.records && (s'.records[t.data].cancelled <==> s.records[t.data].cancelled || now <= t.time)
  {
    var expired, dropped := TimersPart(s, now);
    Behind(s.readyQueue, Ids(expired), Ids(dropped), DoStep(s, UpdateTimers(now)).readyQueue);
    TimerElsewhere(s, t);
    InIds(expired, t);
    InIds(dropped, t);
    if t.data in Ids(dropped) {
      var u :| u in dropped && u.data == t.data;
      OneTimer(s, t, u);
    }
  }

  // ----- The queues -----

  /** How many records of the ready queue, or of the waiters, a run resumes. */
  function Readies(steps: seq<Step>): nat {
    if steps == [] then 0 else (if steps[0].ResumeReady? then 1 else 0) + Readies(steps[1..])
  }

  function Waitings(steps: seq<Step>): nat {
    if steps == [] then 0 else (if steps[0].ResumeWaiter? then 1 else 0) + Waitings(steps[1..])
  }

  lemma ReadyElsewhere(s: Reactor, k: nat)
    requires Inv(s) && k < |s.readyQueue|
    ensures s.readyQueue[k] !in s.sqeWaiters && s.readyQueue[k] !in s.inFlight
    ensures forall i :: 0 <= i < k ==> s.readyQueue[i] != s.readyQueue[k]
  {
    var id := s.readyQueue[k];
    assert id in multiset(s.readyQueue);
    assert id in Places(s);
    OnceIn(s, id);
    assert id !in multiset(s.sqeWaiters) && id !in multiset(s.inFlight);
    forall i | 0 <= i < k ensures s.readyQueue[i] != id {
      if s.readyQueue[i] == id { TwiceIn(s.readyQueue, i, k); }
    }
  }

  lemma WaiterElsewhere(s: Reactor, k: nat)
    requires Inv(s) && k < |s.sqeWaiters|
    ensures s.sqeWaiters[k] !in s.readyQueue && s.sqeWaiters[k] !in s.inFlight
    ensures forall i :: 0 <= i < k ==> s.sqeWaiters[i] != s.sqeWaiters[k]
  {
    var id := s.sqeWaiters[k];
    assert id in multiset(s.sqeWaiters);
    assert id in Places(s);
    OnceIn(s, id);
    assert id !in multiset(s.readyQueue) && id !in multiset(s.inFlight);
    forall i | 0 <= i < k ensures s.sqeWaiters[i] != id {
      if s.sqeWaiters[i] == id { TwiceIn(s.sqeWaiters, i, k); }
    }
  }

  /** A step takes at most the front of each queue, and adds at its end. */
  lemma StepQueues(s: Reactor, a: Step)
    requires Inv(s) && s.resuming == None && CanStep(s, a)
    ensures (if a.ResumeReady? then s.readyQueue[1..] else s.readyQueue) <= DoStep(s, a).readyQueue
    ensures (if a.ResumeWaiter? then s.sqeWaiters[1..] else s.sqeWaiters) <= DoStep(s, a).sqeWaiters
  {
    match a
    case SpawnRoot(j, id) => SpawnGains(s, None, j, id);
    case UpdateTimers(now) => var _, _ := ExpireMovesExactly(s, now);
    case Completion(id, calls) => ResumeGrows(TakeCompletion(s, id), id, calls);
    case ResumeReady(calls) => ResumeGrows(TakeReady(s), s.readyQueue[0], calls);
    case ResumeWaiter(calls) => ResumeGrows(TakeWaiter(s), s.sqeWaiters[0], calls);
  }

  lemma ReadyStep(s: Reactor, a: Step, k: nat) returns (next: nat)
    requires Inv(s) && s.resuming == None && CanStep(s, a) && k < |s.readyQueue| && (a.ResumeReady? ==> k > 0)
    ensures next == (if a.ResumeReady? then k - 1 else k) < |DoStep(s, a).readyQueue|
    ensures !Resumes(s, a, s.readyQueue[k]) && DoStep(s, a).readyQueue[next] == s.readyQueue[k]
  {
    next := if a.ResumeReady? then k - 1 else k;
    ReadyElsewhere(s, k);
    StepQueues(s, a);
  }

  lemma WaiterStep(s: Reactor, a: Step, k: nat) returns (next: nat)
    requires Inv(s) && s.resuming == None && CanStep(s, a) && k < |s.sqeWaiters| && (a.ResumeWaiter? ==> k > 0)
    ensures next == (if a.ResumeWaiter? then k - 1 else k) < |DoStep(s, a).sqeWaiters|
    ensures !Resumes(s, a, s.sqeWaiters[k]) && DoStep(s, a).sqeWaiters[next] == s.sqeWaiters[k]
  {
    next := if a.ResumeWaiter? then k - 1 else k;
    WaiterElsewhere(s, k);
    StepQueues(s, a);
  }

  lemma RunFirst(s: Reactor, steps: seq<Step>)
    requires CanRun(s, steps) && steps != []
    ensures CanRun(DoStep(s, steps[0]), steps[1..]) && Run(s, steps) == Run(DoStep(s, steps[0]), steps[1..])
  {
  }

  /** The record id stands at this place of the queue. */
  predicate StandsAt(q: seq<nat>, place: int, id: nat) {
    0 <= place < |q| && q[place] == id
  }

  /**
   * The ready queue is first in, first out: the record at place k is not resumed by a run that
   * resumes k ready records or fewer, and stands that much further in front; so it is the next after k.
   */
  lemma {:induction false} ReadyInOrder(s: Reactor, steps: seq<Step>, k: nat, id: nat, place: nat)
    requires Inv(s) && s.resuming == None && CanRun(s, steps) && StandsAt(s.readyQueue, k, id) && place == k - Readies(steps)
    ensures NeverResumed(s, steps, id) && StandsAt(Run(s, steps).readyQueue, place, id)
    decreases |steps|
  {
    if steps != [] {
      var next := ReadyStep(s, steps[0], k);
      StepInv(s, steps[0]);
      RunFirst(s, steps);
      ReadyInOrder(DoStep(s, steps[0]), steps[1..], next, id, place);
    }
  }

  /** The same of the coroutines that wait for a ring entry. */
  lemma {:induction false} WaitersInOrder(s: Reactor, steps: seq<Step>, k: nat, id: nat, place: nat)
    requires Inv(s) && s.resuming == None && CanRun(s, steps) && StandsAt(s.sqeWaiters, k, id) && place == k - Waitings(steps)
    ensures NeverResumed(s, steps, id) && StandsAt(Run(s, steps).sqeWaiters, place, id)
    decreases |steps|
  {
    if steps != [] {
      var next := WaiterStep(s, steps[0], k);
      StepInv(s, steps[0]);
      RunFirst(s, steps);
      WaitersInOrder(DoStep(s, steps[0]), steps[1..], next, id, place);
    }
  }
}
