/**
 * The reactor object. Its methods update the queues, the job and record tables
 * and the counters in place, in the order of the source, and follow the
 * functions of ReactorModel.
 */
module ReactorObject {
  import opened Wrappers
  import opened JobForest
  import opened SortedList
  import opened ReactorModel

  /** Every job at least as old as j is among its parent's children. */
  ghost predicate LinkedUpFrom(jobs: Jobs, j: nat)
    requires j in jobs && Rooted(jobs)
  {
    forall k :: k in jobs && jobs[k].birth <= jobs[j].birth && jobs[k].parent.Some? ==>
      k in jobs[jobs[k].parent.value].children
  }

  /** The chain upwards from j does not depend on j's own children or completions. */
  lemma {:induction false} DoomedFrame(jobs: Jobs, jobs1: Jobs, j: nat)
    requires Rooted(jobs) && Rooted(jobs1) && j in jobs && j in jobs1
    requires jobs1[j].parent == jobs[j].parent && jobs1[j].birth == jobs[j].birth
    requires forall k :: k in jobs && jobs[k].birth < jobs[j].birth ==> k in jobs1 && jobs1[k] == jobs[k]
    ensures Doomed(jobs1, j) == Doomed(jobs, j)
    decreases jobs[j].birth
  {
    match jobs[j].parent
    case None =>
    case Some(p) => DoomedFrame(jobs, jobs1, p);
  }

  function WithoutChild(jobs: Jobs, p: nat, j: nat): Jobs
    requires p in jobs
  {
    jobs[p := jobs[p].(children := jobs[p].children - {j})]
  }

  lemma WithoutChildRooted(jobs: Jobs, p: nat, j: nat)
    requires Rooted(jobs) && j in jobs && jobs[j].parent == Some(p) && LinkedUpFrom(jobs, j)
    ensures var jobs1 := WithoutChild(jobs, p, j);
            && Rooted(jobs1) && LinkedUpFrom(jobs1, p)
            && (Idle(jobs1[p]) <==> LastOf(jobs, p, j))
  {
    var jobs1 := WithoutChild(jobs, p, j);
    assert jobs1.Keys == jobs.Keys;
    assert j in jobs[p].children;
    assert jobs[p].children - {j} == {} <==> jobs[p].children == {j};
  }

  lemma SameTrim(jobs: Jobs, jobs1: Jobs, end: Jobs, end1: Jobs, gone: set<nat>, p: nat, j: nat, last: nat)
    requires p in jobs && jobs1 == WithoutChild(jobs, p, j) && p in gone && last in jobs
    requires Trimmed(jobs, end, {j} + gone, last) && Trimmed(jobs1, end1, gone, last)
    ensures end == end1 - {j}
  {
    assert end.Keys == (end1 - {j}).Keys;
  }

  lemma DoomedWithParent(jobs: Jobs, p: nat, j: nat)
    requires Rooted(jobs) && j in jobs && jobs[j].parent == Some(p) && LastOf(jobs, p, j)
    requires Rooted(WithoutChild(jobs, p, j))
    ensures Doomed(jobs, j) == [j] + Doomed(WithoutChild(jobs, p, j), p)
  {
    DoomedFrame(jobs, WithoutChild(jobs, p, j), p);
  }

  lemma EndedWithParent(jobs: Jobs, p: nat, j: nat)
    requires Rooted(jobs) && j in jobs && jobs[j].parent == Some(p) && LastOf(jobs, p, j)
    requires Rooted(WithoutChild(jobs, p, j))
    ensures Ended(jobs, j) == Ended(WithoutChild(jobs, p, j), p) - {j}
    ensures |Doomed(jobs, j)| == |Doomed(WithoutChild(jobs, p, j), p)| + 1
  {
    var jobs1 := WithoutChild(jobs, p, j);
    DoomedWithParent(jobs, p, j);
    var up, ch := Doomed(jobs1, p), Doomed(jobs, j);
    EndedIsTrimmed(jobs, j);
    EndedIsTrimmed(jobs1, p);
    assert p in Elems(up) && ch[|ch| - 1] == up[|up| - 1];
    assert Elems(ch) == {j} + Elems(up);
    SameTrim(jobs, jobs1, Ended(jobs, j), Ended(jobs1, p), Elems(up), p, j, up[|up| - 1]);
  }

  lemma EndedAlone(jobs: Jobs, j: nat)
    requires Rooted(jobs) && j in jobs
    requires jobs[j].parent.Some? ==> !LastOf(jobs, jobs[j].parent.value, j)
    ensures |Doomed(jobs, j)| == 1
    ensures Ended(jobs, j) == if jobs[j].parent.Some? then WithoutChild(jobs, jobs[j].parent.value, j) - {j} else jobs - {j}
  {
    EndedIsTrimmed(jobs, j);
    assert Doomed(jobs, j) == [j] && Elems([j]) == {j};
    var end := if jobs[j].parent.Some? then WithoutChild(jobs, jobs[j].parent.value, j) - {j} else jobs - {j};
    assert end.Keys == jobs.Keys - {j};
  }

  /** Ending j, step by step: unlink it from its parent, end the parent if nothing is left, free j. */
  lemma EndedStepwise(jobs: Jobs, j: nat)
    requires Rooted(jobs) && j in jobs && LinkedUpFrom(jobs, j)
    ensures jobs[j].parent == None ==> Ended(jobs, j) == jobs - {j} && |Doomed(jobs, j)| == 1
    ensures jobs[j].parent.Some? ==>
              var p := jobs[j].parent.value;
              var jobs1 := WithoutChild(jobs, p, j);
              && Rooted(jobs1) && p in jobs1 && LinkedUpFrom(jobs1, p)
              && if Idle(jobs1[p]) then
                   Ended(jobs, j) == Ended(jobs1, p) - {j} && |Doomed(jobs, j)| == |Doomed(jobs1, p)| + 1
                 else Ended(jobs, j) == jobs1 - {j} && |Doomed(jobs, j)| == 1
  {
    if jobs[j].parent.Some? {
      var p := jobs[j].parent.value;
      WithoutChildRooted(jobs, p, j);
      if LastOf(jobs, p, j) { EndedWithParent(jobs, p, j); } else { EndedAlone(jobs, j); }
    } else {
      EndedAlone(jobs, j);
    }
  }

  /** The records with the promises of ids cancelled. */
  ghost function Flagged(records: map<nat, UserData>, ids: seq<nat>): map<nat, UserData> {
    map id | id in records :: if id in ids then records[id].(cancelled := true) else records[id]
  }

  lemma OfCancelledHead(jobs: Jobs, records: map<nat, UserData>, ts: seq<Timer>, i: nat)
    requires i < |ts| && LiveTimers(jobs, records, ts)
    ensures ts[..i + 1] == ts[..i] + [ts[i]]
    ensures var t, c := ts[i], TimerCancelled(jobs, records, ts[i]);
            && OfCancelled(jobs, records, ts[i..], false) ==
               (if c then [] else [t]) + OfCancelled(jobs, records, ts[i + 1..], false)
            && Ids(OfCancelled(jobs, records, ts[i..], true)) ==
               (if c then [t.data] else []) + Ids(OfCancelled(jobs, records, ts[i + 1..], true))
  {
    assert ts[i..] == [ts[i]] + ts[i + 1..];
    assert Ids([ts[i]]) == [ts[i].data];
    IdsConcat([ts[i]], OfCancelled(jobs, records, ts[i + 1..], true));
  }

  /** What the loop over the cancelled entries still has to do once it is at position i. */
  ghost predicate StillToMove(jobs: Jobs, records: map<nat, UserData>, ts: seq<Timer>, i: nat, keep: seq<Timer>, moved: seq<nat>, drop: seq<Timer>)
    requires i <= |ts|
  {
    && LiveTimers(jobs, records, ts)
    && ts[..i] + OfCancelled(jobs, records, ts[i..], false) == keep
    && moved + Ids(OfCancelled(jobs, records, ts[i..], true)) == Ids(drop)
  }

  lemma StillToMoveAfter(jobs: Jobs, records: map<nat, UserData>, ts: seq<Timer>, i: nat, keep: seq<Timer>, moved: seq<nat>, drop: seq<Timer>, ts': seq<Timer>)
    requires i < |ts| && StillToMove(jobs, records, ts, i, keep, moved, drop) && TimerCancelled(jobs, records, ts[i])
    requires |ts'| == |ts| - 1 && ts'[..i] == ts[..i] && ts'[i..] == ts[i + 1..] && forall t :: t in ts' ==> t in ts
    ensures StillToMove(jobs, records, ts', i, keep, moved + [ts[i].data], drop)
  {
    OfCancelledHead(jobs, records, ts, i);
  }

  lemma StillToMoveSkip(jobs: Jobs, records: map<nat, UserData>, ts: seq<Timer>, i: nat, keep: seq<Timer>, moved: seq<nat>, drop: seq<Timer>)
    requires i < |ts| && StillToMove(jobs, records, ts, i, keep, moved, drop) && !TimerCancelled(jobs, records, ts[i])
    ensures StillToMove(jobs, records, ts, i + 1, keep, moved, drop)
  {
    OfCancelledHead(jobs, records, ts, i);
  }

  class EventReactor {
    const timeTasks: SortedLinkedList
    var readyQueue: seq<nat>
    var sqeWaiters: seq<nat>
    var inFlight: set<nat>
    var inflightJobs: int
    var inflightCompletions: int
    var jobs: map<nat, Job>
    var records: map<nat, UserData>
    var currentJob: Option<nat>
    var resuming: Option<nat>
    var started: nat

    ghost function State(): Reactor
      reads this, timeTasks
    {
      Reactor(timeTasks.items, readyQueue, sqeWaiters, inFlight, inflightJobs, inflightCompletions,
              jobs, records, currentJob, resuming, started)
    }

    constructor ()
      ensures State() == ReactorModel.Empty && fresh(timeTasks)
    {
      timeTasks := new SortedLinkedList();
      readyQueue, sqeWaiters, inFlight := [], [], {};
      inflightJobs, inflightCompletions := 0, 0;
      jobs, records := map[], map[];
      currentJob, resuming, started := None, None, 0;
    }

    method UserDataLifetimeBegin(id: nat, isUring: bool)
      requires currentJob.Some? && currentJob.value in jobs
      modifies this`records, this`jobs
      ensures State() == BeginData(old(State()), id, isUring)
    {
      var j := currentJob.value;
      records := records[id := UserData(j, isUring, false)];
      jobs := jobs[j := jobs[j].(completions := jobs[j].completions + {id})];
    }

    method JobLifetimeBegin(j: nat)
      requires currentJob.Some? ==> currentJob.value in jobs
      modifies this`jobs, this`inflightJobs, this`started
      ensures State() == BeginJob(old(State()), currentJob, j)
    {
      var job := Job(currentJob, false, {}, {}, started);
      if currentJob.Some? {
        var p := currentJob.value;
        jobs := jobs[p := jobs[p].(children := jobs[p].children + {j})];
      }
      jobs := jobs[j := job];
      inflightJobs := inflightJobs + 1;
      started := started + 1;
    }

    /** Ends j and every ancestor left with nothing, freeing exactly those. */
    method JobLifetimeEnd(j: nat)
      requires Rooted(jobs) && j in jobs && LinkedUpFrom(jobs, j)
      modifies this`jobs, this`inflightJobs
      ensures jobs == Ended(old(jobs), j)
      ensures inflightJobs == old(inflightJobs) - |Doomed(old(jobs), j)|
      decreases jobs[j].birth
    {
      EndedStepwise(jobs, j);
      var parent := jobs[j].parent;
      if parent.Some? {
        var p := parent.value;
        jobs := jobs[p := jobs[p].(children := jobs[p].children - {j})];
        if jobs[p].completions == {} && jobs[p].children == {} {
          JobLifetimeEnd(p);
        }
      }
      inflightJobs := inflightJobs - 1;
      jobs := jobs - {j};
    }

    method UserDataLifetimeEnd(id: nat)
      requires Linked(jobs) && id in records && records[id].parent in jobs
      modifies this`jobs, this`inflightJobs, this`records, this`resuming
      ensures State() == EndData(old(State()), id)
    {
      var j := records[id].parent;
      ghost var before := jobs;
      jobs := jobs[j := jobs[j].(completions := jobs[j].completions - {id})];
      assert jobs == WithoutCompletion(before, j, id);
      assert jobs.Keys == before.Keys;
      LinkedFrame(before, jobs);
      if jobs[j].completions == {} && jobs[j].children == {} {
        EndedCount(jobs, j);
        JobLifetimeEnd(j);
      }
      assert |before| == |before.Keys|;
      records := records - {id};
      resuming := None;
    }

    method EnqueueRecord(id: nat)
      requires currentJob.Some? && currentJob.value in jobs
      modifies this`records, this`jobs, this`readyQueue
      ensures State() == EnqueueData(old(State()), id)
    {
      UserDataLifetimeBegin(id, false);
      if jobs[currentJob.value].cancelled { records := records[id := records[id].(cancelled := true)]; }
      readyQueue := readyQueue + [id];
    }

    method AddSleepTask(id: nat, resume: int, now: int)
      requires currentJob.Some? && currentJob.value in jobs && timeTasks.Valid()
      modifies this`records, this`jobs, this`readyQueue, timeTasks
      ensures State() == AddSleep(old(State()), id, resume, now) && timeTasks.Valid()
    {
      UserDataLifetimeBegin(id, false);
      if jobs[currentJob.value].cancelled { records := records[id := records[id].(cancelled := true)]; }
      if resume < now {
        readyQueue := readyQueue + [id];
      } else {
        timeTasks.InsertTimer(Timer(resume, id));
      }
    }

    method EnqueueSqeWaiter(id: nat)
      requires currentJob.Some? && currentJob.value in jobs
      modifies this`records, this`jobs, this`readyQueue, this`sqeWaiters
      ensures State() == EnqueueWaiter(old(State()), id)
    {
      UserDataLifetimeBegin(id, false);
      if jobs[currentJob.value].cancelled {
        records := records[id := records[id].(cancelled := true)];
        readyQueue := readyQueue + [id];
      } else {
        sqeWaiters := sqeWaiters + [id];
      }
    }

    method GetEntryFor(id: nat, space: bool) returns (ok: bool)
      requires currentJob.Some? && currentJob.value in jobs
      modifies this`records, this`jobs, this`inFlight, this`inflightCompletions
      ensures ok == space && State() == GetEntry(old(State()), id, space)
    {
      if !space { return false; }
      UserDataLifetimeBegin(id, true);
      inFlight := inFlight + {id};
      inflightCompletions := inflightCompletions + 1;
      return true;
    }

    /** spawn from wherever parent says the current job is; the coroutine suspends at once. */
    method SpawnJob(parent: Option<nat>, j: nat, id: nat)
      requires parent.Some? ==> parent.value in jobs
      modifies this
      ensures State() == SpawnUnder(old(State()), parent, j, id)
    {
      var previous := currentJob;
      currentJob := parent;
      JobLifetimeBegin(j);
      currentJob := Some(j);
      EnqueueRecord(id);
      currentJob := previous;
    }

    method Perform(c: Call)
      requires CanCall(State(), c) && currentJob.Some? && currentJob.value in jobs && timeTasks.Valid()
      modifies this, timeTasks
      ensures State() == DoCall(old(State()), c) && timeTasks.Valid()
    {
      match c
      case Enqueue(id) => EnqueueRecord(id);
      case Sleep(id, resume, now) => AddSleepTask(id, resume, now);
      case WaitForSqe(id) => EnqueueSqeWaiter(id);
      case GetSqe(id, space) => var _ := GetEntryFor(id, space);
      case Spawn(j, id) => SpawnJob(currentJob, j, id);
      case SpawnDetached(j, id) => SpawnJob(None, j, id);
      case MarkCancelled(j) => jobs := jobs[j := jobs[j].(cancelled := true)];
      case CancelPromise(id) => records := records[id := records[id].(cancelled := true)];
    }

    /** Runs the coroutine of a record under its job, then ends the record. */
    method ResumeStallCheck(id: nat, calls: seq<Call>)
      requires CanResume(State(), id, calls) && timeTasks.Valid()
      requires Linked(DoCalls(BeginResume(State(), id), calls).jobs)
      modifies this, timeTasks
      ensures State() == Resume(old(State()), id, calls)
    {
      var previous := currentJob;
      resuming := Some(id);
      currentJob := Some(records[id].parent);
      ghost var s1 := State();
      for i := 0 to |calls|
        invariant timeTasks.Valid()
        invariant CanCalls(State(), calls[i..]) && DoCalls(State(), calls[i..]) == DoCalls(s1, calls)
      {
        assert calls[i..][1..] == calls[i + 1..];
        Perform(calls[i]);
      }
      assert calls[|calls|..] == [];
      currentJob := previous;
      UserDataLifetimeEnd(id);
    }

    /** process_cqe: the kernel has completed an in-flight entry. */
    method ProcessCqe(id: nat, calls: seq<Call>)
      requires Inv(State()) && resuming == None && CanStep(State(), Completion(id, calls))
      modifies this, timeTasks
      ensures Inv(State()) && State() == DoStep(old(State()), Completion(id, calls))
    {
      CompletionInv(State(), id, calls);
      inflightCompletions := inflightCompletions - 1;
      inFlight := inFlight - {id};
      TakenFromKernel(old(State()), id, calls);
      ResumeStallCheck(id, calls);
    }

    /** One turn of the loop that drains the ready queue. */
    method ResumeFront(calls: seq<Call>)
      requires Inv(State()) && resuming == None && CanStep(State(), ResumeReady(calls))
      modifies this, timeTasks
      ensures Inv(State()) && State() == DoStep(old(State()), ResumeReady(calls))
    {
      ResumeReadyInv(State(), calls);
      var front := readyQueue[0];
      readyQueue := readyQueue[1..];
      TakenFromReady(old(State()), calls);
      ResumeStallCheck(front, calls);
    }

    /** One turn of the loop that serves the waiters for a submission entry. */
    method ResumeFirstWaiter(calls: seq<Call>)
      requires Inv(State()) && resuming == None && CanStep(State(), ResumeWaiter(calls))
      modifies this, timeTasks
      ensures Inv(State()) && State() == DoStep(old(State()), ResumeWaiter(calls))
    {
      ResumeWaiterInv(State(), calls);
      var h := sqeWaiters[0];
      sqeWaiters := sqeWaiters[1..];
      TakenFromWaiters(old(State()), calls);
      ResumeStallCheck(h, calls);
    }

    /** The first loop of update_timer_tasks: the k expired entries become ready. */
    method MoveExpired(k: nat)
      requires k <= |timeTasks.items|
      modifies this`readyQueue, timeTasks
      ensures readyQueue == old(readyQueue) + Ids(old(timeTasks.items)[..k])
      ensures timeTasks.items == old(timeTasks.items)[k..]
    {
      for b := 0 to k
        invariant timeTasks.items == old(timeTasks.items)
        invariant readyQueue == old(readyQueue) + Ids(timeTasks.items[..b])
      {
        assert Ids(timeTasks.items[..b + 1]) == Ids(timeTasks.items[..b]) + [timeTasks.items[b].data];
        readyQueue := readyQueue + [timeTasks.items[b].data];
      }
      timeTasks.items := timeTasks.items[k..];
    }

    /** One entry of a cancelled job becomes ready. */
    method MoveOne(i: nat)
      requires i < |timeTasks.items| && timeTasks.items[i].data in records
      modifies this`readyQueue, this`records, timeTasks
      ensures var items := old(timeTasks.items);
              && readyQueue == old(readyQueue) + [items[i].data]
              && |timeTasks.items| == |items| - 1
              && timeTasks.items[..i] == items[..i] && timeTasks.items[i..] == items[i + 1..]
              && (forall t :: t in timeTasks.items ==> t in items)
              && forall moved, records0 :: old(records) == Flagged(records0, moved) ==>
                   records == Flagged(records0, moved + [items[i].data])
    {
      var t := timeTasks.items[i];
      records := records[t.data := records[t.data].(cancelled := true)];
      readyQueue := readyQueue + [t.data];
      timeTasks.items := timeTasks.items[..i] + timeTasks.items[i + 1..];
    }

    /** The second loop: the entries of cancelled jobs become ready, their promises cancelled. */
    method MoveCancelled()
      requires LiveTimers(jobs, records, timeTasks.items)
      modifies this`readyQueue, this`records, timeTasks
      ensures readyQueue == old(readyQueue) + Ids(OfCancelled(jobs, old(records), old(timeTasks.items), true))
      ensures timeTasks.items == OfCancelled(jobs, old(records), old(timeTasks.items), false)
      ensures records == Flagged(old(records), Ids(OfCancelled(jobs, old(records), old(timeTasks.items), true)))
    {
      ghost var records0 := records;
      ghost var keep, drop := OfCancelled(jobs, records, timeTasks.items, false), OfCancelled(jobs, records, timeTasks.items, true);
      ghost var moved: seq<nat> := [];
      var i := 0;
      while i < |timeTasks.items|
        invariant i <= |timeTasks.items|
        invariant StillToMove(jobs, records0, timeTasks.items, i, keep, moved, drop)
        invariant readyQueue == old(readyQueue) + moved
        invariant records == Flagged(records0, moved)
        decreases |timeTasks.items| - i
      {
        ghost var items := timeTasks.items;
        var t := timeTasks.items[i];
        if jobs[records[t.data].parent].cancelled {
          MoveOne(i);
          StillToMoveAfter(jobs, records0, items, i, keep, moved, drop, timeTasks.items);
          moved := moved + [t.data];
        } else {
          StillToMoveSkip(jobs, records0, items, i, keep, moved, drop);
          i := i + 1;
        }
      }
      assert timeTasks.items[i..] == [];
    }

    /** update_timer_tasks */
    method UpdateTimerTasks(now: int)
      requires TimersLive(State()) && timeTasks.Valid()
      modifies this`readyQueue, this`records, timeTasks
      ensures State() == Expire(old(State()), now)
    {
      var k := timeTasks.FindLowerBound(now);
      MoveExpired(k);
      MoveCancelled();
    }

    /** empty, whose truth ends run: then no record and no job is left. */
    method IsDone() returns (done: bool)
      requires Inv(State()) && resuming == None
      ensures done <==> jobs == map[]
      ensures done <==> records == map[]
      ensures done ==> inflightJobs == 0
    {
      EmptyMeansDone(State());
      done := readyQueue == [] && timeTasks.items == [] && sqeWaiters == [] && inflightCompletions == 0;
    }
  }

  lemma TakenFromKernel(s: Reactor, id: nat, calls: seq<Call>)
    requires Inv(s) && s.resuming == None && CanStep(s, Completion(id, calls))
    ensures Linked(DoCalls(BeginResume(TakeCompletion(s, id), id), calls).jobs)
  {
    assert multiset(s.inFlight) == multiset(s.inFlight - {id}) + multiset{id};
    PlacedIsLive(s, id);
    BeginResumeInv(s, TakeCompletion(s, id), id);
    CallsInv(BeginResume(TakeCompletion(s, id), id), calls);
  }

  lemma TakenFromWaiters(s: Reactor, calls: seq<Call>)
    requires Inv(s) && s.resuming == None && CanStep(s, ResumeWaiter(calls))
    ensures Linked(DoCalls(BeginResume(TakeWaiter(s), s.sqeWaiters[0]), calls).jobs)
  {
    var id := s.sqeWaiters[0];
    assert s.sqeWaiters == [id] + s.sqeWaiters[1..];
    PlacedIsLive(s, id);
    BeginResumeInv(s, TakeWaiter(s), id);
    CallsInv(BeginResume(TakeWaiter(s), id), calls);
  }

  lemma TakenFromReady(s: Reactor, calls: seq<Call>)
    requires Inv(s) && s.resuming == None && CanStep(s, ResumeReady(calls))
    ensures Linked(DoCalls(BeginResume(TakeReady(s), s.readyQueue[0]), calls).jobs)
  {
    var id := s.readyQueue[0];
    assert s.readyQueue == [id] + s.readyQueue[1..];
    PlacedIsLive(s, id);
    BeginResumeInv(s, TakeReady(s), id);
    CallsInv(BeginResume(TakeReady(s), id), calls);
  }
}
