/**
 * The jobs of the reactor: a forest by parent and child links. A job ends when
 * it has neither a pending completion nor a child, and its end may end its
 * parent, and so on upwards.
 */
module JobForest {
  import opened Wrappers

  /**
   * A job with its links; handles stand for addresses in the job pool. birth
   * is the number of jobs started before this one.
   */
  datatype Job = Job(parent: Option<nat>, cancelled: bool, children: set<nat>, completions: set<nat>, birth: nat)

  type Jobs = map<nat, Job>

  /** Every parent is a live, older job. */
  ghost predicate Rooted(jobs: Jobs) {
    forall j :: j in jobs && jobs[j].parent.Some? ==>
      var p := jobs[j].parent.value;
      p in jobs && jobs[p].birth < jobs[j].birth
  }

  /** Parent and child links match. */
  ghost predicate Linked(jobs: Jobs) {
    && Rooted(jobs)
    && (forall j :: j in jobs && jobs[j].parent.Some? ==> j in jobs[jobs[j].parent.value].children)
    && (forall j, c :: j in jobs && c in jobs[j].children ==> c in jobs && jobs[c].parent == Some(j))
  }

  /** The links do not depend on completions or flags. */
  lemma LinkedFrame(jobs: Jobs, jobs': Jobs)
    requires Linked(jobs) && jobs'.Keys == jobs.Keys
    requires forall j :: j in jobs ==>
               jobs'[j].parent == jobs[j].parent && jobs'[j].children == jobs[j].children && jobs'[j].birth == jobs[j].birth
    ensures Linked(jobs')
  {
    forall k | k in jobs' && jobs'[k].parent.Some?
      ensures var p := jobs'[k].parent.value;
              p in jobs' && jobs'[p].birth < jobs'[k].birth && k in jobs'[p].children
    {
      assert jobs[k].parent.value in jobs;
    }
  }

  predicate Idle(job: Job) {
    job.completions == {} && job.children == {}
  }

  /** The job whose end is followed by its parent's. */
  ghost predicate LastOf(jobs: Jobs, p: nat, j: nat)
    requires p in jobs
  {
    jobs[p].completions == {} && jobs[p].children == {j}
  }

  /** The chain of jobs that end with j: j itself, then each ancestor left with nothing. */
  ghost function Doomed(jobs: Jobs, j: nat): (ch: seq<nat>)
    requires Rooted(jobs) && j in jobs
    ensures ch != [] && ch[0] == j
    decreases jobs[j].birth
  {
    [j] + match jobs[j].parent
          case None => []
          case Some(p) => if LastOf(jobs, p, j) then Doomed(jobs, p) else []
  }

  /** Each job after the first in the chain is the parent of the one before and had nothing else. */
  ghost predicate IsChain(jobs: Jobs, ch: seq<nat>) {
    && (forall i :: 0 <= i < |ch| ==> ch[i] in jobs)
    && (forall i :: 0 < i < |ch| ==> jobs[ch[i - 1]].parent == Some(ch[i]) && LastOf(jobs, ch[i], ch[i - 1]))
    && (forall i, k :: 0 <= i < k < |ch| ==> jobs[ch[k]].birth < jobs[ch[i]].birth)
  }

  /** A job in front of a chain whose first job is its parent, and had nothing else. */
  lemma ChainExtends(jobs: Jobs, j: nat, up: seq<nat>)
    requires Rooted(jobs) && j in jobs && up != [] && IsChain(jobs, up)
    requires jobs[j].parent == Some(up[0]) && LastOf(jobs, up[0], j)
    ensures IsChain(jobs, [j] + up)
  {
    var ch := [j] + up;
    forall i | 0 < i < |ch|
      ensures jobs[ch[i - 1]].parent == Some(ch[i]) && LastOf(jobs, ch[i], ch[i - 1])
    {
      assert ch[i] == up[i - 1];
      if i > 1 { assert ch[i - 1] == up[i - 2]; }
    }
    forall i, k | 0 <= i < k < |ch| ensures jobs[ch[k]].birth < jobs[ch[i]].birth {
      assert ch[k] == up[k - 1];
      if i > 0 { assert ch[i] == up[i - 1]; } else { assert jobs[up[k - 1]].birth <= jobs[up[0]].birth; }
    }
  }

  lemma {:induction false} DoomedIsChain(jobs: Jobs, j: nat)
    requires Rooted(jobs) && j in jobs
    ensures var ch := Doomed(jobs, j);
            && IsChain(jobs, ch)
            && match jobs[ch[|ch| - 1]].parent
               case None => true
               case Some(p) => !LastOf(jobs, p, ch[|ch| - 1])
    decreases jobs[j].birth
  {
    match jobs[j].parent
    case None =>
    case Some(p) =>
      if LastOf(jobs, p, j) {
        DoomedIsChain(jobs, p);
        ChainExtends(jobs, j, Doomed(jobs, p));
      }
  }

  /** j has ended: the doomed jobs are gone, and the surviving parent has lost that child. */
  ghost function Ended(jobs: Jobs, j: nat): Jobs
    requires Rooted(jobs) && j in jobs
  {
    DoomedIsChain(jobs, j);
    var ch := Doomed(jobs, j);
    var last := ch[|ch| - 1];
    map k | k in jobs && k !in ch ::
      if jobs[last].parent == Some(k) then jobs[k].(children := jobs[k].children - {last}) else jobs[k]
  }

  /** Below a chain's upper jobs there is only the chain. */
  lemma ChildOfChain(jobs: Jobs, ch: seq<nat>, k: nat)
    requires Linked(jobs) && IsChain(jobs, ch) && ch != [] && Idle(jobs[ch[0]])
    requires k in jobs && k !in ch
    ensures jobs[k].parent.Some? ==> jobs[k].parent.value !in ch
  {
    forall i | 0 <= i < |ch| ensures jobs[k].parent != Some(ch[i]) {
      assert jobs[k].parent == Some(ch[i]) ==> k in jobs[ch[i]].children;
      assert 0 < i ==> LastOf(jobs, ch[i], ch[i - 1]);
    }
  }

  /** Above a chain there is the chain, up to its last job's parent. */
  lemma ParentOfChain(jobs: Jobs, ch: seq<nat>, c: nat)
    requires IsChain(jobs, ch) && c in ch && jobs[c].parent.Some?
    ensures c == ch[|ch| - 1] || jobs[c].parent.value in ch
  {
    var i :| 0 <= i < |ch| && ch[i] == c;
    if i + 1 < |ch| { assert jobs[ch[i + 1 - 1]].parent == Some(ch[i + 1]); }
  }

  /** The jobs in gone have been taken out, the last of them also from its parent's children. */
  ghost predicate Trimmed(jobs: Jobs, jobs': Jobs, gone: set<nat>, last: nat)
    requires last in jobs
  {
    && jobs'.Keys == jobs.Keys - gone
    && forall k :: k in jobs' ==>
         jobs'[k] == if jobs[last].parent == Some(k) then jobs[k].(children := jobs[k].children - {last}) else jobs[k]
  }

  lemma EndedIsTrimmed(jobs: Jobs, j: nat)
    requires Rooted(jobs) && j in jobs
    ensures var ch := Doomed(jobs, j);
            ch[|ch| - 1] in jobs && Trimmed(jobs, Ended(jobs, j), Elems(ch), ch[|ch| - 1])
  {
    DoomedIsChain(jobs, j);
  }

  lemma TrimmedLinked(jobs: Jobs, jobs': Jobs, gone: set<nat>, last: nat)
    requires Linked(jobs) && last in jobs && last in gone && Trimmed(jobs, jobs', gone, last)
    requires forall k :: k in jobs && k !in gone && jobs[k].parent.Some? ==> jobs[k].parent.value !in gone
    requires forall c :: c in gone ==> c in jobs && (jobs[c].parent.Some? ==> c == last || jobs[c].parent.value in gone)
    ensures Linked(jobs')
  {
    forall k | k in jobs' && jobs'[k].parent.Some?
      ensures var p := jobs'[k].parent.value;
              p in jobs' && jobs'[p].birth < jobs'[k].birth && k in jobs'[p].children
    {
      assert jobs[k].parent.value in jobs;
    }
    forall k, c | k in jobs' && c in jobs'[k].children
      ensures c in jobs' && jobs'[c].parent == Some(k)
    {
      assert c in jobs && jobs[c].parent == Some(k);
    }
  }

  /** Ending an idle job leaves matching links and no other idle job. */
  lemma EndedLinked(jobs: Jobs, j: nat)
    requires Linked(jobs) && j in jobs && Idle(jobs[j])
    ensures Linked(Ended(jobs, j))
  {
    DoomedIsChain(jobs, j);
    var ch := Doomed(jobs, j);
    var gone, last := Elems(ch), ch[|ch| - 1];
    forall k | k in jobs && k !in gone ensures jobs[k].parent.Some? ==> jobs[k].parent.value !in gone {
      ChildOfChain(jobs, ch, k);
    }
    forall c | c in gone && jobs[c].parent.Some? ensures c == last || jobs[c].parent.value in gone {
      ParentOfChain(jobs, ch, c);
    }
    TrimmedLinked(jobs, Ended(jobs, j), gone, last);
  }

  lemma EndedBusy(jobs: Jobs, j: nat)
    requires Linked(jobs) && j in jobs
    requires forall k :: k in jobs && k != j ==> !Idle(jobs[k])
    ensures forall k :: k in Ended(jobs, j) ==> !Idle(Ended(jobs, j)[k])
  {
    DoomedIsChain(jobs, j);
    var ch := Doomed(jobs, j);
    forall k | k in Ended(jobs, j) ensures !Idle(Ended(jobs, j)[k]) {
      OtherChild(jobs[k], ch[|ch| - 1]);
    }
  }

  lemma OtherChild(job: Job, c: nat)
    requires !Idle(job)
    ensures c !in job.children || (job.completions == {} && job.children == {c}) || !Idle(job.(children := job.children - {c}))
  {
    if job.completions == {} && job.children - {c} == {} && c in job.children {
      assert job.children == {c};
    }
  }

  /** Exactly the jobs of the chain end. */
  lemma EndedCount(jobs: Jobs, j: nat)
    requires Rooted(jobs) && j in jobs
    ensures |Ended(jobs, j)| == |jobs| - |Doomed(jobs, j)|
  {
    DoomedIsChain(jobs, j);
    var ch := Doomed(jobs, j);
    assert forall i, k :: 0 <= i < k < |ch| ==> ch[i] != ch[k];
    assert Ended(jobs, j).Keys == jobs.Keys - Elems(ch);
    TrimmedCount(jobs.Keys, Ended(jobs, j).Keys, ch);
  }

  lemma TrimmedCount(before: set<nat>, after: set<nat>, ch: seq<nat>)
    requires forall i, k :: 0 <= i < k < |ch| ==> ch[i] != ch[k]
    requires forall i :: 0 <= i < |ch| ==> ch[i] in before
    requires after == before - Elems(ch)
    ensures |after| == |before| - |ch|
  {
    DistinctSize(ch);
    SubsetSize(before, Elems(ch));
  }

  function Elems(ch: seq<nat>): set<nat> {
    set k | k in ch
  }

  lemma SubsetSize(a: set<nat>, b: set<nat>)
    requires b <= a
    ensures |a - b| == |a| - |b|
  {
    assert a == (a - b) + b;
  }

  lemma {:induction false} DistinctSize(ch: seq<nat>)
    requires forall i, k :: 0 <= i < k < |ch| ==> ch[i] != ch[k]
    ensures |Elems(ch)| == |ch|
  {
    if ch == [] {
      assert Elems(ch) == {};
    } else {
      var init, x := ch[..|ch| - 1], ch[|ch| - 1];
      DistinctSize(init);
      assert x !in init && ch == init + [x];
      assert Elems(ch) == Elems(init) + {x};
    }
  }

  // ----- Ancestors -----

  /** k is j or one of its ancestors. */
  ghost predicate AncestorOrSelf(jobs: Jobs, k: nat, j: nat)
    requires Rooted(jobs) && j in jobs
    decreases jobs[j].birth
  {
    k == j || (jobs[j].parent.Some? && AncestorOrSelf(jobs, k, jobs[j].parent.value))
  }

  lemma {:induction false} AncestorIsLive(jobs: Jobs, k: nat, j: nat)
    requires Rooted(jobs) && j in jobs && AncestorOrSelf(jobs, k, j)
    ensures k in jobs
    decreases jobs[j].birth
  {
    if k != j { AncestorIsLive(jobs, k, jobs[j].parent.value); }
  }

  lemma {:induction false} AncestorTrans(jobs: Jobs, a: nat, b: nat, j: nat)
    requires Rooted(jobs) && j in jobs && b in jobs && AncestorOrSelf(jobs, a, b) && AncestorOrSelf(jobs, b, j)
    ensures AncestorOrSelf(jobs, a, j)
    decreases jobs[j].birth
  {
    if b != j { AncestorTrans(jobs, a, b, jobs[j].parent.value); }
  }

  /** Jobs with the same parents have the same ancestors. */
  lemma {:induction false} AncestorFrame(jobs: Jobs, jobs': Jobs, k: nat, j: nat)
    requires Rooted(jobs) && Rooted(jobs') && j in jobs'
    requires forall i :: i in jobs' ==> i in jobs && jobs'[i].parent == jobs[i].parent && jobs'[i].birth == jobs[i].birth
    ensures AncestorOrSelf(jobs', k, j) == AncestorOrSelf(jobs, k, j)
    decreases jobs[j].birth
  {
    if k != j && jobs[j].parent.Some? {
      AncestorFrame(jobs, jobs', k, jobs[j].parent.value);
    }
  }

  /** Below every job there is a job with a pending completion. */
  lemma {:induction false} BusyDescendant(jobs: Jobs, k: nat, bound: nat) returns (j: nat)
    requires Linked(jobs) && k in jobs
    requires forall i :: i in jobs ==> jobs[i].birth < bound && !Idle(jobs[i])
    ensures j in jobs && AncestorOrSelf(jobs, k, j) && jobs[j].completions != {}
    decreases bound - jobs[k].birth
  {
    if jobs[k].completions != {} {
      j := k;
    } else {
      var c :| c in jobs[k].children;
      j := BusyDescendant(jobs, c, bound);
      assert AncestorOrSelf(jobs, k, c);
      AncestorTrans(jobs, k, c, j);
    }
  }
}
