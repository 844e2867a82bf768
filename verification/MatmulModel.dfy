/** matmul_cpu: the rows shared out among threads, and every interleaving of their inner-loop updates. */
module MatmulModel {
  import opened Wrappers
  import opened Bits

  type Grid = seq<seq<int>>

  /** Row = Col = n as matmul_cpu's parameter types force, the other factor is n by k, and there are t threads. */
  datatype Problem = Problem(a: Grid, b: Grid, n: nat, k: nat, t: nat)

  predicate Sized(g: Grid, rows: nat, cols: nat) {
    |g| == rows && forall r :: 0 <= r < rows ==> |g[r]| == cols
  }

  predicate Ok(p: Problem) {
    Sized(p.a, p.n, p.n) && Sized(p.b, p.n, p.k) && p.t >= 1
  }

  // ----- The row ranges -----

  function Start(p: Problem, w: nat): nat
    requires p.t >= 1
  {
    w * (p.n / p.t)
  }

  function Stop(p: Problem, w: nat): nat
    requires p.t >= 1
  {
    Start(p, w) + p.n / p.t + (if w == p.t - 1 then p.n % p.t else 0)
  }

  predicate Owns(p: Problem, w: nat, row: nat)
    requires p.t >= 1
  {
    w < p.t && Start(p, w) <= row < Stop(p, w)
  }

  lemma StopBeforeNextStart(p: Problem, w: nat)
    requires p.t >= 1 && w < p.t
    ensures w + 1 < p.t ==> Stop(p, w) == Start(p, w + 1)
    ensures w + 1 == p.t ==> Stop(p, w) == p.n
    ensures Start(p, w) <= Stop(p, w) <= p.n
  {
    var q := p.n / p.t;
    assert (w + 1) * q == w * q + q;
    assert p.t * q + p.n % p.t == p.n;
    MulMono(q, w + 1, p.t);
  }

  lemma StartsInOrder(p: Problem, v: nat, w: nat)
    requires p.t >= 1 && v < w < p.t
    ensures Stop(p, v) <= Start(p, w)
  {
    StopBeforeNextStart(p, v);
    MulMono(p.n / p.t, v + 1, w);
  }

  /** The worker that a row falls to. */
  function OwnerFrom(p: Problem, row: nat, w: nat): (o: nat)
    requires p.t >= 1 && row < p.n && w < p.t && Start(p, w) <= row
    ensures Owns(p, o, row)
    decreases p.t - w
  {
    StopBeforeNextStart(p, w);
    if row < Stop(p, w) then w else OwnerFrom(p, row, w + 1)
  }

  lemma OwnerUnique(p: Problem, v: nat, w: nat, row: nat)
    requires p.t >= 1 && Owns(p, v, row) && Owns(p, w, row)
    ensures v == w
  {
    if v < w { StartsInOrder(p, v, w); }
    if w < v { StartsInOrder(p, w, v); }
  }

  /** Every row belongs to exactly one worker, whatever the number of threads. */
  lemma RowsPartitioned(p: Problem, row: nat)
    requires p.t >= 1
    ensures row < p.n <==> exists w :: Owns(p, w, row)
    ensures forall v, w :: Owns(p, v, row) && Owns(p, w, row) ==> v == w
  {
    if row < p.n {
      assert Start(p, 0) == 0;
      var o := OwnerFrom(p, row, 0);
      assert Owns(p, o, row);
    }
    forall v, w | Owns(p, v, row) && Owns(p, w, row) ensures v == w {
      OwnerUnique(p, v, w, row);
    }
    forall w | Owns(p, w, row) ensures row < p.n {
      StopBeforeNextStart(p, w);
    }
  }

  /** Row-major storage: different cells stand at different indices. */
  lemma FlatIndexDistinct(cols: nat, r1: nat, c1: nat, r2: nat, c2: nat)
    requires c1 < cols && c2 < cols && r1 * cols + c1 == r2 * cols + c2
    ensures r1 == r2 && c1 == c2
  {
    ModUnique(r1 * cols + c1, cols, r1, c1);
    ModUnique(r2 * cols + c2, cols, r2, c2);
  }

  // ----- The product -----

  /** The sum of the first m terms of a row times a column. */
  function Partial(p: Problem, row: nat, col: nat, m: nat): int
    requires Ok(p) && row < p.n && col < p.k && m <= p.n
  {
    if m == 0 then 0 else Partial(p, row, col, m - 1) + p.a[row][m - 1] * p.b[m - 1][col]
  }

  // ----- Steps -----

  /** A worker's loop variables, and the cell value it has loaded for its +=. */
  datatype Worker = Worker(row: nat, cur: nat, col: nat, loaded: Option<int>)

  datatype State = State(res: Grid, workers: seq<Worker>)

  function Init(p: Problem): State
    requires p.t >= 1
  {
    State(seq(p.n, _ => seq(p.k, _ => 0)), seq(p.t, w requires 0 <= w < p.t => Worker(Start(p, w), 0, 0, None)))
  }

  predicate Finished(p: Problem, w: nat, me: Worker)
    requires p.t >= 1
  {
    me.row >= Stop(p, w) || p.k == 0
  }

  /** The three nested loops' next place. */
  function Advance(p: Problem, me: Worker): Worker {
    if me.col + 1 < p.k then Worker(me.row, me.cur, me.col + 1, None)
    else if me.cur + 1 < p.n then Worker(me.row, me.cur + 1, 0, None)
    else Worker(me.row + 1, 0, 0, None)
  }

  function SetCell(g: Grid, row: nat, col: nat, x: int): Grid
    requires row < |g| && col < |g[row]|
  {
    g[row := g[row][col := x]]
  }

  predicate WorkerOk(p: Problem, w: nat, me: Worker)
    requires p.t >= 1
  {
    && Start(p, w) <= me.row
    && (!Finished(p, w, me) ==> me.row < p.n && me.cur < p.n && me.col < p.k)
    && (Finished(p, w, me) ==> me.loaded.None?)
  }

  predicate Shape(p: Problem, s: State) {
    && Ok(p) && Sized(s.res, p.n, p.k) && |s.workers| == p.t
    && forall w :: 0 <= w < p.t ==> WorkerOk(p, w, s.workers[w])
  }

  /** One step of one worker: loading a cell, or storing the sum and moving on. */
  function Step(p: Problem, s: State, w: nat): State
    requires Shape(p, s) && w < p.t
  {
    var me := s.workers[w];
    if Finished(p, w, me) then s
    else
      match me.loaded
      case None => s.(workers := s.workers[w := me.(loaded := Some(s.res[me.row][me.col]))])
      case Some(x) =>
        State(SetCell(s.res, me.row, me.col, x + p.a[me.row][me.cur] * p.b[me.cur][me.col]),
              s.workers[w := Advance(p, me)])
  }

  // ----- Invariant -----

  /** How many terms a worker has added into a cell of its rows. */
  function Terms(p: Problem, me: Worker, row: nat, col: nat): nat {
    if row < me.row then p.n
    else if row > me.row then 0
    else if col < me.col then me.cur + 1 else me.cur
  }

  predicate CellOk(p: Problem, s: State, w: nat, row: nat, col: nat)
    requires Shape(p, s) && w < p.t && row < p.n && col < p.k
  {
    Owns(p, w, row) ==>
      Terms(p, s.workers[w], row, col) <= p.n && s.res[row][col] == Partial(p, row, col, Terms(p, s.workers[w], row, col))
  }

  ghost predicate Inv(p: Problem, s: State) {
    && Shape(p, s)
    && (forall w, row, col :: 0 <= w < p.t && 0 <= row < p.n && 0 <= col < p.k ==> CellOk(p, s, w, row, col))
    && (forall w :: 0 <= w < p.t && s.workers[w].loaded.Some? ==>
          s.workers[w].loaded.value == s.res[s.workers[w].row][s.workers[w].col])
  }

  lemma InitInv(p: Problem)
    requires Ok(p)
    ensures Inv(p, Init(p))
  {
    var s := Init(p);
    forall w | 0 <= w < p.t ensures WorkerOk(p, w, s.workers[w]) {
      StopBeforeNextStart(p, w);
    }
    forall w, row, col | 0 <= w < p.t && 0 <= row < p.n && 0 <= col < p.k ensures CellOk(p, s, w, row, col) {
    }
  }

  lemma StepShape(p: Problem, s: State, w: nat)
    requires Shape(p, s) && w < p.t
    ensures Shape(p, Step(p, s, w))
  {
    StopBeforeNextStart(p, w);
  }

  /** The cell of an unfinished worker is in a row that is only its own. */
  lemma OwnRow(p: Problem, s: State, w: nat)
    requires Shape(p, s) && w < p.t && !Finished(p, w, s.workers[w])
    ensures Owns(p, w, s.workers[w].row)
    ensures forall v :: Owns(p, v, s.workers[w].row) ==> v == w
  {
    var row := s.workers[w].row;
    assert Owns(p, w, row);
    forall v | Owns(p, v, row) ensures v == w {
      OwnerUnique(p, v, w, row);
    }
  }

  lemma StoreKeepsCell(p: Problem, s: State, w: nat, v: nat, row: nat, col: nat)
    requires Inv(p, s) && w < p.t && !Finished(p, w, s.workers[w]) && s.workers[w].loaded.Some?
    requires Shape(p, Step(p, s, w)) && v < p.t && row < p.n && col < p.k
    ensures CellOk(p, Step(p, s, w), v, row, col)
  {
    var me := s.workers[w];
    OwnRow(p, s, w);
    assert CellOk(p, s, v, row, col);
  }

  lemma LoadKeepsCell(p: Problem, s: State, w: nat, v: nat, row: nat, col: nat)
    requires Inv(p, s) && w < p.t && !Finished(p, w, s.workers[w]) && s.workers[w].loaded.None?
    requires Shape(p, Step(p, s, w)) && v < p.t && row < p.n && col < p.k
    ensures CellOk(p, Step(p, s, w), v, row, col)
  {
    assert CellOk(p, s, v, row, col);
  }

  lemma StepInv(p: Problem, s: State, w: nat)
    requires Inv(p, s) && w < p.t
    ensures Inv(p, Step(p, s, w))
  {
    var me, q := s.workers[w], Step(p, s, w);
    StepShape(p, s, w);
    if !Finished(p, w, me) {
      forall v, row, col | 0 <= v < p.t && 0 <= row < p.n && 0 <= col < p.k ensures CellOk(p, q, v, row, col) {
        if me.loaded.Some? { StoreKeepsCell(p, s, w, v, row, col); } else { LoadKeepsCell(p, s, w, v, row, col); }
      }
      forall v | 0 <= v < p.t && q.workers[v].loaded.Some?
        ensures q.workers[v].loaded.value == q.res[q.workers[v].row][q.workers[v].col]
      {
        if v != w && me.loaded.Some? {
          OwnRow(p, s, w);
          OwnRow(p, s, v);
        }
      }
    }
  }

  /** A schedule names the worker that moves next. */
  predicate Schedule(p: Problem, schedule: seq<nat>) {
    forall i :: 0 <= i < |schedule| ==> schedule[i] < p.t
  }

  function Run(p: Problem, s: State, schedule: seq<nat>): (r: State)
    requires Shape(p, s) && Schedule(p, schedule)
    ensures Shape(p, r)
    decreases |schedule|
  {
    if schedule == [] then s
    else
      StepShape(p, s, schedule[0]);
      Run(p, Step(p, s, schedule[0]), schedule[1..])
  }

  lemma {:induction false} RunInv(p: Problem, s: State, schedule: seq<nat>)
    requires Inv(p, s) && Schedule(p, schedule)
    ensures Inv(p, Run(p, s, schedule))
    decreases |schedule|
  {
    if schedule != [] {
      StepInv(p, s, schedule[0]);
      RunInv(p, Step(p, s, schedule[0]), schedule[1..]);
    }
  }

  predicate AllFinished(p: Problem, s: State)
    requires Shape(p, s)
  {
    forall w :: 0 <= w < p.t ==> Finished(p, w, s.workers[w])
  }

  /** However the workers' loads and stores interleave, once all have finished the result is the product. */
  lemma EveryInterleavingMultiplies(p: Problem, schedule: seq<nat>, row: nat, col: nat)
    requires Ok(p) && Schedule(p, schedule) && row < p.n && col < p.k
    ensures Inv(p, Init(p))
    ensures AllFinished(p, Run(p, Init(p), schedule)) ==>
              Run(p, Init(p), schedule).res[row][col] == Partial(p, row, col, p.n)
  {
    InitInv(p);
    RunInv(p, Init(p), schedule);
    var s := Run(p, Init(p), schedule);
    RowsPartitioned(p, row);
    var w: nat :| Owns(p, w, row);
    assert CellOk(p, s, w, row, col);
  }

  // ----- Every fair schedule finishes -----

  /** How many steps a worker still has to take. */
  function Left(p: Problem, w: nat, me: Worker): int
    requires p.t >= 1
  {
    if Finished(p, w, me) then 0
    else 2 * (((Stop(p, w) - me.row) * p.n - me.cur) * p.k - me.col) - (if me.loaded.Some? then 1 else 0)
  }

  lemma AtLeastOne(rows: nat, n: nat, k: nat, cur: nat, col: nat)
    requires rows >= 1 && cur < n && col < k
    ensures (rows * n - cur) * k - col >= 1
  {
    MulMono(n, 1, rows);
    assert n * rows == rows * n;
    var rest := rows * n - cur;
    MulMono(k, 1, rest);
    assert k * rest == rest * k;
  }

  lemma LeftAtLeastOne(p: Problem, w: nat, me: Worker)
    requires Ok(p) && w < p.t && WorkerOk(p, w, me) && !Finished(p, w, me)
    ensures Left(p, w, me) >= 1
  {
    AtLeastOne(Stop(p, w) - me.row, p.n, p.k, me.cur, me.col);
  }

  /** A step of an unfinished worker brings it exactly one step nearer its end, and no other worker anything. */
  lemma StepCounts(p: Problem, s: State, w: nat)
    requires Shape(p, s) && w < p.t && !Finished(p, w, s.workers[w])
    ensures Left(p, w, Step(p, s, w).workers[w]) == Left(p, w, s.workers[w]) - 1 >= 0
    ensures forall v :: 0 <= v < p.t && v != w ==> Step(p, s, w).workers[v] == s.workers[v]
  {
    var me := s.workers[w];
    LeftAtLeastOne(p, w, me);
    if me.loaded.Some? {
      var rows := Stop(p, w) - me.row;
      var x := rows * p.n - me.cur;
      assert (x - 1) * p.k == x * p.k - p.k;
      assert (rows - 1) * p.n == rows * p.n - p.n;
    }
  }

  /** How often a schedule moves a worker. */
  function Moves(schedule: seq<nat>, w: nat): nat {
    if schedule == [] then 0 else (if schedule[0] == w then 1 else 0) + Moves(schedule[1..], w)
  }

  /** Each worker moves as often as it has steps left. */
  predicate Fair(p: Problem, s: State, schedule: seq<nat>)
    requires Shape(p, s)
  {
    forall w :: 0 <= w < p.t ==> Moves(schedule, w) >= Left(p, w, s.workers[w])
  }

  lemma StepKeepsFair(p: Problem, s: State, schedule: seq<nat>)
    requires Shape(p, s) && schedule != [] && schedule[0] < p.t && Fair(p, s, schedule)
    ensures Shape(p, Step(p, s, schedule[0])) && Fair(p, Step(p, s, schedule[0]), schedule[1..])
  {
    var v := schedule[0];
    StepShape(p, s, v);
    if !Finished(p, v, s.workers[v]) { StepCounts(p, s, v); }
    forall w | 0 <= w < p.t ensures Moves(schedule[1..], w) >= Left(p, w, Step(p, s, v).workers[w]) {
      assert Moves(schedule, w) >= Left(p, w, s.workers[w]);
    }
  }

  /** Every fair schedule, in whatever order it moves the workers, ends with all of them finished. */
  lemma {:induction false} FairScheduleFinishes(p: Problem, s: State, schedule: seq<nat>)
    requires Shape(p, s) && Schedule(p, schedule) && Fair(p, s, schedule)
    ensures AllFinished(p, Run(p, s, schedule))
    decreases |schedule|
  {
    if schedule == [] {
      forall w | 0 <= w < p.t ensures Finished(p, w, s.workers[w]) {
        assert Moves([], w) == 0;
        if !Finished(p, w, s.workers[w]) { LeftAtLeastOne(p, w, s.workers[w]); }
      }
    } else {
      StepKeepsFair(p, s, schedule);
      FairScheduleFinishes(p, Step(p, s, schedule[0]), schedule[1..]);
    }
  }

  /** A new worker has two steps to take for each term of each cell of its rows. */
  lemma LeftAtStart(p: Problem, w: nat)
    requires Ok(p) && w < p.t
    ensures Left(p, w, Init(p).workers[w]) == 2 * ((Stop(p, w) - Start(p, w)) * p.n * p.k)
  {
    StopBeforeNextStart(p, w);
  }

  /** So every schedule that moves each worker often enough multiplies the matrices. */
  lemma FairScheduleMultiplies(p: Problem, schedule: seq<nat>, row: nat, col: nat)
    requires Ok(p) && Schedule(p, schedule) && row < p.n && col < p.k
    requires forall w :: 0 <= w < p.t ==> Moves(schedule, w) >= 2 * ((Stop(p, w) - Start(p, w)) * p.n * p.k)
    ensures Inv(p, Init(p)) && Run(p, Init(p), schedule).res[row][col] == Partial(p, row, col, p.n)
  {
    InitInv(p);
    forall w | 0 <= w < p.t ensures Moves(schedule, w) >= Left(p, w, Init(p).workers[w]) {
      LeftAtStart(p, w);
    }
    FairScheduleFinishes(p, Init(p), schedule);
    EveryInterleavingMultiplies(p, schedule, row, col);
  }
}
