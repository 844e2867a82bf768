/** The worker's loops and the loop that shares out the rows, on a result matrix updated in place. */
module Matmul {
  import opened MatmulModel

  /** What the worker has added to a cell of row row once its loops stand at (cur, col). */
  ghost predicate RowSoFar(p: Problem, res: array2<int>, before: seq<int>, row: nat, cur: nat, col: nat)
    reads res
    requires Ok(p) && res.Length0 == p.n && res.Length1 == p.k && |before| == p.k && row < p.n && cur <= p.n
  {
    forall c :: 0 <= c < p.k ==>
      (c < col ==> cur < p.n && res[row, c] == before[c] + Partial(p, row, c, cur + 1))
      && (c >= col ==> res[row, c] == before[c] + Partial(p, row, c, cur))
  }

  method AddRow(p: Problem, res: array2<int>, row: nat)
    requires Ok(p) && res.Length0 == p.n && res.Length1 == p.k && row < p.n
    modifies res
    ensures forall c :: 0 <= c < p.k ==> res[row, c] == old(res[row, c]) + Partial(p, row, c, p.n)
    ensures forall r, c :: 0 <= r < p.n && r != row && 0 <= c < p.k ==> res[r, c] == old(res[r, c])
  {
    ghost var before := seq(p.k, c requires 0 <= c < p.k reads res => res[row, c]);
    for cur := 0 to p.n
      invariant RowSoFar(p, res, before, row, cur, 0)
      invariant forall r, c :: 0 <= r < p.n && r != row && 0 <= c < p.k ==> res[r, c] == old(res[r, c])
    {
      for col := 0 to p.k
        invariant RowSoFar(p, res, before, row, cur, col)
        invariant forall r, c :: 0 <= r < p.n && r != row && 0 <= c < p.k ==> res[r, c] == old(res[r, c])
      {
        res[row, col] := res[row, col] + p.a[row][cur] * p.b[cur][col];
      }
    }
  }

  /** MatmulWorker: the rows from start to stop each gain their row of the product, and no other row changes. */
  method MatmulWorker(p: Problem, res: array2<int>, start: nat, stop: nat)
    requires Ok(p) && res.Length0 == p.n && res.Length1 == p.k && start <= stop <= p.n
    modifies res
    ensures forall r, c :: start <= r < stop && 0 <= c < p.k ==> res[r, c] == old(res[r, c]) + Partial(p, r, c, p.n)
    ensures forall r, c :: 0 <= r < p.n && !(start <= r < stop) && 0 <= c < p.k ==> res[r, c] == old(res[r, c])
  {
    for row := start to stop
      invariant forall r, c :: start <= r < row && 0 <= c < p.k ==> res[r, c] == old(res[r, c]) + Partial(p, r, c, p.n)
      invariant forall r, c :: 0 <= r < p.n && !(start <= r < row) && 0 <= c < p.k ==> res[r, c] == old(res[r, c])
    {
      AddRow(p, res, row);
    }
  }

  /** matmul_cpu with its threads joined one by one: whatever the hardware's concurrency, 0 included, the result is the product. */
  method MatmulCpu(a: Grid, b: Grid, n: nat, k: nat, concurrency: nat) returns (res: array2<int>, ghost p: Problem)
    requires Sized(a, n, n) && Sized(b, n, k)
    ensures p.a == a && p.b == b && p.n == n && p.k == k && Ok(p) && fresh(res) && res.Length0 == n && res.Length1 == k
    ensures forall r, c :: 0 <= r < n && 0 <= c < k ==> res[r, c] == Partial(p, r, c, n)
  {
    var threads := if concurrency == 0 then 1 else concurrency;
    var q := Problem(a, b, n, k, threads);
    p := q;
    res := new int[n, k]((r, c) => 0);
    var rowsPerThread := n / threads;
    var remaining := n % threads;
    StopBeforeNextStart(q, threads - 1);
    for i := 0 to threads
      invariant i < threads ==> Start(q, i) <= n
      invariant forall r, c :: 0 <= r < n && 0 <= c < k && (i == threads || r < Start(q, i)) ==> res[r, c] == Partial(q, r, c, n)
      invariant forall r, c :: 0 <= r < n && 0 <= c < k && i < threads && r >= Start(q, i) ==> res[r, c] == 0
    {
      StopBeforeNextStart(q, i);
      if i + 1 < threads { StopBeforeNextStart(q, i + 1); }
      var start := i * rowsPerThread;
      var stop := start + rowsPerThread;
      if i == threads - 1 { stop := stop + remaining; }
      MatmulWorker(q, res, start, stop);
    }
  }
}
