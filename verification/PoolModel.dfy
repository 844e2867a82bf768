/** The block pool: what acquire and offer do to the blocks, the counters and the table of live slots. */
module PoolModel {
  import opened Wrappers

  /** A T* of the pool: an index into the array of one block. */
  datatype Slot = Slot(block: nat, index: nat)

  /** Obj: its free count, its used flags and its objects, where constructed. */
  datatype Block<T> = Block(available: nat, used: seq<bool>, objects: seq<Option<T>>)

  /** returning maps a slot's address to its block and index. */
  datatype Pool<T> = Pool(blockSize: nat, blocks: seq<Block<T>>, available: int, size: nat, returning: map<Slot, Slot>)

  function NewBlock<T>(blockSize: nat): Block<T> {
    Block(blockSize, seq(blockSize, _ => false), seq(blockSize, _ => None))
  }

  /** makeNew */
  function MakeNew<T>(p: Pool<T>): Pool<T> {
    p.(blocks := p.blocks + [NewBlock(p.blockSize)], size := p.size + p.blockSize)
  }

  /** The constructor's loop: one block to begin with, then one for each of defaultSize. */
  function Built<T>(blockSize: nat, defaultSize: nat): (p: Pool<T>)
    ensures p.blockSize == blockSize && p.returning == map[]
  {
    if defaultSize == 0 then Pool(blockSize, [NewBlock(blockSize)], 0, 0, map[])
    else var p := MakeNew(Built(blockSize, defaultSize - 1)); p.(available := p.size)
  }

  /** The first unused index of a block from i on. */
  function FreeIndex(used: seq<bool>, i: nat): Option<nat>
    decreases |used| - i
  {
    if i >= |used| then None else if !used[i] then Some(i) else FreeIndex(used, i + 1)
  }

  /** The walk over the blocks from b on: full ones are skipped. */
  function FreeSlot<T>(blocks: seq<Block<T>>, b: nat): Option<Slot>
    decreases |blocks| - b
  {
    if b >= |blocks| then None
    else if blocks[b].available == 0 then FreeSlot(blocks, b + 1)
    else
      match FreeIndex(blocks[b].used, 0)
      case Some(i) => Some(Slot(b, i))
      case None => FreeSlot(blocks, b + 1)
  }

  /** Where acquire constructs, and the pool as it stands then; None is the runtime_error. */
  function Chosen<T>(p: Pool<T>): Option<(Slot, Pool<T>)> {
    if p.available == 0 then Some((Slot(|p.blocks|, 0), MakeNew(p)))
    else
      match FreeSlot(p.blocks, 0)
      case None => None
      case Some(s) => Some((s, p.(available := p.available - 1)))
  }

  /** The slot names a place in the blocks. */
  predicate In<T>(p: Pool<T>, s: Slot) {
    && s.block < |p.blocks|
    && s.index < |p.blocks[s.block].used| && s.index < |p.blocks[s.block].objects|
  }

  function Take<T>(p: Pool<T>, s: Slot, value: T): Pool<T>
    requires In(p, s) && p.blocks[s.block].available > 0
  {
    var b := p.blocks[s.block];
    p.(blocks := p.blocks[s.block := Block(b.available - 1, b.used[s.index := true], b.objects[s.index := Some(value)])],
       returning := p.returning[s := s])
  }

  function Release<T>(p: Pool<T>, s: Slot): Pool<T>
    requires s in p.returning && In(p, p.returning[s])
  {
    var at := p.returning[s];
    var b := p.blocks[at.block];
    p.(blocks := p.blocks[at.block := Block(b.available + 1, b.used[at.index := false], b.objects[at.index := None])],
       returning := p.returning - {s}, available := p.available + 1)
  }

  // ----- Invariant -----

  function CountFree(used: seq<bool>): nat {
    if used == [] then 0 else (if used[0] then 0 else 1) + CountFree(used[1..])
  }

  function FreeTotal<T>(blocks: seq<Block<T>>): nat {
    if blocks == [] then 0 else CountFree(blocks[0].used) + FreeTotal(blocks[1..])
  }

  predicate BlockOk<T>(b: Block<T>, blockSize: nat) {
    && |b.used| == |b.objects| == blockSize && b.available == CountFree(b.used)
    && forall i :: 0 <= i < blockSize ==> (b.used[i] <==> b.objects[i].Some?)
  }

  /** returning has exactly the used slots, each under its own block and index. */
  predicate TableOk<T>(p: Pool<T>) {
    && (forall s :: s in p.returning ==> In(p, s) && p.blocks[s.block].used[s.index] && p.returning[s] == s)
    && (forall b, i :: 0 <= b < |p.blocks| && 0 <= i < |p.blocks[b].used| && p.blocks[b].used[i] ==> Slot(b, i) in p.returning)
  }

  /** How many blocks acquire has added. */
  function Growths<T>(p: Pool<T>, defaultSize: nat): int {
    |p.blocks| - 1 - defaultSize
  }

  /**
   * The counters of a pool of n blocks with so many free and live slots: the first
   * block was never counted, and a growth counts its whole block as used.
   */
  predicate Counts(n: nat, blockSize: nat, size: nat, available: int, free: int, live: nat, defaultSize: nat) {
    && n >= 1 + defaultSize && available >= 0
    && size == (n - 1) * blockSize
    && free == available + blockSize + (n - 1 - defaultSize) * (blockSize - 1)
    && live + free == n * blockSize
  }

  lemma CountsGrow(n: nat, blockSize: nat, size: nat, free: nat, live: nat, d: nat)
    requires blockSize >= 1 && Counts(n, blockSize, size, 0, free, live, d)
    ensures Counts(n + 1, blockSize, size + blockSize, 0, free + blockSize - 1, live + 1, d)
  {
    assert n * blockSize == (n - 1) * blockSize + blockSize;
    assert (n + 1) * blockSize == n * blockSize + blockSize;
    assert (n - d) * (blockSize - 1) == (n - 1 - d) * (blockSize - 1) + (blockSize - 1);
  }

  predicate CountsOk<T>(p: Pool<T>, defaultSize: nat) {
    Counts(|p.blocks|, p.blockSize, p.size, p.available, FreeTotal(p.blocks), |p.returning|, defaultSize)
  }

  lemma CountsMeanFree(n: nat, blockSize: nat, size: nat, available: int, free: int, live: nat, d: nat)
    requires blockSize >= 1 && Counts(n, blockSize, size, available, free, live, d)
    ensures free >= available + blockSize
  {
    NotNegative(n - 1 - d, blockSize - 1);
  }

  lemma NotNegative(a: nat, b: nat)
    ensures a * b >= 0
  {
  }

  predicate BlocksOk<T>(p: Pool<T>) {
    forall b :: 0 <= b < |p.blocks| ==> BlockOk(p.blocks[b], p.blockSize)
  }

  ghost predicate Inv<T>(p: Pool<T>, defaultSize: nat) {
    && p.blockSize >= 1
    && BlocksOk(p) && TableOk(p) && CountsOk(p, defaultSize)
  }

  /** The objects handed out and not yet returned. */
  function Live<T>(p: Pool<T>): map<Slot, T> {
    map s | s in p.returning && In(p, s) && p.blocks[s.block].objects[s.index].Some? :: p.blocks[s.block].objects[s.index].value
  }

  // ----- Counting -----

  lemma {:induction false} CountUpdate(used: seq<bool>, i: nat, u: bool)
    requires i < |used|
    ensures CountFree(used[i := u]) == CountFree(used) + (if used[i] then 1 else 0) - (if u then 1 else 0)
  {
    if i > 0 {
      assert used[i := u][1..] == used[1..][i - 1 := u];
      CountUpdate(used[1..], i - 1, u);
    }
  }

  lemma {:induction false} CountBounds(used: seq<bool>, i: nat)
    requires i < |used| && !used[i]
    ensures CountFree(used) > 0
  {
    if i > 0 { CountBounds(used[1..], i - 1); }
  }

  lemma {:induction false} CountAllFree(n: nat)
    ensures CountFree(seq(n, _ => false)) == n
  {
    if n > 0 {
      assert seq(n, _ => false)[1..] == seq(n - 1, _ => false);
      CountAllFree(n - 1);
    }
  }

  lemma {:induction false} TotalUpdate<T>(blocks: seq<Block<T>>, b: nat, block: Block<T>)
    requires b < |blocks|
    ensures FreeTotal(blocks[b := block]) == FreeTotal(blocks) - CountFree(blocks[b].used) + CountFree(block.used)
  {
    if b > 0 {
      assert blocks[b := block][1..] == blocks[1..][b - 1 := block];
      TotalUpdate(blocks[1..], b - 1, block);
    }
  }

  lemma {:induction false} TotalAppend<T>(blocks: seq<Block<T>>, block: Block<T>)
    ensures FreeTotal(blocks + [block]) == FreeTotal(blocks) + CountFree(block.used)
  {
    if blocks != [] {
      assert (blocks + [block])[1..] == blocks[1..] + [block];
      TotalAppend(blocks[1..], block);
    }
  }

  lemma {:induction false} FreeIndexFinds(used: seq<bool>, i: nat)
    requires i <= |used| && CountFree(used[i..]) > 0
    ensures FreeIndex(used, i).Some? && i <= FreeIndex(used, i).value < |used| && !used[FreeIndex(used, i).value]
    decreases |used| - i
  {
    if used[i] {
      assert used[i..][1..] == used[i + 1..];
      FreeIndexFinds(used, i + 1);
    }
  }

  /** Where some slot is free the walk over the blocks finds one. */
  lemma {:induction false} FreeSlotFinds<T>(blocks: seq<Block<T>>, blockSize: nat, b: nat)
    requires b <= |blocks| && FreeTotal(blocks[b..]) > 0
    requires forall k :: 0 <= k < |blocks| ==> BlockOk(blocks[k], blockSize)
    ensures FreeSlot(blocks, b).Some?
    ensures var s := FreeSlot(blocks, b).value;
            s.block < |blocks| && s.index < blockSize == |blocks[s.block].used| && |blocks[s.block].objects| == blockSize && !blocks[s.block].used[s.index] && blocks[s.block].available > 0
    decreases |blocks| - b
  {
    assert blocks[b..][1..] == blocks[b + 1..];
    if blocks[b].available == 0 {
      FreeSlotFinds(blocks, blockSize, b + 1);
    } else {
      assert blocks[b].used[0..] == blocks[b].used;
      FreeIndexFinds(blocks[b].used, 0);
    }
  }

  lemma {:induction false} FreeIndexIsFirst(used: seq<bool>, i: nat, k: nat)
    requires i <= k < |used| && (FreeIndex(used, i).Some? ==> k < FreeIndex(used, i).value)
    ensures used[k]
    decreases |used| - i
  {
    if i < k { FreeIndexIsFirst(used, i + 1, k); }
  }

  /** It is the first: every slot of the blocks before is used, and every one before it in its own block. */
  lemma {:induction false} FreeSlotIsFirst<T>(blocks: seq<Block<T>>, blockSize: nat, b: nat, k: nat, i: nat)
    requires b <= k < |blocks| && (forall m :: 0 <= m < |blocks| ==> BlockOk(blocks[m], blockSize)) && i < blockSize
    requires FreeSlot(blocks, b).Some? ==>
               k < FreeSlot(blocks, b).value.block || (k == FreeSlot(blocks, b).value.block && i < FreeSlot(blocks, b).value.index)
    ensures i < |blocks[k].used| && blocks[k].used[i]
    decreases |blocks| - b
  {
    assert BlockOk(blocks[k], blockSize);
    if b == k {
      if blocks[b].available == 0 {
        if !blocks[k].used[i] { CountBounds(blocks[k].used, i); }
      } else {
        FreeIndexIsFirst(blocks[b].used, 0, i);
      }
    } else {
      FreeSlotIsFirst(blocks, blockSize, b + 1, k, i);
    }
  }

  // ----- What each operation keeps -----

  lemma NewBlockOk<T>(blockSize: nat)
    ensures BlockOk(NewBlock<T>(blockSize), blockSize)
  {
    CountAllFree(blockSize);
  }

  /** The constructor leaves one block more than it counts. */
  lemma BuiltEmpty<T>(blockSize: nat)
    requires blockSize >= 1
    ensures Inv(Built<T>(blockSize, 0), 0) && Live(Built<T>(blockSize, 0)) == map[]
  {
    var p := Built<T>(blockSize, 0);
    NewBlockOk<T>(blockSize);
    assert p.blocks[1..] == [] && FreeTotal(p.blocks[1..]) == 0;
    assert FreeTotal(p.blocks) == blockSize;
    assert Counts(1, blockSize, 0, 0, blockSize, 0, 0);
  }

  lemma BuiltStep<T>(before: Pool<T>, p: Pool<T>, d: nat)
    requires d > 0 && Inv(before, d - 1) && before.returning == map[] && |before.blocks| == d
    requires p == MakeNew(before).(available := before.size + before.blockSize)
    ensures Inv(p, d) && p.available == d * p.blockSize
  {
    MakeNewKeeps(before);
    assert BlocksOk(p) && TableOk(p);
    CountsBuilt(|before.blocks|, before.blockSize, before.size, before.available, FreeTotal(before.blocks), 0, d);
  }

  lemma {:induction false} BuiltInv<T>(blockSize: nat, defaultSize: nat)
    requires blockSize >= 1
    ensures Inv(Built<T>(blockSize, defaultSize), defaultSize)
    ensures Built<T>(blockSize, defaultSize).available == defaultSize * blockSize
    ensures |Built<T>(blockSize, defaultSize).blocks| == defaultSize + 1
    ensures Live(Built<T>(blockSize, defaultSize)) == map[]
  {
    if defaultSize == 0 {
      BuiltEmpty<T>(blockSize);
    } else {
      BuiltInv<T>(blockSize, defaultSize - 1);
      BuiltStep(Built<T>(blockSize, defaultSize - 1), Built<T>(blockSize, defaultSize), defaultSize);
    }
  }

  lemma CountsBuilt(n: nat, blockSize: nat, size: nat, available: int, free: int, live: nat, d: nat)
    requires blockSize >= 1 && d > 0 && n == d && live == 0 && Counts(n, blockSize, size, available, free, live, d - 1)
    ensures Counts(n + 1, blockSize, size + blockSize, size + blockSize, free + blockSize, live, d)
    ensures size + blockSize == d * blockSize
  {
    assert (n - 1 - (d - 1)) * (blockSize - 1) == 0 && (n + 1 - 1 - d) * (blockSize - 1) == 0;
    assert n * blockSize == (n - 1) * blockSize + blockSize;
    assert (n + 1) * blockSize == n * blockSize + blockSize;
  }

  lemma MakeNewKeeps<T>(p: Pool<T>)
    requires BlocksOk(p)
    requires TableOk(p)
    ensures BlocksOk(MakeNew(p))
    ensures TableOk(MakeNew(p)) && Live(MakeNew(p)) == Live(p)
    ensures FreeTotal(MakeNew(p).blocks) == FreeTotal(p.blocks) + p.blockSize
  {
    NewBlockOk<T>(p.blockSize);
    TotalAppend(p.blocks, NewBlock(p.blockSize));
    var q := MakeNew(p);
    forall s | s in p.returning ensures In(q, s) && q.blocks[s.block] == p.blocks[s.block] {
    }
  }

  lemma TakeBlocks<T>(p: Pool<T>, s: Slot, value: T)
    requires BlocksOk(p) && In(p, s) && !p.blocks[s.block].used[s.index] && p.blocks[s.block].available > 0
    ensures BlocksOk(Take(p, s, value)) && FreeTotal(Take(p, s, value).blocks) == FreeTotal(p.blocks) - 1
  {
    CountUpdate(p.blocks[s.block].used, s.index, true);
    TotalUpdate(p.blocks, s.block, Take(p, s, value).blocks[s.block]);
  }

  lemma TakeTable<T>(p: Pool<T>, s: Slot, value: T)
    requires TableOk(p) && In(p, s) && p.blocks[s.block].available > 0
    ensures TableOk(Take(p, s, value))
  {
    var q := Take(p, s, value);
    forall r | r in q.returning ensures In(q, r) && q.blocks[r.block].used[r.index] && q.returning[r] == r {
      if r != s { assert r in p.returning; }
    }
    forall b, i | 0 <= b < |q.blocks| && 0 <= i < |q.blocks[b].used| && q.blocks[b].used[i] ensures Slot(b, i) in q.returning {
      if Slot(b, i) != s { assert p.blocks[b].used[i]; }
    }
  }

  /** The same slots but s, with the same objects in them. */
  ghost predicate SameBut<T>(p: Pool<T>, q: Pool<T>, s: Slot) {
    forall r :: r != s ==>
      && (r in q.returning && In(q, r) <==> r in p.returning && In(p, r))
      && (r in p.returning && In(p, r) ==> q.blocks[r.block].objects[r.index] == p.blocks[r.block].objects[r.index])
  }

  lemma LiveBut<T>(p: Pool<T>, q: Pool<T>, s: Slot)
    requires SameBut(p, q, s)
    ensures Live(q) - {s} == Live(p) - {s}
  {
  }

  lemma TakeLive<T>(p: Pool<T>, s: Slot, value: T)
    requires TableOk(p) && In(p, s) && p.blocks[s.block].available > 0 && !p.blocks[s.block].used[s.index]
    ensures s !in p.returning && Live(Take(p, s, value)) == Live(p)[s := value]
  {
    var q := Take(p, s, value);
    assert SameBut(p, q, s);
    LiveBut(p, q, s);
    assert s in Live(q) && Live(q)[s] == value;
    Updated(Live(p), Live(q), s, value);
  }

  lemma Updated<K, V>(m: map<K, V>, n: map<K, V>, k: K, v: V)
    requires k in n && n[k] == v && n - {k} == m - {k}
    ensures n == m[k := v]
  {
    forall j | j != k ensures j in n <==> j in m {
      assert j in n <==> j in n - {k};
    }
    forall j | j in m && j != k ensures n[j] == m[j] {
      assert (n - {k})[j] == (m - {k})[j];
    }
  }

  lemma ReleaseBlocks<T>(p: Pool<T>, s: Slot)
    requires BlocksOk(p) && TableOk(p) && s in p.returning
    ensures BlocksOk(Release(p, s)) && FreeTotal(Release(p, s).blocks) == FreeTotal(p.blocks) + 1
  {
    CountUpdate(p.blocks[s.block].used, s.index, false);
    TotalUpdate(p.blocks, s.block, Release(p, s).blocks[s.block]);
  }

  lemma ReleaseTable<T>(p: Pool<T>, s: Slot)
    requires TableOk(p) && s in p.returning
    ensures TableOk(Release(p, s))
  {
    var q := Release(p, s);
    forall r | r in q.returning ensures In(q, r) && q.blocks[r.block].used[r.index] && q.returning[r] == r {
      assert r in p.returning && r != s;
    }
    forall b, i | 0 <= b < |q.blocks| && 0 <= i < |q.blocks[b].used| && q.blocks[b].used[i] ensures Slot(b, i) in q.returning {
      assert Slot(b, i) != s;
      assert p.blocks[b].used[i];
    }
  }

  lemma ReleaseLive<T>(p: Pool<T>, s: Slot)
    requires TableOk(p) && s in p.returning
    ensures Live(Release(p, s)) == Live(p) - {s}
  {
    assert p.returning[s] == s;
    var q := Release(p, s);
    assert SameBut(p, q, s);
    LiveBut(p, q, s);
    assert s !in Live(q);
    assert Live(q) == Live(q) - {s};
  }

  /** Taking a free slot keeps everything but the counters, and those when they are right afterwards. */
  lemma TakeKeeps<T>(p: Pool<T>, s: Slot, value: T, defaultSize: nat)
    requires p.blockSize >= 1 && BlocksOk(p) && TableOk(p)
    requires In(p, s) && !p.blocks[s.block].used[s.index] && p.blocks[s.block].available > 0
    requires Counts(|p.blocks|, p.blockSize, p.size, p.available, FreeTotal(p.blocks) - 1, |p.returning| + 1, defaultSize)
    ensures Inv(Take(p, s, value), defaultSize) && s !in Live(p) && Live(Take(p, s, value)) == Live(p)[s := value]
  {
    TakeBlocks(p, s, value);
    TakeTable(p, s, value);
    TakeLive(p, s, value);
    Recounted(p, Take(p, s, value), defaultSize);
  }

  /** The blocks, the table and the counters make the invariant. */
  lemma Recounted<T>(p: Pool<T>, q: Pool<T>, defaultSize: nat)
    requires p.blockSize >= 1 && q.blockSize == p.blockSize && |q.blocks| == |p.blocks| && q.size == p.size
    requires BlocksOk(q) && TableOk(q)
    requires Counts(|p.blocks|, p.blockSize, p.size, q.available, FreeTotal(q.blocks), |q.returning|, defaultSize)
    ensures Inv(q, defaultSize)
  {
  }

  /** The slot chosen has no live object; the live objects are the old ones, unchanged, and the new one. */
  ghost predicate Acquired<T>(p: Pool<T>, defaultSize: nat, value: T, s: Slot, q: Pool<T>) {
    && In(q, s) && q.blocks[s.block].available > 0
    && Inv(Take(q, s, value), defaultSize)
    && s !in Live(p) && Live(Take(q, s, value)) == Live(p)[s := value]
    && |q.blocks| == |p.blocks| + (if p.available == 0 then 1 else 0)
  }

  lemma GrowthKeeps<T>(p: Pool<T>, defaultSize: nat, value: T)
    requires Inv(p, defaultSize) && p.available == 0
    ensures Acquired(p, defaultSize, value, Slot(|p.blocks|, 0), MakeNew(p))
  {
    var q, s := MakeNew(p), Slot(|p.blocks|, 0);
    MakeNewKeeps(p);
    NewBlockOk<T>(p.blockSize);
    CountsGrow(|p.blocks|, p.blockSize, p.size, FreeTotal(p.blocks), |p.returning|, defaultSize);
    TakeKeeps(q, s, value, defaultSize);
  }

  lemma ReuseKeeps<T>(p: Pool<T>, defaultSize: nat, value: T, s: Slot)
    requires Inv(p, defaultSize) && p.available > 0
    requires In(p, s) && !p.blocks[s.block].used[s.index] && p.blocks[s.block].available > 0
    ensures Acquired(p, defaultSize, value, s, p.(available := p.available - 1))
  {
    var q := p.(available := p.available - 1);
    assert BlocksOk(q) && TableOk(q) && Live(q) == Live(p);
    TakeKeeps(q, s, value, defaultSize);
  }

  lemma FindsFree<T>(p: Pool<T>, defaultSize: nat)
    requires Inv(p, defaultSize)
    ensures FreeTotal(p.blocks) >= p.blockSize && FreeSlot(p.blocks, 0).Some?
    ensures var s := FreeSlot(p.blocks, 0).value;
            In(p, s) && !p.blocks[s.block].used[s.index] && p.blocks[s.block].available > 0
  {
    assert p.blocks[0..] == p.blocks;
    CountsMeanFree(|p.blocks|, p.blockSize, p.size, p.available, FreeTotal(p.blocks), |p.returning|, defaultSize);
    FreeSlotFinds(p.blocks, p.blockSize, 0);
  }

  /** acquire never throws, and hands out a slot that no live object has. */
  lemma AcquireKeeps<T>(p: Pool<T>, defaultSize: nat, value: T)
    requires Inv(p, defaultSize)
    ensures Chosen(p).Some? && Acquired(p, defaultSize, value, Chosen(p).value.0, Chosen(p).value.1)
  {
    if p.available == 0 {
      GrowthKeeps(p, defaultSize, value);
    } else {
      ReuseChosen(p, defaultSize, value);
    }
  }

  lemma ReuseChosen<T>(p: Pool<T>, defaultSize: nat, value: T)
    requires Inv(p, defaultSize) && p.available > 0
    ensures Chosen(p).Some? && Acquired(p, defaultSize, value, Chosen(p).value.0, Chosen(p).value.1)
  {
    FindsFree(p, defaultSize);
    var s := FreeSlot(p.blocks, 0).value;
    ReuseKeeps(p, defaultSize, value, s);
    assert Chosen(p) == Some((s, p.(available := p.available - 1)));
  }

  lemma OfferKeeps<T>(p: Pool<T>, defaultSize: nat, s: Slot)
    requires Inv(p, defaultSize)
    ensures s in p.returning <==> s in Live(p)
    ensures s in p.returning ==> In(p, p.returning[s]) && Inv(Release(p, s), defaultSize) && Live(Release(p, s)) == Live(p) - {s}
  {
    if s in p.returning {
      ReleaseInv(p, defaultSize, s);
      ReleaseLive(p, s);
    }
  }

  lemma OneFewer<K, V>(m: map<K, V>, k: K)
    requires k in m
    ensures |m - {k}| == |m| - 1
  {
    assert m.Keys == (m - {k}).Keys + {k};
  }

  lemma ReleaseInv<T>(p: Pool<T>, defaultSize: nat, s: Slot)
    requires Inv(p, defaultSize) && s in p.returning
    ensures Inv(Release(p, s), defaultSize)
  {
    ReleaseBlocks(p, s);
    ReleaseTable(p, s);
    var q := Release(p, s);
    OneFewer(p.returning, s);
    Recounted(p, q, defaultSize);
  }

  // ----- Runs -----

  datatype Call<T> = Acquire(value: T) | Offer(slot: Option<Slot>)

  /** One call; offering a slot that is not live is the other runtime_error, and changes nothing. */
  function Step<T>(p: Pool<T>, c: Call<T>): (r: Pool<T>) {
    match c
    case Acquire(v) =>
      (match Chosen(p)
       case None => p
       case Some((s, q)) => if In(q, s) && q.blocks[s.block].available > 0 then Take(q, s, v) else p)
    case Offer(None) => p
    case Offer(Some(s)) => if s in p.returning && In(p, p.returning[s]) then Release(p, s) else p
  }

  function Run<T>(p: Pool<T>, calls: seq<Call<T>>): Pool<T>
    decreases |calls|
  {
    if calls == [] then p else Run(Step(p, calls[0]), calls[1..])
  }

  /** The same calls on the live objects alone: a new slot each time, chosen by the pool. */
  ghost predicate LiveStep<T>(before: map<Slot, T>, c: Call<T>, after: map<Slot, T>) {
    match c
    case Acquire(v) => exists s :: s in after && s !in before && after == before[s := v]
    case Offer(None) => after == before
    case Offer(Some(s)) => after == before - {s}
  }

  lemma AcquireStep<T>(p: Pool<T>, defaultSize: nat, value: T)
    requires Inv(p, defaultSize)
    ensures Inv(Step(p, Acquire(value)), defaultSize) && LiveStep(Live(p), Acquire(value), Live(Step(p, Acquire(value))))
  {
    AcquireKeeps(p, defaultSize, value);
    var (s, q) := Chosen(p).value;
    assert Step(p, Acquire(value)) == Take(q, s, value);
    assert s in Live(Take(q, s, value)) && s !in Live(p);
  }

  lemma StepKeeps<T>(p: Pool<T>, defaultSize: nat, c: Call<T>)
    requires Inv(p, defaultSize)
    ensures Inv(Step(p, c), defaultSize) && LiveStep(Live(p), c, Live(Step(p, c)))
  {
    match c
    case Acquire(v) => AcquireStep(p, defaultSize, v);
    case Offer(None) =>
    case Offer(Some(s)) => OfferKeeps(p, defaultSize, s);
  }

  lemma {:induction false} RunKeeps<T>(p: Pool<T>, defaultSize: nat, calls: seq<Call<T>>)
    requires Inv(p, defaultSize)
    ensures Inv(Run(p, calls), defaultSize)
    decreases |calls|
  {
    if calls != [] {
      StepKeeps(p, defaultSize, calls[0]);
      RunKeeps(Step(p, calls[0]), defaultSize, calls[1..]);
    }
  }

  lemma LiveCount<T>(p: Pool<T>)
    requires BlocksOk(p) && TableOk(p)
    ensures |Live(p)| == |p.returning|
  {
    assert Live(p).Keys == p.returning.Keys;
  }

  lemma {:induction false} RunBlockSize<T>(p: Pool<T>, calls: seq<Call<T>>)
    ensures Run(p, calls).blockSize == p.blockSize
    decreases |calls|
  {
    if calls != [] { RunBlockSize(Step(p, calls[0]), calls[1..]); }
  }

  lemma UsedSize(n: nat, blockSize: nat, size: nat, available: int, free: int, live: nat, d: nat)
    requires blockSize >= 1 && Counts(n, blockSize, size, available, free, live, d)
    ensures size - available == live + (n - 1 - d) * (blockSize - 1)
  {
    assert n * blockSize == (n - 1) * blockSize + blockSize;
  }

  /**
   * With g growths: free slots are available and one block and blockSize - 1 for
   * each growth, and used_size is the live objects and that same excess.
   */
  ghost predicate Accounted<T>(p: Pool<T>, defaultSize: nat) {
    var excess := Growths(p, defaultSize) * (p.blockSize - 1);
    FreeTotal(p.blocks) == p.available + p.blockSize + excess && p.size - p.available == |Live(p)| + excess
  }

  lemma InvAccounts<T>(p: Pool<T>, defaultSize: nat)
    requires Inv(p, defaultSize)
    ensures Accounted(p, defaultSize)
  {
    LiveCount(p);
    UsedSize(|p.blocks|, p.blockSize, p.size, p.available, FreeTotal(p.blocks), |p.returning|, defaultSize);
  }

  /** The invariant and the accounting hold after any run of calls on a new pool. */
  lemma Accounting<T>(blockSize: nat, defaultSize: nat, calls: seq<Call<T>>)
    requires blockSize >= 1
    ensures var p := Run(Built<T>(blockSize, defaultSize), calls);
            Inv(p, defaultSize) && p.blockSize == blockSize && Accounted(p, defaultSize)
  {
    var start := Built<T>(blockSize, defaultSize);
    BuiltInv<T>(blockSize, defaultSize);
    RunKeeps(start, defaultSize, calls);
    RunBlockSize(start, calls);
    InvAccounts(Run(start, calls), defaultSize);
  }

  /** A growth happens while at least a whole block of slots is free and the walk would find one. */
  lemma GrowsWithSlotsFree<T>(p: Pool<T>, defaultSize: nat)
    requires Inv(p, defaultSize) && p.available == 0
    ensures FreeTotal(p.blocks) >= p.blockSize >= 1 && FreeSlot(p.blocks, 0).Some?
  {
    FindsFree(p, defaultSize);
  }

  /** used_size is the number of live objects exactly while acquire has added no block of more than one slot. */
  lemma UsedSizeIsLiveIff<T>(p: Pool<T>, defaultSize: nat)
    requires Inv(p, defaultSize)
    ensures p.size - p.available == |Live(p)| <==> Growths(p, defaultSize) == 0 || p.blockSize == 1
  {
    InvAccounts(p, defaultSize);
    ZeroIff(Growths(p, defaultSize), p.blockSize - 1);
  }

  lemma ZeroIff(a: nat, b: nat)
    ensures a * b == 0 <==> a == 0 || b == 0
  {
  }

  /**
   * On a new pool of blocks of two and default size 0 the first block is free, and the
   * first acquire adds a second one nevertheless; used_size is then 2, with one live object.
   */
  lemma FirstAcquireGrows<T>(value: T)
    ensures var p := Built<T>(2, 0);
            && p.available == 0 && |p.blocks| == 1 && FreeTotal(p.blocks) == 2 && FreeSlot(p.blocks, 0) == Some(Slot(0, 0))
            && Chosen(p) == Some((Slot(1, 0), MakeNew(p)))
    ensures var q := Step(Built<T>(2, 0), Acquire(value));
            |q.blocks| == 2 && q.size - q.available == 2 && Live(q) == map[Slot(1, 0) := value]
  {
    var p := Built<T>(2, 0);
    BuiltInv<T>(2, 0);
    FirstBlockFree<T>();
    GrowthKeeps(p, 0, value);
  }

  lemma FirstBlockFree<T>()
    ensures FreeTotal(Built<T>(2, 0).blocks) == 2 && FreeSlot(Built<T>(2, 0).blocks, 0) == Some(Slot(0, 0))
  {
    var block := NewBlock<T>(2);
    CountAllFree(2);
    assert FreeTotal([block]) == CountFree(block.used) + FreeTotal<T>([]);
    assert FreeIndex(block.used, 0) == Some(0);
  }
}
