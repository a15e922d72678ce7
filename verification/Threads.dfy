/** The thread table behind `spawn` and `join`, and `parallel_for` as it uses it. */
module Threads {
  import opened ParallelFor
  import opened ParallelRuns

  datatype Status = Live | Dead
  datatype Thread = Thread(id: nat, status: Status)

  class Pool {
    const workerCount: int
    var table: seq<Thread>       // slots are never given back
    var slices: seq<Slice>
    var baseId: nat

    constructor (workers: int)
      ensures workerCount == workers && table == []
    {
      workerCount, table, slices, baseId := workers, [], [], 0;
    }

    /** Slot s holds the thread with id s + 1. */
    ghost predicate Valid()
      reads this
    {
      |table| <= MAX_THREADS && forall s :: 0 <= s < |table| ==> table[s].id == s + 1
    }

    ghost predicate AllDead()
      reads this
    {
      forall s :: 0 <= s < |table| ==> table[s].status == Dead
    }

    /** `spawn`; its assertion fails when the table is full. */
    method Spawn() returns (ok: bool)
      requires Valid()
      modifies this`table
      ensures Valid() && (ok <==> old(|table|) < MAX_THREADS)
      ensures table == old(table) + if ok then [Thread(old(|table|) + 1, Live)] else []
    {
      ok := |table| < MAX_THREADS;
      if ok {
        table := table + [Thread(|table| + 1, Live)];
      }
    }

    /** `join`: every live thread has returned; all slots are dead afterwards. */
    method Join()
      requires Valid()
      modifies this`table
      ensures Valid() && AllDead() && |table| == old(|table|)
      ensures forall s :: 0 <= s < |table| ==> table[s].id == old(table)[s].id
    {
      for i := 0 to |table|
        invariant Valid() && |table| == old(|table|)
        invariant forall s :: 0 <= s < i ==> table[s].status == Dead
        invariant forall s :: 0 <= s < |table| ==> table[s].id == old(table)[s].id
      {
        if table[i].status == Live {
          table := table[i := table[i].(status := Dead)];
        }
      }
    }

    /** The slice `range_worker` finds for the thread with this id, if any. */
    function WorkerIndex(id: nat): int
      reads this
    {
      id - baseId - 1
    }

    /** The k-th thread spawned since `baseId` was set finds slice k. */
    ghost predicate Finds(k: int)
      reads this
    {
      0 <= k && baseId + k < |table| && WorkerIndex(table[baseId + k].id) == k < workerCount
    }

    /** `parallel_for` up to the join: it fails exactly when the table overflows. Otherwise
        the spawned threads find the slices 0, 1, ..., n - 2, each its own, and the calling
        thread takes the last one. */
    method Fork(begin: int, end: int) returns (ok: bool)
      requires Valid() && begin < end
      modifies this
      ensures Valid() && slices == SlicesFor(begin, end, workerCount) && baseId == |old(table)|
      ensures ok <==> |old(table)| + |slices| - 1 <= MAX_THREADS
      ensures ok ==> |table| == |old(table)| + |slices| - 1 && table[..|old(table)|] == old(table)
      ensures ok ==> forall k :: 0 <= k < |slices| - 1 ==> Finds(k)
    {
      var n := WorkersFor(workerCount, end - begin);
      var cut: seq<Slice> := [];
      for i := 0 to n
        invariant |cut| == i && forall j :: 0 <= j < i ==> cut[j] == SliceAt(begin, end, n, j)
      {
        cut := cut + [SliceAt(begin, end, n, i)];
      }
      assert cut == SlicesFor(begin, end, workerCount);
      slices, baseId := cut, |table|;
      assert table[..baseId] == table;
      var i := 0;
      while i + 1 < n
        invariant 0 <= i < n && Valid()
        invariant slices == cut && baseId == |old(table)|
        invariant |table| == baseId + i && table[..baseId] == old(table)
      {
        var spawned := Spawn();
        if !spawned {
          return false;
        }
        i := i + 1;
      }
      ok := true;
    }

    // ----- the calls of a run -----

    /** `parallel_for` over `total` indices, from fork to join. */
    method ParallelLoop(total: nat) returns (ok: bool)
      requires Valid()
      modifies this
      ensures Valid() && (ok <==> Fits(old(|table|), Spawns(workerCount, total)))
      ensures ok ==> |table| == old(|table|) + Spawns(workerCount, total)
    {
      if total == 0 {
        return true;
      }
      ok := Fork(0, total);
      if ok {
        Join();
      }
    }

    /** The loops of a layer of `gpt2_forward`, in order. */
    method LayerLoops(T: nat, C: nat, NH: nat) returns (ok: bool)
      requires Valid()
      modifies this
      ensures Valid() && (ok <==> Fits(old(|table|), LayerSpawns(workerCount, T, C, NH)))
      ensures ok ==> |table| == old(|table|) + LayerSpawns(workerCount, T, C, NH)
    {
      hide Spawns;
      ok := Loops([T, T * (3 * C), T * NH, T * C, T * C, T, T * (4 * C), T * (4 * C), T * C, T * C]);
      LayerTotal(workerCount, T, C, NH);
    }

    /** One loop after the other, until one of them fails. */
    method Loops(totals: seq<nat>) returns (ok: bool)
      requires Valid()
      modifies this
      ensures Valid() && (ok <==> Fits(old(|table|), AllSpawns(workerCount, totals)))
      ensures ok ==> |table| == old(|table|) + AllSpawns(workerCount, totals)
      decreases |totals|
    {
      hide Spawns;
      ok := true;
      if totals != [] {
        ok := ParallelLoop(totals[0]);
        if ok {
          ok := Loops(totals[1..]);
        }
      }
    }

    /** The loops of one forward pass over T positions of one batch. */
    method PassLoops(L: nat, T: nat, C: nat, NH: nat, V: nat) returns (ok: bool)
      requires Valid()
      modifies this
      ensures Valid() && (ok <==> Fits(old(|table|), PassSpawns(workerCount, L, T, C, NH, V)))
      ensures ok ==> |table| == old(|table|) + PassSpawns(workerCount, L, T, C, NH, V)
    {
      hide Spawns, LayerSpawns, AllSpawns;
      ghost var one, layer := Spawns(workerCount, T), LayerSpawns(workerCount, T, C, NH);
      ok := ParallelLoop(T);
      for l := 0 to L
        invariant Valid() && (ok <==> Fits(old(|table|), one + Times(l, layer)))
        invariant ok ==> |table| == old(|table|) + one + Times(l, layer)
      {
        if ok {
          ok := LayerLoops(T, C, NH);
        }
      }
      if ok {
        ok := Loops([T, T * V, T]);
      }
      HeadTotal(workerCount, T, V);
    }

    /** The generation loop of `main`: a pass over t tokens for each t from `first` to the limit.
        It gets through if and only if the table has room for all the threads it spawns. */
    method RunLoops(L: nat, first: nat, limit: nat, C: nat, NH: nat, V: nat) returns (ok: bool)
      requires Valid()
      modifies this
      ensures Valid() && (ok <==> |old(table)| + RunSpawns(workerCount, L, first, limit, C, NH, V) <= MAX_THREADS)
      ensures ok ==> |table| == |old(table)| + RunSpawns(workerCount, L, first, limit, C, NH, V)
      decreases limit - first
    {
      hide PassSpawns;
      ok := true;
      if first < limit {
        ok := PassLoops(L, first, C, NH, V);
        if ok {
          ok := RunLoops(L, first + 1, limit, C, NH, V);
        }
      }
    }
  }

  // ----- how many slots a run of the program takes -----

  predicate Fits(used: nat, spawned: nat) { used + spawned <= MAX_THREADS }

  /** n times k, one k after the other. */
  function Times(n: nat, k: nat): nat {
    if n == 0 then 0 else Times(n - 1, k) + k
  }

  lemma {:induction false} TimesIs(n: nat, k: nat)
    ensures Times(n, k) == n * k
    decreases n
  {
    if n > 0 {
      TimesIs(n - 1, k);
      assert n * k == (n - 1) * k + k;
    }
  }

  /** Threads spawned by one `parallel_for` over `total` indices. */
  function Spawns(workers: int, total: nat): nat {
    if total == 0 then 0 else WorkersFor(workers, total) - 1
  }

  function AllSpawns(workers: int, totals: seq<nat>): nat {
    if totals == [] then 0 else Spawns(workers, totals[0]) + AllSpawns(workers, totals[1..])
  }

  /** Threads spawned by one layer over T positions. */
  function LayerSpawns(workers: int, T: nat, C: nat, NH: nat): nat {
    2 * Spawns(workers, T) + Spawns(workers, T * (3 * C)) + Spawns(workers, T * NH)
    + 4 * Spawns(workers, T * C) + 2 * Spawns(workers, T * (4 * C))
  }

  lemma LayerTotal(workers: int, T: nat, C: nat, NH: nat)
    ensures AllSpawns(workers, [T, T * (3 * C), T * NH, T * C, T * C, T, T * (4 * C), T * (4 * C), T * C, T * C])
         == LayerSpawns(workers, T, C, NH)
  {
    hide Spawns;
    var a, b, c, d, e := T, T * (3 * C), T * NH, T * C, T * (4 * C);
    FiveTotal(workers, a, b, c, d, d, [a, e, e, d, d]);
    FiveTotal(workers, a, e, e, d, d, []);
    assert [a, b, c, d, d] + [a, e, e, d, d] == [a, b, c, d, d, a, e, e, d, d];
    assert [a, e, e, d, d] + [] == [a, e, e, d, d];
  }

  lemma FiveTotal(workers: int, a: nat, b: nat, c: nat, d: nat, e: nat, rest: seq<nat>)
    ensures AllSpawns(workers, [a, b, c, d, e] + rest)
         == Spawns(workers, a) + Spawns(workers, b) + Spawns(workers, c) + Spawns(workers, d) + Spawns(workers, e)
          + AllSpawns(workers, rest)
  {
    OneTotal(workers, e, rest);
    OneTotal(workers, d, [e] + rest);
    OneTotal(workers, c, [d, e] + rest);
    OneTotal(workers, b, [c, d, e] + rest);
    OneTotal(workers, a, [b, c, d, e] + rest);
    assert [d] + ([e] + rest) == [d, e] + rest && [c] + ([d, e] + rest) == [c, d, e] + rest;
    assert [b] + ([c, d, e] + rest) == [b, c, d, e] + rest && [a] + ([b, c, d, e] + rest) == [a, b, c, d, e] + rest;
  }

  lemma OneTotal(workers: int, a: nat, rest: seq<nat>)
    ensures AllSpawns(workers, [a] + rest) == Spawns(workers, a) + AllSpawns(workers, rest)
  {
    assert ([a] + rest)[1..] == rest;
  }

  lemma HeadTotal(workers: int, T: nat, V: nat)
    ensures AllSpawns(workers, [T, T * V, T]) == 2 * Spawns(workers, T) + Spawns(workers, T * V)
  {
    OneTotal(workers, T, []);
    OneTotal(workers, T * V, [T]);
    OneTotal(workers, T, [T * V, T]);
    assert [T] + [] == [T] && [T * V] + [T] == [T * V, T] && [T] + [T * V, T] == [T, T * V, T];
  }

  /** Threads spawned by one forward pass over T positions of one batch. */
  function PassSpawns(workers: int, L: nat, T: nat, C: nat, NH: nat, V: nat): nat {
    3 * Spawns(workers, T) + Times(L, LayerSpawns(workers, T, C, NH)) + Spawns(workers, T * V)
  }

  /** The passes of a run that starts with `first` tokens and generates up to the limit. */
  function RunSpawns(workers: int, L: nat, first: nat, limit: nat, C: nat, NH: nat, V: nat): nat
    decreases limit - first
  {
    if first >= limit then 0
    else PassSpawns(workers, L, first, C, NH, V) + RunSpawns(workers, L, first + 1, limit, C, NH, V)
  }

  // ----- in closed form -----

  /** Threads spawned by the loops over `k` indices per position, summed over the passes. */
  function LoopSpawns(workers: int, k: nat, first: nat, limit: nat): nat
    decreases limit - first
  {
    if first >= limit then 0 else Spawns(workers, first * k) + LoopSpawns(workers, k, first + 1, limit)
  }

  /** What a run spawns outside its layers. */
  function OutsideLayers(workers: int, first: nat, limit: nat, V: nat): nat {
    3 * LoopSpawns(workers, 1, first, limit) + LoopSpawns(workers, V, first, limit)
  }

  /** What every layer adds over the whole run. */
  function PerLayer(workers: int, first: nat, limit: nat, C: nat, NH: nat): nat {
    2 * LoopSpawns(workers, 1, first, limit) + LoopSpawns(workers, 3 * C, first, limit)
    + LoopSpawns(workers, NH, first, limit)
    + 4 * LoopSpawns(workers, C, first, limit) + 2 * LoopSpawns(workers, 4 * C, first, limit)
  }

  /** The demand of a run is linear in the number of layers. */
  lemma {:induction false} RunSpawnsLinear(workers: int, L: nat, first: nat, limit: nat, C: nat, NH: nat, V: nat)
    ensures RunSpawns(workers, L, first, limit, C, NH, V)
         == OutsideLayers(workers, first, limit, V) + L * PerLayer(workers, first, limit, C, NH)
    decreases limit - first
  {
    hide Spawns, LayerSpawns;
    if first < limit {
      RunSpawnsLinear(workers, L, first + 1, limit, C, NH, V);
      var layer := LayerSpawns(workers, first, C, NH);
      TimesIs(L, layer);
      assert first * 1 == first;
      OneMorePass(workers, first, limit, C, NH);
      Gather(L, layer, PerLayer(workers, first + 1, limit, C, NH));
    }
  }

  lemma OneMorePass(workers: int, first: nat, limit: nat, C: nat, NH: nat)
    requires first < limit
    ensures PerLayer(workers, first, limit, C, NH)
         == LayerSpawns(workers, first, C, NH) + PerLayer(workers, first + 1, limit, C, NH)
  {
    hide Spawns;
    assert first * 1 == first;
  }

  lemma Gather(L: nat, a: nat, b: nat)
    ensures L * a + L * b == L * (a + b)
  {
  }

  lemma QuotientIff(a: nat, b: nat, m: nat)
    requires b > 0
    ensures a * b <= m <==> a <= m / b
  {
    var q := m / b;
    assert m == q * b + m % b;
    if a <= q {
      assert (q - a) * b >= 0;
    } else {
      assert (a - q - 1) * b >= 0;
    }
  }

  // ----- for sizes no smaller than the worker count -----

  lemma {:induction false} WideLoops(workers: int, k: nat, first: nat, limit: nat)
    requires 1 <= workers <= MAX_WORKERS && first <= limit && k > 0 && first * k >= workers
    ensures LoopSpawns(workers, k, first, limit) == (limit - first) * (workers - 1)
    decreases limit - first
  {
    if first < limit {
      WideLoops(workers, k, first + 1, limit);
      assert (limit - first) * (workers - 1) == (limit - first - 1) * (workers - 1) + (workers - 1);
    }
  }

  lemma PositionLoops(workers: int)
    requires 1 <= workers <= MAX_WORKERS
    ensures LoopSpawns(workers, 1, 1, 10) == [0, 8, 15, 21][workers - 1]
  {
    WideLoops(workers, 1, workers, 10);
    assert workers >= 2 ==> LoopSpawns(workers, 1, 1, 10) == LoopSpawns(workers, 1, 2, 10);
    assert workers >= 3 ==> LoopSpawns(workers, 1, 2, 10) == 1 + LoopSpawns(workers, 1, 3, 10);
    assert workers >= 4 ==> LoopSpawns(workers, 1, 3, 10) == 2 + LoopSpawns(workers, 1, 4, 10);
  }

  /** How many layers a run from one token to the limit of ten can have, by worker count, on
      sizes no smaller than that; with one worker nothing is spawned. */
  predicate LayersFit(workers: int, L: nat) {
    workers == 1 || (workers == 2 && L <= 46) || (workers == 3 && L <= 23) || (workers == 4 && L <= 15)
  }

  predicate Wide(workers: int, C: nat, NH: nat, V: nat) {
    1 <= workers <= MAX_WORKERS && C >= workers && NH >= workers && V >= workers
  }

  lemma OneTokenRun(workers: int, C: nat, NH: nat, V: nat)
    requires Wide(workers, C, NH, V)
    ensures OutsideLayers(workers, 1, 10, V) == [0, 33, 63, 90][workers - 1]
    ensures PerLayer(workers, 1, 10, C, NH) == [0, 88, 174, 258][workers - 1]
  {
    hide LoopSpawns;
    PositionLoops(workers);
    WideLoops(workers, V, 1, 10);
    WideLoops(workers, NH, 1, 10);
    WideLoops(workers, C, 1, 10);
    WideLoops(workers, 3 * C, 1, 10);
    WideLoops(workers, 4 * C, 1, 10);
  }

  /** Slots are never reused, so a run has a fixed demand, for every prompt, limit, worker count
      and size; it fits the table exactly up to a number of layers. From one token to ten with
      four workers and sizes of at least four the demand is 258 L + 90: up to 15 layers. */
  lemma TableSufficesIff(workers: int, L: nat, first: nat, limit: nat, C: nat, NH: nat, V: nat)
    ensures var fixed, layer := OutsideLayers(workers, first, limit, V), PerLayer(workers, first, limit, C, NH);
            RunSpawns(workers, L, first, limit, C, NH, V) <= MAX_THREADS
            <==> fixed <= MAX_THREADS && (layer == 0 || L <= (MAX_THREADS - fixed) / layer)
    ensures first == 1 && limit == 10 && Wide(workers, C, NH, V) ==>
              (RunSpawns(workers, L, first, limit, C, NH, V) <= MAX_THREADS <==> LayersFit(workers, L))
    ensures first == 1 && limit == 10 && workers == 4 && Wide(workers, C, NH, V) ==>
              RunSpawns(workers, L, first, limit, C, NH, V) == 258 * L + 90
  {
    hide RunSpawns, OutsideLayers, PerLayer;
    var fixed, layer := OutsideLayers(workers, first, limit, V), PerLayer(workers, first, limit, C, NH);
    RunSpawnsLinear(workers, L, first, limit, C, NH, V);
    if fixed <= MAX_THREADS && layer > 0 {
      QuotientIff(L, layer, MAX_THREADS - fixed);
    }
    if first == 1 && limit == 10 && Wide(workers, C, NH, V) {
      OneTokenRun(workers, C, NH, V);
    }
  }
}
