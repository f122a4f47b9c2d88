/**
 What each step of the block-ownership protocol does to the pool, the tables and the queue, and that it
 touches nothing else (vllm/v1/core/block_pool.py, vllm/v1/core/single_type_kv_cache_manager.py,
 vllm/v1/worker/gpu_model_runner.py, vllm/kv_evict/integration.py).
 */
module EvictionEffects {
  import opened BlockTable
  import opened EvictionProtocol

  ghost predicate SameFor(m: map<Key, seq<int>>, m': map<Key, seq<int>>, k: Key) {
    (k in m <==> k in m') && (k in m ==> m[k] == m'[k])
  }

  /** All tables of other requests are as they were. */
  ghost predicate OthersSame(s: State, t: State, key: Key) {
    forall k :: k != key ==>
                  SameFor(s.sched, t.sched, k) && SameFor(s.cached, t.cached, k) && SameFor(s.rows, t.rows, k)
  }

  /** The table is the old one followed by the first n blocks of the free queue. */
  ghost predicate Extended(after: seq<int>, before: seq<int>, free: seq<int>, n: nat) {
    && n <= |free| && |after| == |before| + n
    && (forall j :: 0 <= j < |before| ==> after[j] == before[j])
    && (forall i :: 0 <= i < n ==> after[|before| + i] == free[i])
  }

  lemma ExtendedBy(before: seq<int>, free: seq<int>, n: nat)
    requires n <= |free|
    ensures Extended(before + free[..n], before, free, n)
  {
  }

  /**
   Handing out n blocks: they are the first n of the free queue and leave it; the scheduler's table, its
   cached copy and the worker's row are extended by them; nobody else's tables change.
   */
  ghost predicate Gave(s: State, t: State, key: Key, n: nat, held: seq<int>, copy: seq<int>, base: seq<int>) {
    && n <= |s.free| && |t.free| == |s.free| - n && (forall i :: 0 <= i < |t.free| ==> t.free[i] == s.free[n + i])
    && t.pending == s.pending && OthersSame(s, t, key) && key in t.sched && key in t.cached && key in t.rows
    && Extended(t.sched[key], held, s.free, n) && Extended(t.cached[key], copy, s.free, n)
    && Extended(t.rows[key], base, s.free, n)
  }

  lemma GiveIs(s: State, key: Key, n: nat, base: seq<int>)
    requires n <= |s.free| && forall i :: 0 <= i < |s.free| ==> 0 <= s.free[i] < |s.refs|
    ensures Gave(s, Give(s, key, n, base), key, n, BlocksOf(s.sched, key), BlocksOf(s.cached, key), base)
  {
    ExtendedBy(BlocksOf(s.sched, key), s.free, n);
    ExtendedBy(BlocksOf(s.cached, key), s.free, n);
    ExtendedBy(base, s.free, n);
  }

  /** An admitted request starts with the new blocks only. */
  lemma AdmitEffect(s: State, key: Key, n: nat)
    requires Sound(s) && Enabled(s, Admit(key, n))
    ensures InRange(s) && Gave(s, Next(s, Admit(key, n)), key, n, [], [], [])
  {
    InvBounds(s);
    assert s.cached - {key} == s.cached;
    GiveIs(s, key, n, []);
  }

  /** A growing request keeps its tables and its row. */
  lemma GrowEffect(s: State, key: Key, n: nat)
    requires Sound(s) && Enabled(s, Grow(key, n))
    ensures InRange(s) && Gave(s, Next(s, Grow(key, n)), key, n, s.sched[key], s.cached[key], s.rows[key])
  {
    InvBounds(s);
    GiveIs(s, key, n, s.rows[key]);
  }

  /** A request put back gets its row from its cached list. */
  lemma UnparkEffect(s: State, key: Key, n: nat)
    requires Sound(s) && Enabled(s, Unpark(key, n))
    ensures InRange(s) && Gave(s, Next(s, Unpark(key, n)), key, n, s.sched[key], s.cached[key], s.cached[key])
  {
    InvBounds(s);
    GiveIs(s, key, n, s.cached[key]);
  }

  /** A block further back in the table is freed earlier. */
  ghost predicate FreedBefore(freed: seq<int>, late: int, early: int) {
    exists p, q :: 0 <= p < q < |freed| && freed[p] == late && freed[q] == early
  }

  lemma FreedPrepend(b: int, freed: seq<int>, late: int, early: int)
    requires FreedBefore(freed, late, early)
    ensures FreedBefore([b] + freed, late, early)
  {
    var p, q :| 0 <= p < q < |freed| && freed[p] == late && freed[q] == early;
    assert ([b] + freed)[p + 1] == late && ([b] + freed)[q + 1] == early;
  }

  lemma {:induction false} ReversedOrder(t: seq<int>, i: nat, j: nat)
    requires i < j < |t| && t[i] != NULL_BLOCK && t[j] != NULL_BLOCK
    ensures FreedBefore(RealsReversed(t), t[j], t[i])
  {
    var front, last := t[..|t| - 1], |t| - 1;
    if j == last {
      assert t[i] == front[i] && t[i] in RealsReversed(front);
      var q :| 0 <= q < |RealsReversed(front)| && RealsReversed(front)[q] == t[i];
      var r := [t[last]] + RealsReversed(front);
      assert r[0] == t[j] && r[q + 1] == t[i];
    } else {
      ReversedOrder(front, i, j);
      if t[last] != NULL_BLOCK {
        FreedPrepend(t[last], RealsReversed(front), t[j], t[i]);
      }
    }
  }

  /** The blocks are those of the table, each real one, the last of the table first. */
  ghost predicate FreedOf(freed: seq<int>, table: seq<int>) {
    && (forall b :: b in freed <==> b in table && b != NULL_BLOCK)
    && (forall i, j :: 0 <= i < j < |table| && table[i] != NULL_BLOCK && table[j] != NULL_BLOCK ==>
          FreedBefore(freed, table[j], table[i]))
  }

  lemma ReversedIs(table: seq<int>)
    ensures FreedOf(RealsReversed(table), table)
  {
    forall i, j | 0 <= i < j < |table| && table[i] != NULL_BLOCK && table[j] != NULL_BLOCK
      ensures FreedBefore(RealsReversed(table), table[j], table[i])
    {
      ReversedOrder(table, i, j);
    }
  }

  lemma ReleasedFree(s: State, key: Key)
    requires Sound(s) && key in s.sched && InRange(s)
    ensures Next(s, Release(key)).free == s.free + RealsReversed(s.sched[key])
  {
    var ids := RealsReversed(s.sched[key]);
    ReleaseIds(s.free, s.refs, s.sched, key);
    AddRefsOnce(s.refs, ids, -1);
    assert KeepFree(ids, AddRefs(s.refs, ids, -1)) == ids;
  }

  /**
   Releasing a request: its tables are gone and nobody else's change; its real blocks, and only those,
   join the end of the free queue, the last of the table first.
   */
  lemma ReleaseEffect(s: State, key: Key)
    requires Sound(s) && key in s.sched
    ensures InRange(s)
    ensures var t := Next(s, Release(key));
            && key !in t.sched && key !in t.cached && key !in t.rows && OthersSame(s, t, key) && t.pending == s.pending
            && s.free <= t.free && FreedOf(t.free[|s.free|..], s.sched[key])
  {
    InvBounds(s);
    ReleasedFree(s, key);
    ReversedIs(s.sched[key]);
    var t := Next(s, Release(key));
    assert t.free[|s.free|..] == RealsReversed(s.sched[key]);
  }

  /** An eviction nulls exactly the listed entries of the worker's row and queues them in that order. */
  lemma EvictEffect(s: State, key: Key, js: seq<nat>)
    requires Sound(s) && Enabled(s, Evict(key, js))
    ensures InRange(s)
    ensures var t := Next(s, Evict(key, js));
            && t.free == s.free && t.refs == s.refs && t.sched == s.sched && t.cached == s.cached
            && OthersSame(s, t, key)
            && key in t.rows && |t.rows[key]| == |s.rows[key]|
            && (forall j :: 0 <= j < |s.rows[key]| ==> t.rows[key][j] == if j in js then NULL_BLOCK else s.rows[key][j])
            && |t.pending| == |s.pending| + |js| && s.pending <= t.pending
            && (forall i :: 0 <= i < |js| ==> t.pending[|s.pending| + i] == Slot(key, js[i]))
  {
    InvBounds(s);
  }

  /** Leaving the batch drops the row and nothing else. */
  lemma ParkEffect(s: State, key: Key)
    requires Sound(s) && key in s.rows
    ensures InRange(s)
    ensures var t := Next(s, Park(key));
            key !in t.rows && t == s.(rows := t.rows) && OthersSame(s, t, key)
  {
    InvBounds(s);
  }

  /** A reclaim nulls exactly the waiting slots in the scheduler's tables, empties the queue and spares the worker. */
  lemma ReclaimEffect(s: State)
    requires Sound(s)
    ensures InRange(s)
    ensures var t := Next(s, Reclaim);
            && t.pending == [] && t.rows == s.rows && t.cached == s.cached && t.sched.Keys == s.sched.Keys
            && (forall k :: k in s.sched ==> |t.sched[k]| == |s.sched[k]|)
            && (forall k, j: nat :: k in s.sched && j < |s.sched[k]| ==>
                  t.sched[k][j] == if Slot(k, j) in s.pending then NULL_BLOCK else s.sched[k][j])
  {
    InvBounds(s);
    DrainKeeps(s);
    DrainCached(s);
    DrainKeys(s);
    forall k | k in s.sched
      ensures |Drain(s).sched[k]| == |s.sched[k]|
      ensures forall j: nat :: j < |s.sched[k]| ==>
                Drain(s).sched[k][j] == if Slot(k, j) in s.pending then NULL_BLOCK else s.sched[k][j]
    {
      DrainIs(s, k);
    }
  }

  lemma {:induction false} DrainCached(s: State)
    ensures Drain(s).cached == s.cached
    decreases |s.pending|
  {
    if s.pending != [] {
      DrainCached(ReclaimOne(s));
    }
  }
}
