/**
 The block-ownership protocol of SKIVE eviction: the scheduler's block pool and
 request tables, the worker's block-table rows, and the queue of evicted slots
 that travels from one to the other (vllm/kv_evict/integration.py,
 vllm/v1/core/block_pool.py, vllm/v1/worker/gpu_model_runner.py).

 Prefix caching is off, so a block has at most one owner.  Block 0 is the null
 block.  A key names one request in one KV-cache group.
 */
module EvictionProtocol {
  import opened BlockTable

  datatype Key = Key(req: string, group: nat)

  /** An evicted slot whose physical block the scheduler has not freed yet. */
  datatype Slot = Slot(key: Key, at: nat)

  datatype State = State(
    free: seq<int>,                // the free queue, next block first
    refs: seq<int>,                // reference count per block id
    sched: map<Key, seq<int>>,     // req_to_blocks of every manager
    cached: map<Key, seq<int>>,    // the worker's cached request states
    rows: map<Key, seq<int>>,      // block-table rows of the persistent batch
    pending: seq<Slot>)            // evicted, not reclaimed yet

  // ----- the invariant -----

  ghost predicate HeldAt(sched: map<Key, seq<int>>, k: Key, j: nat, b: int) {
    k in sched && j < |sched[k]| && sched[k][j] == b
  }

  /** No physical block sits in two slots. */
  ghost predicate Unshared(sched: map<Key, seq<int>>) {
    forall k1, j1: nat, k2, j2: nat |
      k1 in sched && k2 in sched && j1 < |sched[k1]| && j2 < |sched[k2]|
      && sched[k1][j1] == sched[k2][j2] != NULL_BLOCK :: k1 == k2 && j1 == j2
  }

  ghost predicate Distinct<T(!new)>(s: seq<T>) {
    forall i, j :: 0 <= i < j < |s| ==> s[i] != s[j]
  }

  ghost predicate FreeOk(free: seq<int>, refs: seq<int>) {
    Distinct(free) && forall i :: 0 <= i < |free| ==> 0 < free[i] < |refs| && refs[free[i]] == 0
  }

  ghost predicate HeldOk(refs: seq<int>, sched: map<Key, seq<int>>) {
    forall k, j: nat | k in sched && j < |sched[k]| && sched[k][j] != NULL_BLOCK ::
      0 < sched[k][j] < |refs| && refs[sched[k][j]] == 1
  }

  ghost predicate Covered(free: seq<int>, refs: seq<int>, sched: map<Key, seq<int>>) {
    forall b :: 0 < b < |refs| ==> b in free || exists k, j: nat :: HeldAt(sched, k, j, b)
  }

  /** Every block but the null block is either free or held by exactly one slot. */
  ghost predicate PoolOk(free: seq<int>, refs: seq<int>, sched: map<Key, seq<int>>) {
    FreeOk(free, refs) && HeldOk(refs, sched) && Unshared(sched) && Covered(free, refs, sched)
  }

  /** Every real entry of a worker row is the block the scheduler holds at that slot. */
  ghost predicate Owns(rows: map<Key, seq<int>>, sched: map<Key, seq<int>>) {
    forall k, j: nat | k in rows && j < |rows[k]| && rows[k][j] != NULL_BLOCK ::
      k in sched && j < |sched[k]| && sched[k][j] == rows[k][j]
  }

  ghost predicate WorkerOwns(s: State) {
    Owns(s.rows, s.sched)
  }

  ghost predicate Aligned(rows: map<Key, seq<int>>, cached: map<Key, seq<int>>, sched: map<Key, seq<int>>) {
    && rows.Keys <= sched.Keys && cached.Keys == sched.Keys
    && (forall k :: k in rows ==> |rows[k]| == |sched[k]|)
    && (forall k :: k in sched ==> |cached[k]| == |sched[k]|)
  }

  /** Where a row is null and the scheduler is not, the slot waits to be reclaimed. */
  ghost predicate GapsPending(rows: map<Key, seq<int>>, sched: map<Key, seq<int>>, pending: seq<Slot>) {
    forall k, j: nat | k in rows && j < |rows[k]| && k in sched && j < |sched[k]|
                       && rows[k][j] == NULL_BLOCK && sched[k][j] != NULL_BLOCK :: Slot(k, j) in pending
  }

  /** The worker's cached block list never forgets a block; the scheduler only nulls slots. */
  ghost predicate CacheOk(cached: map<Key, seq<int>>, sched: map<Key, seq<int>>) {
    forall k, j: nat | k in sched && k in cached && j < |sched[k]| && j < |cached[k]| ::
      cached[k][j] != NULL_BLOCK && (sched[k][j] == cached[k][j] || sched[k][j] == NULL_BLOCK)
  }

  ghost predicate TablesOk(s: State) {
    && Aligned(s.rows, s.cached, s.sched)
    && WorkerOwns(s)
    && GapsPending(s.rows, s.sched, s.pending)
    && CacheOk(s.cached, s.sched)
  }

  /** A pending slot is evicted on the worker and still held by the scheduler, unless its request is gone. */
  ghost predicate WaitingOk(pending: seq<Slot>, rows: map<Key, seq<int>>, sched: map<Key, seq<int>>) {
    forall p | p in pending && p.key in sched && p.at < |sched[p.key]| ::
      && sched[p.key][p.at] != NULL_BLOCK
      && (p.key in rows && p.at < |rows[p.key]| ==> rows[p.key][p.at] == NULL_BLOCK)
  }

  ghost predicate PendingOk(s: State) {
    Distinct(s.pending) && WaitingOk(s.pending, s.rows, s.sched)
  }

  ghost predicate Inv(s: State) {
    PoolOk(s.free, s.refs, s.sched) && TablesOk(s) && PendingOk(s)
  }

  // ----- the block pool -----

  /** Adds `d` to the reference count of each listed block in turn. */
  function AddRefs(refs: seq<int>, ids: seq<int>, d: int): (r: seq<int>)
    requires forall i :: 0 <= i < |ids| ==> 0 <= ids[i] < |refs|
    ensures |r| == |refs|
    ensures forall b :: 0 <= b < |refs| && b !in ids ==> r[b] == refs[b]
    decreases |ids|
  {
    if ids == [] then refs
    else AddRefs(refs[ids[0] := refs[ids[0]] + d], ids[1..], d)
  }

  lemma {:induction false} AddRefsOnce(refs: seq<int>, ids: seq<int>, d: int)
    requires Distinct(ids) && forall i :: 0 <= i < |ids| ==> 0 <= ids[i] < |refs|
    ensures forall b :: b in ids ==> 0 <= b < |refs| && AddRefs(refs, ids, d)[b] == refs[b] + d
    decreases |ids|
  {
    if ids != [] {
      var refs' := refs[ids[0] := refs[ids[0]] + d];
      AddRefsOnce(refs', ids[1..], d);
      assert ids[0] !in ids[1..];
      assert AddRefs(refs', ids[1..], d)[ids[0]] == refs'[ids[0]];
    }
  }

  function BlocksOf(m: map<Key, seq<int>>, k: Key): seq<int> {
    if k in m then m[k] else []
  }

  /** The real entries of a table in reverse order, as the scheduler frees them. */
  function RealsReversed(t: seq<int>): (r: seq<int>)
    ensures forall b :: b in r <==> b in t && b != NULL_BLOCK
    ensures forall i :: 0 <= i < |r| ==> r[i] in t && r[i] != NULL_BLOCK
  {
    if t == [] then []
    else
      var last := |t| - 1;
      assert t == t[..last] + [t[last]];
      if t[last] != NULL_BLOCK then [t[last]] + RealsReversed(t[..last]) else RealsReversed(t[..last])
  }

  function KeepFree(ids: seq<int>, refs: seq<int>): (r: seq<int>)
    requires forall i :: 0 <= i < |ids| ==> 0 <= ids[i] < |refs|
    ensures forall b :: b in r ==> b in ids && 0 <= b < |refs| && refs[b] == 0
    ensures (forall b :: b in ids ==> 0 <= b < |refs| && refs[b] == 0) ==> r == ids
  {
    if ids == [] then []
    else if refs[ids[0]] == 0 then
      assert ids == [ids[0]] + ids[1..];
      [ids[0]] + KeepFree(ids[1..], refs)
    else
      assert ids[0] in ids;
      KeepFree(ids[1..], refs)
  }

  // ----- the steps -----

  datatype Step =
    | Admit(key: Key, n: nat)      // a new or resumed request gets n blocks
    | Grow(key: Key, n: nat)       // a running request gets n more
    | Park(key: Key)               // not scheduled: leaves the batch, keeps its blocks
    | Unpark(key: Key, n: nat)     // back in the batch, with n more
    | Release(key: Key)            // finished, aborted or preempted
    | Evict(key: Key, js: seq<nat>)
    | Reclaim

  predicate Enabled(s: State, step: Step) {
    match step
    case Admit(key, n) => key !in s.sched && n <= |s.free|
    case Grow(key, n) => key in s.rows && key in s.cached && key in s.sched && n <= |s.free|
    case Park(key) => key in s.rows
    case Unpark(key, n) => key !in s.rows && key in s.cached && key in s.sched && n <= |s.free|
    case Release(key) => key in s.sched
    case Evict(key, js) =>
      && key in s.rows
      && (forall i :: 0 <= i < |js| ==> js[i] < |s.rows[key]| && s.rows[key][js[i]] != NULL_BLOCK)
      && (forall i, k :: 0 <= i < k < |js| ==> js[i] != js[k])
    case Reclaim => true
  }

  /** Pops n blocks off the free queue for `key`; the worker row becomes `base` plus the new blocks. */
  function Give(s: State, key: Key, n: nat, base: seq<int>): State
    requires n <= |s.free| && forall i :: 0 <= i < |s.free| ==> 0 <= s.free[i] < |s.refs|
  {
    var ids := s.free[..n];
    s.(free := s.free[n..],
       refs := AddRefs(s.refs, ids, 1),
       sched := s.sched[key := BlocksOf(s.sched, key) + ids],
       cached := s.cached[key := BlocksOf(s.cached, key) + ids],
       rows := s.rows[key := base + ids])
  }

  function ReleaseAll(s: State, key: Key): State
    requires key in s.sched && forall b :: b in s.sched[key] ==> 0 <= b < |s.refs|
  {
    var ids := RealsReversed(s.sched[key]);
    var refs := AddRefs(s.refs, ids, -1);
    s.(free := s.free + KeepFree(ids, refs), refs := refs,
       sched := s.sched - {key}, cached := s.cached - {key}, rows := s.rows - {key})
  }

  function Slots(key: Key, js: seq<nat>): (r: seq<Slot>)
    ensures |r| == |js| && forall i :: 0 <= i < |js| ==> r[i] == Slot(key, js[i])
  {
    seq(|js|, i requires 0 <= i < |js| => Slot(key, js[i]))
  }

  /** Handles the oldest pending slot: stale and already null entries are skipped. */
  function ReclaimOne(s: State): State
    requires s.pending != []
  {
    var p := s.pending[0];
    var s' := s.(pending := s.pending[1..]);
    if p.key !in s.sched || p.at >= |s.sched[p.key]| || s.sched[p.key][p.at] == NULL_BLOCK then s'
    else
      var b := s.sched[p.key][p.at];
      var sched := s.sched[p.key := s.sched[p.key][p.at := NULL_BLOCK]];
      if !(0 <= b < |s.refs|) then s'.(sched := sched)
      else
        var refs := s.refs[b := s.refs[b] - 1];
        s'.(sched := sched, refs := refs, free := if refs[b] == 0 then s.free + [b] else s.free)
  }

  function Drain(s: State): State
    decreases |s.pending|
  {
    if s.pending == [] then s else Drain(ReclaimOne(s))
  }

  /** Every block id in the pool and in the scheduler's tables names a block. */
  ghost predicate InRange(s: State) {
    && (forall i :: 0 <= i < |s.free| ==> 0 <= s.free[i] < |s.refs|)
    && (forall k :: k in s.sched ==> forall b :: b in s.sched[k] ==> 0 <= b < |s.refs|)
  }

  function Next(s: State, step: Step): State
    requires Enabled(s, step) && InRange(s)
  {
    match step
    case Admit(key, n) => Give(s.(cached := s.cached - {key}), key, n, [])
    case Grow(key, n) => Give(s, key, n, s.rows[key])
    case Park(key) => s.(rows := s.rows - {key})
    case Unpark(key, n) => Give(s, key, n, s.cached[key])
    case Release(key) => ReleaseAll(s, key)
    case Evict(key, js) => s.(rows := s.rows[key := NullOut(s.rows[key], js)], pending := s.pending + Slots(key, js))
    case Reclaim => Drain(s)
  }

  /**
   What the rest of the engine has to guarantee: no stale pending slot falls on
   a slot that is being handed out, and a request whose blocks were evicted is
   not put back into the batch from its cached block list.
   */
  ghost predicate NoPendingBetween(s: State, key: Key, lo: nat, hi: nat) {
    forall p :: p in s.pending && p.key == key ==> !(lo <= p.at < hi)
  }

  ghost predicate Guarded(s: State, step: Step) {
    match step
    case Admit(key, n) => NoPendingBetween(s, key, 0, n)
    case Grow(key, n) => key in s.sched && NoPendingBetween(s, key, |s.sched[key]|, |s.sched[key]| + n)
    case Unpark(key, n) => key in s.sched && key in s.cached && s.cached[key] == s.sched[key]
                           && NoPendingBetween(s, key, 0, |s.sched[key]| + n)
    case _ => true
  }

  // ----- every guarded step keeps the invariant -----

  lemma InvBounds(s: State)
    requires PoolOk(s.free, s.refs, s.sched) && |s.refs| > 0
    ensures InRange(s)
  {
    forall k, b | k in s.sched && b in s.sched[k] ensures 0 <= b < |s.refs| {
      var j: nat :| j < |s.sched[k]| && s.sched[k][j] == b;
    }
  }

  /** A held block is never in the free queue. */
  lemma HeldNotFree(free: seq<int>, refs: seq<int>, sched: map<Key, seq<int>>, k: Key, j: nat)
    requires FreeOk(free, refs) && HeldOk(refs, sched)
    requires k in sched && j < |sched[k]| && sched[k][j] != NULL_BLOCK
    ensures sched[k][j] !in free
  {
  }

  lemma GiveFree(free: seq<int>, refs: seq<int>, n: nat)
    requires FreeOk(free, refs) && n <= |free|
    ensures FreeOk(free[n..], AddRefs(refs, free[..n], 1))
  {
    forall i | 0 <= i < |free[n..]| ensures AddRefs(refs, free[..n], 1)[free[n..][i]] == 0 {
      assert free[n..][i] == free[n + i] && free[n + i] !in free[..n];
    }
  }

  lemma GiveHeld(free: seq<int>, refs: seq<int>, sched: map<Key, seq<int>>, key: Key, n: nat)
    requires FreeOk(free, refs) && HeldOk(refs, sched) && n <= |free|
    ensures HeldOk(AddRefs(refs, free[..n], 1), sched[key := BlocksOf(sched, key) + free[..n]])
  {
    var ids, had := free[..n], BlocksOf(sched, key);
    var refs', sched' := AddRefs(refs, ids, 1), sched[key := had + ids];
    AddRefsOnce(refs, ids, 1);
    forall k, j: nat | k in sched' && j < |sched'[k]| && sched'[k][j] != NULL_BLOCK
      ensures 0 < sched'[k][j] < |refs| && refs'[sched'[k][j]] == 1
    {
      if k == key && j >= |had| {
        assert sched'[k][j] == ids[j - |had|] && ids[j - |had|] in ids;
      } else {
        assert sched'[k][j] == sched[k][j];
        HeldNotFree(free, refs, sched, k, j);
        assert free == ids + free[n..];
      }
    }
  }

  lemma GiveCovered(free: seq<int>, refs: seq<int>, refs': seq<int>, sched: map<Key, seq<int>>, key: Key, n: nat)
    requires Covered(free, refs, sched) && n <= |free| && |refs'| == |refs|
    ensures Covered(free[n..], refs', sched[key := BlocksOf(sched, key) + free[..n]])
  {
    var ids, had := free[..n], BlocksOf(sched, key);
    var sched' := sched[key := had + ids];
    assert free == ids + free[n..];
    forall b | 0 < b < |refs| ensures b in free[n..] || exists k, j: nat :: HeldAt(sched', k, j, b) {
      if b in ids {
        var i :| 0 <= i < n && ids[i] == b;
        assert HeldAt(sched', key, |had| + i, b);
      } else if b !in free {
        var k, j: nat :| HeldAt(sched, k, j, b);
        assert HeldAt(sched', k, j, b);
      }
    }
  }

  lemma GivePool(free: seq<int>, refs: seq<int>, sched: map<Key, seq<int>>, key: Key, n: nat)
    requires PoolOk(free, refs, sched) && n <= |free|
    ensures PoolOk(free[n..], AddRefs(refs, free[..n], 1), sched[key := BlocksOf(sched, key) + free[..n]])
  {
    GiveFree(free, refs, n);
    GiveHeld(free, refs, sched, key, n);
    GiveCovered(free, refs, AddRefs(refs, free[..n], 1), sched, key, n);
    forall k, j: nat | k in sched && j < |sched[k]| && sched[k][j] != NULL_BLOCK ensures sched[k][j] !in free {
      HeldNotFree(free, refs, sched, k, j);
    }
    GiveUnshared(free, sched, key, n);
  }

  lemma GiveUnshared(free: seq<int>, sched: map<Key, seq<int>>, key: Key, n: nat)
    requires Distinct(free) && Unshared(sched) && n <= |free|
    requires forall k, j: nat :: k in sched && j < |sched[k]| && sched[k][j] != NULL_BLOCK ==> sched[k][j] !in free
    ensures Unshared(sched[key := BlocksOf(sched, key) + free[..n]])
  {
    var had := BlocksOf(sched, key);
    var sched' := sched[key := had + free[..n]];
    forall k1, j1: nat, k2, j2: nat |
      k1 in sched' && k2 in sched' && j1 < |sched'[k1]| && j2 < |sched'[k2]|
      && sched'[k1][j1] == sched'[k2][j2] != NULL_BLOCK
      ensures k1 == k2 && j1 == j2
    {
      var new1, new2 := k1 == key && j1 >= |had|, k2 == key && j2 >= |had|;
      if new1 { assert sched'[k1][j1] == free[j1 - |had|]; } else { assert sched'[k1][j1] == sched[k1][j1]; }
      if new2 { assert sched'[k2][j2] == free[j2 - |had|]; } else { assert sched'[k2][j2] == sched[k2][j2]; }
    }
  }

  /** The row content a request is (re)started with agrees with the scheduler up to pending slots. */
  ghost predicate BaseOk(s: State, key: Key, base: seq<int>) {
    var had := BlocksOf(s.sched, key);
    && |base| == |had|
    && (forall j :: 0 <= j < |base| ==>
                      && (base[j] != NULL_BLOCK ==> base[j] == had[j])
                      && (base[j] == NULL_BLOCK != had[j] ==> Slot(key, j) in s.pending))
    && (forall p :: p in s.pending && p.key == key && p.at < |base| ==> base[p.at] == NULL_BLOCK)
  }

  lemma GiveRows(s: State, key: Key, n: nat, base: seq<int>)
    requires Inv(s) && n <= |s.free| && BaseOk(s, key, base)
    ensures var sched := s.sched[key := BlocksOf(s.sched, key) + s.free[..n]];
            var rows := s.rows[key := base + s.free[..n]];
            Owns(rows, sched) && GapsPending(rows, sched, s.pending)
  {
    var sched, rows := s.sched[key := BlocksOf(s.sched, key) + s.free[..n]], s.rows[key := base + s.free[..n]];
    assert forall i :: 0 <= i < n ==> s.free[i] != NULL_BLOCK;
    assert Owns(rows, sched);
    assert GapsPending(rows, sched, s.pending);
  }

  lemma GiveWaiting(s: State, key: Key, n: nat, base: seq<int>)
    requires Inv(s) && n <= |s.free| && BaseOk(s, key, base) && NoPendingBetween(s, key, |base|, |base| + n)
    ensures WaitingOk(s.pending, s.rows[key := base + s.free[..n]],
                      s.sched[key := BlocksOf(s.sched, key) + s.free[..n]])
  {
  }

  lemma GiveCache(s: State, key: Key, n: nat)
    requires Inv(s) && n <= |s.free|
    ensures CacheOk(s.cached[key := BlocksOf(s.cached, key) + s.free[..n]],
                    s.sched[key := BlocksOf(s.sched, key) + s.free[..n]])
  {
    assert forall i :: 0 <= i < n ==> s.free[i] != NULL_BLOCK;
  }

  /** Appending the same blocks to a scheduler table, its cached copy and its row keeps them in step. */
  lemma GiveTables(s: State, key: Key, n: nat, base: seq<int>)
    requires Inv(s) && n <= |s.free| && BaseOk(s, key, base)
    requires NoPendingBetween(s, key, |base|, |base| + n)
    ensures var ids := s.free[..n];
            var sched := s.sched[key := BlocksOf(s.sched, key) + ids];
            var cached := s.cached[key := BlocksOf(s.cached, key) + ids];
            var rows := s.rows[key := base + ids];
            && Aligned(rows, cached, sched) && Owns(rows, sched) && GapsPending(rows, sched, s.pending)
            && CacheOk(cached, sched) && WaitingOk(s.pending, rows, sched)
  {
    GiveRows(s, key, n, base);
    GiveCache(s, key, n);
    GiveWaiting(s, key, n, base);
  }

  lemma GiveKeeps(s: State, key: Key, n: nat, base: seq<int>)
    requires Inv(s) && n <= |s.free| && BaseOk(s, key, base)
    requires forall i :: 0 <= i < |s.free| ==> 0 <= s.free[i] < |s.refs|
    requires NoPendingBetween(s, key, |base|, |base| + n)
    ensures Inv(Give(s, key, n, base))
  {
    GivePool(s.free, s.refs, s.sched, key, n);
    GiveTables(s, key, n, base);
  }

  // ----- release -----

  lemma {:induction false} RealsReversedDistinct(t: seq<int>)
    requires forall i, j :: 0 <= i < j < |t| && t[i] == t[j] ==> t[i] == NULL_BLOCK
    ensures Distinct(RealsReversed(t))
  {
    if t != [] {
      var last := |t| - 1;
      RealsReversedDistinct(t[..last]);
      if t[last] != NULL_BLOCK {
        assert t[last] !in t[..last];
      }
    }
  }

  lemma ReleaseIds(free: seq<int>, refs: seq<int>, sched: map<Key, seq<int>>, key: Key)
    requires PoolOk(free, refs, sched) && key in sched && |refs| > 0
    ensures var ids := RealsReversed(sched[key]);
            && Distinct(ids)
            && (forall i :: 0 <= i < |ids| ==> 0 < ids[i] < |refs| && refs[ids[i]] == 1 && ids[i] !in free)
            && (forall k, j: nat :: k in sched && j < |sched[k]| && k != key ==> sched[k][j] !in ids)
  {
    var t := sched[key];
    forall i, j | 0 <= i < j < |t| && t[i] == t[j] ensures t[i] == NULL_BLOCK {
    }
    RealsReversedDistinct(t);
    var ids := RealsReversed(t);
    forall i | 0 <= i < |ids| ensures 0 < ids[i] < |refs| && refs[ids[i]] == 1 && ids[i] !in free {
      var j: nat :| j < |t| && t[j] == ids[i];
      HeldNotFree(free, refs, sched, key, j);
    }
    forall k, j: nat, i: nat | k in sched && j < |sched[k]| && k != key && i < |t| && t[i] != NULL_BLOCK
      ensures sched[k][j] != t[i]
    {
    }
  }

  lemma ReleaseFree(free: seq<int>, refs: seq<int>, ids: seq<int>)
    requires FreeOk(free, refs) && Distinct(ids)
    requires forall i :: 0 <= i < |ids| ==> 0 < ids[i] < |refs| && refs[ids[i]] == 1 && ids[i] !in free
    ensures var refs' := AddRefs(refs, ids, -1);
            KeepFree(ids, refs') == ids && FreeOk(free + ids, refs')
  {
    AddRefsOnce(refs, ids, -1);
    var refs' := AddRefs(refs, ids, -1);
    forall i | 0 <= i < |free| ensures refs'[free[i]] == 0 {
      assert free[i] in free;
    }
    forall i | 0 <= i < |ids| ensures refs'[ids[i]] == 0 {
      assert ids[i] in ids;
    }
  }

  lemma ReleaseCovered(free: seq<int>, refs: seq<int>, refs': seq<int>, sched: map<Key, seq<int>>, key: Key)
    requires Covered(free, refs, sched) && key in sched && |refs'| == |refs|
    ensures Covered(free + RealsReversed(sched[key]), refs', sched - {key})
  {
    var ids, sched' := RealsReversed(sched[key]), sched - {key};
    forall b | 0 < b < |refs'| ensures b in free + ids || exists k, j: nat :: HeldAt(sched', k, j, b) {
      if b !in free {
        var k, j: nat :| HeldAt(sched, k, j, b);
        if k == key {
          assert sched[key][j] in sched[key];
        } else {
          assert HeldAt(sched', k, j, b);
        }
      }
    }
  }

  lemma ReleasePool(free: seq<int>, refs: seq<int>, sched: map<Key, seq<int>>, key: Key)
    requires PoolOk(free, refs, sched) && key in sched && |refs| > 0
    requires forall b :: b in RealsReversed(sched[key]) ==> 0 <= b < |refs|
    ensures var ids := RealsReversed(sched[key]);
            var refs' := AddRefs(refs, ids, -1);
            KeepFree(ids, refs') == ids && PoolOk(free + ids, refs', sched - {key})
  {
    var ids := RealsReversed(sched[key]);
    ReleaseIds(free, refs, sched, key);
    ReleaseFree(free, refs, ids);
    ReleaseCovered(free, refs, AddRefs(refs, ids, -1), sched, key);
  }

  lemma ReleaseKeeps(s: State, key: Key)
    requires Inv(s) && key in s.sched && |s.refs| > 0
    requires forall b :: b in s.sched[key] ==> 0 <= b < |s.refs|
    ensures Inv(ReleaseAll(s, key))
  {
    ReleasePool(s.free, s.refs, s.sched, key);
  }

  // ----- eviction and reclaim -----

  lemma EvictPending(s: State, key: Key, js: seq<nat>)
    requires Inv(s) && Enabled(s, Evict(key, js))
    ensures Distinct(s.pending + Slots(key, js))
  {
    var more := Slots(key, js);
    var all := s.pending + more;
    forall p, i | p in s.pending && 0 <= i < |js| ensures p != more[i] {
    }
    forall i, j | 0 <= i < j < |all| ensures all[i] != all[j] {
      if j >= |s.pending| {
        assert all[j] == more[j - |s.pending|];
        if i < |s.pending| { assert s.pending[i] in s.pending; }
      }
    }
  }

  lemma EvictTables(s: State, key: Key, js: seq<nat>)
    requires Inv(s) && Enabled(s, Evict(key, js))
    ensures var rows := s.rows[key := NullOut(s.rows[key], js)];
            var pending := s.pending + Slots(key, js);
            && Aligned(rows, s.cached, s.sched) && Owns(rows, s.sched)
            && GapsPending(rows, s.sched, pending) && WaitingOk(pending, rows, s.sched)
  {
    var more := Slots(key, js);
    var rows := s.rows[key := NullOut(s.rows[key], js)];
    forall k, j: nat | k in rows && j < |rows[k]| && k in s.sched && j < |s.sched[k]|
                       && rows[k][j] == NULL_BLOCK && s.sched[k][j] != NULL_BLOCK
      ensures Slot(k, j) in s.pending + more
    {
      if k == key && j in js {
        var i :| 0 <= i < |js| && js[i] == j;
        assert more[i] == Slot(k, j);
      }
    }
    assert WaitingOk(more, rows, s.sched) by {
      forall p | p in more ensures p.key == key && p.at in js { }
    }
    assert WaitingOk(s.pending, rows, s.sched);
  }

  lemma EvictKeeps(s: State, key: Key, js: seq<nat>)
    requires Inv(s) && Enabled(s, Evict(key, js))
    ensures Inv(s.(rows := s.rows[key := NullOut(s.rows[key], js)], pending := s.pending + Slots(key, js)))
  {
    EvictPending(s, key, js);
    EvictTables(s, key, js);
  }

  lemma ReclaimPool(free: seq<int>, refs: seq<int>, sched: map<Key, seq<int>>, k: Key, j: nat)
    requires PoolOk(free, refs, sched) && k in sched && j < |sched[k]| && sched[k][j] != NULL_BLOCK
    ensures var b := sched[k][j];
            0 < b < |refs| && refs[b] == 1
            && PoolOk(free + [b], refs[b := 0], sched[k := sched[k][j := NULL_BLOCK]])
  {
    var b := sched[k][j];
    HeldNotFree(free, refs, sched, k, j);
    var refs', sched' := refs[b := 0], sched[k := sched[k][j := NULL_BLOCK]];
    assert FreeOk(free + [b], refs') by {
      forall i | 0 <= i < |free| ensures refs'[free[i]] == 0 { assert free[i] in free; }
    }
    forall c | 0 < c < |refs'| ensures c in free + [b] || exists k', j': nat :: HeldAt(sched', k', j', c) {
      if c != b && c !in free {
        var k', j': nat :| HeldAt(sched, k', j', c);
        assert HeldAt(sched', k', j', c);
      }
    }
  }

  /** The scheduler's tables with the slot given up, if it is there. */
  function GivenUp(sched: map<Key, seq<int>>, p: Slot): map<Key, seq<int>> {
    if p.key in sched && p.at < |sched[p.key]| then sched[p.key := sched[p.key][p.at := NULL_BLOCK]] else sched
  }

  lemma ReclaimWaiting(s: State)
    requires Inv(s) && s.pending != []
    ensures Distinct(s.pending[1..]) && WaitingOk(s.pending[1..], s.rows, GivenUp(s.sched, s.pending[0]))
  {
    var p := s.pending[0];
    assert s.pending == [p] + s.pending[1..];
    assert p !in s.pending[1..];
  }

  lemma ReclaimGaps(s: State)
    requires Inv(s) && s.pending != []
    ensures GapsPending(s.rows, GivenUp(s.sched, s.pending[0]), s.pending[1..])
  {
    var sched := GivenUp(s.sched, s.pending[0]);
    assert s.pending == [s.pending[0]] + s.pending[1..];
    forall k, j: nat | k in s.rows && j < |s.rows[k]| && k in sched && j < |sched[k]|
                       && s.rows[k][j] == NULL_BLOCK && sched[k][j] != NULL_BLOCK
      ensures Slot(k, j) in s.pending[1..]
    {
      assert Slot(k, j) in s.pending;
    }
  }

  lemma ReclaimTables(s: State)
    requires Inv(s) && s.pending != []
    ensures var sched := GivenUp(s.sched, s.pending[0]);
            Aligned(s.rows, s.cached, sched) && Owns(s.rows, sched) && CacheOk(s.cached, sched)
  {
    assert s.pending[0] in s.pending;
  }

  lemma ReclaimOneKeeps(s: State)
    requires Inv(s) && s.pending != []
    ensures Inv(ReclaimOne(s))
  {
    var p := s.pending[0];
    ReclaimTables(s);
    ReclaimGaps(s);
    ReclaimWaiting(s);
    assert ReclaimOne(s).sched == GivenUp(s.sched, p);
    if p.key in s.sched && p.at < |s.sched[p.key]| {
      ReclaimPool(s.free, s.refs, s.sched, p.key, p.at);
    }
  }

  lemma {:induction false} DrainKeeps(s: State)
    requires Inv(s)
    ensures Inv(Drain(s)) && Drain(s).pending == [] && Drain(s).rows == s.rows
    decreases |s.pending|
  {
    if s.pending != [] {
      ReclaimOneKeeps(s);
      DrainKeeps(ReclaimOne(s));
    }
  }

  // ----- runs -----

  /** The invariant, with a null block in the pool. */
  ghost predicate Sound(s: State) {
    Inv(s) && |s.refs| > 0
  }

  lemma StepKeeps(s: State, step: Step)
    requires Sound(s) && Enabled(s, step) && Guarded(s, step)
    ensures InRange(s) && Sound(Next(s, step))
  {
    InvBounds(s);
    match step
    case Admit(key, n) =>
      assert s.cached - {key} == s.cached;
      GiveKeeps(s, key, n, []);
    case Grow(key, n) => GiveKeeps(s, key, n, s.rows[key]);
    case Park(key) =>
    case Unpark(key, n) => GiveKeeps(s, key, n, s.cached[key]);
    case Release(key) => ReleaseKeeps(s, key);
    case Evict(key, js) => EvictKeeps(s, key, js);
    case Reclaim => DrainKeeps(s); DrainSize(s);
  }

  lemma {:induction false} DrainSize(s: State)
    ensures |Drain(s).refs| == |s.refs|
    decreases |s.pending|
  {
    if s.pending != [] {
      DrainSize(ReclaimOne(s));
    }
  }

  /** A run every step of which is enabled and guarded. */
  ghost predicate GuardedRun(s: State, steps: seq<Step>)
    requires Sound(s)
    decreases |steps|
  {
    steps == [] ||
    (Enabled(s, steps[0]) && Guarded(s, steps[0]) &&
     (InvBounds(s); StepKeeps(s, steps[0]); GuardedRun(Next(s, steps[0]), steps[1..])))
  }

  ghost function RunEnd(s: State, steps: seq<Step>): (r: State)
    requires Sound(s) && GuardedRun(s, steps)
    ensures Sound(r)
    decreases |steps|
  {
    if steps == [] then s
    else InvBounds(s); StepKeeps(s, steps[0]); RunEnd(Next(s, steps[0]), steps[1..])
  }

  lemma GuardedCons(s: State, step: Step, rest: seq<Step>)
    requires Sound(s) && Enabled(s, step) && Guarded(s, step) && InRange(s)
    requires Sound(Next(s, step)) && GuardedRun(Next(s, step), rest)
    ensures GuardedRun(s, [step] + rest) && RunEnd(s, [step] + rest) == RunEnd(Next(s, step), rest)
  {
    assert ([step] + rest)[1..] == rest;
  }

  /** The pool at start-up: all blocks but the null block free, no requests. */
  function Initial(blocks: nat): State {
    State(seq(if blocks == 0 then 0 else blocks - 1, i requires 0 <= i => i + 1), seq(blocks, _ => 0),
          map[], map[], map[], [])
  }

  lemma InitialIsSound(blocks: nat)
    requires blocks > 0
    ensures Sound(Initial(blocks))
  {
    var s := Initial(blocks);
    forall b | 0 < b < blocks ensures b in s.free {
      assert s.free[b - 1] == b;
    }
  }

  /**
   A real entry of a worker row is the block the scheduler holds at that slot, that block is not free,
   and no other row names it; every block is free or held, so none leaks.
   */
  ghost predicate Safe(s: State) {
    && WorkerOwns(s)
    && Covered(s.free, s.refs, s.sched)
    && (forall k, j: nat | k in s.rows && j < |s.rows[k]| && s.rows[k][j] != NULL_BLOCK ::
          && s.rows[k][j] !in s.free
          && (forall k', j': nat | k' in s.rows && j' < |s.rows[k']| && s.rows[k'][j'] == s.rows[k][j] ::
                k' == k && j' == j))
  }

  lemma SoundIsSafe(s: State)
    requires Sound(s)
    ensures Safe(s)
  {
    forall k, j: nat | k in s.rows && j < |s.rows[k]| && s.rows[k][j] != NULL_BLOCK
      ensures s.rows[k][j] !in s.free
    {
      HeldNotFree(s.free, s.refs, s.sched, k, j);
    }
  }

  /** Every guarded run stays safe. */
  lemma {:induction false} RunIsSafe(s: State, steps: seq<Step>)
    requires Sound(s) && GuardedRun(s, steps)
    ensures Safe(RunEnd(s, steps))
    decreases |steps|
  {
    if steps == [] {
      SoundIsSafe(s);
    } else {
      InvBounds(s);
      StepKeeps(s, steps[0]);
      RunIsSafe(Next(s, steps[0]), steps[1..]);
    }
  }

  /** After a reclaim the worker's rows and the scheduler's tables are the same, slot by slot. */
  lemma ReclaimSynchronises(s: State)
    requires Inv(s)
    ensures var t := Drain(s); forall k :: k in t.rows ==> k in t.sched && t.rows[k] == t.sched[k]
  {
    DrainKeeps(s);
  }

  // ----- the guards are exact -----

  lemma {:induction false} DrainNulls(s: State, k: Key, j: nat)
    ensures Drain(s).rows == s.rows && Drain(s).cached == s.cached && Drain(s).sched.Keys == s.sched.Keys
    ensures k in s.sched && j < |s.sched[k]| && (s.sched[k][j] == NULL_BLOCK || Slot(k, j) in s.pending) ==>
              j < |Drain(s).sched[k]| && Drain(s).sched[k][j] == NULL_BLOCK
    decreases |s.pending|
  {
    if s.pending != [] {
      assert s.pending == [s.pending[0]] + s.pending[1..];
      DrainNulls(ReclaimOne(s), k, j);
    }
  }

  lemma {:induction false} DrainKeys(s: State)
    ensures Drain(s).sched.Keys == s.sched.Keys
    decreases |s.pending|
  {
    if s.pending != [] {
      DrainKeys(ReclaimOne(s));
    }
  }

  /** A drain nulls exactly the waiting slots. */
  lemma {:induction false} DrainIs(s: State, k: Key)
    requires k in s.sched
    ensures k in Drain(s).sched && |Drain(s).sched[k]| == |s.sched[k]|
    ensures forall j: nat :: j < |s.sched[k]| ==>
              Drain(s).sched[k][j] == if Slot(k, j) in s.pending then NULL_BLOCK else s.sched[k][j]
    decreases |s.pending|
  {
    if s.pending != [] {
      assert s.pending == [s.pending[0]] + s.pending[1..];
      DrainIs(ReclaimOne(s), k);
    }
  }

  /** A row entry whose slot the scheduler has given up, or is about to, is not owned after the drain. */
  lemma Stranded(s: State, k: Key, j: nat)
    requires k in s.rows && j < |s.rows[k]| && s.rows[k][j] != NULL_BLOCK && k in s.sched && j < |s.sched[k]|
    requires s.sched[k][j] == NULL_BLOCK || Slot(k, j) in s.pending
    ensures !WorkerOwns(Drain(s))
  {
    DrainNulls(s, k, j);
  }

  /**
   Putting a parked request back into the batch rebuilds its row from the cached
   block list.  The next reclaim leaves the worker with only blocks it owns if
   and only if none of the request's blocks was ever evicted and no stale slot
   falls on a block it holds or gets.
   */
  lemma UnparkSafeIff(s: State, key: Key, n: nat)
    requires Sound(s) && Enabled(s, Unpark(key, n))
    ensures InRange(s) &&
            (WorkerOwns(Drain(Next(s, Unpark(key, n)))) <==>
             s.cached[key] == s.sched[key] && NoPendingBetween(s, key, 0, |s.sched[key]| + n))
  {
    InvBounds(s);
    var t := Next(s, Unpark(key, n));
    if s.cached[key] == s.sched[key] && NoPendingBetween(s, key, 0, |s.sched[key]| + n) {
      StepKeeps(s, Unpark(key, n));
      DrainKeeps(t);
    } else {
      UnparkUnsafe(s, key, n);
    }
  }

  lemma UnparkUnsafe(s: State, key: Key, n: nat)
    requires Sound(s) && Enabled(s, Unpark(key, n)) && InRange(s)
    requires s.cached[key] != s.sched[key] || !NoPendingBetween(s, key, 0, |s.sched[key]| + n)
    ensures !WorkerOwns(Drain(Next(s, Unpark(key, n))))
  {
    var t, held := Next(s, Unpark(key, n)), |s.sched[key]|;
    if s.cached[key] != s.sched[key] {
      var j: nat :| j < held && s.cached[key][j] != s.sched[key][j];
      assert t.rows[key][j] == s.cached[key][j] && t.sched[key][j] == s.sched[key][j];
      Stranded(t, key, j);
    } else {
      var p :| p in s.pending && p.key == key && p.at < held + n;
      var j := p.at;
      assert p == Slot(key, j);
      if j < held {
        assert t.rows[key][j] == s.cached[key][j];
      } else {
        assert t.rows[key][j] == s.free[j - held];
      }
      Stranded(t, key, j);
    }
  }

  /** Giving a running request more blocks is safe if and only if no stale slot falls among them. */
  lemma GrowSafeIff(s: State, key: Key, n: nat)
    requires Sound(s) && Enabled(s, Grow(key, n))
    ensures InRange(s) &&
            (WorkerOwns(Drain(Next(s, Grow(key, n)))) <==>
             NoPendingBetween(s, key, |s.sched[key]|, |s.sched[key]| + n))
  {
    InvBounds(s);
    var t, held := Next(s, Grow(key, n)), |s.sched[key]|;
    if NoPendingBetween(s, key, held, held + n) {
      StepKeeps(s, Grow(key, n));
      DrainKeeps(t);
    } else {
      var p :| p in s.pending && p.key == key && held <= p.at < held + n;
      assert p == Slot(key, p.at) && t.rows[key][p.at] == s.free[p.at - held];
      Stranded(t, key, p.at);
    }
  }

  /**
   Handing blocks to a request id that still has evicted slots queued from an
   earlier life is safe if and only if no queued slot falls among the new blocks.
   */
  lemma AdmitSafeIff(s: State, key: Key, n: nat)
    requires Sound(s) && Enabled(s, Admit(key, n))
    ensures InRange(s) &&
            (WorkerOwns(Drain(Next(s, Admit(key, n)))) <==> NoPendingBetween(s, key, 0, n))
  {
    InvBounds(s);
    var t := Next(s, Admit(key, n));
    if NoPendingBetween(s, key, 0, n) {
      StepKeeps(s, Admit(key, n));
      DrainKeeps(t);
    } else {
      var p :| p in s.pending && p.key == key && p.at < n;
      assert p == Slot(key, p.at) && t.rows[key][p.at] == s.free[p.at];
      Stranded(t, key, p.at);
    }
  }

  /** Once a block is evicted and reclaimed, the cached list of its request differs from the scheduler's for good. */
  lemma EvictionStrandsCache(s: State, key: Key, js: seq<nat>)
    requires Sound(s) && Enabled(s, Evict(key, js)) && js != []
    ensures InRange(s)
    ensures var t := Drain(Next(s, Evict(key, js))); key in t.sched && key in t.cached && t.cached[key] != t.sched[key]
  {
    InvBounds(s);
    var t := Next(s, Evict(key, js));
    StepKeeps(s, Evict(key, js));
    assert Slots(key, js)[0] == Slot(key, js[0]);
    assert t.pending[|s.pending|] == Slot(key, js[0]);
    DrainNulls(t, key, js[0]);
    DrainKeeps(t);
  }
}
