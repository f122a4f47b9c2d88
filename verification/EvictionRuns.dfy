/**
 Runs of the block-ownership protocol in the order of EngineCore.step: the
 scheduler hands out blocks, the worker runs and evicts, and the evicted slots
 are reclaimed before the scheduler is called again (vllm/v1/engine/core.py,
 vllm/v1/worker/gpu_model_runner.py).  In that order only one guard of the
 protocol is left to the rest of the engine: a request whose blocks were
 evicted must not be put back into the batch from its cached block list.
 */
module EvictionRuns {
  import opened EvictionProtocol

  /** What a reader of the run knows: is anything waiting to be reclaimed, and which requests lost blocks. */
  datatype Track = Track(dirty: bool, evicted: set<Key>)

  const START := Track(false, {})

  function Follow(t: Track, step: Step): Track {
    match step
    case Admit(key, _) => t.(evicted := t.evicted - {key})
    case Evict(key, js) => if js == [] then t else Track(true, t.evicted + {key})
    case Reclaim => t.(dirty := false)
    case _ => t
  }

  predicate Gives(step: Step) {
    step.Admit? || step.Grow? || step.Unpark?
  }

  /** Blocks are handed out only once the evicted slots are reclaimed. */
  predicate InOrder(t: Track, step: Step) {
    Gives(step) ==> !t.dirty
  }

  /** The engine's obligation: no request that lost blocks is put back into the batch. */
  predicate NeverEvicted(t: Track, step: Step) {
    step.Unpark? ==> step.key !in t.evicted
  }

  // ----- what the run knows, the state shows -----

  /** The request has lost no block and is about to lose none. */
  ghost predicate Untouched(s: State, k: Key)
    requires k in s.sched && k in s.cached
  {
    s.cached[k] == s.sched[k] && NoPendingBetween(s, k, 0, |s.sched[k]|)
  }

  /** The requests known to have lost blocks are the ones that have. */
  ghost predicate Knows(s: State, evicted: set<Key>) {
    && Aligned(s.rows, s.cached, s.sched)
    && (forall k :: k in s.sched ==> (k in evicted <==> !Untouched(s, k)))
  }

  ghost predicate Tracked(s: State, t: Track) {
    Sound(s) && (!t.dirty ==> s.pending == []) && Knows(s, t.evicted)
  }

  lemma InitialTracked(blocks: nat)
    requires blocks > 0
    ensures Tracked(Initial(blocks), START)
  {
    InitialIsSound(blocks);
  }

  lemma {:induction false} DrainUntouched(s: State, k: Key)
    requires k in s.sched && NoPendingBetween(s, k, 0, |s.sched[k]|)
    ensures k in Drain(s).sched && Drain(s).sched[k] == s.sched[k]
    decreases |s.pending|
  {
    if s.pending != [] {
      assert s.pending[0] in s.pending;
      assert ReclaimOne(s).sched[k] == s.sched[k];
      DrainUntouched(ReclaimOne(s), k);
    }
  }

  lemma DrainTouched(s: State, k: Key)
    requires Sound(s) && k in s.sched && !Untouched(s, k)
    requires k in Drain(s).sched && Drain(s).cached == s.cached
    ensures Drain(s).cached[k] != Drain(s).sched[k]
  {
    if s.cached[k] != s.sched[k] {
      var j: nat :| j < |s.sched[k]| && s.cached[k][j] != s.sched[k][j];
      DrainNulls(s, k, j);
    } else {
      var p :| p in s.pending && p.key == k && p.at < |s.sched[k]|;
      assert p == Slot(k, p.at);
      DrainNulls(s, k, p.at);
    }
  }

  lemma DrainSame(s: State, k: Key)
    requires Sound(s) && k in s.sched
    ensures var u := Drain(s); k in u.sched && k in u.cached && (Untouched(s, k) <==> Untouched(u, k))
  {
    DrainKeeps(s);
    DrainNulls(s, k, 0);
    if Untouched(s, k) {
      DrainUntouched(s, k);
    } else {
      DrainTouched(s, k);
    }
  }

  lemma ReclaimTracks(s: State, t: Track)
    requires Tracked(s, t)
    ensures Tracked(Drain(s), Follow(t, Reclaim))
  {
    DrainKeeps(s);
    DrainSize(s);
    forall k | k in Drain(s).sched ensures k in s.sched && (Untouched(s, k) <==> Untouched(Drain(s), k)) {
      DrainNulls(s, k, 0);
      DrainSame(s, k);
    }
  }

  lemma EvictKnows(s: State, u: State, evicted: set<Key>, key: Key, js: seq<nat>)
    requires Knows(s, evicted) && Enabled(s, Evict(key, js)) && InRange(s) && u == Next(s, Evict(key, js))
    ensures Knows(u, if js == [] then evicted else evicted + {key})
  {
    if js != [] {
      assert Slots(key, js)[0] == Slot(key, js[0]);
      assert u.pending[|s.pending|] == Slot(key, js[0]);
      assert !Untouched(u, key);
    } else {
      assert u.pending == s.pending;
    }
    forall k | k in s.sched && k != key ensures Untouched(s, k) <==> Untouched(u, k) {
      OtherSlots(s, key, js, k);
    }
  }

  lemma EvictTracks(s: State, t: Track, key: Key, js: seq<nat>)
    requires Tracked(s, t) && Enabled(s, Evict(key, js)) && InRange(s)
    ensures Tracked(Next(s, Evict(key, js)), Follow(t, Evict(key, js)))
  {
    StepKeeps(s, Evict(key, js));
    EvictKnows(s, Next(s, Evict(key, js)), t.evicted, key, js);
    assert js == [] ==> s.pending + Slots(key, js) == s.pending;
  }

  lemma OtherSlots(s: State, key: Key, js: seq<nat>, k: Key)
    requires k != key
    ensures forall p: Slot :: p.key == k ==> (p in s.pending <==> p in s.pending + Slots(key, js))
  {
  }

  /** Appending the same blocks to a table and its cached copy does not hide a difference. */
  lemma SameTail(a: seq<int>, b: seq<int>, tail: seq<int>)
    requires |a| == |b|
    ensures a == b <==> a + tail == b + tail
  {
    if a + tail == b + tail {
      assert a == (a + tail)[..|a|] == (b + tail)[..|b|] == b;
    }
  }

  lemma GiveUntouched(s: State, step: Step, k: Key)
    requires Aligned(s.rows, s.cached, s.sched) && Enabled(s, step) && Gives(step) && s.pending == []
    requires k in s.sched && InRange(s)
    ensures var u := Next(s, step); k in u.sched && k in u.cached && (Untouched(s, k) <==> Untouched(u, k))
  {
    SameTail(BlocksOf(s.cached, step.key), BlocksOf(s.sched, step.key), s.free[..step.n]);
  }

  lemma GiveKnows(s: State, u: State, evicted: set<Key>, step: Step)
    requires Knows(s, evicted) && Enabled(s, step) && Gives(step) && s.pending == []
    requires InRange(s) && u == Next(s, step) && Aligned(u.rows, u.cached, u.sched)
    ensures Knows(u, if step.Admit? then evicted - {step.key} else evicted)
  {
    if step.Admit? {
      assert s.cached - {step.key} == s.cached;
      assert Untouched(u, step.key);
    }
    forall k | k in s.sched ensures k in u.sched && k in u.cached && (Untouched(s, k) <==> Untouched(u, k)) {
      GiveUntouched(s, step, k);
    }
  }

  lemma GiveTracks(s: State, t: Track, step: Step)
    requires Tracked(s, t) && Enabled(s, step) && Gives(step) && !t.dirty && NeverEvicted(t, step)
    ensures InRange(s) && Tracked(Next(s, step), Follow(t, step))
  {
    StepKeeps(s, step);
    GiveKnows(s, Next(s, step), t.evicted, step);
  }

  /** One step in the engine's order is guarded, and the run keeps knowing what it knew. */
  lemma TrackStep(s: State, t: Track, step: Step)
    requires Tracked(s, t) && Enabled(s, step) && InOrder(t, step) && NeverEvicted(t, step)
    ensures Guarded(s, step) && InRange(s) && Tracked(Next(s, step), Follow(t, step))
  {
    InvBounds(s);
    match step
    case Evict(key, js) => EvictTracks(s, t, key, js);
    case Reclaim => ReclaimTracks(s, t);
    case Park(key) => StepKeeps(s, step);
    case Release(key) => StepKeeps(s, step);
    case _ => GiveTracks(s, t, step);
  }

  // ----- runs -----

  /** A run of enabled steps in the engine's order that meets the engine's obligation. */
  ghost predicate EngineRun(s: State, t: Track, steps: seq<Step>)
    requires Tracked(s, t)
    decreases |steps|
  {
    steps == [] ||
    (Enabled(s, steps[0]) && InOrder(t, steps[0]) && NeverEvicted(t, steps[0]) &&
     (TrackStep(s, t, steps[0]); EngineRun(Next(s, steps[0]), Follow(t, steps[0]), steps[1..])))
  }

  ghost function EngineEnd(s: State, t: Track, steps: seq<Step>): (r: State)
    requires Tracked(s, t) && EngineRun(s, t, steps)
    decreases |steps|
  {
    if steps == [] then s
    else TrackStep(s, t, steps[0]); EngineEnd(Next(s, steps[0]), Follow(t, steps[0]), steps[1..])
  }

  lemma {:induction false} EngineRunIsGuarded(s: State, t: Track, steps: seq<Step>)
    requires Tracked(s, t) && EngineRun(s, t, steps)
    ensures GuardedRun(s, steps) && RunEnd(s, steps) == EngineEnd(s, t, steps)
    decreases |steps|
  {
    if steps != [] {
      TrackStep(s, t, steps[0]);
      EngineRunIsGuarded(Next(s, steps[0]), Follow(t, steps[0]), steps[1..]);
    }
  }

  /** From start-up, every run in the engine's order that meets its one obligation ends in a safe state. */
  lemma EngineRunIsSafe(blocks: nat, steps: seq<Step>)
    requires blocks > 0 && (InitialTracked(blocks); EngineRun(Initial(blocks), START, steps))
    ensures (InitialTracked(blocks); Safe(EngineEnd(Initial(blocks), START, steps)))
  {
    InitialTracked(blocks);
    EngineRunIsGuarded(Initial(blocks), START, steps);
    RunIsSafe(Initial(blocks), steps);
  }

  /** The obligation is exact: in the engine's order, putting a request back is safe just when it lost no block. */
  lemma UnparkInOrderIff(s: State, t: Track, key: Key, n: nat)
    requires Tracked(s, t) && !t.dirty && Enabled(s, Unpark(key, n))
    ensures InRange(s) && (WorkerOwns(Drain(Next(s, Unpark(key, n)))) <==> key !in t.evicted)
  {
    UnparkSafeIff(s, key, n);
  }

  // ----- the guards are needed -----

  lemma EngineCons(s: State, t: Track, step: Step, rest: seq<Step>)
    requires Tracked(s, t) && Enabled(s, step) && InOrder(t, step) && NeverEvicted(t, step) && InRange(s)
    requires Tracked(Next(s, step), Follow(t, step)) && EngineRun(Next(s, step), Follow(t, step), rest)
    ensures EngineRun(s, t, [step] + rest)
    ensures EngineEnd(s, t, [step] + rest) == EngineEnd(Next(s, step), Follow(t, step), rest)
  {
    assert ([step] + rest)[1..] == rest;
  }

  lemma FirstAdmit(blocks: nat, key: Key, n: nat)
    requires n < blocks
    ensures Enabled(Initial(blocks), Admit(key, n)) && InRange(Initial(blocks))
    ensures var s := Next(Initial(blocks), Admit(key, n));
            && key in s.rows && |s.rows[key]| == n && (forall j :: 0 <= j < n ==> s.rows[key][j] == j + 1)
            && s.pending == [] && |s.free| == blocks - 1 - n
  {
    InitialIsSound(blocks);
    InvBounds(Initial(blocks));
  }

  function EvictedAndParked(key: Key): seq<Step> {
    [Evict(key, [0])] + ([Reclaim] + ([Park(key)] + []))
  }

  /** A request whose block was evicted and reclaimed, and that then left the batch, cannot come back. */
  lemma EvictedStays(s: State, t: Track, key: Key)
    requires Tracked(s, t) && Enabled(s, Evict(key, [0]))
    ensures EngineRun(s, t, EvictedAndParked(key))
    ensures var u := EngineEnd(s, t, EvictedAndParked(key));
            Enabled(u, Unpark(key, 0)) && InRange(u) && !WorkerOwns(Drain(Next(u, Unpark(key, 0))))
  {
    TrackStep(s, t, Evict(key, [0]));
    var s2, t2 := Next(s, Evict(key, [0])), Follow(t, Evict(key, [0]));
    ReclaimedStays(s2, t2, key);
    EngineCons(s, t, Evict(key, [0]), [Reclaim] + ([Park(key)] + []));
  }

  lemma ReclaimedStays(s: State, t: Track, key: Key)
    requires Tracked(s, t) && key in s.rows && key in t.evicted
    ensures EngineRun(s, t, [Reclaim] + ([Park(key)] + []))
    ensures var u := EngineEnd(s, t, [Reclaim] + ([Park(key)] + []));
            Enabled(u, Unpark(key, 0)) && InRange(u) && !WorkerOwns(Drain(Next(u, Unpark(key, 0))))
  {
    InvBounds(s);
    TrackStep(s, t, Reclaim);
    var s3, t3 := Drain(s), Follow(t, Reclaim);
    DrainNulls(s, key, 0);
    TrackStep(s3, t3, Park(key));
    EngineCons(s3, t3, Park(key), []);
    EngineCons(s, t, Reclaim, [Park(key)] + []);
    UnparkInOrderIff(Next(s3, Park(key)), Follow(t3, Park(key)), key, 0);
  }

  /** One block, evicted and reclaimed: putting the parked request back gives its row a block it no longer owns. */
  lemma UnparkWitness(blocks: nat, key: Key)
    requires blocks > 1
    ensures (InitialTracked(blocks); EngineRun(Initial(blocks), START, [Admit(key, 1)] + EvictedAndParked(key)))
    ensures (InitialTracked(blocks);
             var s := EngineEnd(Initial(blocks), START, [Admit(key, 1)] + EvictedAndParked(key));
             Enabled(s, Unpark(key, 0)) && InRange(s) && !WorkerOwns(Drain(Next(s, Unpark(key, 0)))))
  {
    InitialTracked(blocks);
    FirstAdmit(blocks, key, 1);
    TrackStep(Initial(blocks), START, Admit(key, 1));
    EvictedStays(Next(Initial(blocks), Admit(key, 1)), Follow(START, Admit(key, 1)), key);
    EngineCons(Initial(blocks), START, Admit(key, 1), EvictedAndParked(key));
  }

  function EvictedAndReleased(key: Key, at: nat): seq<Step> {
    [Evict(key, [at])] + ([Release(key)] + [])
  }

  /** What a released request leaves behind: its evicted slot is still waiting. */
  lemma ReleasedBehind(s: State, key: Key, at: nat)
    requires Sound(s) && Enabled(s, Evict(key, [at])) && s.pending == []
    ensures GuardedRun(s, EvictedAndReleased(key, at))
    ensures var u := RunEnd(s, EvictedAndReleased(key, at));
            Sound(u) && key !in u.sched && u.pending == [Slot(key, at)] && |u.free| >= |s.free|
  {
    StepKeeps(s, Evict(key, [at]));
    var s2 := Next(s, Evict(key, [at]));
    StepKeeps(s2, Release(key));
    GuardedCons(s2, Release(key), []);
    GuardedCons(s, Evict(key, [at]), [Release(key)] + []);
  }

  function StaleSlot(key: Key, n: nat, at: nat): seq<Step> {
    [Admit(key, n)] + EvictedAndReleased(key, at)
  }

  lemma StaleSlotRun(blocks: nat, key: Key, n: nat, at: nat)
    requires at < n < blocks - n
    ensures (InitialIsSound(blocks); GuardedRun(Initial(blocks), StaleSlot(key, n, at)))
    ensures (InitialIsSound(blocks);
             var s := RunEnd(Initial(blocks), StaleSlot(key, n, at));
             Sound(s) && key !in s.sched && s.pending == [Slot(key, at)] && n <= |s.free|)
  {
    InitialIsSound(blocks);
    FirstAdmit(blocks, key, n);
    StepKeeps(Initial(blocks), Admit(key, n));
    ReleasedBehind(Next(Initial(blocks), Admit(key, n)), key, at);
    GuardedCons(Initial(blocks), Admit(key, n), EvictedAndReleased(key, at));
  }

  /** The request id comes back before its evicted slot is reclaimed: its new block is freed under it. */
  lemma AdmitWitness(blocks: nat, key: Key)
    requires blocks > 2
    ensures (InitialIsSound(blocks); GuardedRun(Initial(blocks), StaleSlot(key, 1, 0)))
    ensures (InitialIsSound(blocks);
             var s := RunEnd(Initial(blocks), StaleSlot(key, 1, 0));
             Enabled(s, Admit(key, 1)) && InRange(s) && !WorkerOwns(Drain(Next(s, Admit(key, 1)))))
  {
    StaleSlotRun(blocks, key, 1, 0);
    InitialIsSound(blocks);
    var s := RunEnd(Initial(blocks), StaleSlot(key, 1, 0));
    assert s.pending[0] == Slot(key, 0);
    AdmitSafeIff(s, key, 1);
  }

  /** The same with a block handed out later: the stale slot lies past the blocks of the second admission. */
  lemma GrowWitness(blocks: nat, key: Key)
    requires blocks > 4
    ensures (InitialIsSound(blocks); GuardedRun(Initial(blocks), StaleSlot(key, 2, 1)))
    ensures (InitialIsSound(blocks);
             var s := RunEnd(Initial(blocks), StaleSlot(key, 2, 1));
             && Enabled(s, Admit(key, 1)) && Guarded(s, Admit(key, 1)) && InRange(s)
             && (var u := Next(s, Admit(key, 1));
                 Enabled(u, Grow(key, 1)) && InRange(u) && !WorkerOwns(Drain(Next(u, Grow(key, 1))))))
  {
    StaleSlotRun(blocks, key, 2, 1);
    InitialIsSound(blocks);
    var s := RunEnd(Initial(blocks), StaleSlot(key, 2, 1));
    StepKeeps(s, Admit(key, 1));
    var u := Next(s, Admit(key, 1));
    assert u.pending[0] == Slot(key, 1);
    GrowSafeIff(u, key, 1);
  }
}
