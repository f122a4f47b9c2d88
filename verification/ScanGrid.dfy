/**
 The grid of scan-kernel instances (vllm/_xpu_ops.py): one instance per sequence
 and feature dimension, all working in place on shared buffers.  The device may
 run them in any order; disjoint rows and slots make the order irrelevant.
 */
module ScanGrid {
  import opened Seqs
  import opened AnyOrder
  import opened Arith
  import opened SelectiveScan
  import opened Wrappers

  datatype Mem = Mem(delta: seq<real>, z: seq<real>, states: seq<Vec>)

  /**
   One instance.  `source` is the slot its cache index names, from which it takes its initial state
   if it has one; `nil` is the slot of the null block, where there is one to test against.
   */
  datatype Inst = Inst(
    kernel: Kernel, hasZ: bool, x: Inputs, sizes: seq<nat>, slots: seq<nat>,
    db: nat, zb: nat, source: nat, hasInit: bool, nil: Option<nat>, zero: Vec)

  /** An instance whose cache index names the null block returns at once. */
  predicate Skips(i: Inst) {
    i.nil == Some(i.source)
  }

  function Len(i: Inst): nat {
    |i.x.u|
  }

  predicate InstOk(i: Inst, delta: nat, z: nat, states: nat) {
    && |i.x.u| == |i.x.B| == |i.x.C| == Total(i.sizes) && |i.sizes| == |i.slots|
    && i.db + Len(i) <= delta && i.zb + Len(i) <= z
    && (forall c :: 0 <= c < |i.slots| ==> i.slots[c] < states)
    && (i.hasInit ==> i.source < states)
  }

  predicate Fits(i: Inst, m: Mem) {
    InstOk(i, |m.delta|, |m.z|, |m.states|)
  }

  function Toks(i: Inst, m: Mem): (r: seq<Token>)
    requires Fits(i, m)
    ensures |r| == Len(i)
  {
    Tokens(i.x, m.delta[i.db..i.db + Len(i)], m.z[i.zb..i.zb + Len(i)])
  }

  function Start(i: Inst, m: Mem): Vec
    requires Fits(i, m)
  {
    if i.hasInit then m.states[i.source] else i.zero
  }

  /** The memory one instance leaves behind. */
  function Run(i: Inst, m: Mem): (r: Mem)
    requires Fits(i, m)
    ensures |r.delta| == |m.delta| && |r.z| == |m.z| && |r.states| == |m.states|
  {
    if Skips(i) then m
    else
      var toks, st := Toks(i, m), Start(i, m);
      var rows := Overwritten(i.hasZ, Outs(i.kernel, st, toks), Len(i), Rows(m.delta, m.z), i.db, i.zb);
      Mem(rows.delta, rows.z, Stored(i.kernel, st, toks, i.sizes, i.slots, m.states))
  }

  /** The kernel: early return on a null slot, initial state, then the scan in place. */
  method RunKernel(i: Inst, delta: array<real>, z: array<real>, states: array<Vec>)
    requires delta != z && InstOk(i, delta.Length, z.Length, states.Length)
    modifies delta, z, states
    ensures Mem(delta[..], z[..], states[..]) == Run(i, old(Mem(delta[..], z[..], states[..])))
  {
    if i.nil == Some(i.source) {
      return;
    }
    ghost var m := Mem(delta[..], z[..], states[..]);
    var st := if i.hasInit then states[i.source] else i.zero;
    ghost var toks := Toks(i, m);
    assert RowsHold(i.x, toks, Rows(m.delta, m.z), i.db, i.zb);
    ScanInstance(i.kernel, i.hasZ, i.x, i.sizes, i.slots, delta, i.db, z, i.zb, states, st, toks);
  }

  // ----- what an instance reads and writes -----

  /** The slots an instance reads its initial state from. */
  ghost predicate Loads(i: Inst, s: nat) {
    i.hasInit && i.source == s
  }

  ghost predicate Apart(a: nat, b: nat, n: nat, k: nat) {
    a + n <= b || b + k <= a
  }

  /** Neither instance writes a row or a slot the other reads or writes. */
  ghost predicate Disjoint(i: Inst, j: Inst) {
    && Apart(i.db, j.db, Len(i), Len(j)) && Apart(i.zb, j.zb, Len(i), Len(j))
    && (forall s :: s in i.slots ==> s !in j.slots && !Loads(j, s))
    && (forall s :: s in j.slots ==> !Loads(i, s))
  }

  lemma {:induction false} StoredFrame<S, T, O>(k: Machine<S, T, O>, st: S, toks: seq<T>,
                                                sizes: seq<nat>, slots: seq<nat>, states: seq<S>, s: nat)
    requires Total(sizes) <= |toks| && |slots| == |sizes| && (forall c :: 0 <= c < |slots| ==> slots[c] < |states|)
    requires s < |states| && s !in slots
    ensures Stored(k, st, toks, sizes, slots, states)[s] == states[s]
  {
    if sizes != [] {
      var last := |sizes| - 1;
      TotalMonotone(sizes, last);
      assert slots[last] in slots;
      StoredFrame(k, st, toks, sizes[..last], slots[..last], states, s);
    }
  }

  /** What a slot receives does not depend on what the cache held before. */
  lemma {:induction false} StoredValue<S, T, O>(k: Machine<S, T, O>, st: S, toks: seq<T>,
                                                sizes: seq<nat>, slots: seq<nat>, states: seq<S>, other: seq<S>, s: nat)
    requires Total(sizes) <= |toks| && |slots| == |sizes| && (forall c :: 0 <= c < |slots| ==> slots[c] < |states|)
    requires |other| == |states| && s in slots
    ensures s < |states| && Stored(k, st, toks, sizes, slots, states)[s] == Stored(k, st, toks, sizes, slots, other)[s]
  {
    var last := |sizes| - 1;
    TotalMonotone(sizes, last);
    assert slots == slots[..last] + [slots[last]];
    if s != slots[last] {
      StoredValue(k, st, toks, sizes[..last], slots[..last], states, other, s);
    }
  }

  lemma SpliceFrame(s: seq<real>, base: nat, vals: seq<real>, lo: nat, hi: nat)
    requires base + |vals| <= |s| && lo <= hi <= |s| && Apart(base, lo, |vals|, hi - lo)
    ensures Splice(s, base, vals)[lo..hi] == s[lo..hi]
  {
    forall i | 0 <= i < hi - lo ensures Splice(s, base, vals)[lo..hi][i] == s[lo..hi][i] {
      SpliceAt(s, base, vals, lo + i);
    }
  }

  lemma SpliceCommute(s: seq<real>, a: nat, v: seq<real>, b: nat, w: seq<real>)
    requires a + |v| <= |s| && b + |w| <= |s| && Apart(a, b, |v|, |w|)
    ensures Splice(Splice(s, a, v), b, w) == Splice(Splice(s, b, w), a, v)
  {
    forall i | 0 <= i < |s| ensures Splice(Splice(s, a, v), b, w)[i] == Splice(Splice(s, b, w), a, v)[i] {
      SpliceAt(s, a, v, i);
      SpliceAt(s, b, w, i);
      SpliceAt(Splice(s, a, v), b, w, i);
      SpliceAt(Splice(s, b, w), a, v, i);
    }
  }

  lemma RunRows(i: Inst, m: Mem)
    requires Fits(i, m) && !Skips(i)
    ensures var outs := Outs(i.kernel, Start(i, m), Toks(i, m));
            && Run(i, m).delta == Splice(m.delta, i.db, Firsts(outs))
            && Run(i, m).z == if i.hasZ then Splice(m.z, i.zb, Seconds(outs)) else m.z
  {
    var outs := Outs(i.kernel, Start(i, m), Toks(i, m));
    TakeAll(Firsts(outs));
    TakeAll(Seconds(outs));
  }

  lemma RowsKept(m: Mem, r: Mem, i: Inst, j: Inst, outs: seq<(real, real)>)
    requires Fits(i, m) && Fits(j, m) && Disjoint(i, j) && |outs| == Len(i)
    requires r.delta == Splice(m.delta, i.db, Firsts(outs))
    requires r.z == if i.hasZ then Splice(m.z, i.zb, Seconds(outs)) else m.z
    ensures |r.delta| == |m.delta| && r.delta[j.db..j.db + Len(j)] == m.delta[j.db..j.db + Len(j)]
    ensures |r.z| == |m.z| && r.z[j.zb..j.zb + Len(j)] == m.z[j.zb..j.zb + Len(j)]
  {
    SpliceFrame(m.delta, i.db, Firsts(outs), j.db, j.db + Len(j));
    if i.hasZ {
      SpliceFrame(m.z, i.zb, Seconds(outs), j.zb, j.zb + Len(j));
    }
  }

  /** An instance sees the same rows before and after a disjoint one ran. */
  lemma RowsSame(i: Inst, j: Inst, m: Mem)
    requires Fits(i, m) && Fits(j, m) && Disjoint(i, j) && !Skips(i)
    ensures Run(i, m).delta[j.db..j.db + Len(j)] == m.delta[j.db..j.db + Len(j)]
    ensures Run(i, m).z[j.zb..j.zb + Len(j)] == m.z[j.zb..j.zb + Len(j)]
  {
    RunRows(i, m);
    RowsKept(m, Run(i, m), i, j, Outs(i.kernel, Start(i, m), Toks(i, m)));
  }

  lemma StartSame(i: Inst, j: Inst, m: Mem)
    requires Fits(i, m) && Fits(j, m) && Disjoint(i, j)
    ensures Start(j, Run(i, m)) == Start(j, m)
  {
    if !Skips(i) {
      if j.hasInit {
        assert Loads(j, j.source);
        StoredFrame(i.kernel, Start(i, m), Toks(i, m), i.sizes, i.slots, m.states, j.source);
      }
    }
  }

  /** An instance sees the same tokens and initial state before and after a disjoint one ran. */
  lemma SeesSame(i: Inst, j: Inst, m: Mem)
    requires Fits(i, m) && Fits(j, m) && Disjoint(i, j) && !Skips(i)
    ensures Toks(j, Run(i, m)) == Toks(j, m) && Start(j, Run(i, m)) == Start(j, m)
  {
    RowsSame(i, j, m);
    StartSame(i, j, m);
  }

  /** The state cache of two runs, in either order. */
  lemma StoredCommute(i: Inst, j: Inst, ti: seq<Token>, tj: seq<Token>, si: Vec, sj: Vec, states: seq<Vec>)
    requires |i.sizes| == |i.slots| && |j.sizes| == |j.slots| && Total(i.sizes) <= |ti| && Total(j.sizes) <= |tj|
    requires forall c :: 0 <= c < |i.slots| ==> i.slots[c] < |states|
    requires forall c :: 0 <= c < |j.slots| ==> j.slots[c] < |states|
    requires forall s :: s in i.slots ==> s !in j.slots
    ensures Stored(j.kernel, sj, tj, j.sizes, j.slots, Stored(i.kernel, si, ti, i.sizes, i.slots, states))
            == Stored(i.kernel, si, ti, i.sizes, i.slots, Stored(j.kernel, sj, tj, j.sizes, j.slots, states))
  {
    var a, b := Stored(i.kernel, si, ti, i.sizes, i.slots, states), Stored(j.kernel, sj, tj, j.sizes, j.slots, states);
    forall s: nat | s < |states|
      ensures Stored(j.kernel, sj, tj, j.sizes, j.slots, a)[s] == Stored(i.kernel, si, ti, i.sizes, i.slots, b)[s]
    {
      if s in i.slots {
        StoredFrame(j.kernel, sj, tj, j.sizes, j.slots, a, s);
        StoredValue(i.kernel, si, ti, i.sizes, i.slots, states, b, s);
      } else {
        StoredFrame(i.kernel, si, ti, i.sizes, i.slots, b, s);
        if s in j.slots {
          StoredValue(j.kernel, sj, tj, j.sizes, j.slots, states, a, s);
        } else {
          StoredFrame(j.kernel, sj, tj, j.sizes, j.slots, a, s);
          StoredFrame(i.kernel, si, ti, i.sizes, i.slots, states, s);
          StoredFrame(j.kernel, sj, tj, j.sizes, j.slots, states, s);
        }
      }
    }
  }

  /** Disjoint instances commute. */
  lemma RunsCommute(i: Inst, j: Inst, m: Mem)
    requires Fits(i, m) && Fits(j, m) && Disjoint(i, j)
    ensures Run(j, Run(i, m)) == Run(i, Run(j, m))
  {
    if !Skips(i) && !Skips(j) {
      SeesSame(i, j, m);
      SeesSame(j, i, m);
      var oi, oj := Outs(i.kernel, Start(i, m), Toks(i, m)), Outs(j.kernel, Start(j, m), Toks(j, m));
      RunRows(i, m);
      RunRows(j, m);
      RunRows(i, Run(j, m));
      RunRows(j, Run(i, m));
      SpliceCommute(m.delta, i.db, Firsts(oi), j.db, Firsts(oj));
      SpliceCommute(m.z, i.zb, Seconds(oi), j.zb, Seconds(oj));
      StoredCommute(i, j, Toks(i, m), Toks(j, m), Start(i, m), Start(j, m), m.states);
    }
  }

  // ----- any launch order -----

  ghost predicate GridOk(g: seq<Inst>) {
    forall a, b :: 0 <= a < |g| && 0 <= b < |g| && a != b ==> Disjoint(g[a], g[b])
  }

  ghost predicate GridFits(g: seq<Inst>, m: Mem) {
    forall a :: 0 <= a < |g| ==> Fits(g[a], m)
  }

  /** Instance a of the grid as a step on memory. */
  ghost function Launch(g: seq<Inst>): (nat, Mem) -> Mem {
    (a: nat, m: Mem) => if a < |g| && GridFits(g, m) then Run(g[a], m) else m
  }

  lemma LaunchesCommute(g: seq<Inst>)
    requires GridOk(g)
    ensures Commuting(Launch(g), |g|)
  {
    var f := Launch(g);
    forall a: nat, b: nat, m: Mem | a < |g| && b < |g| && a != b ensures Swap(f, a, b, m) {
      if GridFits(g, m) {
        RunsCommute(g[a], g[b], m);
        assert GridFits(g, Run(g[a], m)) && GridFits(g, Run(g[b], m));
      }
    }
  }

  /** Every launch order of the same pairwise disjoint instances leaves the same memory. */
  lemma LaunchOrderIrrelevant(g: seq<Inst>, o1: seq<nat>, o2: seq<nat>, m: Mem)
    requires GridOk(g) && GridFits(g, m) && Order(o1, |g|) && Order(o2, |g|)
    requires |o1| == |o2| && forall a :: a in o1 <==> a in o2
    ensures RunAll(Launch(g), o1, m) == RunAll(Launch(g), o2, m)
  {
    LaunchesCommute(g);
    OrderIrrelevant(Launch(g), |g|, o1, o2, m);
  }

  // ----- the layouts of the source -----

  /**
   How rows are addressed: packed sequences one behind the other inside a row of `stride` tokens
   for each dimension, or one row for each sequence and dimension.
   */
  datatype Layout = Packed(stride: nat, starts: seq<nat>) | Dense(batchStride: nat, dimStride: nat, length: nat)

  predicate LayoutOk(l: Layout, batches: nat, dims: nat) {
    match l
    case Packed(stride, starts) =>
      |starts| == batches + 1 && forall i, j :: 0 <= i <= j < |starts| ==> starts[i] <= starts[j] <= stride
    case Dense(batchStride, dimStride, length) =>
      length <= dimStride && dims * dimStride <= batchStride
  }

  function RowAt(l: Layout, b: nat, d: nat): nat
    requires l.Packed? ==> b < |l.starts|
  {
    match l
    case Packed(stride, starts) => d * stride + starts[b]
    case Dense(batchStride, dimStride, _) => b * batchStride + d * dimStride
  }

  function RowLength(l: Layout, b: nat): int
    requires l.Packed? ==> b + 1 < |l.starts|
  {
    match l
    case Packed(_, starts) => starts[b + 1] - starts[b]
    case Dense(_, _, length) => length
  }

  lemma LinesApart(stride: nat, x: nat, y: nat, i: nat, j: nat, n: nat, k: nat)
    requires x != y && i + n <= stride && j + k <= stride
    ensures Apart(x * stride + i, y * stride + j, n, k)
  {
    if x < y {
      MulMono(x + 1, y, stride);
      MulStep(x, stride);
    } else {
      MulMono(y + 1, x, stride);
      MulStep(y, stride);
    }
  }

  /** The rows of different (sequence, dimension) pairs do not overlap. */
  lemma RowsApart(l: Layout, batches: nat, dims: nat, b: nat, d: nat, b': nat, d': nat)
    requires LayoutOk(l, batches, dims) && b < batches && b' < batches && d < dims && d' < dims && (b, d) != (b', d')
    ensures RowLength(l, b) >= 0 && RowLength(l, b') >= 0
    ensures Apart(RowAt(l, b, d), RowAt(l, b', d'), RowLength(l, b), RowLength(l, b'))
  {
    match l
    case Packed(stride, starts) =>
      if d != d' {
        LinesApart(stride, d, d', starts[b], starts[b'], starts[b + 1] - starts[b], starts[b' + 1] - starts[b']);
      }
    case Dense(batchStride, dimStride, length) =>
      DenseFits(dims, d, dimStride);
      DenseFits(dims, d', dimStride);
      if b != b' {
        LinesApart(batchStride, b, b', d * dimStride, d' * dimStride, length, length);
      } else {
        LinesApart(dimStride, d, d', 0, 0, length, length);
      }
  }

  /**
   A dimension's packed sequences tile its line of `stride` tokens from the first start on; dense rows
   begin one dimension stride, and one batch stride, after each other.
   */
  lemma RowsTile(l: Layout, batches: nat, dims: nat, b: nat, d: nat)
    requires LayoutOk(l, batches, dims) && b < batches && d < dims
    ensures l.Packed? ==> RowAt(l, 0, 0) == l.starts[0] && RowAt(l, b + 1, d) == RowAt(l, b, d) + RowLength(l, b)
    ensures l.Packed? ==> RowAt(l, b, d + 1) == RowAt(l, b, d) + l.stride
    ensures l.Dense? ==> RowAt(l, 0, 0) == 0 && RowAt(l, b, d + 1) == RowAt(l, b, d) + l.dimStride
    ensures l.Dense? ==> RowAt(l, b + 1, d) == RowAt(l, b, d) + l.batchStride && RowLength(l, b) == l.length
  {
    match l
    case Packed(stride, starts) => MulStep(d, stride);
    case Dense(batchStride, dimStride, _) =>
      MulStep(d, dimStride);
      MulStep(b, batchStride);
  }

  lemma DenseFits(dims: nat, d: nat, stride: nat)
    requires d < dims
    ensures d * stride + stride <= dims * stride
  {
    MulMono(d + 1, dims, stride);
    MulStep(d, stride);
  }

  /** Where an instance sits: its sequence and its dimension. */
  datatype Coord = Coord(batch: nat, dim: nat)

  /** The state cells of dimension d: one for each cache slot. */
  predicate CellOf(s: nat, slots: set<nat>, dims: nat, d: nat) {
    exists q :: q in slots && s == q * dims + d
  }

  /** The cache slots a sequence stores states to, and the ones its initial state may come from. */
  datatype Slots = Slots(written: set<nat>, loaded: set<nat>)

  /** The instance works on the rows and the cells of its coordinates. */
  ghost predicate Placed(i: Inst, l: Layout, at: Coord, dims: nat, slots: Slots)
    requires l.Packed? ==> at.batch + 1 < |l.starts|
  {
    && Len(i) == RowLength(l, at.batch) && i.db == RowAt(l, at.batch, at.dim) && i.zb == RowAt(l, at.batch, at.dim)
    && (forall s :: s in i.slots ==> CellOf(s, slots.written, dims, at.dim))
    && (i.hasInit ==> CellOf(i.source, slots.loaded, dims, at.dim))
  }

  /** Neither sequence stores to a slot the other one uses; both may load the same slot. */
  ghost predicate SlotsApart(a: Slots, b: Slots) {
    a.written !! b.written && a.written !! b.loaded && a.loaded !! b.written
  }

  /**
   A grid as the source launches it: one instance for each pair of coordinates, rows by the layout,
   and no cache slot stored to by one sequence and used by another.
   */
  ghost predicate LaidOut(g: seq<Inst>, at: seq<Coord>, l: Layout, dims: nat, slots: seq<Slots>) {
    && |at| == |g| && LayoutOk(l, |slots|, dims)
    && (forall a, b :: 0 <= a < b < |at| ==> at[a] != at[b])
    && (forall b, c :: 0 <= b < c < |slots| ==> SlotsApart(slots[b], slots[c]))
    && forall a :: 0 <= a < |g| ==>
                     && at[a].batch < |slots| && at[a].dim < dims
                     && Placed(g[a], l, at[a], dims, slots[at[a].batch])
  }

  lemma CellsApart(s: nat, slots: set<nat>, d: nat, slots': set<nat>, d': nat, dims: nat)
    requires CellOf(s, slots, dims, d) && CellOf(s, slots', dims, d') && d < dims && d' < dims
    ensures d == d' && !(slots !! slots')
  {
    var q :| q in slots && s == q * dims + d;
    var q' :| q' in slots' && s == q' * dims + d';
    DivUnique(s, dims, q);
    DivUnique(s, dims, q');
  }

  /** A cell of one dimension is no cell of another one, nor of slots that are apart. */
  lemma NotThere(s: nat, slots: set<nat>, d: nat, slots': set<nat>, d': nat, dims: nat)
    requires d < dims && d' < dims && CellOf(s, slots, dims, d) && (d == d' ==> slots !! slots')
    ensures !CellOf(s, slots', dims, d')
  {
    if CellOf(s, slots', dims, d') {
      CellsApart(s, slots, d, slots', d', dims);
    }
  }

  lemma PlacedDisjoint(i: Inst, j: Inst, l: Layout, a: Coord, b: Coord, dims: nat, slots: seq<Slots>)
    requires LayoutOk(l, |slots|, dims) && a != b
    requires a.batch < |slots| && b.batch < |slots| && a.dim < dims && b.dim < dims
    requires a.batch != b.batch ==> SlotsApart(slots[a.batch], slots[b.batch])
    requires Placed(i, l, a, dims, slots[a.batch]) && Placed(j, l, b, dims, slots[b.batch])
    ensures Disjoint(i, j)
  {
    RowsApart(l, |slots|, dims, a.batch, a.dim, b.batch, b.dim);
    var mine, theirs := slots[a.batch], slots[b.batch];
    forall s | s in i.slots ensures s !in j.slots && !Loads(j, s) {
      NotThere(s, mine.written, a.dim, theirs.written, b.dim, dims);
      NotThere(s, mine.written, a.dim, theirs.loaded, b.dim, dims);
    }
    forall s | s in j.slots ensures !Loads(i, s) {
      NotThere(s, theirs.written, b.dim, mine.loaded, a.dim, dims);
    }
  }

  /** Such a grid is made of pairwise disjoint instances, so it may be launched in any order. */
  lemma LaidOutIsGridOk(g: seq<Inst>, at: seq<Coord>, l: Layout, dims: nat, slots: seq<Slots>)
    requires LaidOut(g, at, l, dims, slots)
    ensures GridOk(g)
  {
    forall a, b | 0 <= a < |g| && 0 <= b < |g| && a != b ensures Disjoint(g[a], g[b]) {
      PlacedDisjoint(g[a], g[b], l, at[a], at[b], dims, slots);
    }
  }

  /**
   An instance on dimension d whose cache index is q, with the null block `nil`: on the null block it
   changes nothing; otherwise its last slot ends up with the state over all its tokens, from the state
   of slot q where there is an initial one and from zero where there is none.
   */
  lemma NullSlotIdle(i: Inst, m: Mem, q: nat, nil: nat, dims: nat, d: nat)
    requires Fits(i, m) && d < dims && i.source == q * dims + d && i.nil == Some(nil * dims + d) && i.slots != []
    ensures q == nil ==> Run(i, m) == m
    ensures q != nil && i.hasInit ==> LastState(i, m) == Fold(i.kernel, m.states[q * dims + d], Toks(i, m))
    ensures q != nil && !i.hasInit ==> LastState(i, m) == Fold(i.kernel, i.zero, Toks(i, m))
  {
    DivUnique(q * dims + d, dims, q);
    DivUnique(nil * dims + d, dims, nil);
    assert Toks(i, m)[..Total(i.sizes)] == Toks(i, m);
  }

  function LastState(i: Inst, m: Mem): Vec
    requires Fits(i, m) && i.slots != []
  {
    Run(i, m).states[i.slots[|i.slots| - 1]]
  }
}
