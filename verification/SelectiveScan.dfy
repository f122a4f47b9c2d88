/**
 The chunked selective state-space scan (vllm/_xpu_ops.py) in exact arithmetic.

 One kernel instance handles one sequence and one feature dimension.  It runs the
 recurrence over the sequence chunk by chunk, writes each output over the input
 it was computed from, and stores the state after every chunk into a cache slot.
 `exp` and `softplus` are parameters; nothing about them is used.
 */
module SelectiveScan {
  import opened Seqs
  import opened Arith

  // ----- a recurrence and its unbroken run -----

  /** One token of a recurrence: the next state, and the output from that state. */
  datatype Machine<!S, !T, +O> = Machine(step: (S, T) -> S, out: (S, T) -> O)

  function Fold<S, T, O>(m: Machine<S, T, O>, st: S, toks: seq<T>): S {
    if toks == [] then st
    else m.step(Fold(m, st, toks[..|toks| - 1]), toks[|toks| - 1])
  }

  function Outs<S, T, O>(m: Machine<S, T, O>, st: S, toks: seq<T>): (r: seq<O>)
    ensures |r| == |toks|
  {
    if toks == [] then []
    else Outs(m, st, toks[..|toks| - 1]) + [m.out(Fold(m, st, toks), toks[|toks| - 1])]
  }

  /** Cutting the sequence anywhere: state and outputs continue from the state at the cut. */
  lemma {:induction false} ScanSplit<S, T, O>(m: Machine<S, T, O>, st: S, toks: seq<T>, k: nat)
    requires k <= |toks|
    ensures Fold(m, st, toks) == Fold(m, Fold(m, st, toks[..k]), toks[k..])
    ensures Outs(m, st, toks) == Outs(m, st, toks[..k]) + Outs(m, Fold(m, st, toks[..k]), toks[k..])
  {
    if k == |toks| {
      assert toks[..k] == toks && toks[k..] == [];
    } else {
      var last := |toks| - 1;
      ScanSplit(m, st, toks[..last], k);
      assert toks[..last][..k] == toks[..k];
      assert toks[..last][k..] == toks[k..][..last - k];
      assert toks[k..][last - k] == toks[last];
    }
  }

  lemma {:induction false} OutsAt<S, T, O>(m: Machine<S, T, O>, st: S, toks: seq<T>, k: nat)
    requires k < |toks|
    ensures Outs(m, st, toks)[k] == m.out(Fold(m, st, toks[..k + 1]), toks[k])
  {
    var last := |toks| - 1;
    if k < last {
      OutsAt(m, st, toks[..last], k);
      assert toks[..last][..k + 1] == toks[..k + 1];
    } else {
      assert toks[..k + 1] == toks;
    }
  }

  lemma FoldSnoc<S, T, O>(m: Machine<S, T, O>, st: S, toks: seq<T>, k: nat)
    requires k < |toks|
    ensures Fold(m, st, toks[..k + 1]) == m.step(Fold(m, st, toks[..k]), toks[k])
  {
    assert toks[..k + 1][..k] == toks[..k];
  }

  // ----- chunks -----

  /** Tokens in a list of chunks. */
  function Total(sizes: seq<nat>): nat {
    if sizes == [] then 0 else Total(sizes[..|sizes| - 1]) + sizes[|sizes| - 1]
  }

  lemma {:induction false} TotalMonotone(sizes: seq<nat>, c: nat)
    requires c <= |sizes|
    ensures Total(sizes[..c]) <= Total(sizes)
  {
    if c == |sizes| {
      TakeAll(sizes);
    } else {
      var last := |sizes| - 1;
      TotalMonotone(sizes[..last], c);
      assert sizes[..last][..c] == sizes[..c];
    }
  }

  lemma TotalSnoc(sizes: seq<nat>, c: nat)
    requires c < |sizes|
    ensures Total(sizes[..c + 1]) == Total(sizes[..c]) + sizes[c]
    ensures Total(sizes[..c + 1]) <= Total(sizes)
  {
    assert sizes[..c + 1][..c] == sizes[..c];
    TotalMonotone(sizes, c + 1);
  }

  /** The state cache after every chunk stored the state at its end, in order. */
  function Stored<S, T, O>(k: Machine<S, T, O>, st: S, toks: seq<T>,
                           sizes: seq<nat>, slots: seq<nat>, states: seq<S>): (r: seq<S>)
    requires Total(sizes) <= |toks| && |slots| == |sizes| && forall c :: 0 <= c < |slots| ==> slots[c] < |states|
    ensures |r| == |states|
  {
    if sizes == [] then states
    else
      var last := |sizes| - 1;
      TotalMonotone(sizes, last);
      Stored(k, st, toks, sizes[..last], slots[..last], states)[slots[last] := Fold(k, st, toks[..Total(sizes)])]
  }

  lemma StoredSnoc<S, T, O>(k: Machine<S, T, O>, st: S, toks: seq<T>,
                            sizes: seq<nat>, slots: seq<nat>, states: seq<S>, c: nat)
    requires Total(sizes) <= |toks| && |slots| == |sizes| && forall c :: 0 <= c < |slots| ==> slots[c] < |states|
    requires c < |sizes|
    ensures Total(sizes[..c]) <= |toks| && Total(sizes[..c + 1]) <= |toks|
    ensures Stored(k, st, toks, sizes[..c + 1], slots[..c + 1], states)
            == Stored(k, st, toks, sizes[..c], slots[..c], states)
               [slots[c] := Fold(k, st, toks[..Total(sizes[..c + 1])])]
  {
    TotalMonotone(sizes, c);
    TotalMonotone(sizes, c + 1);
    assert sizes[..c + 1][..c] == sizes[..c] && slots[..c + 1][..c] == slots[..c];
  }

  // ----- the kernel -----

  type Vec = seq<real>

  datatype Token = Token(u: real, delta: real, z: real, B: Vec, C: Vec)

  /** The read-only inputs of an instance, from the first token of its sequence. */
  datatype Inputs = Inputs(u: seq<real>, B: seq<Vec>, C: seq<Vec>)

  /** Output and gated output of a token. */
  type Kernel = Machine<Vec, Token, (real, real)>

  /** The tokens of a sequence. */
  function Tokens(x: Inputs, delta: seq<real>, z: seq<real>): (r: seq<Token>)
    requires |x.u| == |x.B| == |x.C| == |delta| == |z|
    ensures |r| == |x.u|
    ensures forall i :: 0 <= i < |r| ==> r[i] == Token(x.u[i], delta[i], z[i], x.B[i], x.C[i])
  {
    seq(|x.u|, i requires 0 <= i < |x.u| => Token(x.u[i], delta[i], z[i], x.B[i], x.C[i]))
  }

  function Firsts(s: seq<(real, real)>): (r: seq<real>)
    ensures |r| == |s| && forall i :: 0 <= i < |s| ==> r[i] == s[i].0
  {
    seq(|s|, i requires 0 <= i < |s| => s[i].0)
  }

  function Seconds(s: seq<(real, real)>): (r: seq<real>)
    ensures |r| == |s| && forall i :: 0 <= i < |s| ==> r[i] == s[i].1
  {
    seq(|s|, i requires 0 <= i < |s| => s[i].1)
  }

  /** The sequence with `vals` written over positions base, base+1, ... */
  function Splice(s: seq<real>, base: nat, vals: seq<real>): (r: seq<real>)
    requires base + |vals| <= |s|
    ensures |r| == |s|
  {
    s[..base] + vals + s[base + |vals|..]
  }

  lemma SpliceAt(s: seq<real>, base: nat, vals: seq<real>, i: nat)
    requires base + |vals| <= |s| && i < |s|
    ensures Splice(s, base, vals)[i] == if base <= i < base + |vals| then vals[i - base] else s[i]
  {
  }

  lemma SpliceSnoc(s: seq<real>, base: nat, vals: seq<real>, n: nat)
    requires n < |vals| && base + |vals| <= |s|
    ensures Splice(s, base, vals[..n + 1]) == Splice(s, base, vals[..n])[base + n := vals[n]]
    ensures Splice(s, base, vals[..n])[base + n] == s[base + n]
  {
  }

  /** The delta and z buffers of an instance. */
  datatype Rows = Rows(delta: seq<real>, z: seq<real>)

  ghost predicate RowsOk(rows: Rows, n: nat, db: nat, zb: nat) {
    db + n <= |rows.delta| && zb + n <= |rows.z|
  }

  /** The rows hold the inputs of the tokens. */
  ghost predicate RowsHold(x: Inputs, toks: seq<Token>, rows: Rows, db: nat, zb: nat) {
    && |toks| == |x.u| == |x.B| == |x.C| && RowsOk(rows, |toks|, db, zb)
    && forall i :: 0 <= i < |toks| ==> toks[i] == Token(x.u[i], rows.delta[db + i], rows.z[zb + i], x.B[i], x.C[i])
  }

  /** The buffers once the first n outputs overwrote their inputs; without gating `z` stays. */
  function Overwritten(hasZ: bool, outs: seq<(real, real)>, n: nat, rows: Rows, db: nat, zb: nat): (r: Rows)
    requires n <= |outs| && RowsOk(rows, |outs|, db, zb)
    ensures |r.delta| == |rows.delta| && |r.z| == |rows.z|
  {
    Rows(Splice(rows.delta, db, Firsts(outs)[..n]),
         if hasZ then Splice(rows.z, zb, Seconds(outs)[..n]) else rows.z)
  }

  lemma OverwrittenNone(hasZ: bool, outs: seq<(real, real)>, rows: Rows, db: nat, zb: nat)
    requires RowsOk(rows, |outs|, db, zb)
    ensures Overwritten(hasZ, outs, 0, rows, db, zb) == rows
  {
    assert rows.delta == Splice(rows.delta, db, []) && rows.z == Splice(rows.z, zb, []);
  }

  lemma OverwrittenStep(hasZ: bool, outs: seq<(real, real)>, n: nat, rows: Rows, db: nat, zb: nat)
    requires n < |outs| && RowsOk(rows, |outs|, db, zb)
    ensures var r, r' := Overwritten(hasZ, outs, n, rows, db, zb), Overwritten(hasZ, outs, n + 1, rows, db, zb);
            && r'.delta == r.delta[db + n := outs[n].0]
            && r'.z == (if hasZ then r.z[zb + n := outs[n].1] else r.z)
            && r.delta[db + n] == rows.delta[db + n] && r.z[zb + n] == rows.z[zb + n]
  {
    SpliceSnoc(rows.delta, db, Firsts(outs), n);
    if hasZ {
      SpliceSnoc(rows.z, zb, Seconds(outs), n);
    }
  }

  /** One token: read its inputs, advance the state, write the outputs over the inputs. */
  method ScanToken(k: Kernel, hasZ: bool, x: Inputs,
                   delta: array<real>, db: nat, z: array<real>, zb: nat, state: Vec, pos: nat,
                   ghost t: Token)
    returns (state': Vec)
    requires delta != z && pos < |x.u| == |x.B| == |x.C| && db + pos < delta.Length && zb + pos < z.Length
    requires t == Token(x.u[pos], delta[..][db + pos], z[..][zb + pos], x.B[pos], x.C[pos])
    modifies delta, z
    ensures state' == k.step(state, t)
    ensures delta[..] == old(delta[..])[db + pos := k.out(state', t).0]
    ensures z[..] == if hasZ then old(z[..])[zb + pos := k.out(state', t).1] else old(z[..])
  {
    var t := Token(x.u[pos], delta[db + pos], z[zb + pos], x.B[pos], x.C[pos]);
    state' := k.step(state, t);
    var o := k.out(state', t);
    delta[db + pos] := o.0;
    if hasZ {
      z[zb + pos] := o.1;
    }
  }

  /** The state and the buffers after the first n tokens of the sequence. */
  ghost predicate ScannedTo(k: Kernel, hasZ: bool, x: Inputs, toks: seq<Token>, st0: Vec, rows: Rows, db: nat, zb: nat,
                            n: nat, state: Vec, now: Rows) {
    && RowsHold(x, toks, rows, db, zb) && n <= |toks|
    && state == Fold(k, st0, toks[..n])
    && now == Overwritten(hasZ, Outs(k, st0, toks), n, rows, db, zb)
  }

  lemma ScannedNext(k: Kernel, hasZ: bool, x: Inputs, toks: seq<Token>, st0: Vec, rows: Rows, db: nat, zb: nat,
                    n: nat, state: Vec, now: Rows)
    requires n < |toks| && ScannedTo(k, hasZ, x, toks, st0, rows, db, zb, n, state, now)
    ensures db + n < |now.delta| && zb + n < |now.z| && n < |x.u| == |x.B| == |x.C|
    ensures toks[n] == Token(x.u[n], now.delta[db + n], now.z[zb + n], x.B[n], x.C[n])
    ensures var st := k.step(state, toks[n]);
            ScannedTo(k, hasZ, x, toks, st0, rows, db, zb, n + 1, st,
                      Rows(now.delta[db + n := k.out(st, toks[n]).0],
                           if hasZ then now.z[zb + n := k.out(st, toks[n]).1] else now.z))
  {
    OverwrittenStep(hasZ, Outs(k, st0, toks), n, rows, db, zb);
    FoldSnoc(k, st0, toks, n);
    OutsAt(k, st0, toks, n);
  }

  /** One chunk: tokens lo..hi. */
  method ScanChunk(k: Kernel, hasZ: bool, x: Inputs, delta: array<real>, db: nat, z: array<real>, zb: nat,
                   state: Vec, lo: nat, hi: nat, ghost st0: Vec, ghost toks: seq<Token>, ghost rows: Rows)
    returns (state': Vec)
    requires delta != z && lo <= hi <= |toks|
    requires ScannedTo(k, hasZ, x, toks, st0, rows, db, zb, lo, state, Rows(delta[..], z[..]))
    modifies delta, z
    ensures ScannedTo(k, hasZ, x, toks, st0, rows, db, zb, hi, state', Rows(delta[..], z[..]))
  {
    state' := state;
    for pos := lo to hi
      invariant ScannedTo(k, hasZ, x, toks, st0, rows, db, zb, pos, state', Rows(delta[..], z[..]))
    {
      state' := ScanNext(k, hasZ, x, delta, db, z, zb, state', pos, st0, toks, rows);
    }
  }

  /** The turn of the loop for token `pos`. */
  method ScanNext(k: Kernel, hasZ: bool, x: Inputs, delta: array<real>, db: nat, z: array<real>, zb: nat,
                  state: Vec, pos: nat, ghost st0: Vec, ghost toks: seq<Token>, ghost rows: Rows)
    returns (state': Vec)
    requires delta != z && pos < |toks|
    requires ScannedTo(k, hasZ, x, toks, st0, rows, db, zb, pos, state, Rows(delta[..], z[..]))
    modifies delta, z
    ensures ScannedTo(k, hasZ, x, toks, st0, rows, db, zb, pos + 1, state', Rows(delta[..], z[..]))
  {
    ScannedNext(k, hasZ, x, toks, st0, rows, db, zb, pos, state, Rows(delta[..], z[..]));
    state' := ScanToken(k, hasZ, x, delta, db, z, zb, state, pos, toks[pos]);
  }

  /** The chunks of one instance and the slot each stores to. */
  ghost predicate PlanOk(toks: seq<Token>, sizes: seq<nat>, slots: seq<nat>, cache: seq<Vec>) {
    |sizes| == |slots| && Total(sizes) == |toks| && forall c :: 0 <= c < |slots| ==> slots[c] < |cache|
  }

  /** State, buffers and cache after the first c chunks. */
  ghost predicate RunTo(k: Kernel, hasZ: bool, x: Inputs, toks: seq<Token>, st0: Vec, rows: Rows, db: nat, zb: nat,
                        sizes: seq<nat>, slots: seq<nat>, cache: seq<Vec>,
                        c: nat, done: nat, state: Vec, now: Rows, stored: seq<Vec>) {
    && PlanOk(toks, sizes, slots, cache) && c <= |sizes|
    && done == Total(sizes[..c]) <= |toks|
    && ScannedTo(k, hasZ, x, toks, st0, rows, db, zb, done, state, now)
    && stored == Stored(k, st0, toks, sizes[..c], slots[..c], cache)
  }

  lemma RunNext(k: Kernel, hasZ: bool, x: Inputs, toks: seq<Token>, st0: Vec, rows: Rows, db: nat, zb: nat,
                sizes: seq<nat>, slots: seq<nat>, cache: seq<Vec>,
                c: nat, done: nat, state: Vec, now: Rows, stored: seq<Vec>, state': Vec, now': Rows)
    requires RunTo(k, hasZ, x, toks, st0, rows, db, zb, sizes, slots, cache, c, done, state, now, stored) && c < |sizes|
    requires done + sizes[c] <= |toks| && ScannedTo(k, hasZ, x, toks, st0, rows, db, zb, done + sizes[c], state', now')
    ensures slots[c] < |stored|
    ensures RunTo(k, hasZ, x, toks, st0, rows, db, zb, sizes, slots, cache, c + 1, done + sizes[c], state', now',
                  stored[slots[c] := state'])
  {
    TotalSnoc(sizes, c);
    StoredSnoc(k, st0, toks, sizes, slots, cache, c);
  }

  lemma RunDone(k: Kernel, hasZ: bool, x: Inputs, toks: seq<Token>, st0: Vec, rows: Rows, db: nat, zb: nat,
                sizes: seq<nat>, slots: seq<nat>, cache: seq<Vec>, done: nat, state: Vec, now: Rows, stored: seq<Vec>)
    requires RunTo(k, hasZ, x, toks, st0, rows, db, zb, sizes, slots, cache, |sizes|, done, state, now, stored)
    ensures RowsHold(x, toks, rows, db, zb)
    ensures now == Overwritten(hasZ, Outs(k, st0, toks), |toks|, rows, db, zb)
    ensures stored == Stored(k, st0, toks, sizes, slots, cache)
  {
    TakeAll(sizes);
    TakeAll(slots);
  }

  lemma ChunkFits(k: Kernel, hasZ: bool, x: Inputs, toks: seq<Token>, st0: Vec, rows: Rows, db: nat, zb: nat,
                  sizes: seq<nat>, slots: seq<nat>, cache: seq<Vec>,
                  c: nat, done: nat, state: Vec, now: Rows, stored: seq<Vec>)
    requires RunTo(k, hasZ, x, toks, st0, rows, db, zb, sizes, slots, cache, c, done, state, now, stored) && c < |sizes|
    ensures done + sizes[c] <= |toks| && ScannedTo(k, hasZ, x, toks, st0, rows, db, zb, done, state, now)
  {
    TotalSnoc(sizes, c);
  }

  /** Chunk c: scan its tokens, then store the state. */
  method RunChunk(k: Kernel, hasZ: bool, x: Inputs, sizes: seq<nat>, slots: seq<nat>,
                  delta: array<real>, db: nat, z: array<real>, zb: nat, states: array<Vec>,
                  c: nat, state: Vec, done: nat,
                  ghost st0: Vec, ghost toks: seq<Token>, ghost rows: Rows, ghost cache: seq<Vec>)
    returns (state': Vec)
    requires delta != z && c < |sizes|
    requires RunTo(k, hasZ, x, toks, st0, rows, db, zb, sizes, slots, cache,
                   c, done, state, Rows(delta[..], z[..]), states[..])
    modifies delta, z, states
    ensures RunTo(k, hasZ, x, toks, st0, rows, db, zb, sizes, slots, cache,
                  c + 1, done + sizes[c], state', Rows(delta[..], z[..]), states[..])
  {
    ghost var before, stored := Rows(delta[..], z[..]), states[..];
    ChunkFits(k, hasZ, x, toks, st0, rows, db, zb, sizes, slots, cache, c, done, state, before, stored);
    state' := ScanChunk(k, hasZ, x, delta, db, z, zb, state, done, done + sizes[c], st0, toks, rows);
    RunNext(k, hasZ, x, toks, st0, rows, db, zb, sizes, slots, cache,
            c, done, state, before, stored, state', Rows(delta[..], z[..]));
    states[slots[c]] := state';
    assert states[..] == stored[slots[c] := state'];
  }

  /**
   The whole scan of one instance from the state `st0`, in chunks of the given
   sizes, each storing its final state to its slot.  The outputs do not depend
   on the sizes: they are those of the unbroken run.
   */
  method ScanInstance(k: Kernel, hasZ: bool, x: Inputs, sizes: seq<nat>, slots: seq<nat>,
                      delta: array<real>, db: nat, z: array<real>, zb: nat, states: array<Vec>,
                      st0: Vec, ghost toks: seq<Token>)
    requires delta != z && PlanOk(toks, sizes, slots, states[..])
    requires RowsHold(x, toks, Rows(delta[..], z[..]), db, zb)
    modifies delta, z, states
    ensures Rows(delta[..], z[..])
            == Overwritten(hasZ, Outs(k, st0, toks), |toks|, old(Rows(delta[..], z[..])), db, zb)
    ensures states[..] == Stored(k, st0, toks, sizes, slots, old(states[..]))
  {
    ghost var rows, cache := Rows(delta[..], z[..]), states[..];
    var state, done := st0, 0;
    OverwrittenNone(hasZ, Outs(k, st0, toks), rows, db, zb);
    for c := 0 to |sizes|
      invariant RunTo(k, hasZ, x, toks, st0, rows, db, zb, sizes, slots, cache,
                      c, done, state, Rows(delta[..], z[..]), states[..])
    {
      state := RunChunk(k, hasZ, x, sizes, slots, delta, db, z, zb, states, c, state, done, st0, toks, rows, cache);
      done := done + sizes[c];
    }
    RunDone(k, hasZ, x, toks, st0, rows, db, zb, sizes, slots, cache, done, state, Rows(delta[..], z[..]), states[..]);
  }

  // ----- the slots the chunks store to -----

  /**
   The block-cached mode: the chunks first..last of a cumulative length table,
   with the cache row of the sequence and the block index of its first and last token.
   */
  datatype Meta = Meta(
    cu: seq<nat>, first: nat, last: nat, blockFirst: nat, blockLast: nat, blockSize: nat, row: seq<nat>)

  ghost predicate CuOk(m: Meta) {
    && m.first <= m.last && m.last + 1 < |m.cu| && m.blockSize > 0
    && (forall i, j :: m.first <= i <= j <= m.last + 1 ==> m.cu[i] <= m.cu[j])
  }

  function Chunks(m: Meta): nat
    requires CuOk(m)
  {
    m.last - m.first + 1
  }

  function ChunkSize(m: Meta, c: nat): nat
    requires CuOk(m) && c < Chunks(m)
  {
    m.cu[m.first + c + 1] - m.cu[m.first + c]
  }

  /** The position counter before chunk c: the first chunk is taken to end its block. */
  function Position(m: Meta, c: nat): nat
    requires CuOk(m) && c <= Chunks(m)
  {
    var offset := if Chunks(m) > 1 && ChunkSize(m, 0) < m.blockSize then m.blockSize - ChunkSize(m, 0) else 0;
    m.blockFirst * m.blockSize + offset + (m.cu[m.first + c] - m.cu[m.first])
  }

  /** The block-table column chunk c stores its state to. */
  function StoreIndex(m: Meta, c: nat): int
    requires CuOk(m) && c < Chunks(m)
  {
    if c == Chunks(m) - 1 then m.blockLast
    else (Position(m, c) + ChunkSize(m, c) - 1) / m.blockSize
  }

  ghost predicate MetaOk(m: Meta) {
    CuOk(m) && forall c :: 0 <= c < Chunks(m) ==> 0 <= StoreIndex(m, c) < |m.row|
  }

  /** The chunk sizes and the cache slot of each chunk, with the running position of the kernel. */
  method ChunkSchedule(m: Meta) returns (sizes: seq<nat>, slots: seq<nat>)
    requires MetaOk(m)
    ensures |sizes| == |slots| == Chunks(m)
    ensures forall c :: 0 <= c < Chunks(m) ==> sizes[c] == ChunkSize(m, c) && slots[c] == m.row[StoreIndex(m, c)]
    ensures Total(sizes) == m.cu[m.last + 1] - m.cu[m.first]
  {
    var n := m.last - m.first + 1;
    var firstTokens := m.cu[m.first + 1] - m.cu[m.first];
    var offset := if n > 1 && firstTokens < m.blockSize then m.blockSize - firstTokens else 0;
    var position := m.blockFirst * m.blockSize + offset;
    sizes, slots := [], [];
    for c := 0 to n
      invariant |sizes| == |slots| == c
      invariant position == Position(m, c)
      invariant forall d :: 0 <= d < c ==> sizes[d] == ChunkSize(m, d) && slots[d] == m.row[StoreIndex(m, d)]
      invariant Total(sizes) == m.cu[m.first + c] - m.cu[m.first]
    {
      var size := m.cu[m.first + c + 1] - m.cu[m.first + c];
      var index := if c == n - 1 then m.blockLast else (position + size - 1) / m.blockSize;
      assert index == StoreIndex(m, c);
      assert (sizes + [size])[..c] == sizes;
      sizes, slots := sizes + [size], slots + [m.row[index]];
      position := position + size;
    }
  }

  /** The first chunk fills its block up, every later chunk but the last is one whole block. */
  ghost predicate BlockChunks(m: Meta) {
    && CuOk(m)
    && 1 <= ChunkSize(m, 0) <= m.blockSize
    && forall c :: 1 <= c < Chunks(m) - 1 ==> ChunkSize(m, c) == m.blockSize
  }

  lemma {:induction false} PositionAt(m: Meta, c: nat)
    requires BlockChunks(m) && 1 <= c < Chunks(m)
    ensures Position(m, c) == (m.blockFirst + c) * m.blockSize
  {
    MulStep(m.blockFirst + c - 1, m.blockSize);
    if c > 1 {
      PositionAt(m, c - 1);
      assert ChunkSize(m, c - 1) == m.blockSize;
    }
  }

  /** Chunk c stores to block blockFirst + c and ends exactly where that block ends. */
  lemma StoreIndexExact(m: Meta, c: nat)
    requires BlockChunks(m) && c < Chunks(m) - 1
    ensures StoreIndex(m, c) == m.blockFirst + c
    ensures Position(m, c + 1) == (m.blockFirst + c + 1) * m.blockSize
  {
    PositionAt(m, c + 1);
    MulStep(m.blockFirst + c, m.blockSize);
    DivUnique(Position(m, c + 1) - 1, m.blockSize, m.blockFirst + c);
  }

  ghost predicate Distinct(s: seq<nat>) {
    forall c, d :: 0 <= c < d < |s| ==> s[c] != s[d]
  }

  /** Every stored slot holds the recurrence run over exactly the tokens up to the end of its chunk. */
  lemma {:induction false} StoredStateExact<S, T, O>(k: Machine<S, T, O>, st: S, toks: seq<T>,
                                                     sizes: seq<nat>, slots: seq<nat>, states: seq<S>, d: nat)
    requires Total(sizes) <= |toks| && |slots| == |sizes| && (forall c :: 0 <= c < |slots| ==> slots[c] < |states|)
    requires Distinct(slots) && d < |sizes|
    ensures Total(sizes[..d + 1]) <= |toks|
    ensures Stored(k, st, toks, sizes, slots, states)[slots[d]] == Fold(k, st, toks[..Total(sizes[..d + 1])])
  {
    var last := |sizes| - 1;
    TotalMonotone(sizes, d + 1);
    if d < last {
      TotalMonotone(sizes, last);
      StoredStateExact(k, st, toks, sizes[..last], slots[..last], states, d);
      assert sizes[..last][..d + 1] == sizes[..d + 1];
    } else {
      TakeAll(sizes);
    }
  }

  /**
   Resuming from any stored slot gives the outputs and the final state of the
   uninterrupted run, from the cut on.
   */
  lemma ResumeExact<S, T, O>(k: Machine<S, T, O>, st: S, toks: seq<T>,
                             sizes: seq<nat>, slots: seq<nat>, states: seq<S>, d: nat)
    requires Total(sizes) == |toks| && |slots| == |sizes| && (forall c :: 0 <= c < |slots| ==> slots[c] < |states|)
    requires Distinct(slots) && d < |sizes|
    ensures Total(sizes[..d + 1]) <= |toks|
    ensures var cut := Total(sizes[..d + 1]);
            var saved := Stored(k, st, toks, sizes, slots, states)[slots[d]];
            && Outs(k, saved, toks[cut..]) == Outs(k, st, toks)[cut..]
            && Fold(k, saved, toks[cut..]) == Fold(k, st, toks)
  {
    StoredStateExact(k, st, toks, sizes, slots, states, d);
    ScanSplit(k, st, toks, Total(sizes[..d + 1]));
  }
}
