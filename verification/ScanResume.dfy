/**
 One prefill of a request in block-cached mode, from the metadata builder
 (vllm/v1/attention/backends/mamba_attn.py) to the kernel (vllm/_xpu_ops.py): where every
 intermediate state goes, and that a later prefill may start from any of them.
 */
module ScanResume {
  import opened Arith
  import opened SelectiveScan
  import opened ChunkMetadata
  import opened ScanGrid
  import opened Wrappers

  // ----- the block indices of the builder -----

  /** The block of the first scheduled token: one less than the blocks of one more token. */
  function BlockFirst(computed: nat, bs: nat): nat
    requires bs > 0
  {
    BlocksBounds(computed + 1, bs);
    Blocks(computed + 1, bs) - 1
  }

  /** The block of the last scheduled token; zero for an empty sequence. */
  function BlockLast(computed: nat, newTokens: nat, bs: nat): nat
    requires bs > 0
  {
    if Blocks(computed + newTokens, bs) == 0 then 0 else Blocks(computed + newTokens, bs) - 1
  }

  /** The column of the last computed token, where a prefill finds its initial state; zero if there is none. */
  function LoadColumn(computed: nat, bs: nat): nat
    requires bs > 0
  {
    if Blocks(computed, bs) == 0 then 0 else Blocks(computed, bs) - 1
  }

  lemma LoadsBefore(computed: nat, newTokens: nat, bs: nat)
    requires bs > 0 && newTokens > 0
    ensures LoadColumn(computed, bs) <= BlockFirst(computed, bs) <= BlockLast(computed, newTokens, bs)
  {
    BlocksGrow(computed, 1, bs);
    BlocksGrow(computed + 1, newTokens - 1, bs);
  }

  lemma BlockOf(n: nat, bs: nat)
    requires bs > 0
    ensures Blocks(n + 1, bs) == n / bs + 1
  {
    BlocksBounds(n + 1, bs);
    MulStep(Blocks(n + 1, bs), bs);
    DivUnique(n, bs, Blocks(n + 1, bs) - 1);
  }

  lemma {:induction false} BlocksShift(q: nat, n: nat, bs: nat)
    requires bs > 0 && n > 0
    ensures q * bs + n > 0 && Blocks(q * bs + n, bs) == q + Blocks(n, bs)
  {
    if q > 0 {
      BlocksShift(q - 1, n, bs);
      MulStep(q, bs);
    }
  }

  lemma {:induction false} WholeCount(n: nat, bs: nat)
    requires bs > 0
    ensures |Whole(n, bs)| == Blocks(n, bs)
  {
    if n > 0 {
      WholeCount(n - Min(bs, n), bs);
    }
  }

  /** A request has one chunk for each block its new tokens touch. */
  lemma LensCount(computed: nat, newTokens: nat, bs: nat)
    requires bs > 0 && newTokens > 0
    ensures |Lens(computed, newTokens, bs)| == Blocks(computed + newTokens, bs) - computed / bs
  {
    var q, r := computed / bs, computed % bs;
    DivBounds(computed, bs);
    BlocksShift(q, r + newTokens, bs);
    if r == 0 {
      WholeCount(newTokens, bs);
    } else {
      var head := Min(bs - r, newTokens);
      WholeCount(newTokens - head, bs);
      if newTokens > head {
        assert Blocks(r + newTokens, bs) == 1 + Blocks(r + newTokens - bs, bs);
      }
    }
  }

  /** The table and block indices the builder makes for one request. */
  ghost predicate Built(m: Meta, computed: nat, newTokens: nat) {
    && TableOf(m, computed, newTokens) && newTokens > 0
    && m.blockFirst == BlockFirst(computed, m.blockSize) && m.blockLast == BlockLast(computed, newTokens, m.blockSize)
  }

  /** The last chunk ends in the block right behind the others. */
  lemma LastBlock(m: Meta, computed: nat, newTokens: nat)
    requires Built(m, computed, newTokens)
    ensures m.blockFirst == computed / m.blockSize && m.blockLast == m.blockFirst + Chunks(m) - 1
  {
    BlockOf(computed, m.blockSize);
    LensCount(computed, newTokens, m.blockSize);
  }

  /** Every chunk, the last one included, stores to its own block, in order. */
  lemma StoreIndexAll(m: Meta, computed: nat, newTokens: nat, c: nat)
    requires Built(m, computed, newTokens) && c < Chunks(m)
    ensures StoreIndex(m, c) == m.blockFirst + c
  {
    LastBlock(m, computed, newTokens);
    if c < Chunks(m) - 1 {
      KernelPositionsExact(m, computed, newTokens, c);
    }
  }

  /** The row repeats no slot in the columns from lo to hi; what stands outside of them does not matter. */
  ghost predicate NoRepeats(row: seq<nat>, lo: nat, hi: nat) {
    hi < |row| && forall i, j :: lo <= i < j <= hi ==> row[i] != row[j]
  }

  /** All slots a prefill stores to are pairwise distinct when its own columns of the cache row are. */
  lemma StoreSlotsDistinct(m: Meta, computed: nat, newTokens: nat, c: nat, d: nat)
    requires Built(m, computed, newTokens) && NoRepeats(m.row, m.blockFirst, m.blockLast) && c < d < Chunks(m)
    ensures 0 <= StoreIndex(m, c) < StoreIndex(m, d) < |m.row| && m.row[StoreIndex(m, c)] != m.row[StoreIndex(m, d)]
  {
    LastBlock(m, computed, newTokens);
    StoreIndexAll(m, computed, newTokens, c);
    StoreIndexAll(m, computed, newTokens, d);
  }

  // ----- which tokens a stored state has seen -----

  /** How many of the new tokens lie before the end of the c-th block from the first one. */
  function Boundary(computed: nat, newTokens: nat, bs: nat, c: nat): nat
    requires bs > 0
  {
    BlockEndBehind(computed, bs, c);
    Min(BlockEnd(computed, bs, c) - computed, newTokens)
  }

  function BlockEnd(computed: nat, bs: nat, c: nat): int
    requires bs > 0
  {
    (BlockFirst(computed, bs) + c + 1) * bs
  }

  lemma BlockEndBehind(computed: nat, bs: nat, c: nat)
    requires bs > 0
    ensures BlockEnd(computed, bs, c) > computed
  {
    BlocksBounds(computed + 1, bs);
    MulMono(BlockFirst(computed, bs) + 1, BlockFirst(computed, bs) + c + 1, bs);
  }

  ghost predicate Follows(m: Meta, sizes: seq<nat>)
    requires CuOk(m)
  {
    |sizes| == Chunks(m) && forall c :: 0 <= c < Chunks(m) ==> sizes[c] == ChunkSize(m, c)
  }

  lemma {:induction false} SizesTotal(m: Meta, sizes: seq<nat>, c: nat)
    requires CuOk(m) && Follows(m, sizes) && c <= Chunks(m)
    ensures Total(sizes[..c]) == m.cu[m.first + c] - m.cu[m.first]
  {
    if c > 0 {
      SizesTotal(m, sizes, c - 1);
      TotalSnoc(sizes, c - 1);
    }
  }

  /** The chunks up to c hold the new tokens up to the end of block number c. */
  lemma ChunkReachesBoundary(m: Meta, computed: nat, newTokens: nat, sizes: seq<nat>, c: nat)
    requires Built(m, computed, newTokens) && Follows(m, sizes) && c < Chunks(m)
    ensures Total(sizes[..c + 1]) == Boundary(computed, newTokens, m.blockSize, c)
    ensures Total(sizes) == newTokens
  {
    var bs := m.blockSize;
    BuiltTotal(m, computed, newTokens, sizes);
    TotalMonotone(sizes, c + 1);
    SizesTotal(m, sizes, c + 1);
    if c < Chunks(m) - 1 {
      EarlyBoundary(m, computed, newTokens, c);
    } else {
      assert sizes[..c + 1] == sizes;
      LastBlock(m, computed, newTokens);
      BlocksBounds(computed + newTokens, bs);
    }
  }

  lemma EarlyBoundary(m: Meta, computed: nat, newTokens: nat, c: nat)
    requires Built(m, computed, newTokens) && c < Chunks(m) - 1
    ensures computed + (m.cu[m.first + c + 1] - m.cu[m.first]) == BlockEnd(computed, m.blockSize, c)
  {
    LastBlock(m, computed, newTokens);
    KernelPositionsExact(m, computed, newTokens, c);
    StoreIndexExact(m, c);
    assert Position(m, c + 1) == Position(m, c) + (m.cu[m.first + c + 1] - m.cu[m.first + c]);
  }

  // ----- the whole prefill -----

  /** An instance that works off the chunks of this table. */
  ghost predicate Driven(i: Inst, m: Meta) {
    && CuOk(m) && !Skips(i) && Follows(m, i.sizes) && |i.slots| == Chunks(m)
    && forall c :: 0 <= c < Chunks(m) ==> 0 <= StoreIndex(m, c) < |m.row| && i.slots[c] == m.row[StoreIndex(m, c)]
  }

  lemma DrivenDistinct(i: Inst, m: Meta, computed: nat, newTokens: nat)
    requires Built(m, computed, newTokens) && Driven(i, m) && NoRepeats(m.row, m.blockFirst, m.blockLast)
    ensures Distinct(i.slots)
  {
    forall c, d | 0 <= c < d < |i.slots| ensures i.slots[c] != i.slots[d] {
      StoreSlotsDistinct(m, computed, newTokens, c, d);
    }
  }

  /** Going on from this state gives the outputs and the final state of the uninterrupted run, from the cut on. */
  ghost predicate Resumes(k: Kernel, st: Vec, toks: seq<Token>, cut: nat, saved: Vec)
    requires cut <= |toks|
  {
    Outs(k, saved, toks[cut..]) == Outs(k, st, toks)[cut..] && Fold(k, saved, toks[cut..]) == Fold(k, st, toks)
  }

  /** The slot of the block holds the state after the first `cut` tokens, and a run may go on from it. */
  ghost predicate Saved(i: Inst, mem: Mem, row: seq<nat>, states: seq<Vec>, cut: nat, block: nat)
    requires Fits(i, mem)
  {
    && cut <= Len(i) && block < |row| && row[block] < |states|
    && states[row[block]] == Fold(i.kernel, Start(i, mem), Toks(i, mem)[..cut])
    && Resumes(i.kernel, Start(i, mem), Toks(i, mem), cut, states[row[block]])
  }

  /**
   After the prefill the slot of block number c from its first one holds the recurrence over exactly
   the tokens up to the end of that block, and a run resumed from it is exact.
   */
  lemma PrefillStores(i: Inst, m: Meta, mem: Mem, computed: nat, newTokens: nat, c: nat)
    requires Built(m, computed, newTokens) && Driven(i, m) && NoRepeats(m.row, m.blockFirst, m.blockLast)
    requires Fits(i, mem) && c < Chunks(m)
    ensures Saved(i, mem, m.row, Run(i, mem).states, Boundary(computed, newTokens, m.blockSize, c), m.blockFirst + c)
  {
    DrivenDistinct(i, m, computed, newTokens);
    StoreIndexAll(m, computed, newTokens, c);
    ChunkReachesBoundary(m, computed, newTokens, i.sizes, c);
    ResumeExact(i.kernel, Start(i, mem), Toks(i, mem), i.sizes, i.slots, mem.states, c);
    StoredStateExact(i.kernel, Start(i, mem), Toks(i, mem), i.sizes, i.slots, mem.states, c);
  }

  /** Slots outside the columns of the prefill keep their state. */
  lemma PrefillFrame(i: Inst, m: Meta, mem: Mem, computed: nat, newTokens: nat, s: nat)
    requires Built(m, computed, newTokens) && m.blockLast < |m.row| && Driven(i, m) && Fits(i, mem)
    requires s < |mem.states| && forall b :: m.blockFirst <= b <= m.blockLast ==> m.row[b] != s
    ensures Run(i, mem).states[s] == mem.states[s]
  {
    LastBlock(m, computed, newTokens);
    forall c | 0 <= c < |i.slots| ensures i.slots[c] != s {
      StoreIndexAll(m, computed, newTokens, c);
    }
    StoredFrame(i.kernel, Start(i, mem), Toks(i, mem), i.sizes, i.slots, mem.states, s);
  }

  /** Build the chunk table of a batch, read request r's part of it, and schedule its chunks. */
  method Schedule(computed: seq<nat>, newTokens: seq<nat>, bs: nat, r: nat, row: seq<nat>)
    returns (sizes: seq<nat>, slots: seq<nat>, m: Meta)
    requires bs > 0 && r < |computed| == |newTokens| && newTokens[r] > 0
    requires BlockLast(computed[r], newTokens[r], bs) < |row|
    ensures Built(m, computed[r], newTokens[r]) && m.row == row && m.blockSize == bs && m.blockLast < |row|
    ensures Follows(m, sizes) && Total(sizes) == newTokens[r] && |slots| == Chunks(m)
    ensures forall c :: 0 <= c < Chunks(m) ==> 0 <= StoreIndex(m, c) < |row| && slots[c] == row[StoreIndex(m, c)]
  {
    var cu, _, lasts := ComputeChunkMetadata(bs, computed, newTokens);
    var blockFirst, blockLast := BlockFirst(computed[r], bs), BlockLast(computed[r], newTokens[r], bs);
    ghost var lists := ChunkLists(computed, newTokens, bs);
    BuiltTable(computed, newTokens, bs, r, blockFirst, blockLast, row);
    BuiltBounds(lists, bs, r, blockFirst, blockLast, row);
    var first := if r == 0 then 0 else lasts[r - 1] + 1;
    m := Meta(cu, first, lasts[r], blockFirst, blockLast, bs, row);
    assert m == RequestMeta(lists, bs, r, blockFirst, blockLast, row);
    SlotsInRow(m, computed[r], newTokens[r]);
    sizes, slots := ChunkSchedule(m);
    BuiltTotal(m, computed[r], newTokens[r], sizes);
  }

  /** The columns of the row a prefill reads or writes name slots of the cache, and none is written twice. */
  ghost predicate RowFits(row: seq<nat>, computed: nat, newTokens: nat, bs: nat, n: nat)
    requires bs > 0
  {
    var last := BlockLast(computed, newTokens, bs);
    && NoRepeats(row, BlockFirst(computed, bs), last)
    && forall b :: LoadColumn(computed, bs) <= b <= last ==> row[b] < n
  }

  /** The cell the cache index of a prefill names. */
  function SourceOf(row: seq<nat>, computed: nat, bs: nat): nat
    requires bs > 0 && LoadColumn(computed, bs) < |row|
  {
    row[LoadColumn(computed, bs)]
  }

  /** The instance a prefill launches. */
  method Launched(kernel: Kernel, hasZ: bool, x: Inputs, computed: seq<nat>, newTokens: seq<nat>, bs: nat, r: nat,
                  row: seq<nat>, nil: nat, hasInit: bool, zero: Vec, db: nat, zb: nat, ghost n: nat)
    returns (i: Inst, m: Meta)
    requires bs > 0 && r < |computed| == |newTokens| && newTokens[r] > 0
    requires RowFits(row, computed[r], newTokens[r], bs, n) && |x.u| == |x.B| == |x.C| == newTokens[r]
    ensures Built(m, computed[r], newTokens[r]) && m.row == row && m.blockSize == bs
    ensures LoadColumn(computed[r], bs) < |row| && InstOk(i, db + newTokens[r], zb + newTokens[r], n)
    ensures i
            == Inst(kernel, hasZ, x, i.sizes, i.slots, db, zb, SourceOf(row, computed[r], bs), hasInit, Some(nil), zero)
    ensures Follows(m, i.sizes) && |i.slots| == Chunks(m) && NoRepeats(m.row, m.blockFirst, m.blockLast)
    ensures forall c :: 0 <= c < Chunks(m) ==> 0 <= StoreIndex(m, c) < |row| && i.slots[c] == row[StoreIndex(m, c)]
  {
    LoadsBefore(computed[r], newTokens[r], bs);
    var sizes, slots;
    sizes, slots, m := Schedule(computed, newTokens, bs, r, row);
    i := Inst(kernel, hasZ, x, sizes, slots, db, zb, SourceOf(row, computed[r], bs), hasInit, Some(nil), zero);
    SlotsInside(i, m, computed[r], newTokens[r], n);
  }

  /**
   The prefill of request r of a batch, from the metadata builder to the kernel running in place.  When
   the column of the last computed token names the null block nothing happens.  Otherwise the slot of
   each block the new tokens touch holds the state at the end of that block, and a later run may go on
   from it.
   */
  method Prefill(kernel: Kernel, hasZ: bool, x: Inputs, computed: seq<nat>, newTokens: seq<nat>, bs: nat, r: nat,
                 row: seq<nat>, nil: nat, hasInit: bool, zero: Vec,
                 delta: array<real>, db: nat, z: array<real>, zb: nat, states: array<Vec>)
    returns (ghost i: Inst, ghost m: Meta)
    requires bs > 0 && r < |computed| == |newTokens| && newTokens[r] > 0
    requires RowFits(row, computed[r], newTokens[r], bs, states.Length) && |x.u| == |x.B| == |x.C| == newTokens[r]
    requires delta != z && db + newTokens[r] <= delta.Length && zb + newTokens[r] <= z.Length
    modifies delta, z, states
    ensures Built(m, computed[r], newTokens[r]) && m.row == row && m.blockSize == bs
    ensures LoadColumn(computed[r], bs) < |row| && Fits(i, old(Mem(delta[..], z[..], states[..])))
    ensures i
            == Inst(kernel, hasZ, x, i.sizes, i.slots, db, zb, SourceOf(row, computed[r], bs), hasInit, Some(nil), zero)
    ensures Mem(delta[..], z[..], states[..]) == Run(i, old(Mem(delta[..], z[..], states[..])))
    ensures SourceOf(row, computed[r], bs) == nil ==>
              Mem(delta[..], z[..], states[..]) == old(Mem(delta[..], z[..], states[..]))
    ensures SourceOf(row, computed[r], bs) != nil ==>
              && Driven(i, m)
              && AllSaved(i, m, old(Mem(delta[..], z[..], states[..])), states[..], computed[r], newTokens[r])
  {
    ghost var mem := Mem(delta[..], z[..], states[..]);
    var inst, meta :=
      Launched(kernel, hasZ, x, computed, newTokens, bs, r, row, nil, hasInit, zero, db, zb, |mem.states|);
    i, m := inst, meta;
    if !Skips(inst) {
      AllPrefillStores(i, m, mem, computed[r], newTokens[r]);
    }
    RunKernel(inst, delta, z, states);
  }

  /** Every block the new tokens touch has its state saved. */
  ghost predicate AllSaved(i: Inst, m: Meta, mem: Mem, states: seq<Vec>, computed: nat, newTokens: nat)
    requires Fits(i, mem) && CuOk(m)
  {
    forall c :: 0 <= c < Chunks(m) ==>
                  Saved(i, mem, m.row, states, Boundary(computed, newTokens, m.blockSize, c), m.blockFirst + c)
  }

  lemma AllPrefillStores(i: Inst, m: Meta, mem: Mem, computed: nat, newTokens: nat)
    requires Built(m, computed, newTokens) && Driven(i, m) && Fits(i, mem)
    requires NoRepeats(m.row, m.blockFirst, m.blockLast)
    ensures AllSaved(i, m, mem, Run(i, mem).states, computed, newTokens)
  {
    forall c | 0 <= c < Chunks(m)
      ensures Saved(i, mem, m.row, Run(i, mem).states, Boundary(computed, newTokens, m.blockSize, c), m.blockFirst + c)
    {
      PrefillStores(i, m, mem, computed, newTokens, c);
    }
  }

  lemma SlotsInside(i: Inst, m: Meta, computed: nat, newTokens: nat, n: nat)
    requires Built(m, computed, newTokens) && m.blockLast < |m.row| && |i.slots| == Chunks(m)
    requires forall c :: 0 <= c < Chunks(m) ==> 0 <= StoreIndex(m, c) < |m.row| && i.slots[c] == m.row[StoreIndex(m, c)]
    requires forall b :: m.blockFirst <= b <= m.blockLast ==> m.row[b] < n
    ensures forall c :: 0 <= c < |i.slots| ==> i.slots[c] < n
  {
    LastBlock(m, computed, newTokens);
    forall c | 0 <= c < |i.slots| ensures i.slots[c] < n {
      StoreIndexAll(m, computed, newTokens, c);
    }
  }

  lemma SlotsInRow(m: Meta, computed: nat, newTokens: nat)
    requires Built(m, computed, newTokens) && m.blockLast < |m.row|
    ensures MetaOk(m)
  {
    LastBlock(m, computed, newTokens);
    forall c | 0 <= c < Chunks(m) ensures 0 <= StoreIndex(m, c) < |m.row| {
      StoreIndexAll(m, computed, newTokens, c);
    }
  }

  lemma BuiltTotal(m: Meta, computed: nat, newTokens: nat, sizes: seq<nat>)
    requires Built(m, computed, newTokens) && Follows(m, sizes)
    ensures Total(sizes) == newTokens
  {
    assert sizes == Lens(computed, newTokens, m.blockSize);
  }

  // ----- a prompt in several prefills -----

  /** The column a following prefill loads from holds the state after all tokens of this one. */
  lemma LastSlot(i: Inst, m: Meta, mem: Mem, computed: nat, newTokens: nat)
    requires Built(m, computed, newTokens) && Driven(i, m) && Fits(i, mem)
    requires NoRepeats(m.row, m.blockFirst, m.blockLast)
    ensures LoadColumn(computed + newTokens, m.blockSize) == m.blockLast && m.row[m.blockLast] < |mem.states|
    ensures Run(i, mem).states[m.row[m.blockLast]] == Fold(i.kernel, Start(i, mem), Toks(i, mem))
  {
    LastBlock(m, computed, newTokens);
    var c := Chunks(m) - 1;
    PrefillStores(i, m, mem, computed, newTokens, c);
    ChunkReachesBoundary(m, computed, newTokens, i.sizes, c);
    assert i.sizes[..c + 1] == i.sizes;
    assert Toks(i, mem)[..Len(i)] == Toks(i, mem);
  }

  /** A stretch of a run: the state it starts from and its tokens. */
  datatype Piece = Piece(st: Vec, toks: seq<Token>)

  function PieceEnd(k: Kernel, p: Piece): Vec {
    Fold(k, p.st, p.toks)
  }

  predicate Linked(k: Kernel, ps: seq<Piece>, j: nat)
    requires 0 < j < |ps|
  {
    ps[j].st == PieceEnd(k, ps[j - 1])
  }

  /** The tokens of all pieces, one behind the other. */
  function AllToks(ps: seq<Piece>): seq<Token> {
    if ps == [] then [] else AllToks(ps[..|ps| - 1]) + ps[|ps| - 1].toks
  }

  /** The outputs of all pieces, one behind the other. */
  function AllOuts(k: Kernel, ps: seq<Piece>): seq<(real, real)> {
    if ps == [] then [] else AllOuts(k, ps[..|ps| - 1]) + Outs(k, ps[|ps| - 1].st, ps[|ps| - 1].toks)
  }

  lemma RunsJoin(k: Kernel, st: Vec, a: seq<Token>, b: seq<Token>)
    ensures Fold(k, st, a + b) == Fold(k, Fold(k, st, a), b)
    ensures Outs(k, st, a + b) == Outs(k, st, a) + Outs(k, Fold(k, st, a), b)
  {
    ScanSplit(k, st, a + b, |a|);
    assert (a + b)[..|a|] == a && (a + b)[|a|..] == b;
  }

  /** Pieces that each go on from the end of the one before are one run. */
  lemma {:induction false} PiecesAreOne(k: Kernel, ps: seq<Piece>)
    requires ps != [] && forall j :: 0 < j < |ps| ==> Linked(k, ps, j)
    ensures AllOuts(k, ps) == Outs(k, ps[0].st, AllToks(ps))
    ensures PieceEnd(k, ps[|ps| - 1]) == Fold(k, ps[0].st, AllToks(ps))
  {
    var front, p := ps[..|ps| - 1], ps[|ps| - 1];
    if front == [] {
      assert [] + p.toks == p.toks && [] + Outs(k, p.st, p.toks) == Outs(k, p.st, p.toks);
    } else {
      forall j | 0 < j < |front| ensures Linked(k, front, j) {
        assert Linked(k, ps, j);
      }
      PiecesAreOne(k, front);
      assert p.st == PieceEnd(k, front[|front| - 1]) by {
        assert Linked(k, ps, |ps| - 1);
      }
      RunsJoin(k, ps[0].st, AllToks(front), p.toks);
    }
  }

  /** One prefill: the instance, its table, the memory it starts in and its number of tokens. */
  datatype Turn = Turn(i: Inst, m: Meta, mem: Mem, tokens: nat)

  ghost predicate TurnOk(t: Turn, k: Kernel, computed: nat) {
    && Built(t.m, computed, t.tokens) && Driven(t.i, t.m) && Fits(t.i, t.mem) && t.i.kernel == k
    && NoRepeats(t.m.row, t.m.blockFirst, t.m.blockLast)
  }

  /**
   The prefill u goes on where t stopped: it loads from the column of the last computed token, which
   names the same slot in both rows and still holds what t left there.
   */
  ghost predicate GoesOn(t: Turn, u: Turn, computed: nat)
    requires Fits(t.i, t.mem) && t.m.blockSize > 0
  {
    var column := LoadColumn(computed, t.m.blockSize);
    && u.m.blockSize == t.m.blockSize
    && column < |t.m.row| && column < |u.m.row| && u.m.row[column] == t.m.row[column]
    && u.i.hasInit && u.i.source == u.m.row[column] && |u.mem.states| == |t.mem.states|
    && u.m.row[column] < |u.mem.states| && u.mem.states[u.m.row[column]] == Run(t.i, t.mem).states[u.m.row[column]]
  }

  function PieceOf(t: Turn): Piece
    requires Fits(t.i, t.mem)
  {
    Piece(Start(t.i, t.mem), Toks(t.i, t.mem))
  }

  /** A following prefill starts from the state after all tokens of the one before. */
  lemma StartsThere(t: Turn, u: Turn, k: Kernel, computed: nat)
    requires TurnOk(t, k, computed) && Fits(u.i, u.mem) && GoesOn(t, u, computed + t.tokens)
    ensures PieceOf(u).st == PieceEnd(k, PieceOf(t))
  {
    LastSlot(t.i, t.m, t.mem, computed, t.tokens);
  }

  /** The tokens of the first n prefills. */
  function TokensOf(ts: seq<Turn>, n: nat): nat
    requires n <= |ts|
  {
    if n == 0 then 0 else TokensOf(ts, n - 1) + ts[n - 1].tokens
  }

  ghost predicate TurnAt(ts: seq<Turn>, k: Kernel, computed: nat, j: nat)
    requires j < |ts|
  {
    TurnOk(ts[j], k, computed + TokensOf(ts, j))
  }

  ghost predicate GoesOnAt(ts: seq<Turn>, k: Kernel, computed: nat, j: nat)
    requires 0 < j < |ts| && TurnAt(ts, k, computed, j - 1)
  {
    GoesOn(ts[j - 1], ts[j], computed + TokensOf(ts, j))
  }

  /** A prompt worked off in any number of prefills, the first one after `computed` tokens. */
  ghost predicate Prefills(ts: seq<Turn>, k: Kernel, computed: nat) {
    && ts != [] && (forall j :: 0 <= j < |ts| ==> TurnAt(ts, k, computed, j))
    && (forall j :: 0 < j < |ts| ==> GoesOnAt(ts, k, computed, j))
  }

  ghost predicate AllFit(ts: seq<Turn>) {
    forall j :: 0 <= j < |ts| ==> Fits(ts[j].i, ts[j].mem)
  }

  function Pieces(ts: seq<Turn>): (r: seq<Piece>)
    requires AllFit(ts)
    ensures |r| == |ts| && forall j :: 0 <= j < |ts| ==> r[j] == PieceOf(ts[j])
  {
    seq(|ts|, j requires 0 <= j < |ts| => PieceOf(ts[j]))
  }

  lemma PrefillsFit(ts: seq<Turn>, k: Kernel, computed: nat)
    requires Prefills(ts, k, computed)
    ensures AllFit(ts)
  {
    forall j | 0 <= j < |ts| ensures Fits(ts[j].i, ts[j].mem) {
      assert TurnAt(ts, k, computed, j);
    }
  }

  lemma NextTurn(ts: seq<Turn>, k: Kernel, computed: nat, j: nat)
    requires 0 < j < |ts| && AllFit(ts) && TurnAt(ts, k, computed, j - 1) && GoesOnAt(ts, k, computed, j)
    ensures Linked(k, Pieces(ts), j)
  {
    var before := computed + TokensOf(ts, j - 1);
    assert computed + TokensOf(ts, j) == before + ts[j - 1].tokens;
    StartsThere(ts[j - 1], ts[j], k, before);
    PiecesLinked(ts, k, j);
  }

  lemma PiecesLinked(ts: seq<Turn>, k: Kernel, j: nat)
    requires 0 < j < |ts| && AllFit(ts) && PieceOf(ts[j]).st == PieceEnd(k, PieceOf(ts[j - 1]))
    ensures Linked(k, Pieces(ts), j)
  {
  }

  /** However a prompt is cut into prefills, outputs and final state are those of one run over all its tokens. */
  lemma PrefillsAreOne(ts: seq<Turn>, k: Kernel, computed: nat)
    requires Prefills(ts, k, computed)
    ensures AllFit(ts)
    ensures var ps := Pieces(ts);
            && AllOuts(k, ps) == Outs(k, ps[0].st, AllToks(ps))
            && PieceEnd(k, ps[|ps| - 1]) == Fold(k, ps[0].st, AllToks(ps))
  {
    PrefillsFit(ts, k, computed);
    forall j | 0 < j < |ts| ensures Linked(k, Pieces(ts), j) {
      assert TurnAt(ts, k, computed, j - 1);
      NextTurn(ts, k, computed, j);
    }
    PiecesAreOne(k, Pieces(ts));
  }

  /** After the last prefill the slot of its last block holds the state of that one run. */
  lemma PrefillsSave(ts: seq<Turn>, k: Kernel, computed: nat)
    requires Prefills(ts, k, computed)
    ensures AllFit(ts)
    ensures var u, ps := ts[|ts| - 1], Pieces(ts);
            && u.m.blockLast < |u.m.row| && u.m.row[u.m.blockLast] < |u.mem.states|
            && Run(u.i, u.mem).states[u.m.row[u.m.blockLast]] == Fold(k, ps[0].st, AllToks(ps))
  {
    PrefillsAreOne(ts, k, computed);
    var u := ts[|ts| - 1];
    assert TurnAt(ts, k, computed, |ts| - 1);
    LastSlot(u.i, u.m, u.mem, computed + TokensOf(ts, |ts| - 1), u.tokens);
  }
}
