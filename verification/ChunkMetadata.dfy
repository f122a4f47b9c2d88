/**
 The chunk table the scan is driven by (vllm/v1/attention/backends/mamba_attn.py):
 every sequence is cut so that its state is available at each block boundary.
 */
module ChunkMetadata {
  import opened Seqs
  import opened Arith
  import opened SelectiveScan

  function Min(a: nat, b: nat): nat {
    if a < b then a else b
  }

  /** Whole chunks of n tokens, the last one possibly short. */
  function Whole(n: nat, bs: nat): (r: seq<nat>)
    requires bs > 0
    ensures Total(r) == n
    decreases n
  {
    if n == 0 then []
    else
      var rest := Whole(n - Min(bs, n), bs);
      TotalCons(Min(bs, n), rest);
      [Min(bs, n)] + rest
  }

  lemma {:induction false} TotalCons(x: nat, s: seq<nat>)
    ensures Total([x] + s) == x + Total(s)
  {
    if s == [] {
      assert [x] + s == [x] && [x][..0] == [];
    } else {
      var last := |s| - 1;
      TotalCons(x, s[..last]);
      assert ([x] + s)[..|s|] == [x] + s[..last];
    }
  }

  /** The chunks of one request: first finish the started block, then whole blocks. */
  function Lens(computed: nat, newTokens: nat, bs: nat): (r: seq<nat>)
    requires bs > 0
    ensures Total(r) == newTokens
  {
    if computed % bs != 0 then
      var head := Min(bs - computed % bs, newTokens);
      TotalCons(head, Whole(newTokens - head, bs));
      [head] + Whole(newTokens - head, bs)
    else Whole(newTokens, bs)
  }

  /** The chunks of every request. */
  function ChunkLists(computed: seq<nat>, newTokens: seq<nat>, bs: nat): (r: seq<seq<nat>>)
    requires bs > 0 && |computed| == |newTokens|
    ensures |r| == |newTokens| && forall i :: 0 <= i < |r| ==> r[i] == Lens(computed[i], newTokens[i], bs)
  {
    seq(|newTokens|, i requires 0 <= i < |newTokens| => Lens(computed[i], newTokens[i], bs))
  }

  /** The index of the last chunk of each request. */
  function Lasts(lists: seq<seq<nat>>): (l: seq<int>)
    ensures |l| == |lists|
  {
    if lists == [] then [] else Lasts(lists[..|lists| - 1]) + [|Flat(lists)| - 1]
  }

  lemma LastsTake(lists: seq<seq<nat>>, r: nat)
    requires r < |lists|
    ensures Lasts(lists[..r + 1]) == Lasts(lists[..r]) + [|Flat(lists[..r + 1])| - 1]
  {
    assert lists[..r + 1][..r] == lists[..r];
  }

  /** Where each chunk starts. */
  function Starts(sizes: seq<nat>): (r: seq<nat>)
    ensures |r| == |sizes|
  {
    if sizes == [] then [] else Starts(sizes[..|sizes| - 1]) + [Total(sizes[..|sizes| - 1])]
  }

  lemma StartsSnoc(sizes: seq<nat>, size: nat)
    ensures Starts(sizes + [size]) == Starts(sizes) + [Total(sizes)]
    ensures Total(sizes + [size]) == Total(sizes) + size
  {
    assert (sizes + [size])[..|sizes|] == sizes;
  }

  /** The table entry of a chunk is the number of tokens in the chunks before it. */
  lemma {:induction false} StartsAt(sizes: seq<nat>, i: nat)
    requires i < |sizes|
    ensures Starts(sizes)[i] == Total(sizes[..i])
  {
    var last := |sizes| - 1;
    if i < last {
      StartsAt(sizes[..last], i);
      assert sizes[..last][..i] == sizes[..i];
    }
  }

  function Repeat(x: nat, n: nat): (r: seq<nat>)
    ensures |r| == n && forall i :: 0 <= i < n ==> r[i] == x
  {
    seq(n, _ => x)
  }

  lemma RepeatCons(owners: seq<nat>, x: nat, n: nat)
    ensures (owners + [x]) + Repeat(x, n) == owners + Repeat(x, n + 1)
  {
  }

  /** The request each chunk belongs to. */
  function Owners(lists: seq<seq<nat>>): (r: seq<nat>)
    ensures |r| == |Flat(lists)|
  {
    if lists == [] then [] else Owners(lists[..|lists| - 1]) + Repeat(|lists| - 1, |lists[|lists| - 1]|)
  }

  lemma OwnersTake(lists: seq<seq<nat>>, r: nat)
    requires r < |lists|
    ensures Owners(lists[..r + 1]) == Owners(lists[..r]) + Repeat(r, |lists[r]|)
  {
    assert lists[..r + 1][..r] == lists[..r];
  }

  /** A chunk belongs to the one request whose chunk list it is in. */
  lemma {:induction false} OwnerAt(lists: seq<seq<nat>>, r: nat, c: nat)
    requires r < |lists| && c < |lists[r]|
    ensures |Flat(lists[..r])| + c < |Owners(lists)| && Owners(lists)[|Flat(lists[..r])| + c] == r
  {
    var n := |lists| - 1;
    if r < n {
      OwnerAt(lists[..n], r, c);
      assert lists[..n][..r] == lists[..r];
    } else {
      assert lists[..r] == lists[..n];
    }
  }

  /** Appends the whole chunks of one request. */
  method AppendWhole(bs: nat, r: nat, newTokens: nat, cu: seq<nat>, owners: seq<nat>, pos: nat, ghost sizes: seq<nat>)
    returns (cu': seq<nat>, owners': seq<nat>, pos': nat)
    requires bs > 0 && cu == Starts(sizes) && pos == Total(sizes)
    ensures cu' == Starts(sizes + Whole(newTokens, bs)) && pos' == Total(sizes + Whole(newTokens, bs))
    ensures owners' == owners + Repeat(r, |Whole(newTokens, bs)|)
  {
    cu', owners', pos' := cu, owners, pos;
    var left := newTokens;
    ghost var done := sizes;
    while left > 0
      invariant done + Whole(left, bs) == sizes + Whole(newTokens, bs) && |done| >= |sizes|
      invariant cu' == Starts(done) && pos' == Total(done)
      invariant owners' == owners + Repeat(r, |done| - |sizes|)
    {
      var size := Min(bs, left);
      StartsSnoc(done, size);
      ConcatAssoc(done, [size], Whole(left - size, bs));
      done := done + [size];
      cu', owners', pos', left := cu' + [pos'], owners' + [r], pos' + size, left - size;
    }
    assert done + Whole(left, bs) == done;
  }

  lemma AppendHead(sizes: seq<nat>, head: nat, rest: seq<nat>)
    ensures Starts(sizes) + [Total(sizes)] == Starts(sizes + [head]) && Total(sizes) + head == Total(sizes + [head])
    ensures (sizes + [head]) + rest == sizes + ([head] + rest)
  {
    StartsSnoc(sizes, head);
  }

  /** Appends the chunks of one request. */
  method AppendRequest(bs: nat, r: nat, computed: nat, newTokens: nat, cu: seq<nat>, owners: seq<nat>, pos: nat,
                       ghost sizes: seq<nat>)
    returns (cu': seq<nat>, owners': seq<nat>, pos': nat)
    requires bs > 0 && cu == Starts(sizes) && pos == Total(sizes)
    ensures cu' == Starts(sizes + Lens(computed, newTokens, bs)) && pos' == Total(sizes + Lens(computed, newTokens, bs))
    ensures owners' == owners + Repeat(r, |Lens(computed, newTokens, bs)|)
  {
    if computed % bs != 0 {
      var head := Min(bs - computed % bs, newTokens);
      AppendHead(sizes, head, Whole(newTokens - head, bs));
      cu', owners', pos' := AppendWhole(bs, r, newTokens - head, cu + [pos], owners + [r], pos + head, sizes + [head]);
      RepeatCons(owners, r, |Whole(newTokens - head, bs)|);
    } else {
      cu', owners', pos' := AppendWhole(bs, r, newTokens, cu, owners, pos, sizes);
    }
  }

  /**
   Builds the table for a batch: the start of every chunk with the total behind
   it, the request each chunk belongs to, and the index of each request's last chunk.
   */
  method ComputeChunkMetadata(bs: nat, computed: seq<nat>, newTokens: seq<nat>)
    returns (cu: seq<nat>, owners: seq<nat>, lasts: seq<int>)
    requires bs > 0 && |computed| == |newTokens|
    ensures var all := Flat(ChunkLists(computed, newTokens, bs)); cu == Starts(all) + [Total(all)]
    ensures owners == Owners(ChunkLists(computed, newTokens, bs))
    ensures lasts == Lasts(ChunkLists(computed, newTokens, bs))
  {
    ghost var lists := ChunkLists(computed, newTokens, bs);
    cu, owners, lasts := [], [], [];
    var pos := 0;
    for r := 0 to |newTokens|
      invariant cu == Starts(Flat(lists[..r])) && pos == Total(Flat(lists[..r]))
      invariant owners == Owners(lists[..r]) && lasts == Lasts(lists[..r])
    {
      FlatTake(lists, r);
      LastsTake(lists, r);
      OwnersTake(lists, r);
      cu, owners, pos := AppendRequest(bs, r, computed[r], newTokens[r], cu, owners, pos, Flat(lists[..r]));
      lasts := lasts + [|cu| - 1];
    }
    TakeAll(lists);
    cu := cu + [pos];
  }

  // ----- the table meets the kernel's assumptions -----

  lemma {:induction false} WholeChunks(n: nat, bs: nat, c: nat)
    requires bs > 0 && c < |Whole(n, bs)|
    ensures 1 <= Whole(n, bs)[c] <= bs
    ensures c < |Whole(n, bs)| - 1 ==> Whole(n, bs)[c] == bs
  {
    if c > 0 {
      WholeChunks(n - Min(bs, n), bs, c - 1);
    } else if n <= bs {
      assert Whole(n - Min(bs, n), bs) == [];
    }
  }

  /** Each chunk but the last of a request ends on a block boundary of the sequence. */
  lemma {:induction false} WholeBoundary(n: nat, bs: nat, c: nat)
    requires bs > 0 && c < |Whole(n, bs)| - 1
    ensures Total(Whole(n, bs)[..c + 1]) == (c + 1) * bs
  {
    var w := Whole(n, bs);
    WholeChunks(n, bs, c);
    assert w[..c + 1] == w[..c] + [w[c]];
    assert w[..c + 1][..c] == w[..c];
    MulStep(c, bs);
    if c > 0 {
      WholeBoundary(n, bs, c - 1);
    }
  }

  /**
   With more than one chunk, the first one ends the block the request was in and
   the others but the last are whole blocks: the shape the kernel relies on.
   */
  lemma LensAreBlockChunks(computed: nat, newTokens: nat, bs: nat)
    requires bs > 0 && |Lens(computed, newTokens, bs)| > 1
    ensures var l := Lens(computed, newTokens, bs);
            && l[0] == bs - computed % bs
            && forall c :: 1 <= c < |l| - 1 ==> l[c] == bs
  {
    var l := Lens(computed, newTokens, bs);
    if computed % bs != 0 {
      var head := Min(bs - computed % bs, newTokens);
      assert Whole(0, bs) == [];
      forall c | 1 <= c < |l| - 1 ensures l[c] == bs { WholeChunks(newTokens - head, bs, c - 1); }
    } else {
      forall c | 0 <= c < |l| - 1 ensures l[c] == bs { WholeChunks(newTokens, bs, c); }
    }
  }

  /** The kernel's view of request r of a table: its chunk sizes are the request's chunks. */
  ghost predicate TableOf(m: Meta, computed: nat, newTokens: nat) {
    && CuOk(m)
    && Chunks(m) == |Lens(computed, newTokens, m.blockSize)|
    && (forall c :: 0 <= c < Chunks(m) ==> ChunkSize(m, c) == Lens(computed, newTokens, m.blockSize)[c])
  }

  /** Consecutive entries of a table differ by the size of the chunk between them. */
  lemma TableStep(cu: seq<nat>, sizes: seq<nat>, i: nat)
    requires cu == Starts(sizes) + [Total(sizes)] && i < |sizes|
    ensures cu[i + 1] == cu[i] + sizes[i] && cu[i] == Total(sizes[..i])
  {
    StartsAt(sizes, i);
    TotalSnoc(sizes, i);
    if i + 1 < |sizes| {
      StartsAt(sizes, i + 1);
    } else {
      TakeAll(sizes);
    }
  }

  lemma {:induction false} TableMonotone(cu: seq<nat>, sizes: seq<nat>, i: nat, j: nat)
    requires cu == Starts(sizes) + [Total(sizes)] && i <= j <= |sizes|
    ensures cu[i] <= cu[j]
    decreases j - i
  {
    if i < j {
      TableStep(cu, sizes, i);
      TableMonotone(cu, sizes, i + 1, j);
    }
  }

  lemma TableIsOwn(m: Meta, before: seq<nat>, own: seq<nat>, all: seq<nat>)
    requires m.blockSize > 0 && m.cu == Starts(all) + [Total(all)] && before + own <= all && own != []
    requires m.first == |before| && m.last == |before + own| - 1
    ensures CuOk(m) && Chunks(m) == |own| && forall c :: 0 <= c < |own| ==> ChunkSize(m, c) == own[c]
  {
    forall i, j | m.first <= i <= j <= m.last + 1 ensures m.cu[i] <= m.cu[j] {
      TableMonotone(m.cu, all, i, j);
    }
    forall c | 0 <= c < |own| ensures ChunkSize(m, c) == own[c] {
      PrefixAt(before, own, all, c);
      TableStep(m.cu, all, m.first + c);
    }
  }

  lemma LensNonEmpty(computed: nat, newTokens: nat, bs: nat)
    requires bs > 0 && newTokens > 0
    ensures Lens(computed, newTokens, bs) != []
  {
    if computed % bs == 0 {
      assert Whole(newTokens, bs) != [];
    }
  }

  lemma {:induction false} LastsAt(lists: seq<seq<nat>>, r: nat)
    requires r < |lists|
    ensures Lasts(lists)[r] == |Flat(lists[..r + 1])| - 1
  {
    var n := |lists| - 1;
    if r < n {
      LastsAt(lists[..n], r);
      assert lists[..n][..r + 1] == lists[..r + 1];
    } else {
      assert lists[..r + 1] == lists;
    }
  }

  lemma OwnPart(lists: seq<seq<nat>>, r: nat)
    requires r < |lists|
    ensures Flat(lists[..r]) + lists[r] <= Flat(lists) && Flat(lists[..r + 1]) == Flat(lists[..r]) + lists[r]
  {
    FlatTake(lists, r);
    FlatPrefix(lists, r + 1);
  }

  /** What the kernel reads for request r from the table of all chunk lists. */
  function RequestMeta(lists: seq<seq<nat>>, bs: nat, r: nat, blockFirst: nat, blockLast: nat, row: seq<nat>): Meta
    requires r < |lists| && lists[r] != []
  {
    var first := |Flat(lists[..r])|;
    Meta(Starts(Flat(lists)) + [Total(Flat(lists))], first, first + |lists[r]| - 1, blockFirst, blockLast, bs, row)
  }

  /** The kernel starts one after the previous request's last chunk and stops at request r's own. */
  lemma BuiltBounds(lists: seq<seq<nat>>, bs: nat, r: nat, blockFirst: nat, blockLast: nat, row: seq<nat>)
    requires r < |lists| && lists[r] != []
    ensures RequestMeta(lists, bs, r, blockFirst, blockLast, row).first == if r == 0 then 0 else Lasts(lists)[r - 1] + 1
    ensures RequestMeta(lists, bs, r, blockFirst, blockLast, row).last == Lasts(lists)[r]
  {
    OwnPart(lists, r);
    LastsAt(lists, r);
    if r > 0 {
      LastsAt(lists, r - 1);
    }
  }

  /** Read there, the builder's table lists exactly request r's chunks. */
  lemma BuiltTable(computed: seq<nat>, newTokens: seq<nat>, bs: nat, r: nat,
                   blockFirst: nat, blockLast: nat, row: seq<nat>)
    requires bs > 0 && r < |computed| == |newTokens| && newTokens[r] > 0
    ensures ChunkLists(computed, newTokens, bs)[r] != []
    ensures TableOf(RequestMeta(ChunkLists(computed, newTokens, bs), bs, r, blockFirst, blockLast, row),
                    computed[r], newTokens[r])
  {
    LensNonEmpty(computed[r], newTokens[r], bs);
    OwnTable(ChunkLists(computed, newTokens, bs), bs, r, blockFirst, blockLast, row);
  }

  lemma OwnTable(lists: seq<seq<nat>>, bs: nat, r: nat, blockFirst: nat, blockLast: nat, row: seq<nat>)
    requires bs > 0 && r < |lists| && lists[r] != []
    ensures var m := RequestMeta(lists, bs, r, blockFirst, blockLast, row);
            CuOk(m) && Chunks(m) == |lists[r]| && forall c :: 0 <= c < |lists[r]| ==> ChunkSize(m, c) == lists[r][c]
  {
    OwnPart(lists, r);
    TableIsOwn(RequestMeta(lists, bs, r, blockFirst, blockLast, row), Flat(lists[..r]), lists[r], Flat(lists));
  }

  /**
   On such a table the kernel's position counter is the absolute position of the
   token in its sequence, every chunk but the last ends on a block boundary, and
   chunk c is stored to block computed / blockSize + c.
   */
  lemma KernelPositionsExact(m: Meta, computed: nat, newTokens: nat, c: nat)
    requires TableOf(m, computed, newTokens) && m.blockFirst == computed / m.blockSize && c < Chunks(m) - 1
    ensures BlockChunks(m)
    ensures Position(m, c) == computed + (m.cu[m.first + c] - m.cu[m.first])
    ensures StoreIndex(m, c) == computed / m.blockSize + c
    ensures (computed + (m.cu[m.first + c + 1] - m.cu[m.first])) % m.blockSize == 0
  {
    var bs := m.blockSize;
    LensAreBlockChunks(computed, newTokens, bs);
    DivBounds(computed, bs);
    assert BlockChunks(m);
    StoreIndexExact(m, c);
    DivUnique(Position(m, c + 1), bs, m.blockFirst + c + 1);
  }
}
