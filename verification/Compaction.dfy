/**
 Sparse-gather compaction of a worker block table (vllm/kv_evict/compaction.py).

 The attention read of a request of `len` tokens gathers token `i` from slot
 `i % bs` of the physical block `row[i / bs]`.  Compaction moves the retained
 blocks to the front of the row and shortens the length by one whole block per
 evicted slot; these lemmas say when the shortened read is exactly the original
 read with the evicted blocks left out.
 */
module Compaction {
  import opened Arith
  import opened BlockTable
  import opened Seqs
  import opened Sorting
  import S = Selection

  /** Column c lies in the row's length and was not evicted. */
  predicate Kept(row: seq<int>, n: nat, nil: int, c: nat) {
    c < n && c < |row| && row[c] != nil
  }

  /** Indices among the first `m` whose retained flag equals `flag`, in order. */
  function IndicesWhere(row: seq<int>, n: nat, nil: int, flag: bool, m: nat): (r: seq<nat>)
    requires m <= |row|
    ensures |r| <= m && forall i :: 0 <= i < |r| ==> r[i] < m && Kept(row, n, nil, r[i]) == flag
  {
    if m == 0 then []
    else
      var init := IndicesWhere(row, n, nil, flag, m - 1);
      if Kept(row, n, nil, m - 1) == flag then init + [m - 1] else init
  }

  /** The sort key of the source: 0 if retained, else 1. */
  function KeyOf(row: seq<int>, n: nat, nil: int, c: nat): nat {
    if Kept(row, n, nil, c) then 0 else 1
  }

  function ByKey(row: seq<int>, n: nat, nil: int): (nat, nat) -> bool {
    (a: nat, b: nat) => KeyOf(row, n, nil, a) <= KeyOf(row, n, nil, b)
  }

  /** Stable argsort of the first m columns. */
  function SortedColumns(row: seq<int>, n: nat, nil: int, m: nat): (r: seq<nat>)
    ensures |r| == m
  {
    SortBy<nat>(S.Window(0, m), ByKey(row, n, nil))
  }

  /** A column goes behind the retained ones, and behind all others too if it is not retained itself. */
  lemma {:induction false} InsertColumn(row: seq<int>, n: nat, nil: int, kept: seq<nat>, gone: seq<nat>, c: nat)
    requires forall i :: 0 <= i < |kept| ==> Kept(row, n, nil, kept[i])
    requires forall i :: 0 <= i < |gone| ==> !Kept(row, n, nil, gone[i])
    ensures InsertBy<nat>(kept + gone, c, ByKey(row, n, nil))
            == if Kept(row, n, nil, c) then kept + [c] + gone else kept + gone + [c]
  {
    var all, le := kept + gone, ByKey(row, n, nil);
    if Kept(row, n, nil, c) {
      if gone == [] {
        assert all == kept && kept + [c] + gone == kept + [c];
        assert kept != [] ==> le(all[|all| - 1], c);
      } else {
        var last := |gone| - 1;
        assert all[..|all| - 1] == kept + gone[..last] && all[|all| - 1] == gone[last];
        assert !le(gone[last], c);
        InsertColumn(row, n, nil, kept, gone[..last], c);
        assert kept + [c] + gone[..last] + [gone[last]] == kept + [c] + gone;
      }
    } else {
      assert all != [] ==> le(all[|all| - 1], c);
    }
  }

  lemma SortNext(row: seq<int>, n: nat, nil: int, m: nat)
    requires m > 0
    ensures SortedColumns(row, n, nil, m)
            == InsertBy<nat>(SortedColumns(row, n, nil, m - 1), m - 1, ByKey(row, n, nil))
  {
    var cols := S.Window(0, m);
    assert cols[..m - 1] == S.Window(0, m - 1) && cols[m - 1] == m - 1;
  }

  /** Sorting by the key is the partition: the retained columns in order, then the others in order. */
  lemma {:induction false} SortIsPartition(row: seq<int>, n: nat, nil: int, m: nat)
    requires m <= |row|
    ensures SortedColumns(row, n, nil, m)
            == IndicesWhere(row, n, nil, true, m) + IndicesWhere(row, n, nil, false, m)
  {
    if m > 0 {
      SortIsPartition(row, n, nil, m - 1);
      SortNext(row, n, nil, m);
      var kept, gone := IndicesWhere(row, n, nil, true, m - 1), IndicesWhere(row, n, nil, false, m - 1);
      InsertColumn(row, n, nil, kept, gone, m - 1);
      ConcatAssoc(kept, gone, [m - 1]);
    }
  }

  /** Stable argsort of the key "0 if retained else 1". */
  function StableOrder(row: seq<int>, n: nat, nil: int): (r: seq<nat>)
    ensures |r| == |row| && forall i :: 0 <= i < |r| ==> r[i] < |row|
  {
    SortIsPartition(row, n, nil, |row|);
    SortedColumns(row, n, nil, |row|)
  }

  function RetainedCount(row: seq<int>, n: nat, nil: int): nat {
    |IndicesWhere(row, n, nil, true, |row|)|
  }

  /** The row gathered along the stable order, with the tail blanked. */
  function CompactRow(row: seq<int>, n: nat, nil: int): (r: seq<int>)
    ensures |r| == |row|
  {
    var order := StableOrder(row, n, nil);
    var kept := RetainedCount(row, n, nil);
    seq(|row|, c requires 0 <= c < |row| => if c < kept then row[order[c]] else nil)
  }

  /** The shortened length: one whole block less per evicted slot (may go negative). */
  function CompactLength(row: seq<int>, n: nat, nil: int, len: int, bs: nat): int {
    len - (n - RetainedCount(row, n, nil)) * bs
  }

  /** The reference: the non-null entries, in order. */
  function NonNull(row: seq<int>, nil: int): (r: seq<int>)
    ensures |r| <= |row|
  {
    if row == [] then []
    else if row[|row| - 1] != nil then NonNull(row[..|row| - 1], nil) + [row[|row| - 1]]
    else NonNull(row[..|row| - 1], nil)
  }

  lemma {:induction false} KeptAreNonNull(row: seq<int>, n: nat, nil: int, m: nat)
    requires m <= |row|
    ensures var k := IndicesWhere(row, n, nil, true, m);
            var r := NonNull(row[..if m <= n then m else n], nil) ;
            |k| == |r| && forall i :: 0 <= i < |k| ==> row[k[i]] == r[i]
  {
    if m > 0 {
      KeptAreNonNull(row, n, nil, m - 1);
      if m <= n {
        assert row[..m][..m - 1] == row[..m - 1];
      }
    }
  }

  /** The stable sort is a filter: retained ids first, in order, nulls behind. */
  lemma CompactIsFilter(row: seq<int>, n: nat, nil: int)
    requires n <= |row|
    ensures RetainedCount(row, n, nil) == |NonNull(row[..n], nil)|
    ensures CompactRow(row, n, nil)[..|NonNull(row[..n], nil)|] == NonNull(row[..n], nil)
    ensures forall c :: |NonNull(row[..n], nil)| <= c < |row| ==> CompactRow(row, n, nil)[c] == nil
  {
    KeptAreNonNull(row, n, nil, |row|);
    SortIsPartition(row, n, nil, |row|);
  }

  // ----- the attention read -----

  function BlockTokens(block: int, fill: nat): (r: seq<(int, nat)>)
    ensures |r| == fill
    ensures forall o :: 0 <= o < fill ==> r[o] == (block, o)
  {
    seq(fill, o requires 0 <= o => (block, o))
  }

  /** The tokens a read of length `len` visits, block by block. */
  function Gather(row: seq<int>, len: nat, bs: nat): (r: seq<(int, nat)>)
    requires bs > 0
  {
    if row == [] || len == 0 then []
    else if len <= bs then BlockTokens(row[0], len)
    else BlockTokens(row[0], bs) + Gather(row[1..], len - bs, bs)
  }

  /** Token i of the read is slot i % bs of block row[i / bs]. */
  lemma {:induction false} GatherAt(row: seq<int>, len: nat, bs: nat, i: nat)
    requires bs > 0 && Blocks(len, bs) <= |row| && i < len
    ensures |Gather(row, len, bs)| == len
    ensures 0 <= i / bs < |row| && Gather(row, len, bs)[i] == (row[i / bs], i % bs)
  {
    if i < bs {
      DivUnique(i, bs, 0);
      if len > bs { GatherAt(row[1..], len - bs, bs, 0); }
    } else {
      GatherAt(row[1..], len - bs, bs, i - bs);
      var q := (i - bs) / bs;
      DivBounds(i - bs, bs);
      MulStep(q, bs);
      DivUnique(i, bs, q + 1);
    }
  }

  /** The tokens that sit in real blocks. */
  function Live(tokens: seq<(int, nat)>, nil: int): (r: seq<(int, nat)>)
    ensures |r| <= |tokens|
  {
    if tokens == [] then []
    else (if tokens[0].0 != nil then [tokens[0]] else []) + Live(tokens[1..], nil)
  }

  lemma {:induction false} LiveConcat(a: seq<(int, nat)>, b: seq<(int, nat)>, nil: int)
    ensures Live(a + b, nil) == Live(a, nil) + Live(b, nil)
  {
    if a == [] {
      assert a + b == b;
    } else {
      assert (a + b)[1..] == a[1..] + b;
      LiveConcat(a[1..], b, nil);
    }
  }

  lemma {:induction false} LiveUniform(tokens: seq<(int, nat)>, block: int, nil: int)
    requires forall i :: 0 <= i < |tokens| ==> tokens[i].0 == block
    ensures Live(tokens, nil) == if block == nil then [] else tokens
  {
    if tokens != [] {
      LiveUniform(tokens[1..], block, nil);
    }
  }

  lemma {:induction false} GatherPrefix(row: seq<int>, n: nat, len: nat, bs: nat)
    requires bs > 0 && Blocks(len, bs) <= n <= |row|
    ensures Gather(row, len, bs) == Gather(row[..n], len, bs)
  {
    if len > bs {
      assert row[..n][1..] == row[1..][..n - 1];
      GatherPrefix(row[1..], n - 1, len - bs, bs);
    }
  }

  lemma {:induction false} NonNullCons(row: seq<int>, nil: int)
    requires row != []
    ensures NonNull(row, nil) == if row[0] != nil then [row[0]] + NonNull(row[1..], nil) else NonNull(row[1..], nil)
  {
    if |row| > 1 {
      var last := |row| - 1;
      NonNullCons(row[..last], nil);
      assert row[..last][1..] == row[1..][..last - 1];
      assert row[1..][last - 1] == row[last];
    }
  }

  /** Live tokens of a read: those of its first block, then those of the rest. */
  lemma LiveStep(row: seq<int>, len: nat, bs: nat, nil: int)
    requires bs > 0 && row != [] && len > bs
    ensures Live(Gather(row, len, bs), nil)
            == var rest := Live(Gather(row[1..], len - bs, bs), nil);
               if row[0] == nil then rest else BlockTokens(row[0], bs) + rest
  {
    LiveConcat(BlockTokens(row[0], bs), Gather(row[1..], len - bs, bs), nil);
    LiveUniform(BlockTokens(row[0], bs), row[0], nil);
  }

  /** The length left after dropping the null blocks of a row. */
  function Short(row: seq<int>, len: int, bs: nat, nil: int): int {
    if row == [] then len
    else Short(row[1..], len - bs, bs, nil) + if row[0] == nil then 0 else bs
  }

  lemma {:induction false} ShortIsCompactLength(row: seq<int>, len: int, bs: nat, nil: int)
    ensures Short(row, len, bs, nil) == len - (|row| - |NonNull(row, nil)|) * bs
  {
    if row != [] {
      NonNullCons(row, nil);
      ShortIsCompactLength(row[1..], len - bs, bs, nil);
      MulStep(|row[1..]| - |NonNull(row[1..], nil)|, bs);
    }
  }

  /** The length fills its last block. */
  predicate Full(len: nat, bs: nat)
    requires bs > 0
  {
    if len < bs then len == 0 else Full(len - bs, bs)
  }

  lemma {:induction false} FullIsMultiple(len: nat, bs: nat)
    requires bs > 0
    ensures Full(len, bs) <==> len % bs == 0
  {
    if len < bs {
      DivUnique(len, bs, 0);
    } else {
      FullIsMultiple(len - bs, bs);
      var q := (len - bs) / bs;
      DivBounds(len - bs, bs);
      MulStep(q, bs);
      DivUnique(len, bs, q + 1);
    }
  }

  lemma GatherCons(block: int, rest: seq<int>, len: nat, bs: nat)
    requires bs > 0 && Blocks(len, bs) == |rest|
    ensures Blocks(len + bs, bs) == |rest| + 1
    ensures Gather([block] + rest, len + bs, bs) == BlockTokens(block, bs) + Gather(rest, len, bs)
  {
    assert ([block] + rest)[1..] == rest;
    if len == 0 {
      assert BlockTokens(block, bs) + [] == BlockTokens(block, bs);
    }
  }

  /** Reading the blocks `keep` over the length `short` gives the live ones of the tokens. */
  ghost predicate Matches(keep: seq<int>, short: int, tokens: seq<(int, nat)>, bs: nat, nil: int)
    requires bs > 0
  {
    0 <= short && Blocks(short, bs) == |keep| && Gather(keep, short, bs) == Live(tokens, nil)
  }

  /** What ReadOfRetained states, for one row. */
  ghost predicate Retains(row: seq<int>, len: nat, bs: nat, nil: int)
    requires bs > 0
  {
    Matches(NonNull(row, nil), Short(row, len, bs, nil), Gather(row, len, bs), bs, nil)
  }

  lemma RetainsOne(block: int, len: nat, bs: nat, nil: int)
    requires 0 < len <= bs && (block != nil || len == bs)
    ensures Retains([block], len, bs, nil)
  {
    LiveUniform(BlockTokens(block, len), block, nil);
    NonNullCons([block], nil);
    assert [block][1..] == [] && Short([], len - bs, bs, nil) == len - bs;
    assert Gather([block], len, bs) == BlockTokens(block, len);
  }

  lemma RetainsEvicted(row: seq<int>, len: nat, bs: nat, nil: int)
    requires 0 < bs < len && row != [] && row[0] == nil && Retains(row[1..], len - bs, bs, nil)
    ensures Retains(row, len, bs, nil)
  {
    assert NonNull(row, nil) == NonNull(row[1..], nil) by {
      NonNullCons(row, nil);
    }
    LiveStep(row, len, bs, nil);
  }

  lemma KeptFirst(row: seq<int>, len: int, bs: nat, nil: int)
    requires row != [] && row[0] != nil
    ensures NonNull(row, nil) == [row[0]] + NonNull(row[1..], nil)
    ensures Short(row, len, bs, nil) == Short(row[1..], len - bs, bs, nil) + bs
  {
    NonNullCons(row, nil);
  }

  lemma RetainsKept(row: seq<int>, len: nat, bs: nat, nil: int)
    requires 0 < bs < len && row != [] && row[0] != nil && Retains(row[1..], len - bs, bs, nil)
    ensures Retains(row, len, bs, nil)
  {
    KeptFirst(row, len, bs, nil);
    LiveStep(row, len, bs, nil);
    MatchesKept(row[0], NonNull(row[1..], nil), Short(row[1..], len - bs, bs, nil),
                Gather(row[1..], len - bs, bs), Gather(row, len, bs), bs, nil);
  }

  lemma MatchesKept(block: int, keep: seq<int>, short: int, rest: seq<(int, nat)>, tokens: seq<(int, nat)>,
                    bs: nat, nil: int)
    requires bs > 0 && Matches(keep, short, rest, bs, nil)
    requires Live(tokens, nil) == BlockTokens(block, bs) + Live(rest, nil)
    ensures Matches([block] + keep, short + bs, tokens, bs, nil)
  {
    GatherCons(block, keep, short, bs);
  }

  /**
   The shortened read of the retained blocks is the original read without its
   null blocks, provided the last block is retained or full.
   */
  lemma {:induction false} ReadOfRetained(row: seq<int>, len: nat, bs: nat, nil: int)
    requires bs > 0 && |row| == Blocks(len, bs)
    requires row == [] || row[|row| - 1] != nil || Full(len, bs)
    ensures Retains(row, len, bs, nil)
  {
    if 0 < len <= bs {
      assert row == [row[0]];
      RetainsOne(row[0], len, bs, nil);
    } else if len > bs {
      ReadOfRetained(row[1..], len - bs, bs, nil);
      if row[0] == nil {
        RetainsEvicted(row, len, bs, nil);
      } else {
        RetainsKept(row, len, bs, nil);
      }
    }
  }

  lemma LastEvictedOne(row: seq<int>, len: nat, bs: nat, nil: int)
    requires 0 < len <= bs && row == [nil]
    ensures |Live(Gather(row, len, bs), nil)| == 0 && |NonNull(row, nil)| == 0
  {
    LiveUniform(BlockTokens(nil, len), nil, nil);
    NonNullCons(row, nil);
    assert row[1..] == [];
  }

  lemma LastEvictedStep(row: seq<int>, len: nat, bs: nat, nil: int)
    requires 0 < bs < len && row != []
    ensures |Live(Gather(row, len, bs), nil)|
            == |Live(Gather(row[1..], len - bs, bs), nil)| + (if row[0] == nil then 0 else bs)
    ensures |NonNull(row, nil)| == |NonNull(row[1..], nil)| + (if row[0] == nil then 0 else 1)
  {
    NonNullCons(row, nil);
    LiveStep(row, len, bs, nil);
  }

  /** When the last block is evicted, the live tokens are whole blocks only. */
  lemma {:induction false} LiveCountLastEvicted(row: seq<int>, len: nat, bs: nat, nil: int)
    requires bs > 0 && |row| == Blocks(len, bs) > 0 && row[|row| - 1] == nil
    ensures |Live(Gather(row, len, bs), nil)| == |NonNull(row, nil)| * bs
  {
    if len <= bs {
      assert row == [nil];
      LastEvictedOne(row, len, bs, nil);
    } else {
      LiveCountLastEvicted(row[1..], len - bs, bs, nil);
      LastEvictedStep(row, len, bs, nil);
      MulStep(|NonNull(row[1..], nil)|, bs);
    }
  }

  /** The compacted row and length name exactly the surviving tokens, in order. */
  ghost predicate ReadsSurvivors(row: seq<int>, len: nat, bs: nat, nil: int)
    requires bs > 0
  {
    var n := Blocks(len, bs);
    var short := CompactLength(row, n, nil, len, bs);
    && 0 <= short
    && Blocks(short, bs) <= |row|
    && Gather(CompactRow(row, n, nil), short, bs) == Live(Gather(row, len, bs), nil)
  }

  lemma CompactLengthIsShort(row: seq<int>, n: nat, nil: int, len: nat, bs: nat)
    requires n <= |row|
    ensures CompactLength(row, n, nil, len, bs) == Short(row[..n], len, bs, nil)
  {
    CompactIsFilter(row, n, nil);
    ShortIsCompactLength(row[..n], len, bs, nil);
  }

  lemma CompactGather(row: seq<int>, n: nat, nil: int, short: nat, bs: nat)
    requires bs > 0 && n <= |row| && Blocks(short, bs) == |NonNull(row[..n], nil)|
    ensures Gather(CompactRow(row, n, nil), short, bs) == Gather(NonNull(row[..n], nil), short, bs)
  {
    CompactIsFilter(row, n, nil);
    GatherPrefix(CompactRow(row, n, nil), |NonNull(row[..n], nil)|, short, bs);
  }

  lemma ExactWhenKept(row: seq<int>, len: nat, bs: nat, nil: int)
    requires bs > 0 && Blocks(len, bs) <= |row|
    requires Blocks(len, bs) == 0 || row[Blocks(len, bs) - 1] != nil || len % bs == 0
    ensures ReadsSurvivors(row, len, bs, nil)
  {
    var n := Blocks(len, bs);
    assert Retains(row[..n], len, bs, nil) by {
      FullIsMultiple(len, bs);
      ReadOfRetained(row[..n], len, bs, nil);
    }
    CompactLengthIsShort(row, n, nil, len, bs);
    CompactGather(row, n, nil, Short(row[..n], len, bs, nil), bs);
    GatherPrefix(row, n, len, bs);
  }

  lemma InexactWhenEvicted(row: seq<int>, len: nat, bs: nat, nil: int)
    requires bs > 0 && 0 < Blocks(len, bs) <= |row|
    requires row[Blocks(len, bs) - 1] == nil && len % bs != 0
    ensures !ReadsSurvivors(row, len, bs, nil)
  {
    var n := Blocks(len, bs);
    CompactLengthIsShort(row, n, nil, len, bs);
    GatherPrefix(row, n, len, bs);
    LiveCountLastEvicted(row[..n], len, bs, nil);
    CutShort(row, len, bs, nil, Short(row[..n], len, bs, nil));
  }

  /** Compaction is exact if and only if the last block was kept or is full. */
  lemma CompactionExact(row: seq<int>, len: nat, bs: nat, nil: int)
    requires bs > 0 && Blocks(len, bs) <= |row|
    ensures var n := Blocks(len, bs);
            ReadsSurvivors(row, len, bs, nil) <==> n == 0 || row[n - 1] != nil || len % bs == 0
  {
    var n := Blocks(len, bs);
    if n == 0 || row[n - 1] != nil || len % bs == 0 {
      ExactWhenKept(row, len, bs, nil);
    } else {
      InexactWhenEvicted(row, len, bs, nil);
    }
  }

  lemma CutShort(row: seq<int>, len: nat, bs: nat, nil: int, short: int)
    requires bs > 0 && Blocks(len, bs) <= |row| && len % bs != 0
    requires short == Short(row[..Blocks(len, bs)], len, bs, nil)
    ensures short < |NonNull(row[..Blocks(len, bs)], nil)| * bs
    ensures 0 <= short && Blocks(short, bs) <= |row| ==>
              |Gather(CompactRow(row, Blocks(len, bs), nil), short, bs)| == short
  {
    var n, kept := Blocks(len, bs), |NonNull(row[..Blocks(len, bs)], nil)|;
    BlocksBounds(len, bs);
    BlocksIsCeiling(len, bs);
    ShortIsCompactLength(row[..n], len, bs, nil);
    MulSplit(n, kept, bs);
    if 0 < short && Blocks(short, bs) <= |row| {
      GatherAt(CompactRow(row, n, nil), short, bs, 0);
    }
  }

  // ----- the per-row decision of the metadata builder -----

  /** A row is compacted when it holds an evicted slot and the query is a pure decode. */
  predicate Compacts(row: seq<int>, n: nat, nil: int, decode: bool)
    requires n <= |row|
  {
    decode && exists c :: 0 <= c < n && row[c] == nil
  }

  function CompactForRead(row: seq<int>, len: nat, bs: nat, nil: int, decode: bool): (r: (seq<int>, int))
    requires bs > 0 && Blocks(len, bs) <= |row|
    ensures |r.0| == |row|
  {
    var n := Blocks(len, bs);
    if Compacts(row, n, nil, decode) then (CompactRow(row, n, nil), CompactLength(row, n, nil, len, bs))
    else (row, len)
  }

  lemma NothingEvicted(row: seq<int>, len: nat, bs: nat, nil: int)
    requires bs > 0 && |row| == Blocks(len, bs) && forall c :: 0 <= c < |row| ==> row[c] != nil
    ensures Live(Gather(row, len, bs), nil) == Gather(row, len, bs)
  {
    AllRetained(row, nil);
    ReadOfRetained(row, len, bs, nil);
    ShortIsCompactLength(row, len, bs, nil);
    MulStep(0, bs);
  }

  /** A decode reads exactly the live tokens; any other query keeps its full gather list. */
  lemma DecodeReadsLive(row: seq<int>, len: nat, bs: nat, nil: int, decode: bool)
    requires bs > 0 && 0 < Blocks(len, bs) <= |row|
    requires row[Blocks(len, bs) - 1] != nil || len % bs == 0
    ensures var r := CompactForRead(row, len, bs, nil, decode);
            && (decode ==> r.1 >= 0 && Gather(r.0, r.1, bs) == Live(Gather(row, len, bs), nil))
            && (!decode || (forall c :: 0 <= c < Blocks(len, bs) ==> row[c] != nil) ==> r == (row, len))
  {
    var n := Blocks(len, bs);
    if Compacts(row, n, nil, decode) {
      CompactionExact(row, len, bs, nil);
    } else if decode {
      NothingEvicted(row[..n], len, bs, nil);
      GatherPrefix(row, n, len, bs);
    }
  }

  /** Without an evicted slot inside its length a row keeps all of its entries. */
  lemma {:induction false} AllRetained(row: seq<int>, nil: int)
    requires forall c :: 0 <= c < |row| ==> row[c] != nil
    ensures NonNull(row, nil) == row
  {
    if row != [] {
      AllRetained(row[..|row| - 1], nil);
    }
  }

  /**
   Compacting a row returns it byte for byte exactly when nothing in its length
   was evicted and its padding columns are already null.
   */
  lemma CompactIdentity(row: seq<int>, n: nat, nil: int)
    requires n <= |row|
    ensures CompactRow(row, n, nil) == row && RetainedCount(row, n, nil) == n
            <==> (forall c :: 0 <= c < |row| ==> (row[c] == nil <==> c >= n))
  {
    CompactIsFilter(row, n, nil);
    var keep := NonNull(row[..n], nil);
    var r := CompactRow(row, n, nil);
    if forall c :: 0 <= c < |row| ==> (row[c] == nil <==> c >= n) {
      AllRetained(row[..n], nil);
      forall c | 0 <= c < |row| ensures r[c] == row[c] {
        if c < n { assert r[..n][c] == row[..n][c]; }
      }
    } else if |keep| == n {
      NonNullFull(row[..n], nil);
      assert forall c :: 0 <= c < n ==> row[..n][c] == row[c] != nil;
    }
  }

  lemma {:induction false} NonNullFull(row: seq<int>, nil: int)
    requires |NonNull(row, nil)| == |row|
    ensures forall c :: 0 <= c < |row| ==> row[c] != nil
  {
    if row != [] {
      NonNullFull(row[..|row| - 1], nil);
    }
  }

  // ----- eviction followed by the read -----

  /** From column q on nothing of the row is evicted. */
  ghost predicate RealFrom(row: seq<int>, q: nat) {
    forall c :: q <= c < |row| ==> row[c] != NULL_BLOCK
  }

  lemma RealsSnoc(row: seq<int>)
    requires row != [] && row[|row| - 1] != NULL_BLOCK
    ensures S.RealPositions(row) == S.RealPositions(row[..|row| - 1]) + [|row| - 1]
  {
  }

  /** The real slots of such a row are those before the column and all columns from it on. */
  lemma {:induction false} TailCount(row: seq<int>, q: nat)
    requires q <= |row| && RealFrom(row, q)
    ensures |S.RealPositions(row)| == |S.RealPositions(row[..q])| + (|row| - q)
  {
    if q == |row| {
      assert row[..q] == row;
    } else {
      var front := row[..|row| - 1];
      assert front[..q] == row[..q];
      RealsSnoc(row);
      TailCount(front, q);
    }
  }

  lemma PrefixReals(row: seq<int>)
    requires row != []
    ensures S.RealPositions(row[..|row| - 1]) <= S.RealPositions(row)
  {
  }

  /** A real column is the real slot behind as many others as there are before it. */
  lemma {:induction false} ColumnSlot(row: seq<int>, c: nat)
    requires c < |row| && row[c] != NULL_BLOCK
    ensures |S.RealPositions(row[..c])| < |S.RealPositions(row)|
    ensures S.RealPositions(row)[|S.RealPositions(row[..c])|] == c
    decreases |row|
  {
    if c == |row| - 1 {
      RealsSnoc(row);
    } else {
      var front := row[..|row| - 1];
      assert front[..c] == row[..c];
      ColumnSlot(front, c);
      PrefixReals(row);
    }
  }

  lemma ColumnKept(row: seq<int>, q: nat, sinks: nat, locals: nat, budget: int, scores: seq<real>, c: nat)
    requires RealFrom(row, q) && q <= c < |row| <= q + locals && |scores| == |S.RealPositions(row)|
    ensures S.AfterEviction(row, sinks, locals, budget, scores)[c] != NULL_BLOCK
  {
    TailRank(row, q, c);
    ColumnSlot(row, c);
    S.SlotSurvives(row, sinks, locals, budget, scores, |S.RealPositions(row[..c])|, c);
  }

  /** From column c on there are as many real slots as columns. */
  lemma TailRank(row: seq<int>, q: nat, c: nat)
    requires q <= c <= |row| && RealFrom(row, q)
    ensures |S.RealPositions(row)| - |S.RealPositions(row[..c])| == |row| - c
  {
    TailCount(row, c);
  }

  /** A local window that covers the columns from q on keeps them. */
  lemma TailKept(row: seq<int>, q: nat, sinks: nat, locals: nat, budget: int, scores: seq<real>)
    requires RealFrom(row, q) && q <= |row| <= q + locals && |scores| == |S.RealPositions(row)|
    ensures RealFrom(S.AfterEviction(row, sinks, locals, budget, scores), q)
  {
    forall c | q <= c < |row| ensures S.AfterEviction(row, sinks, locals, budget, scores)[c] != NULL_BLOCK {
      ColumnKept(row, q, sinks, locals, budget, scores, c);
    }
  }

  /** The column that takes the last token. */
  function LastColumn(len: nat, bs: nat): nat
    requires bs > 0
  {
    if Blocks(len, bs) == 0 then 0 else Blocks(len, bs) - 1
  }

  /** What happens to a request between two reads: new tokens and blocks, ahead of the tokens or not, or an eviction. */
  datatype Turn =
    | Grow(tokens: nat, blocks: seq<int>)
    | Evict(sinks: nat, locals: nat, budget: int, scores: seq<real>)

  /** The local window covers the block of the last token and the blocks allocated ahead. */
  predicate TurnOk(row: seq<int>, len: nat, bs: nat, turn: Turn)
    requires bs > 0
  {
    match turn
    case Grow(tokens, blocks) =>
      |row| + |blocks| >= Blocks(len + tokens, bs) && forall i :: 0 <= i < |blocks| ==> blocks[i] != NULL_BLOCK
    case Evict(_, locals, _, scores) => |row| <= LastColumn(len, bs) + locals && |scores| == |S.RealPositions(row)|
  }

  function RowThen(row: seq<int>, len: nat, bs: nat, turn: Turn): seq<int>
    requires bs > 0 && TurnOk(row, len, bs, turn)
  {
    match turn
    case Grow(_, blocks) => row + blocks
    case Evict(sinks, locals, budget, scores) => S.AfterEviction(row, sinks, locals, budget, scores)
  }

  function LengthThen(len: nat, turn: Turn): nat {
    if turn.Grow? then len + turn.tokens else len
  }

  ghost predicate HistoryOk(row: seq<int>, len: nat, bs: nat, turns: seq<Turn>)
    requires bs > 0
    decreases |turns|
  {
    turns == [] || (TurnOk(row, len, bs, turns[0])
                    && HistoryOk(RowThen(row, len, bs, turns[0]), LengthThen(len, turns[0]), bs, turns[1..]))
  }

  ghost function HistoryEnd(row: seq<int>, len: nat, bs: nat, turns: seq<Turn>): (seq<int>, nat)
    requires bs > 0 && HistoryOk(row, len, bs, turns)
    decreases |turns|
  {
    if turns == [] then (row, len)
    else HistoryEnd(RowThen(row, len, bs, turns[0]), LengthThen(len, turns[0]), bs, turns[1..])
  }

  /** The row has the blocks of its tokens, and the last of them and the ones ahead are real. */
  ghost predicate LastHeld(row: seq<int>, len: nat, bs: nat)
    requires bs > 0
  {
    Blocks(len, bs) <= |row| && RealFrom(row, LastColumn(len, bs))
  }

  lemma TurnKeepsLast(row: seq<int>, len: nat, bs: nat, turn: Turn)
    requires bs > 0 && LastHeld(row, len, bs) && TurnOk(row, len, bs, turn)
    ensures LastHeld(RowThen(row, len, bs, turn), LengthThen(len, turn), bs)
  {
    match turn
    case Grow(tokens, blocks) => BlocksGrow(len, tokens, bs);
    case Evict(sinks, locals, budget, scores) =>
      if LastColumn(len, bs) <= |row| {
        TailKept(row, LastColumn(len, bs), sinks, locals, budget, scores);
      }
  }

  lemma {:induction false} HistoryKeepsLast(row: seq<int>, len: nat, bs: nat, turns: seq<Turn>)
    requires bs > 0 && LastHeld(row, len, bs) && HistoryOk(row, len, bs, turns)
    ensures var end := HistoryEnd(row, len, bs, turns); LastHeld(end.0, end.1, bs)
    decreases |turns|
  {
    if turns != [] {
      TurnKeepsLast(row, len, bs, turns[0]);
      HistoryKeepsLast(RowThen(row, len, bs, turns[0]), LengthThen(len, turns[0]), bs, turns[1..]);
    }
  }

  lemma LastHeldReads(row: seq<int>, len: nat, bs: nat)
    requires bs > 0 && LastHeld(row, len, bs)
    ensures ReadsSurvivors(row, len, bs, NULL_BLOCK)
  {
    CompactionExact(row, len, bs, NULL_BLOCK);
  }

  /**
   After every history of growth and eviction whose local windows cover the block of the last token
   and the blocks allocated ahead, a decode reads exactly the surviving tokens.
   */
  lemma EvictThenReadExact(row: seq<int>, len: nat, bs: nat, turns: seq<Turn>)
    requires bs > 0 && LastHeld(row, len, bs) && HistoryOk(row, len, bs, turns)
    ensures var end := HistoryEnd(row, len, bs, turns);
            Blocks(end.1, bs) <= |end.0| && ReadsSurvivors(end.0, end.1, bs, NULL_BLOCK)
  {
    HistoryKeepsLast(row, len, bs, turns);
    var end := HistoryEnd(row, len, bs, turns);
    LastHeldReads(end.0, end.1, bs);
  }

  ghost predicate ReadsAfter(row: seq<int>, len: nat, bs: nat, sinks: nat, locals: nat, budget: int, scores: seq<real>)
    requires bs > 0 && |scores| == |S.RealPositions(row)|
  {
    ReadsSurvivors(S.AfterEviction(row, sinks, locals, budget, scores), len, bs, NULL_BLOCK)
  }

  lemma ReadsAfterIff(row: seq<int>, len: nat, bs: nat, sinks: nat, locals: nat, budget: int, scores: seq<real>)
    requires bs > 0 && 0 < Blocks(len, bs) <= |row| && |scores| == |S.RealPositions(row)|
    ensures ReadsAfter(row, len, bs, sinks, locals, budget, scores)
            <==> len % bs == 0 || S.Survives(row, sinks, locals, budget, scores, Blocks(len, bs) - 1)
  {
    CompactionExact(S.AfterEviction(row, sinks, locals, budget, scores), len, bs, NULL_BLOCK);
  }

  /**
   The condition on the window is exact: the read after one eviction is exact whatever the scores if
   and only if the last block is full, nothing is to be evicted, the block is a sink, or the local
   window covers it and the blocks ahead of it.
   */
  lemma WindowCoversIff(row: seq<int>, len: nat, bs: nat, sinks: nat, locals: nat, budget: int)
    requires bs > 0 && 0 < Blocks(len, bs) <= |row| && RealFrom(row, Blocks(len, bs) - 1)
    ensures (forall scores: seq<real> | |scores| == |S.RealPositions(row)| ::
               ReadsAfter(row, len, bs, sinks, locals, budget, scores))
            <==> || len % bs == 0 || |S.RealPositions(row)| <= budget
                 || |S.RealPositions(row[..Blocks(len, bs) - 1])| < sinks || |row| - Blocks(len, bs) < locals
  {
    var q := Blocks(len, bs) - 1;
    TailCount(row, q);
    ColumnSlot(row, q);
    S.AlwaysSurvivesIff(row, sinks, locals, budget, |S.RealPositions(row[..q])|);
    forall scores: seq<real> | |scores| == |S.RealPositions(row)|
      ensures ReadsAfter(row, len, bs, sinks, locals, budget, scores)
              <==> len % bs == 0 || S.Survives(row, sinks, locals, budget, scores, q)
    {
      ReadsAfterIff(row, len, bs, sinks, locals, budget, scores);
    }
  }

  lemma AllReal(row: seq<int>)
    requires RealFrom(row, 0)
    ensures |S.RealPositions(row)| == |row|
  {
    TailCount(row, 0);
    assert row[..0] == [];
  }

  /** In a row without evictions the partly filled block goes when it is a candidate of strictly lowest score. */
  lemma LowestCutsRead(row: seq<int>, len: nat, bs: nat, sinks: nat, locals: nat, budget: int, scores: seq<real>)
    requires bs > 0 && 0 < Blocks(len, bs) <= |row| && len % bs != 0 && RealFrom(row, 0) && |scores| == |row| > budget
    requires sinks < Blocks(len, bs) <= |row| - locals
    requires forall i :: 0 <= i < |row| && i != Blocks(len, bs) - 1 ==> scores[Blocks(len, bs) - 1] < scores[i]
    ensures |S.RealPositions(row)| == |row| && !ReadsAfter(row, len, bs, sinks, locals, budget, scores)
  {
    var q := Blocks(len, bs) - 1;
    AllReal(row);
    AllReal(row[..q]);
    ColumnSlot(row, q);
    S.LowestEvicted(row, sinks, locals, budget, scores, q);
    ReadsAfterIff(row, len, bs, sinks, locals, budget, scores);
  }

  /** Without a local window the last, partly filled block can go, and the read is cut short. */
  lemma NoLocalWindowCutsRead()
    ensures |S.RealPositions([5, 6])| == 2 && !ReadsAfter([5, 6], 3, 2, 1, 0, 1, [1.0, 0.5])
  {
    assert Blocks(3, 2) == 2;
    LowestCutsRead([5, 6], 3, 2, 1, 0, 1, [1.0, 0.5]);
  }

  /** A window of one block that is spent on a block allocated ahead does not help either. */
  lemma BlockAheadCutsRead()
    ensures |S.RealPositions([5, 6, 7])| == 3 && !ReadsAfter([5, 6, 7], 3, 2, 1, 1, 2, [1.0, 0.5, 1.0])
  {
    assert Blocks(3, 2) == 2;
    LowestCutsRead([5, 6, 7], 3, 2, 1, 1, 2, [1.0, 0.5, 1.0]);
  }
}
