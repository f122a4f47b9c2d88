/**
 Chunk sizes of one device allocation (csrc/cumem_allocator.cpp, ROCm branch).  Sizes
 are 64-bit unsigned: sums wrap around.
 */
module ChunkPlan {
  import opened Arith

  const WORD: nat := 0x1_0000_0000_0000_0000
  const MEGABYTE: nat := 1024 * 1024
  const DEFAULT_CHUNK: nat := 256 * MEGABYTE

  function Wrap(n: int): nat {
    n % WORD
  }

  lemma WrapSmall(n: nat)
    ensures n < WORD ==> Wrap(n) == n
    ensures WORD <= n < 2 * WORD ==> Wrap(n) == n - WORD
  {
    if n < WORD {
      DivUnique(n, WORD, 0);
    } else if n < 2 * WORD {
      DivUnique(n, WORD, 1);
    }
  }

  // ----- the configured chunk size -----

  /** The chunk size in bytes; `parsed` is the configured number of megabytes, if it could be read. */
  function BaseChunk(parsed: (bool, nat)): nat {
    if !parsed.0 || parsed.1 == 0 || parsed.1 > (WORD - 1) / MEGABYTE then DEFAULT_CHUNK
    else Wrap(parsed.1 * MEGABYTE)
  }

  /** The conversion to bytes never wraps: a usable setting is kept exactly, anything else gives the default. */
  lemma BaseChunkExact(parsed: (bool, nat))
    ensures 0 < BaseChunk(parsed) < WORD
    ensures BaseChunk(parsed)
            == if parsed.0 && 0 < parsed.1 && parsed.1 * MEGABYTE < WORD then parsed.1 * MEGABYTE else DEFAULT_CHUNK
  {
    DivBounds(WORD - 1, MEGABYTE);
    var q := (WORD - 1) / MEGABYTE;
    if parsed.1 <= q {
      MulMono(parsed.1, q, MEGABYTE);
      WrapSmall(parsed.1 * MEGABYTE);
    } else {
      MulMono(q + 1, parsed.1, MEGABYTE);
      MulStep(q, MEGABYTE);
    }
  }

  // ----- alignment -----

  /** Round up to a multiple of the granularity, in wrapping arithmetic. */
  function AlignUp(size: nat, g: nat): nat
    requires g > 0
  {
    Wrap((Wrap(size + g - 1) / g) * g)
  }

  /** Rounding up is exact unless adding the granularity wraps; then it gives zero. */
  lemma AlignUpExact(size: nat, g: nat)
    requires 0 < g < WORD && size < WORD
    ensures size + g - 1 < WORD ==> AlignUp(size, g) == Blocks(size, g) * g
    ensures size + g - 1 >= WORD ==> AlignUp(size, g) == 0
  {
    var x := size + g - 1;
    WrapSmall(x);
    if x < WORD {
      BlocksIsCeiling(size, g);
      BlocksBounds(size, g);
      WrapSmall(Blocks(size, g) * g);
    } else {
      DivUnique(x - WORD, g, 0);
      WrapSmall(0);
    }
  }

  /** A positive size rounds up to zero exactly when the addition wraps. */
  lemma AlignUpZeroIff(size: nat, g: nat)
    requires 0 < g < WORD && 0 < size < WORD
    ensures AlignUp(size, g) == 0 <==> size + g - 1 >= WORD
  {
    AlignUpExact(size, g);
    BlocksBounds(size, g);
  }

  /** The largest accepted setting makes the aligned chunk size zero, and the count a division by zero. */
  lemma LargestSettingWraps()
    ensures AlignUp(BaseChunk((true, 17592186044415)), 2 * MEGABYTE) == 0
  {
    BaseChunkExact((true, 17592186044415));
    AlignUpExact(BaseChunk((true, 17592186044415)), 2 * MEGABYTE);
  }

  // ----- the list of chunks -----

  function ChunkCount(aligned: nat, chunk: nat): nat
    requires chunk > 0
  {
    Wrap(aligned + chunk - 1) / chunk
  }

  lemma ChunkCountExact(aligned: nat, chunk: nat)
    requires 0 < chunk < WORD && aligned < WORD
    ensures aligned + chunk - 1 < WORD ==> ChunkCount(aligned, chunk) == Blocks(aligned, chunk)
    ensures aligned + chunk - 1 >= WORD ==> ChunkCount(aligned, chunk) == 0
  {
    var x := aligned + chunk - 1;
    WrapSmall(x);
    if x < WORD {
      BlocksIsCeiling(aligned, chunk);
    } else {
      DivUnique(x - WORD, chunk, 0);
    }
  }

  function Min(a: nat, b: nat): nat {
    if a < b then a else b
  }

  /** Whole chunks while they last, then the rest. */
  function Plan(aligned: nat, chunk: nat): seq<nat>
    requires chunk > 0
  {
    if aligned == 0 then [] else [Min(aligned, chunk)] + Plan(aligned - Min(aligned, chunk), chunk)
  }

  function Sum(sizes: seq<nat>): nat {
    if sizes == [] then 0 else Sum(sizes[..|sizes| - 1]) + sizes[|sizes| - 1]
  }

  lemma {:induction false} SumCons(x: nat, rest: seq<nat>)
    ensures Sum([x] + rest) == x + Sum(rest)
  {
    if rest == [] {
      assert [x] + rest == [x];
    } else {
      var n := |rest| - 1;
      assert ([x] + rest)[..|rest|] == [x] + rest[..n];
      SumCons(x, rest[..n]);
    }
  }

  /** The chunks are positive multiples of the granularity, no larger than a chunk, and add up to the size. */
  ghost predicate Covers(sizes: seq<nat>, aligned: nat, chunk: nat, g: nat)
    requires g > 0
  {
    Sum(sizes) == aligned && forall i :: 0 <= i < |sizes| ==> 0 < sizes[i] <= chunk && sizes[i] % g == 0
  }

  lemma Multiple(a: nat, b: nat, g: nat)
    requires g > 0 && a % g == 0 && b % g == 0 && b <= a
    ensures (a - b) % g == 0
  {
    DivBounds(a, g);
    DivBounds(b, g);
    MulSplit(a / g, b / g, g);
    DivUnique(a - b, g, a / g - b / g);
  }

  lemma {:induction false} PlanCovers(aligned: nat, chunk: nat, g: nat)
    requires g > 0 && chunk > 0 && aligned % g == 0 && chunk % g == 0
    ensures Covers(Plan(aligned, chunk), aligned, chunk, g)
    ensures |Plan(aligned, chunk)| == Blocks(aligned, chunk)
  {
    if aligned > 0 {
      var first := Min(aligned, chunk);
      Multiple(aligned, first, g);
      PlanCovers(aligned - first, chunk, g);
      SumCons(first, Plan(aligned - first, chunk));
    }
  }

  lemma {:induction false} PlanAt(aligned: nat, chunk: nat, i: nat)
    requires chunk > 0 && i < |Plan(aligned, chunk)|
    ensures i * chunk < aligned && Plan(aligned, chunk)[i] == Min(aligned - i * chunk, chunk)
  {
    if i > 0 {
      PlanAt(aligned - chunk, chunk, i - 1);
      MulStep(i, chunk);
    }
  }

  lemma {:induction false} PlanLength(aligned: nat, chunk: nat)
    requires chunk > 0
    ensures |Plan(aligned, chunk)| == Blocks(aligned, chunk)
  {
    if aligned > 0 {
      PlanLength(aligned - Min(aligned, chunk), chunk);
    }
  }

  datatype Result = DivisionByZero | Chunks(aligned: nat, sizes: seq<nat>)

  /** The chunk list of an allocation of `size` bytes. */
  function Planned(size: nat, g: nat, base: nat): Result
    requires g > 0
  {
    var aligned, chunk := AlignUp(size, g), AlignUp(base, g);
    if chunk == 0 then DivisionByZero
    else Chunks(aligned, if aligned + chunk - 1 < WORD then Plan(aligned, chunk) else [])
  }

  method PlanChunks(size: nat, g: nat, base: nat) returns (r: Result)
    requires 0 < g < WORD && size < WORD && base < WORD
    ensures r == Planned(size, g, base)
  {
    var aligned := AlignUp(size, g);
    var chunk := AlignUp(base, g);
    if chunk == 0 {
      return DivisionByZero;
    }
    assert aligned < WORD && chunk < WORD;
    ChunkCountExact(aligned, chunk);
    PlanLength(aligned, chunk);
    var count := ChunkCount(aligned, chunk);
    ghost var plan := if aligned + chunk - 1 < WORD then Plan(aligned, chunk) else [];
    var sizes: seq<nat> := [];
    for i := 0 to count
      invariant sizes == plan[..i]
    {
      PlanAt(aligned, chunk, i);
      sizes := sizes + [Min(aligned - i * chunk, chunk)];
    }
    return Chunks(aligned, sizes);
  }

  /** The chunks cover the aligned size exactly when none of the three sums wraps. */
  lemma PlannedCoversIff(size: nat, g: nat, base: nat)
    requires 0 < g < WORD && 0 < size < WORD && 0 < base < WORD
    ensures var r := Planned(size, g, base);
            (r.Chunks? && r.aligned >= size && Covers(r.sizes, r.aligned, AlignUp(base, g), g))
            <==> && size + g - 1 < WORD && base + g - 1 < WORD
                 && Blocks(size, g) * g + Blocks(base, g) * g - 1 < WORD
  {
    AlignUpExact(size, g);
    AlignUpExact(base, g);
    BlocksBounds(size, g);
    BlocksBounds(base, g);
    if size + g - 1 < WORD && base + g - 1 < WORD {
      var aligned, chunk := Blocks(size, g) * g, Blocks(base, g) * g;
      DivUnique(aligned, g, Blocks(size, g));
      DivUnique(chunk, g, Blocks(base, g));
      PlanCovers(aligned, chunk, g);
    }
  }
}
