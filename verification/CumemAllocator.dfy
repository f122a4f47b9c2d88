/**
 Device memory by chunks (csrc/cumem_allocator.cpp, ROCm branches): create a handle per
 chunk, map the handles side by side into a reserved range, and undo it.

 The driver is abstract: `outcome(n)` is the status of its n-th call, zero for
 success, and may be anything.  A failed call changes nothing.  Handles are numbered
 in the order of their creation, so the handles of one allocation are consecutive.  The
 preconditions of `Release` and `Unmap` say that no handle is released twice and nothing
 unmapped is unmapped.
 */
module CumemAllocator {
  import opened ChunkPlan
  import opened Wrappers

  datatype Chunk = Chunk(size: nat, handle: nat)

  /** Where chunk i of a range starts. */
  function Offset(sizes: seq<nat>, i: nat): nat
    requires i <= |sizes|
  {
    Sum(sizes[..i])
  }

  lemma OffsetNext(sizes: seq<nat>, i: nat)
    requires i < |sizes|
    ensures Offset(sizes, i + 1) == Offset(sizes, i) + sizes[i]
  {
    assert sizes[..i + 1][..i] == sizes[..i];
  }

  predicate Positive(sizes: seq<nat>) {
    forall i :: 0 <= i < |sizes| ==> sizes[i] > 0
  }

  lemma {:induction false} OffsetsRise(sizes: seq<nat>, i: nat, j: nat)
    requires i <= j <= |sizes| && Positive(sizes)
    ensures Offset(sizes, i) <= Offset(sizes, j) && (i < j ==> Offset(sizes, i) < Offset(sizes, j))
    decreases j - i
  {
    if i < j {
      OffsetNext(sizes, i);
      OffsetsRise(sizes, i + 1, j);
    }
  }

  /** The mappings after the first n chunks have been mapped, with consecutive handles from `first`. */
  function MappedTo(maps: map<int, Chunk>, base: int, sizes: seq<nat>, first: nat, n: nat): map<int, Chunk>
    requires n <= |sizes|
  {
    if n == 0 then maps
    else MappedTo(maps, base, sizes, first, n - 1)[base + Offset(sizes, n - 1) := Chunk(sizes[n - 1], first + n - 1)]
  }

  /** The addresses of the first n chunks. */
  function Addresses(base: int, sizes: seq<nat>, n: nat): set<int>
    requires n <= |sizes|
  {
    if n == 0 then {} else Addresses(base, sizes, n - 1) + {base + Offset(sizes, n - 1)}
  }

  lemma {:induction false} AddressesAre(base: int, sizes: seq<nat>, n: nat, x: int)
    requires n <= |sizes|
    ensures x in Addresses(base, sizes, n) <==> exists i :: 0 <= i < n && x == base + Offset(sizes, i)
  {
    if n > 0 {
      AddressesAre(base, sizes, n - 1, x);
    }
  }

  function Handles(first: nat, n: nat): set<nat> {
    if n == 0 then {} else Handles(first, n - 1) + {first + n - 1}
  }

  lemma {:induction false} HandlesAre(first: nat, n: nat, h: nat)
    ensures h in Handles(first, n) <==> first <= h < first + n
  {
    if n > 0 {
      HandlesAre(first, n - 1, h);
    }
  }

  /** No mapping reaches into the range. */
  ghost predicate RangeFree(maps: map<int, Chunk>, base: int, sizes: seq<nat>) {
    forall a :: a in maps ==> maps[a].size > 0 && (a + maps[a].size <= base || base + Sum(sizes) <= a)
  }

  /** Taking away the first n mappings again gives back what was there. */
  lemma {:induction false} UnmapAll(maps: map<int, Chunk>, base: int, sizes: seq<nat>, first: nat, n: nat)
    requires n <= |sizes| && Positive(sizes) && RangeFree(maps, base, sizes)
    ensures MappedTo(maps, base, sizes, first, n) - Addresses(base, sizes, n) == maps
    decreases n
  {
    if n > 0 {
      UnmapAll(maps, base, sizes, first, n - 1);
      AddressFree(maps, base, sizes, n - 1);
    }
  }

  lemma AddressFree(maps: map<int, Chunk>, base: int, sizes: seq<nat>, i: nat)
    requires i < |sizes| && Positive(sizes) && RangeFree(maps, base, sizes)
    ensures base + Offset(sizes, i) !in maps
  {
    OffsetsRise(sizes, 0, i);
    OffsetsRise(sizes, i, |sizes|);
    assert sizes[..|sizes|] == sizes;
  }

  lemma {:induction false} AddressNotMapped(maps: map<int, Chunk>, base: int, sizes: seq<nat>,
                                            first: nat, n: nat, i: nat)
    requires n <= i < |sizes| && Positive(sizes) && RangeFree(maps, base, sizes)
    ensures base + Offset(sizes, i) !in MappedTo(maps, base, sizes, first, n)
    decreases n
  {
    AddressFree(maps, base, sizes, i);
    if n > 0 {
      AddressNotMapped(maps, base, sizes, first, n - 1, i);
      OffsetsRise(sizes, n - 1, i);
    }
  }

  /** After mapping, chunk i lies at its own address with its own handle. */
  lemma {:induction false} MappedAt(maps: map<int, Chunk>, base: int, sizes: seq<nat>, first: nat, n: nat, i: nat)
    requires i < n <= |sizes| && Positive(sizes)
    ensures var m, a := MappedTo(maps, base, sizes, first, n), base + Offset(sizes, i);
            a in m && m[a] == Chunk(sizes[i], first + i)
    decreases n
  {
    OffsetsRise(sizes, i, n - 1);
    if i < n - 1 {
      MappedAt(maps, base, sizes, first, n - 1, i);
    }
  }

  /** The mapped chunks lie side by side from the base to its end: each byte is in exactly one chunk. */
  lemma {:induction false} Tiling(base: int, sizes: seq<nat>, byte: int, n: nat)
    requires Positive(sizes) && n <= |sizes| && base <= byte < base + Offset(sizes, n)
    ensures exists i :: 0 <= i < n && base + Offset(sizes, i) <= byte < base + Offset(sizes, i) + sizes[i]
    decreases n
  {
    if n > 0 {
      OffsetNext(sizes, n - 1);
      if byte < base + Offset(sizes, n - 1) {
        Tiling(base, sizes, byte, n - 1);
      }
    }
  }

  lemma NoOverlap(base: int, sizes: seq<nat>, i: nat, j: nat)
    requires Positive(sizes) && i < j < |sizes|
    ensures base + Offset(sizes, i) + sizes[i] <= base + Offset(sizes, j)
  {
    OffsetNext(sizes, i);
    OffsetsRise(sizes, i + 1, j);
  }

  // ----- driver calls -----

  /** The first error among the calls from `a` up to `b`, or zero. */
  function FirstError(outcome: nat -> int, a: nat, b: nat): int
    requires a <= b
    decreases b
  {
    if a == b then 0
    else if FirstError(outcome, a, b - 1) != 0 then FirstError(outcome, a, b - 1)
    else outcome(b - 1)
  }

  lemma {:induction false} FirstErrorSplit(outcome: nat -> int, a: nat, b: nat, c: nat)
    requires a <= b <= c
    ensures FirstError(outcome, a, c)
            == if FirstError(outcome, a, b) != 0 then FirstError(outcome, a, b) else FirstError(outcome, b, c)
    decreases c
  {
    if b < c {
      FirstErrorSplit(outcome, a, b, c - 1);
    }
  }

  lemma {:induction false} ErrorSeen(outcome: nat -> int, a: nat, at: nat, b: nat)
    requires a <= at < b && outcome(at) != 0
    ensures FirstError(outcome, a, b) != 0
    decreases b
  {
    if at < b - 1 {
      ErrorSeen(outcome, a, at, b - 1);
    }
  }

  /** It is zero iff no call failed; otherwise it is what the first failing call returned. */
  lemma {:induction false} FirstErrorIs(outcome: nat -> int, a: nat, b: nat)
    requires a <= b
    ensures FirstError(outcome, a, b) == 0 <==> forall i: nat :: a <= i < b ==> outcome(i) == 0
    ensures FirstError(outcome, a, b) != 0 ==>
              exists i: nat :: a <= i < b && FirstError(outcome, a, b) == outcome(i)
                               && forall j: nat :: a <= j < i ==> outcome(j) == 0
    decreases b
  {
    if a < b {
      FirstErrorIs(outcome, a, b - 1);
      if FirstError(outcome, a, b - 1) == 0 && outcome(b - 1) != 0 {
        assert a <= b - 1 < b && FirstError(outcome, a, b) == outcome(b - 1);
      }
    }
  }

  /** The addresses of the chunks whose unmap call, the calls from `a` on, succeeded. */
  function Unmapped(outcome: nat -> int, a: nat, base: int, sizes: seq<nat>, n: nat): (r: set<int>)
    requires n <= |sizes|
    ensures r <= Addresses(base, sizes, n)
  {
    if n == 0 then {}
    else Unmapped(outcome, a, base, sizes, n - 1)
         + (if outcome(a + n - 1) == 0 then {base + Offset(sizes, n - 1)} else {})
  }

  /** The handles whose release call, the calls from `a` on, succeeded. */
  function Released(outcome: nat -> int, a: nat, first: nat, n: nat): (r: set<nat>)
    ensures r <= Handles(first, n)
  {
    if n == 0 then {}
    else Released(outcome, a, first, n - 1) + (if outcome(a + n - 1) == 0 then {first + n - 1} else {})
  }

  lemma {:induction false} UnmappedIff(outcome: nat -> int, a: nat, base: int, sizes: seq<nat>, n: nat, x: int)
    requires n <= |sizes|
    ensures x in Unmapped(outcome, a, base, sizes, n)
            <==> exists i: nat :: i < n && x == base + Offset(sizes, i) && outcome(a + i) == 0
  {
    if n > 0 {
      UnmappedIff(outcome, a, base, sizes, n - 1, x);
    }
  }

  lemma {:induction false} ReleasedIff(outcome: nat -> int, a: nat, first: nat, n: nat, h: nat)
    ensures h in Released(outcome, a, first, n) <==> first <= h < first + n && outcome(a + (h - first)) == 0
  {
    if n > 0 {
      ReleasedIff(outcome, a, first, n - 1, h);
    }
  }

  lemma UnmappedNext(outcome: nat -> int, a: nat, base: int, sizes: seq<nat>, n: nat,
                     start: map<int, Chunk>, maps: map<int, Chunk>, maps': map<int, Chunk>)
    requires n < |sizes| && maps == start - Unmapped(outcome, a, base, sizes, n)
    requires maps' == if outcome(a + n) == 0 then maps - {base + Offset(sizes, n)} else maps
    ensures maps' == start - Unmapped(outcome, a, base, sizes, n + 1)
  {
  }

  lemma ReleasedNext(outcome: nat -> int, a: nat, first: nat, n: nat, start: set<nat>, live: set<nat>, live': set<nat>)
    requires live == start - Released(outcome, a, first, n)
    requires live' == if outcome(a + n) == 0 then live - {first + n} else live
    ensures live' == start - Released(outcome, a, first, n + 1)
  {
  }

  /** When no call failed, everything was unmapped. */
  lemma {:induction false} AllUnmapped(outcome: nat -> int, a: nat, base: int, sizes: seq<nat>, n: nat)
    requires n <= |sizes| && FirstError(outcome, a, a + n) == 0
    ensures Unmapped(outcome, a, base, sizes, n) == Addresses(base, sizes, n)
  {
    if n > 0 {
      AllUnmapped(outcome, a, base, sizes, n - 1);
    }
  }

  lemma {:induction false} AllReleased(outcome: nat -> int, a: nat, first: nat, n: nat)
    requires FirstError(outcome, a, a + n) == 0
    ensures Released(outcome, a, first, n) == Handles(first, n)
  {
    if n > 0 {
      AllReleased(outcome, a, first, n - 1);
    }
  }

  /** Whatever else happened, the mappings of `before` are there and new ones lie in the range only. */
  ghost predicate Spared(maps: map<int, Chunk>, before: map<int, Chunk>, base: int, sizes: seq<nat>) {
    && (forall a :: a in before ==> a in maps && maps[a] == before[a])
    && (forall a :: a in maps ==> a in before || a in Addresses(base, sizes, |sizes|))
  }

  lemma {:induction false} AddressesGrow(base: int, sizes: seq<nat>, n: nat, m: nat)
    requires n <= m <= |sizes|
    ensures Addresses(base, sizes, n) <= Addresses(base, sizes, m)
    decreases m
  {
    if n < m {
      AddressesGrow(base, sizes, n, m - 1);
    }
  }

  lemma {:induction false} MappingSpares(before: map<int, Chunk>, base: int, sizes: seq<nat>, first: nat, n: nat)
    requires n <= |sizes| && Positive(sizes) && RangeFree(before, base, sizes)
    ensures Spared(MappedTo(before, base, sizes, first, n), before, base, sizes)
  {
    if n > 0 {
      MappingSpares(before, base, sizes, first, n - 1);
      AddressFree(before, base, sizes, n - 1);
      AddressesGrow(base, sizes, n, |sizes|);
    }
  }

  lemma {:induction false} AddressesFree(before: map<int, Chunk>, base: int, sizes: seq<nat>, n: nat)
    requires n <= |sizes| && Positive(sizes) && RangeFree(before, base, sizes)
    ensures forall a :: a in Addresses(base, sizes, n) ==> a !in before
  {
    if n > 0 {
      AddressesFree(before, base, sizes, n - 1);
      AddressFree(before, base, sizes, n - 1);
    }
  }

  lemma UnmappingSpares(maps: map<int, Chunk>, before: map<int, Chunk>, base: int, sizes: seq<nat>, n: nat, r: set<int>)
    requires n <= |sizes| && Positive(sizes) && RangeFree(before, base, sizes)
    requires Spared(maps, before, base, sizes) && r <= Addresses(base, sizes, n)
    ensures Spared(maps - r, before, base, sizes)
  {
    AddressesFree(before, base, sizes, n);
  }

  /** How far creating and mapping got; `at` is the driver call that failed. */
  datatype Stage = Stale | CreateFailed(at: nat) | MapFailed(at: nat) | AccessFailed(at: nat) | Done

  /** Driver calls made to get a context. */
  function ContextCalls(hasContext: bool): nat {
    if hasContext then 1 else 3
  }

  class Device {
    const outcome: nat -> int
    var calls: nat
    var live: set<nat>
    var maps: map<int, Chunk>
    var next: nat
    var sizeOf: map<nat, nat>
    var errorCode: int

    constructor (outcome: nat -> int)
      ensures Valid() && this.outcome == outcome && calls == 0 && live == {} && maps == map[] && errorCode == 0
    {
      this.outcome := outcome;
      calls, live, maps, next, sizeOf, errorCode := 0, {}, map[], 0, map[], 0;
    }

    ghost predicate Valid()
      reads this
    {
      forall h :: h in live ==> h < next
    }

    method Call() returns (status: int)
      modifies `calls
      ensures status == outcome(old(calls)) && calls == old(calls) + 1
    {
      status := outcome(calls);
      calls := calls + 1;
    }

    /** Remember an error; an earlier one is only overwritten, never cleared. */
    method Check(status: int)
      modifies `errorCode
      ensures errorCode == if status != 0 then status else old(errorCode)
    {
      if status != 0 {
        errorCode := status;
      }
    }

    method Create(size: nat) returns (status: int, handle: nat)
      modifies `calls, `live, `next, `sizeOf
      ensures status == outcome(old(calls)) && calls == old(calls) + 1 && handle == old(next)
      ensures live == if status == 0 then old(live) + {handle} else old(live)
      ensures next == if status == 0 then handle + 1 else handle
      ensures sizeOf == if status == 0 then old(sizeOf)[handle := size] else old(sizeOf)
    {
      status := Call();
      handle := next;
      if status == 0 {
        live := live + {handle};
        next := next + 1;
        sizeOf := sizeOf[handle := size];
      }
    }

    /** Only a live handle of exactly that size can be mapped, and only where nothing is mapped. */
    method Map(address: int, size: nat, handle: nat) returns (status: int)
      requires handle in live && handle in sizeOf && sizeOf[handle] == size && address !in maps
      modifies `calls, `maps
      ensures status == outcome(old(calls)) && calls == old(calls) + 1
      ensures maps == if status == 0 then old(maps)[address := Chunk(size, handle)] else old(maps)
    {
      status := Call();
      if status == 0 {
        maps := maps[address := Chunk(size, handle)];
      }
    }

    method Unmap(address: int, size: nat) returns (status: int)
      requires address in maps && maps[address].size == size
      modifies `calls, `maps
      ensures status == outcome(old(calls)) && calls == old(calls) + 1
      ensures maps == if status == 0 then old(maps) - {address} else old(maps)
    {
      status := Call();
      if status == 0 {
        maps := maps - {address};
      }
    }

    method Release(handle: nat) returns (status: int)
      requires handle in live
      modifies `calls, `live
      ensures status == outcome(old(calls)) && calls == old(calls) + 1
      ensures live == if status == 0 then old(live) - {handle} else old(live)
    {
      status := Call();
      if status == 0 {
        live := live - {handle};
      }
    }

    /** Release n consecutive handles, going on after an error; the first error is returned. */
    method ReleaseAll(first: nat, n: nat) returns (firstError: int)
      requires forall h :: first <= h < first + n ==> h in live
      modifies `calls, `live
      ensures calls == old(calls) + n && firstError == FirstError(outcome, old(calls), calls)
      ensures live == old(live) - Released(outcome, old(calls), first, n)
      ensures firstError == 0 ==> live == old(live) - Handles(first, n)
    {
      firstError := 0;
      for j := 0 to n
        invariant calls == old(calls) + j && firstError == FirstError(outcome, old(calls), calls)
        invariant forall h :: first + j <= h < first + n ==> h in live
        invariant live == old(live) - Released(outcome, old(calls), first, j)
      {
        ghost var before := live;
        var status := Release(first + j);
        ReleasedNext(outcome, old(calls), first, j, old(live), before, live);
        if status != 0 && firstError == 0 {
          firstError := status;
        }
      }
      if firstError == 0 {
        AllReleased(outcome, old(calls), first, n);
      }
    }

    /** Chunk i of the range is mapped. */
    ghost predicate MappedFrom(base: int, sizes: seq<nat>, i: nat, n: nat)
      requires n <= |sizes|
      reads this
    {
      forall k :: i <= k < n ==> ChunkMapped(base, sizes, k)
    }

    ghost predicate ChunkMapped(base: int, sizes: seq<nat>, k: nat)
      requires k < |sizes|
      reads this
    {
      base + Offset(sizes, k) in maps && maps[base + Offset(sizes, k)].size == sizes[k]
    }

    /** Unmap the first n chunks of a range, going on after an error; the first error is returned. */
    method UnmapChunks(base: int, sizes: seq<nat>, n: nat) returns (firstError: int)
      requires n <= |sizes| && Positive(sizes) && MappedFrom(base, sizes, 0, n)
      modifies `calls, `maps
      ensures calls == old(calls) + n && firstError == FirstError(outcome, old(calls), calls)
      ensures maps == old(maps) - Unmapped(outcome, old(calls), base, sizes, n)
      ensures firstError == 0 ==> maps == old(maps) - Addresses(base, sizes, n)
    {
      firstError := 0;
      var done := 0;
      for j := 0 to n
        invariant calls == old(calls) + j && firstError == FirstError(outcome, old(calls), calls)
        invariant done == Offset(sizes, j) && MappedFrom(base, sizes, j, n)
        invariant maps == old(maps) - Unmapped(outcome, old(calls), base, sizes, j)
      {
        OffsetNext(sizes, j);
        assert ChunkMapped(base, sizes, j);
        forall k | j < k < n ensures Offset(sizes, j) < Offset(sizes, k) && ChunkMapped(base, sizes, k) {
          OffsetsRise(sizes, j, k);
        }
        ghost var before := maps;
        var status := Unmap(base + done, sizes[j]);
        UnmappedNext(outcome, old(calls), base, sizes, j, old(maps), before, maps);
        if status != 0 && firstError == 0 {
          firstError := status;
        }
        done := done + sizes[j];
      }
      if firstError == 0 {
        AllUnmapped(outcome, old(calls), base, sizes, n);
      }
    }

    method EnsureContext(hasContext: bool)
      modifies `calls, `errorCode
      ensures calls == old(calls) + ContextCalls(hasContext)
      ensures errorCode == 0 <==> old(errorCode) == 0 && FirstError(outcome, old(calls), calls) == 0
    {
      var status := Call();
      Check(status);
      assert FirstError(outcome, old(calls), calls) == status;
      if !hasContext {
        status := Call();
        Check(status);
        assert FirstError(outcome, old(calls), calls) == 0 <==> outcome(old(calls)) == 0 && status == 0;
        status := Call();
        Check(status);
      }
    }

    /** The handles from `first` have the sizes of the chunks. */
    ghost predicate Sized(first: nat, sizes: seq<nat>, n: nat)
      requires n <= |sizes|
      reads this
    {
      forall i :: 0 <= i < n ==> HandleSize(first + i, sizes[i])
    }

    ghost predicate HandleSize(handle: nat, size: nat)
      reads this
    {
      handle in sizeOf && sizeOf[handle] == size
    }

    /** The rollback of the creations: release the first n new handles. */
    method ReleaseNew(first: nat, n: nat, ghost before: set<nat>)
      requires forall h :: h in before ==> h < first
      requires before + Handles(first, n) <= live
      modifies `calls, `live
      ensures calls == old(calls) + n && live <= old(live) && before <= live
      ensures FirstError(outcome, old(calls), calls) == 0 ==> live == old(live) - Handles(first, n)
    {
      forall h: nat ensures h in Handles(first, n) <==> first <= h < first + n {
        HandlesAre(first, n, h);
      }
      var _ := ReleaseAll(first, n);
    }

    /** Create one handle per chunk; on an error release the ones created before it. */
    method CreateAll(sizes: seq<nat>) returns (ok: bool, ghost at: nat)
      requires Valid()
      modifies `calls, `live, `next, `sizeOf, `errorCode
      ensures Valid() && old(calls) <= calls && old(next) <= next
      ensures ok ==> Sized(old(next), sizes, |sizes|)
      ensures ok ==> && calls == old(calls) + |sizes| && next == old(next) + |sizes| && errorCode == old(errorCode)
                     && live == old(live) + Handles(old(next), |sizes|) && (old(errorCode) == 0 || sizes == [])
      ensures !ok ==> errorCode != 0 && sizes != [] && old(live) <= live
      ensures !ok && old(errorCode) == 0 ==> old(calls) <= at < calls && outcome(at) != 0
      ensures !ok && old(errorCode) == 0 && FirstError(outcome, at + 1, calls) == 0 ==> live == old(live)
      ensures !ok && old(errorCode) != 0 ==> live == old(live) + (if outcome(old(calls)) == 0 then {old(next)} else {})
    {
      var first := next;
      at := calls;
      for i := 0 to |sizes|
        invariant Valid() && calls == old(calls) + i && next == first + i && errorCode == old(errorCode)
        invariant live == old(live) + Handles(first, i) && (old(errorCode) == 0 || i == 0)
        invariant Sized(first, sizes, i)
      {
        at := calls;
        var status, _ := Create(sizes[i]);
        Check(status);
        if errorCode != 0 {
          RemoveNew(old(live), first, i);
          ReleaseNew(first, i, old(live));
          return false, at;
        }
      }
      return true, at;
    }

    /** Map the chunks side by side; on an error unmap the ones before it and release all handles. */
    method MapAll(base: int, sizes: seq<nat>, first: nat) returns (ok: bool, ghost at: nat)
      requires Positive(sizes) && RangeFree(maps, base, sizes) && (errorCode == 0 || sizes == [])
      requires Sized(first, sizes, |sizes|) && forall h :: first <= h < first + |sizes| ==> h in live
      modifies `calls, `live, `maps, `errorCode
      ensures ok ==> && calls == old(calls) + |sizes| && live == old(live) && errorCode == old(errorCode)
                     && maps == MappedTo(old(maps), base, sizes, first, |sizes|)
      ensures !ok ==> errorCode != 0 && sizes != [] && old(calls) <= at < calls && outcome(at) != 0
      ensures live <= old(live) && old(live) - Handles(first, |sizes|) <= live
      ensures Spared(maps, old(maps), base, sizes)
      ensures !ok && FirstError(outcome, at + 1, calls) == 0 ==>
                maps == old(maps) && live == old(live) - Handles(first, |sizes|)
    {
      var done := 0;
      at := calls;
      for i := 0 to |sizes|
        invariant calls == old(calls) + i && live == old(live) && errorCode == old(errorCode)
        invariant done == Offset(sizes, i) && maps == MappedTo(old(maps), base, sizes, first, i)
      {
        at := calls;
        ok := MapOne(base, sizes, first, i, done, old(maps));
        if !ok {
          Undo(base, sizes, first, i, old(maps));
          return false, at;
        }
        OffsetNext(sizes, i);
        done := done + sizes[i];
      }
      MappingSpares(old(maps), base, sizes, first, |sizes|);
      return true, at;
    }

    /** One turn of the loop above. */
    method MapOne(base: int, sizes: seq<nat>, first: nat, i: nat, done: nat, ghost before: map<int, Chunk>)
      returns (ok: bool)
      requires i < |sizes| && Positive(sizes) && RangeFree(before, base, sizes) && errorCode == 0
      requires Sized(first, sizes, |sizes|) && first + i in live
      requires done == Offset(sizes, i) && maps == MappedTo(before, base, sizes, first, i)
      modifies `calls, `maps, `errorCode
      ensures calls == old(calls) + 1 && (ok <==> outcome(old(calls)) == 0) && (ok <==> errorCode == 0)
      ensures maps == if ok then MappedTo(before, base, sizes, first, i + 1) else old(maps)
    {
      AddressNotMapped(before, base, sizes, first, i, i);
      assert HandleSize(first + i, sizes[i]);
      var status := Map(base + done, sizes[i], first + i);
      Check(status);
      return errorCode == 0;
    }

    /** The rollback after chunk i could not be mapped. */
    method Undo(base: int, sizes: seq<nat>, first: nat, i: nat, ghost before: map<int, Chunk>)
      requires i <= |sizes| && Positive(sizes) && RangeFree(before, base, sizes)
      requires maps == MappedTo(before, base, sizes, first, i)
      requires forall h :: first <= h < first + |sizes| ==> h in live
      modifies `calls, `live, `maps
      ensures calls == old(calls) + i + |sizes|
      ensures maps == old(maps) - Unmapped(outcome, old(calls), base, sizes, i)
      ensures live == old(live) - Released(outcome, old(calls) + i, first, |sizes|)
      ensures Spared(maps, before, base, sizes)
      ensures FirstError(outcome, old(calls), calls) == 0 ==>
                maps == before && live == old(live) - Handles(first, |sizes|)
    {
      forall k | 0 <= k < i ensures ChunkMapped(base, sizes, k) {
        MappedAt(before, base, sizes, first, i, k);
      }
      UnmapAll(before, base, sizes, first, i);
      MappingSpares(before, base, sizes, first, i);
      UnmappingSpares(maps, before, base, sizes, i, Unmapped(outcome, calls, base, sizes, i));
      var _ := UnmapChunks(base, sizes, i);
      ghost var middle := calls;
      var _ := ReleaseAll(first, |sizes|);
      FirstErrorSplit(outcome, old(calls), middle, calls);
    }

    /** Create, map, give access: the part after the context has been set up. */
    method BackRange(base: int, sizes: seq<nat>) returns (ghost stage: Stage)
      requires Valid() && Positive(sizes) && RangeFree(maps, base, sizes)
      modifies this
      ensures Valid() && old(calls) <= calls
      ensures errorCode == 0 <==> stage.Done?
      ensures stage.Stale? <==> old(errorCode) != 0
      ensures stage.Done? || stage.AccessFailed? ==>
                && maps == MappedTo(old(maps), base, sizes, old(next), |sizes|)
                && live == old(live) + Handles(old(next), |sizes|)
      ensures !stage.Done? && !stage.Stale? ==> old(calls) <= stage.at < calls && outcome(stage.at) != 0
      ensures (stage.CreateFailed? || stage.MapFailed?) && FirstError(outcome, stage.at + 1, calls) == 0 ==>
                maps == old(maps) && live == old(live)
      ensures stage.Stale? ==> maps == old(maps)
      ensures stage.Stale? ==>
                live == old(live) + (if sizes != [] && outcome(old(calls)) == 0 then {old(next)} else {})
      ensures Spared(maps, old(maps), base, sizes) && old(live) <= live
    {
      ghost var stale := errorCode != 0;
      var first := next;
      var ok, at := CreateAll(sizes);
      if !ok {
        return if stale then Stale else CreateFailed(at);
      }
      HandlesLive(old(live), first, |sizes|);
      ok, at := MapAll(base, sizes, first);
      RemoveNew(old(live), first, |sizes|);
      if !ok {
        return MapFailed(at);
      }
      var status := Call();
      Check(status);
      return if errorCode == 0 then Done else if stale then Stale else AccessFailed(calls - 1);
    }

    /**
     Back a reserved range.  It leaves the range tiled, or reports an error.  After a failed
     creation or mapping whose clean-up calls succeed, nothing is left behind; an error that
     was there before the first creation leaves that first handle behind.
     */
    method CreateAndMap(base: int, sizes: seq<nat>, hasContext: bool) returns (first: nat, ghost stage: Stage)
      requires Valid() && Positive(sizes) && RangeFree(maps, base, sizes)
      modifies this
      ensures Valid() && first == old(next) && old(calls) + ContextCalls(hasContext) <= calls
      ensures errorCode == 0 <==> stage.Done?
      ensures stage.Stale? <==>
                old(errorCode) != 0 || FirstError(outcome, old(calls), old(calls) + ContextCalls(hasContext)) != 0
      ensures stage.Done? || stage.AccessFailed? ==>
                && maps == MappedTo(old(maps), base, sizes, first, |sizes|)
                && live == old(live) + Handles(first, |sizes|)
      ensures !stage.Done? && !stage.Stale? ==> old(calls) <= stage.at < calls && outcome(stage.at) != 0
      ensures (stage.CreateFailed? || stage.MapFailed?) && FirstError(outcome, stage.at + 1, calls) == 0 ==>
                maps == old(maps) && live == old(live)
      ensures stage.Stale? ==> maps == old(maps)
      ensures var made := sizes != [] && outcome(old(calls) + ContextCalls(hasContext)) == 0;
              stage.Stale? ==> live == old(live) + (if made then {first} else {})
      ensures Spared(maps, old(maps), base, sizes) && old(live) <= live
    {
      first := next;
      EnsureContext(hasContext);
      stage := BackRange(base, sizes);
    }

    /** Give the chunks of a range back, going on after an error and reporting the first one. */
    method UnmapAndRelease(base: int, sizes: seq<nat>, first: nat, hasContext: bool, ghost before: map<int, Chunk>)
      requires Valid() && Positive(sizes) && RangeFree(before, base, sizes)
      requires maps == MappedTo(before, base, sizes, first, |sizes|)
      requires forall h :: first <= h < first + |sizes| ==> h in live
      modifies this
      ensures Valid() && next == old(next) && calls == old(calls) + ContextCalls(hasContext) + 2 * |sizes|
      ensures errorCode == 0 <==> old(errorCode) == 0 && FirstError(outcome, old(calls), calls) == 0
      ensures maps == old(maps) - Unmapped(outcome, old(calls) + ContextCalls(hasContext), base, sizes, |sizes|)
      ensures live == old(live)
                      - Released(outcome, old(calls) + ContextCalls(hasContext) + |sizes|, first, |sizes|)
      ensures Spared(maps, before, base, sizes)
      ensures FirstError(outcome, old(calls) + ContextCalls(hasContext), calls) == 0 ==>
                maps == before && live == old(live) - Handles(first, |sizes|)
    {
      EnsureContext(hasContext);
      ghost var start := calls;
      forall k | 0 <= k < |sizes| ensures ChunkMapped(base, sizes, k) {
        MappedAt(before, base, sizes, first, |sizes|, k);
      }
      UnmapAll(before, base, sizes, first, |sizes|);
      MappingSpares(before, base, sizes, first, |sizes|);
      UnmappingSpares(maps, before, base, sizes, |sizes|, Unmapped(outcome, calls, base, sizes, |sizes|));
      var unmapError := UnmapChunks(base, sizes, |sizes|);
      ghost var middle := calls;
      var releaseError := ReleaseAll(first, |sizes|);
      FirstErrorSplit(outcome, start, middle, calls);
      FirstErrorSplit(outcome, old(calls), start, calls);
      Check(if unmapError != 0 then unmapError else releaseError);
    }

    /** The range is tiled by the handles from `first`, beside what was there before. */
    ghost predicate Holds(base: int, sizes: seq<nat>, first: nat, before: map<int, Chunk>, others: set<nat>)
      reads this
    {
      && Valid()
      && maps == MappedTo(before, base, sizes, first, |sizes|)
      && live == others + Handles(first, |sizes|)
      && forall h :: h in others ==> h < first
    }

    /** What a failed cycle leaves alone: everything outside the range, and every other handle. */
    ghost predicate OthersKept(base: int, sizes: seq<nat>, before: map<int, Chunk>, others: set<nat>)
      reads this
    {
      Valid() && Spared(maps, before, base, sizes) && others <= live
    }

    /**
     Any number of sleep and wake cycles: while no call fails, the range stays tiled and no handle
     is left over; a failed one leaves everything outside the range as it was.
     */
    method Cycle(base: int, sizes: seq<nat>, first: nat, rounds: nat,
                 ghost before: map<int, Chunk>, ghost others: set<nat>)
      returns (ok: bool, first': nat)
      requires Positive(sizes) && RangeFree(before, base, sizes) && Holds(base, sizes, first, before, others)
      requires errorCode == 0
      modifies this
      ensures ok ==> Holds(base, sizes, first', before, others)
      ensures !ok ==> OthersKept(base, sizes, before, others)
      ensures errorCode == 0 && old(calls) <= calls && (FirstError(outcome, old(calls), calls) == 0 ==> ok)
    {
      ok, first' := true, first;
      for r := 0 to rounds
        invariant ok && errorCode == 0 && Holds(base, sizes, first', before, others) && old(calls) <= calls
      {
        ok, first' := SleepAndWake(base, sizes, first', before, others, old(calls));
        if !ok {
          return;
        }
      }
    }

    /** Going to sleep: the range is given back, or a call failed; the error code is cleared when it is reported. */
    method Sleep(base: int, sizes: seq<nat>, first: nat, ghost before: map<int, Chunk>, ghost others: set<nat>)
      returns (ok: bool)
      requires Positive(sizes) && RangeFree(before, base, sizes) && Holds(base, sizes, first, before, others)
      requires errorCode == 0
      modifies this
      ensures errorCode == 0 && old(calls) <= calls && next == old(next)
      ensures ok <==> FirstError(outcome, old(calls), calls) == 0
      ensures ok ==> Valid() && maps == before && live == others
      ensures !ok ==> OthersKept(base, sizes, before, others)
    {
      HandlesLive(others, first, |sizes|);
      RemoveNew(others, first, |sizes|);
      KeepsOthers(others, first, |sizes|, Released(outcome, calls + 1 + |sizes|, first, |sizes|));
      UnmapAndRelease(base, sizes, first, true, before);
      FirstErrorSplit(outcome, old(calls), old(calls) + 1, calls);
      ok := errorCode == 0;
      errorCode := 0;
    }

    /** Waking up: the range is tiled again, with new handles, or a call failed. */
    method Wake(base: int, sizes: seq<nat>, ghost before: map<int, Chunk>, ghost others: set<nat>)
      returns (ok: bool, first: nat)
      requires Positive(sizes) && RangeFree(before, base, sizes) && Valid() && maps == before && live == others
      requires errorCode == 0
      modifies this
      ensures errorCode == 0 && old(calls) <= calls
      ensures ok ==> Holds(base, sizes, first, before, others)
      ensures !ok ==> FirstError(outcome, old(calls), calls) != 0 && OthersKept(base, sizes, before, others)
    {
      ghost var stage;
      first, stage := CreateAndMap(base, sizes, true);
      ok := errorCode == 0;
      errorCode := 0;
      if stage.Stale? {
        FirstErrorSplit(outcome, old(calls), old(calls) + 1, calls);
      } else if !stage.Done? {
        ErrorSeen(outcome, old(calls), stage.at, calls);
      }
    }

    /** One cycle. */
    method SleepAndWake(base: int, sizes: seq<nat>, first: nat,
                        ghost before: map<int, Chunk>, ghost others: set<nat>, ghost start: nat)
      returns (ok: bool, first': nat)
      requires Positive(sizes) && RangeFree(before, base, sizes) && Holds(base, sizes, first, before, others)
      requires errorCode == 0 && start <= calls
      modifies this
      ensures errorCode == 0 && old(calls) <= calls
      ensures ok ==> Holds(base, sizes, first', before, others)
      ensures !ok ==> FirstError(outcome, start, calls) != 0 && OthersKept(base, sizes, before, others)
    {
      first' := first;
      ok := Sleep(base, sizes, first, before, others);
      ghost var middle := calls;
      FirstErrorSplit(outcome, start, old(calls), middle);
      if !ok {
        return;
      }
      ok, first' := Wake(base, sizes, before, others);
      FirstErrorSplit(outcome, start, middle, calls);
    }

    /** The calls before the range is backed: context, granularity, reservation; stops at the first error. */
    method Reserve(hasContext: bool)
      modifies `calls, `errorCode
      ensures old(calls) + ContextCalls(hasContext) < calls <= old(calls) + ContextCalls(hasContext) + 2
      ensures errorCode == 0 <==> old(errorCode) == 0 && FirstError(outcome, old(calls), calls) == 0
    {
      EnsureContext(hasContext);
      var status := Call();
      Check(status);
      if errorCode != 0 {
        return;
      }
      status := Call();
      Check(status);
    }

    /**
     A new allocation, with the chunks of `PlanChunks`, at the range the driver reserves; None is the
     null result.  An error code left by an earlier failure makes it fail at once.
     */
    method Malloc(sizes: seq<nat>, reserved: int, hasContext: bool) returns (r: Option<int>, ghost stage: Stage)
      requires Valid() && Positive(sizes) && RangeFree(maps, reserved, sizes)
      modifies this
      ensures Valid() && (r.None? <==> errorCode != 0)
      ensures old(errorCode) != 0 ==> r.None? && live == old(live) && maps == old(maps)
      ensures r.Some? ==>
                && r.value == reserved && stage.Done?
                && maps == MappedTo(old(maps), reserved, sizes, old(next), |sizes|)
                && live == old(live) + Handles(old(next), |sizes|)
      ensures stage.Done? ==> r.Some?
      ensures stage.AccessFailed? ==>
                && maps == MappedTo(old(maps), reserved, sizes, old(next), |sizes|)
                && live == old(live) + Handles(old(next), |sizes|)
      ensures stage.CreateFailed? || stage.MapFailed? ==> old(calls) <= stage.at < calls - 1 && outcome(stage.at) != 0
      ensures (stage.CreateFailed? || stage.MapFailed?) && FirstError(outcome, stage.at + 1, calls - 1) == 0 ==>
                maps == old(maps) && live == old(live)
      ensures stage.Stale? ==> maps == old(maps) && (live == old(live) || live == old(live) + {old(next)})
      ensures Spared(maps, old(maps), reserved, sizes) && old(live) <= live
    {
      stage := Stale;
      Reserve(hasContext);
      if errorCode != 0 {
        return None, stage;
      }
      var first;
      first, stage := CreateAndMap(reserved, sizes, true);
      if errorCode != 0 {
        var status := Call();
        Check(status);
        return None, stage;
      }
      return Some(reserved), stage;
    }
  }

  lemma {:induction false} PlanPositive(aligned: nat, chunk: nat)
    requires chunk > 0
    ensures Positive(Plan(aligned, chunk))
  {
    if aligned > 0 {
      PlanPositive(aligned - Min(aligned, chunk), chunk);
    }
  }

  /** Every planned chunk list can be allocated. */
  lemma PlannedPositive(size: nat, g: nat, chunk: nat)
    requires g > 0 && Planned(size, g, chunk).Chunks?
    ensures Positive(Planned(size, g, chunk).sizes)
  {
    PlanPositive(AlignUp(size, g), AlignUp(chunk, g));
  }

  lemma HandlesLive(others: set<nat>, first: nat, n: nat)
    ensures forall h :: first <= h < first + n ==> h in others + Handles(first, n)
  {
    forall h | first <= h < first + n ensures h in Handles(first, n) {
      HandlesAre(first, n, h);
    }
  }

  lemma KeepsOthers(others: set<nat>, first: nat, n: nat, r: set<nat>)
    requires r <= Handles(first, n) && forall h :: h in others ==> h < first
    ensures others <= others + Handles(first, n) - r
  {
    forall h | h in others ensures h !in Handles(first, n) {
      HandlesAre(first, n, h);
    }
  }

  lemma RemoveNew(live: set<nat>, first: nat, n: nat)
    requires forall h :: h in live ==> h < first
    ensures live + Handles(first, n) - Handles(first, n) == live
  {
    forall h | h in live ensures h !in Handles(first, n) {
      HandlesAre(first, n, h);
    }
  }
}
