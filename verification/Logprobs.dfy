/**
 Log-probabilities of a request in six flat lists (vllm/logprobs.py), read back position
 by position like a list of dictionaries.

 A dictionary given to `append` is the list of its items in order; no dictionary is the
 empty list.
 */
module Logprobs {
  import opened Arith
  import opened Wrappers

  datatype Logprob = Logprob(logprob: real, rank: Option<int>, token: Option<string>)

  datatype Item = Item(id: int, entry: Logprob)

  type Position = map<int, Logprob>

  /** The dictionary of a list of items: a repeated key keeps its last entry. */
  function AsDict(items: seq<Item>): Position {
    if items == [] then map[] else AsDict(items[..|items| - 1])[items[|items| - 1].id := items[|items| - 1].entry]
  }

  /** A dictionary has exactly the ids of its items. */
  lemma {:induction false} AsDictKeys(items: seq<Item>, id: int)
    ensures id in AsDict(items) <==> exists k :: 0 <= k < |items| && items[k].id == id
  {
    if items != [] {
      AsDictKeys(items[..|items| - 1], id);
    }
  }

  /** An id has the entry of its last item. */
  lemma {:induction false} AsDictLast(items: seq<Item>, k: nat)
    requires k < |items| && forall j :: k < j < |items| ==> items[j].id != items[k].id
    ensures items[k].id in AsDict(items) && AsDict(items)[items[k].id] == items[k].entry
  {
    var n := |items| - 1;
    if k < n {
      AsDictLast(items[..n], k);
      assert items[n].id != items[k].id;
    }
  }

  // ----- the six lists -----

  /** The four lists with one place per stored item. */
  datatype Lists = Lists(ids: seq<int>, probs: seq<real>, ranks: seq<Option<int>>, tokens: seq<Option<string>>)

  /** All six: the bounds of each position, and the items. */
  datatype Store = Store(starts: seq<int>, ends: seq<int>, data: Lists)

  predicate Aligned(l: Lists) {
    |l.ids| == |l.probs| == |l.ranks| == |l.tokens|
  }

  function EntryAt(l: Lists, i: nat): Logprob
    requires Aligned(l) && i < |l.ids|
  {
    Logprob(l.probs[i], l.ranks[i], l.tokens[i])
  }

  /** The dictionary built from places s up to e; None is an index out of range. */
  function Read(l: Lists, s: int, e: int): Option<Position>
    requires Aligned(l)
    decreases e - s
  {
    if e <= s then Some(map[])
    else
      var before, n := Read(l, s, e - 1), |l.ids|;
      if before.None? || !(-n <= e - 1 < n) then None
      else
        var i := if e - 1 < 0 then e - 1 + n else e - 1;
        Some(before.value[l.ids[i] := EntryAt(l, i)])
  }

  predicate Shaped(st: Store) {
    |st.starts| == |st.ends| && Aligned(st.data)
  }

  function View(st: Store): (v: seq<Option<Position>>)
    requires Shaped(st)
    ensures |v| == |st.starts|
  {
    seq(|st.starts|, i requires 0 <= i < |st.starts| => Read(st.data, st.starts[i], st.ends[i]))
  }

  /** Segments lie inside the lists, in order; there may be gaps between them. */
  predicate Valid(st: Store) {
    && Shaped(st)
    && (forall i :: 0 <= i < |st.starts| ==> 0 <= st.starts[i] <= st.ends[i] <= |st.data.ids|)
    && (forall i, j :: 0 <= i < j < |st.starts| ==> st.ends[i] <= st.starts[j])
  }

  const EMPTY := Store([], [], Lists([], [], [], []))

  // ----- appending -----

  function Put(l: Lists, item: Item): Lists {
    Lists(l.ids + [item.id], l.probs + [item.entry.logprob], l.ranks + [item.entry.rank], l.tokens + [item.entry.token])
  }

  function PutAll(l: Lists, items: seq<Item>): Lists {
    if items == [] then l else Put(PutAll(l, items[..|items| - 1]), items[|items| - 1])
  }

  function Append(st: Store, items: seq<Item>): Store {
    var put := PutAll(st.data, items);
    Store(st.starts + [|st.data.probs|], st.ends + [|put.probs|], put)
  }

  lemma {:induction false} PutAllLengths(l: Lists, items: seq<Item>)
    requires Aligned(l)
    ensures Aligned(PutAll(l, items)) && |PutAll(l, items).ids| == |l.ids| + |items|
  {
    if items != [] {
      PutAllLengths(l, items[..|items| - 1]);
    }
  }

  lemma {:induction false} ReadPut(l: Lists, item: Item, s: int, e: int)
    requires Aligned(l) && 0 <= s && e <= |l.ids|
    ensures Read(Put(l, item), s, e) == Read(l, s, e)
    decreases e - s
  {
    if s < e {
      ReadPut(l, item, s, e - 1);
    }
  }

  /** What was stored before reads the same. */
  lemma {:induction false} ReadOld(l: Lists, items: seq<Item>, s: int, e: int)
    requires Aligned(l) && 0 <= s && e <= |l.ids|
    ensures Aligned(PutAll(l, items)) && Read(PutAll(l, items), s, e) == Read(l, s, e)
  {
    PutAllLengths(l, items);
    if items != [] {
      var front := items[..|items| - 1];
      PutAllLengths(l, front);
      ReadOld(l, front, s, e);
      ReadPut(PutAll(l, front), items[|items| - 1], s, e);
    }
  }

  /** The new items read as their dictionary. */
  lemma {:induction false} ReadNew(l: Lists, items: seq<Item>)
    requires Aligned(l)
    ensures Aligned(PutAll(l, items))
    ensures Read(PutAll(l, items), |l.ids|, |l.ids| + |items|) == Some(AsDict(items))
  {
    PutAllLengths(l, items);
    if items != [] {
      var front, item := items[..|items| - 1], items[|items| - 1];
      var put, n := PutAll(l, front), |l.ids|;
      ReadNew(l, front);
      PutAllLengths(l, front);
      ReadPut(put, item, n, n + |front|);
      assert EntryAt(Put(put, item), n + |front|) == item.entry;
    }
  }

  /** Appending a dictionary appends it to the list that is read back. */
  lemma AppendReads(st: Store, items: seq<Item>)
    requires Valid(st)
    ensures Valid(Append(st, items))
    ensures View(Append(st, items)) == View(st) + [Some(AsDict(items))]
  {
    PutAllLengths(st.data, items);
    ReadNew(st.data, items);
    var r := Append(st, items);
    forall i | 0 <= i < |st.starts| ensures View(r)[i] == View(st)[i] {
      ReadOld(st.data, items, st.starts[i], st.ends[i]);
    }
  }

  // ----- slices -----

  /** A slice bound, with negative values counted from the end and both ends clipped. */
  function Bound(x: int, n: nat, step: int): int {
    if step > 0 then
      if x < 0 then (if x + n < 0 then 0 else x + n) else if x > n then n else x
    else
      if x < 0 then (if x + n < 0 then -1 else x + n) else if x >= n then n - 1 else x
  }

  function Steps(a: int, b: int, step: int): seq<int>
    requires step != 0
    decreases if step > 0 then b - a else a - b
  {
    if (if step > 0 then a >= b else a <= b) then [] else [a] + Steps(a + step, b, step)
  }

  /** The positions a slice selects from a list of n. */
  function Selected(n: nat, lo: Option<int>, hi: Option<int>, step: int): seq<int>
    requires step != 0
  {
    var a := if lo.Some? then Bound(lo.value, n, step) else if step > 0 then 0 else n - 1;
    var b := if hi.Some? then Bound(hi.value, n, step) else if step > 0 then n else -1;
    Steps(a, b, step)
  }

  predicate InRange(sel: seq<int>, n: nat) {
    forall k :: 0 <= k < |sel| ==> 0 <= sel[k] < n
  }

  predicate Rising(sel: seq<int>) {
    forall j, k :: 0 <= j < k < |sel| ==> sel[j] < sel[k]
  }

  predicate Falling(sel: seq<int>) {
    forall j, k :: 0 <= j < k < |sel| ==> sel[j] > sel[k]
  }

  lemma {:induction false} StepsUp(a: int, b: int, step: int)
    requires step > 0
    ensures Rising(Steps(a, b, step)) && forall k :: 0 <= k < |Steps(a, b, step)| ==> a <= Steps(a, b, step)[k] < b
    decreases b - a
  {
    if a < b {
      StepsUp(a + step, b, step);
    }
  }

  lemma {:induction false} StepsDown(a: int, b: int, step: int)
    requires step < 0
    ensures Falling(Steps(a, b, step)) && forall k :: 0 <= k < |Steps(a, b, step)| ==> b < Steps(a, b, step)[k] <= a
    decreases a - b
  {
    if a > b {
      StepsDown(a + step, b, step);
    }
  }

  lemma SelectedOrdered(n: nat, lo: Option<int>, hi: Option<int>, step: int)
    requires step != 0
    ensures InRange(Selected(n, lo, hi, step), n)
    ensures if step > 0 then Rising(Selected(n, lo, hi, step)) else Falling(Selected(n, lo, hi, step))
  {
    var a := if lo.Some? then Bound(lo.value, n, step) else if step > 0 then 0 else n - 1;
    var b := if hi.Some? then Bound(hi.value, n, step) else if step > 0 then n else -1;
    if step > 0 {
      StepsUp(a, b, step);
    } else {
      StepsDown(a, b, step);
    }
  }

  lemma {:induction false} StepsUpIff(a: int, b: int, step: int, p: int)
    requires step > 0
    ensures p in Steps(a, b, step) <==> a <= p < b && (p - a) % step == 0
    decreases b - a
  {
    if a < b {
      StepsUpIff(a + step, b, step, p);
      NextMultiple(p - a, step);
      assert Steps(a, b, step) == [a] + Steps(a + step, b, step);
    }
  }

  lemma {:induction false} StepsDownIff(a: int, b: int, step: int, p: int)
    requires step < 0
    ensures p in Steps(a, b, step) <==> b < p <= a && (a - p) % (-step) == 0
    decreases a - b
  {
    if a > b {
      StepsDownIff(a + step, b, step, p);
      NextMultiple(a - p, -step);
      assert Steps(a, b, step) == [a] + Steps(a + step, b, step);
    }
  }

  /** A distance from zero on is a multiple of the step iff it is zero or one step less is. */
  lemma NextMultiple(d: int, step: int)
    requires step > 0
    ensures d >= 0 && d % step == 0 <==> d == 0 || (d - step >= 0 && (d - step) % step == 0)
  {
    var q := d / step;
    DivBounds(d, step);
    MulStep(q, step);
    if d >= step {
      DivUnique(d - step, step, q - 1);
    } else if 0 <= d {
      DivUnique(d, step, 0);
    }
  }

  /**
   A forward slice of n positions selects the p with a <= p < b at a multiple of the step from a, where a
   and b are the bounds as given, counted from the end where negative, and cut off at 0 and n.
   */
  lemma ForwardSelects(n: nat, lo: Option<int>, hi: Option<int>, step: int, a: int, b: int, p: int)
    requires step > 0
    requires lo.None? ==> a == 0
    requires hi.None? ==> b == n
    requires lo.Some? && lo.value >= n ==> a == n
    requires hi.Some? && hi.value >= n ==> b == n
    requires lo.Some? && 0 <= lo.value < n ==> a == lo.value
    requires hi.Some? && 0 <= hi.value < n ==> b == hi.value
    requires lo.Some? && 0 - n <= lo.value < 0 ==> a == lo.value + n
    requires hi.Some? && 0 - n <= hi.value < 0 ==> b == hi.value + n
    requires lo.Some? && lo.value < 0 - n ==> a == 0
    requires hi.Some? && hi.value < 0 - n ==> b == 0
    ensures p in Selected(n, lo, hi, step) <==> a <= p < b && (p - a) % step == 0
  {
    StepsUpIff(a, b, step, p);
  }

  /** The mirror image: a backward slice selects the p with b < p <= a at a multiple of the step from a. */
  lemma BackwardSelects(n: nat, lo: Option<int>, hi: Option<int>, step: int, a: int, b: int, p: int)
    requires step < 0
    requires lo.None? ==> a == n - 1
    requires hi.None? ==> b == -1
    requires lo.Some? && lo.value >= n ==> a == n - 1
    requires hi.Some? && hi.value >= n ==> b == n - 1
    requires lo.Some? && 0 <= lo.value < n ==> a == lo.value
    requires hi.Some? && 0 <= hi.value < n ==> b == hi.value
    requires lo.Some? && 0 - n <= lo.value < 0 ==> a == lo.value + n
    requires hi.Some? && 0 - n <= hi.value < 0 ==> b == hi.value + n
    requires lo.Some? && lo.value < 0 - n ==> a == -1
    requires hi.Some? && hi.value < 0 - n ==> b == -1
    ensures p in Selected(n, lo, hi, step) <==> b < p <= a && (a - p) % (-step) == 0
  {
    StepsDownIff(a, b, step, p);
  }

  lemma {:induction false} StepsByOne(a: int, b: int)
    requires a <= b
    ensures |Steps(a, b, 1)| == b - a && forall j :: 0 <= j < b - a ==> Steps(a, b, 1)[j] == a + j
    decreases b - a
  {
    if a < b {
      StepsByOne(a + 1, b);
    }
  }

  /** The last k of n positions. */
  lemma LastSelected(n: nat, k: nat)
    requires 0 < k <= n
    ensures var sel := Selected(n, Some(0 - k), None, 1); |sel| == k && forall j :: 0 <= j < k ==> sel[j] == n - k + j
  {
    StepsByOne(n - k, n);
  }

  function Picked<T>(s: seq<T>, sel: seq<int>): (r: seq<T>)
    requires InRange(sel, |s|)
    ensures |r| == |sel| && forall k :: 0 <= k < |r| ==> r[k] == s[sel[k]]
  {
    seq(|sel|, k requires 0 <= k < |sel| => s[sel[k]])
  }

  function Shifted(s: seq<int>, d: int): (r: seq<int>)
    ensures |r| == |s| && forall k :: 0 <= k < |r| ==> r[k] == s[k] - d
  {
    seq(|s|, k requires 0 <= k < |s| => s[k] - d)
  }

  /** List slicing between two places of the list: empty when they are the wrong way round. */
  function Cut<T>(s: seq<T>, a: int, b: int): seq<T>
    requires 0 <= a <= |s| && 0 <= b <= |s|
  {
    if a <= b then s[a..b] else []
  }

  function CutLists(l: Lists, a: int, b: int): (r: Lists)
    requires Aligned(l) && 0 <= a <= |l.ids| && 0 <= b <= |l.ids|
    ensures Aligned(r) && |r.ids| == if a <= b then b - a else 0
  {
    Lists(Cut(l.ids, a, b), Cut(l.probs, a, b), Cut(l.ranks, a, b), Cut(l.tokens, a, b))
  }

  /** The slice as the source builds it: from the first selected start to the last selected end. */
  function SliceOf(st: Store, sel: seq<int>): (r: Store)
    requires Valid(st) && sel != [] && InRange(sel, |st.starts|)
    ensures Shaped(r) && |r.starts| == |sel|
  {
    var a, b := st.starts[sel[0]], st.ends[sel[|sel| - 1]];
    Store(Shifted(Picked(st.starts, sel), a), Shifted(Picked(st.ends, sel), a), CutLists(st.data, a, b))
  }

  lemma {:induction false} ReadCut(l: Lists, a: nat, b: nat, s: int, e: int)
    requires Aligned(l) && a <= b <= |l.ids| && a <= s && e <= b
    ensures Read(CutLists(l, a, b), s - a, e - a) == Read(l, s, e)
    decreases e - s
  {
    if s < e {
      ReadCut(l, a, b, s, e - 1);
      assert EntryAt(CutLists(l, a, b), e - 1 - a) == EntryAt(l, e - 1);
    }
  }

  lemma {:induction false} ReadSucceeds(l: Lists, s: int, e: int)
    requires Aligned(l) && 0 <= s && e <= |l.ids|
    ensures Read(l, s, e).Some?
    decreases e - s
  {
    if s < e {
      ReadSucceeds(l, s, e - 1);
    }
  }

  lemma SegmentBounds(st: Store, i: int, j: int)
    requires Valid(st) && 0 <= i <= j < |st.starts|
    ensures st.starts[i] <= st.starts[j] && st.ends[i] <= st.ends[j] && st.starts[i] <= st.ends[j]
  {
  }

  lemma SelectedBounds(st: Store, sel: seq<int>, k: nat)
    requires Valid(st) && InRange(sel, |st.starts|) && Rising(sel) && k < |sel|
    ensures 0 <= st.starts[sel[0]] <= st.starts[sel[k]] <= st.ends[sel[k]] <= st.ends[sel[|sel| - 1]] <= |st.data.ids|
  {
    assert k > 0 ==> sel[0] < sel[k];
    assert k < |sel| - 1 ==> sel[k] < sel[|sel| - 1];
    SegmentBounds(st, sel[0], sel[k]);
    SegmentBounds(st, sel[k], sel[|sel| - 1]);
  }

  lemma SliceAt(st: Store, sel: seq<int>, k: nat)
    requires Valid(st) && InRange(sel, |st.starts|) && k < |sel|
    ensures var r, a, b := SliceOf(st, sel), st.starts[sel[0]], st.ends[sel[|sel| - 1]];
            && r.starts[k] == st.starts[sel[k]] - a && r.ends[k] == st.ends[sel[k]] - a
            && |r.data.ids| == (if a <= b then b - a else 0)
            && View(r)[k] == Read(CutLists(st.data, a, b), st.starts[sel[k]] - a, st.ends[sel[k]] - a)
  {
  }

  lemma ViewAt(st: Store, i: nat)
    requires Shaped(st) && i < |st.starts|
    ensures View(st)[i] == Read(st.data, st.starts[i], st.ends[i])
  {
  }

  lemma ForwardSliceAt(st: Store, sel: seq<int>, k: nat)
    requires Valid(st) && InRange(sel, |st.starts|) && k < |sel|
    requires 0 <= st.starts[sel[0]] <= st.starts[sel[k]] <= st.ends[sel[k]] <= st.ends[sel[|sel| - 1]] <= |st.data.ids|
    ensures 0 <= SliceOf(st, sel).starts[k] <= SliceOf(st, sel).ends[k] <= |SliceOf(st, sel).data.ids|
    ensures View(SliceOf(st, sel))[k] == View(st)[sel[k]]
  {
    SliceAt(st, sel, k);
    ViewAt(st, sel[k]);
    ReadCut(st.data, st.starts[sel[0]], st.ends[sel[|sel| - 1]], st.starts[sel[k]], st.ends[sel[k]]);
  }

  /** A slice with positive step reads as the selected positions, and can be appended to and sliced again. */
  lemma ForwardSliceReads(st: Store, sel: seq<int>)
    requires Valid(st) && sel != [] && InRange(sel, |st.starts|) && Rising(sel)
    ensures Valid(SliceOf(st, sel))
    ensures View(SliceOf(st, sel)) == Picked(View(st), sel)
  {
    var r := SliceOf(st, sel);
    forall k | 0 <= k < |sel|
      ensures 0 <= r.starts[k] <= r.ends[k] <= |r.data.ids|
      ensures View(r)[k] == Picked(View(st), sel)[k]
    {
      SelectedBounds(st, sel, k);
      ForwardSliceAt(st, sel, k);
    }
  }

  ghost predicate AllEmpty(st: Store, sel: seq<int>)
    requires Shaped(st) && InRange(sel, |st.starts|)
  {
    forall k :: 0 <= k < |sel| ==> st.starts[sel[k]] == st.ends[sel[k]]
  }

  lemma BackwardSliceReads(st: Store, sel: seq<int>)
    requires Valid(st) && |sel| > 1 && InRange(sel, |st.starts|) && Falling(sel)
    ensures View(SliceOf(st, sel)) == Picked(View(st), sel) <==> AllEmpty(st, sel)
  {
    var r, n := SliceOf(st, sel), |sel| - 1;
    assert sel[n] < sel[0];
    assert |r.data.ids| == 0;
    forall k | 0 <= k <= n ensures View(r)[k] == Picked(View(st), sel)[k] <==> st.starts[sel[k]] == st.ends[sel[k]] {
      ReadSucceeds(st.data, st.starts[sel[k]], st.ends[sel[k]]);
    }
  }

  /** A slice reads as the list slice iff its step is positive, it selects one position, or all it selects is empty. */
  lemma SliceReadsIff(st: Store, lo: Option<int>, hi: Option<int>, step: int)
    requires Valid(st) && step != 0 && Selected(|st.starts|, lo, hi, step) != []
    ensures var sel := Selected(|st.starts|, lo, hi, step);
            InRange(sel, |st.starts|) &&
            (View(SliceOf(st, sel)) == Picked(View(st), sel) <==> step > 0 || |sel| == 1 || AllEmpty(st, sel))
  {
    var sel := Selected(|st.starts|, lo, hi, step);
    SelectedOrdered(|st.starts|, lo, hi, step);
    if step > 0 || |sel| == 1 {
      ForwardSliceReads(st, sel);
    } else {
      BackwardSliceReads(st, sel);
    }
  }

  /** The slice [-k:] reads as the last k positions. */
  lemma LastSliceReads(st: Store, k: nat)
    requires Valid(st) && 0 < k <= |st.starts|
    ensures var n := |st.starts|;
            var sel := Selected(n, Some(0 - k), None, 1);
            sel != [] && InRange(sel, n) && View(SliceOf(st, sel)) == View(st)[n - k..]
  {
    var n := |st.starts|;
    var sel := Selected(n, Some(0 - k), None, 1);
    LastSelected(n, k);
    PickedTail(View(st), sel, k);
    ForwardSliceReads(st, sel);
  }

  lemma PickedTail(v: seq<Option<Position>>, sel: seq<int>, k: nat)
    requires |sel| == k <= |v| && forall j :: 0 <= j < k ==> sel[j] == |v| - k + j
    ensures InRange(sel, |v|) && Rising(sel) && Picked(v, sel) == v[|v| - k..]
  {
  }

  lemma TwoAppended(x: Item, y: Item)
    ensures var st := Append(Append(EMPTY, [x]), [y]);
            && Valid(st) && |st.starts| == 2 && st.starts[1] != st.ends[1]
            && View(st) == [Some(AsDict([x])), Some(AsDict([y]))]
  {
    AppendReads(EMPTY, [x]);
    AppendReads(Append(EMPTY, [x]), [y]);
    PutAllLengths(EMPTY.data, [x]);
    PutAllLengths(Append(EMPTY, [x]).data, [y]);
  }

  lemma TwoBackwards()
    ensures Selected(2, None, None, -1) == [1, 0]
  {
    assert Steps(1, -1, -1) == [1] + Steps(0, -1, -1) == [1] + [0];
  }

  /** Two positions of one item each, read backwards: the slice does not read as the reversed list. */
  lemma BackwardWitness(x: Item, y: Item)
    ensures var st, sel := Append(Append(EMPTY, [x]), [y]), [1, 0];
            && Valid(st) && |st.starts| == 2 && Selected(2, None, None, -1) == sel
            && View(st) == [Some(AsDict([x])), Some(AsDict([y]))]
            && View(SliceOf(st, sel)) != Picked(View(st), sel)
  {
    TwoAppended(x, y);
    TwoBackwards();
    SliceReadsIff(Append(Append(EMPTY, [x]), [y]), None, None, -1);
  }

  // ----- next position -----

  /** Four lists side by side, as far as the shortest goes. */
  function Zip(ids: seq<int>, probs: seq<real>, ranks: seq<int>, tokens: seq<Option<string>>): seq<Item> {
    if ids == [] || probs == [] || ranks == [] || tokens == [] then []
    else
      [Item(ids[0], Logprob(probs[0], Some(ranks[0]), tokens[0]))] + Zip(ids[1..], probs[1..], ranks[1..], tokens[1..])
  }

  function CountUp(n: int): seq<int> {
    if n <= 0 then [] else CountUp(n - 1) + [n]
  }

  /** The sampled token's rank, then the ranks of the top tokens; -1 asks for as many as there are log-probabilities. */
  function RankList(rank: int, wanted: int, probs: seq<real>): seq<int> {
    [rank] + CountUp(if wanted == -1 then |probs| else wanted)
  }

  /** The sampled token has the given rank, the others count up from one, as many as were asked for. */
  lemma {:induction false} RankListAt(rank: int, wanted: int, probs: seq<real>, k: nat)
    requires k < |RankList(rank, wanted, probs)|
    ensures RankList(rank, wanted, probs)[k] == if k == 0 then rank else k
    ensures |RankList(rank, wanted, probs)| == 1 + (if wanted == -1 then |probs| else if wanted > 0 then wanted else 0)
  {
    CountUpAt(if wanted == -1 then |probs| else wanted);
  }

  lemma {:induction false} CountUpAt(n: int)
    ensures |CountUp(n)| == (if n > 0 then n else 0) && forall k :: 0 <= k < |CountUp(n)| ==> CountUp(n)[k] == k + 1
  {
    if n > 0 {
      CountUpAt(n - 1);
    }
  }

  // ----- any run of operations -----

  datatype Op =
    | AppendOp(items: seq<Item>)
    | ExtendOp(positions: seq<seq<Item>>)
    | FastOp(ids: seq<int>, probs: seq<real>, ranks: seq<int>, tokens: seq<Option<string>>)
    | NextOp(nextIds: seq<int>, nextProbs: seq<real>, nextTokens: seq<Option<string>>, rank: int, wanted: int)
    | SliceOp(lo: Option<int>, hi: Option<int>, step: int)

  function ExtendAll(st: Store, positions: seq<seq<Item>>): Store {
    if positions == [] then st else Append(ExtendAll(st, positions[..|positions| - 1]), positions[|positions| - 1])
  }

  function Dicts(positions: seq<seq<Item>>): seq<Option<Position>> {
    if positions == [] then [] else Dicts(positions[..|positions| - 1]) + [Some(AsDict(positions[|positions| - 1]))]
  }

  lemma {:induction false} DictsAt(positions: seq<seq<Item>>)
    ensures |Dicts(positions)| == |positions|
    ensures forall i :: 0 <= i < |positions| ==> Dicts(positions)[i] == Some(AsDict(positions[i]))
  {
    if positions != [] {
      DictsAt(positions[..|positions| - 1]);
    }
  }

  /** A slice that selects nothing fails and leaves the container in use as it was. */
  function Step(st: Store, op: Op): Store
    requires Valid(st)
  {
    match op
    case AppendOp(items) => Append(st, items)
    case ExtendOp(positions) => ExtendAll(st, positions)
    case FastOp(ids, probs, ranks, tokens) => Append(st, Zip(ids, probs, ranks, tokens))
    case NextOp(ids, probs, tokens, rank, wanted) => Append(st, Zip(ids, probs, RankList(rank, wanted, probs), tokens))
    case SliceOp(lo, hi, step) =>
      if step == 0 || Selected(|st.starts|, lo, hi, step) == [] then st
      else
        SelectedOrdered(|st.starts|, lo, hi, step);
        SliceOf(st, Selected(|st.starts|, lo, hi, step))
  }

  /** The same operation on a plain list of dictionaries. */
  function ListStep(v: seq<Option<Position>>, op: Op): seq<Option<Position>> {
    match op
    case AppendOp(items) => v + [Some(AsDict(items))]
    case ExtendOp(positions) => v + Dicts(positions)
    case FastOp(ids, probs, ranks, tokens) => v + [Some(AsDict(Zip(ids, probs, ranks, tokens)))]
    case NextOp(ids, probs, tokens, rank, wanted) =>
      v + [Some(AsDict(Zip(ids, probs, RankList(rank, wanted, probs), tokens)))]
    case SliceOp(lo, hi, step) =>
      if step == 0 || Selected(|v|, lo, hi, step) == [] then v
      else
        SelectedOrdered(|v|, lo, hi, step);
        Picked(v, Selected(|v|, lo, hi, step))
  }

  lemma {:induction false} ExtendReads(st: Store, positions: seq<seq<Item>>)
    requires Valid(st)
    ensures Valid(ExtendAll(st, positions))
    ensures View(ExtendAll(st, positions)) == View(st) + Dicts(positions)
  {
    if positions != [] {
      var front := positions[..|positions| - 1];
      ExtendReads(st, front);
      AppendReads(ExtendAll(st, front), positions[|positions| - 1]);
    }
  }

  /** A slice goes forward, or selects at most one position of the n there are. */
  predicate Forward(op: Op, n: nat) {
    op.SliceOp? && op.step < 0 ==> |Selected(n, op.lo, op.hi, op.step)| <= 1
  }

  lemma StepReads(st: Store, op: Op)
    requires Valid(st) && Forward(op, |st.starts|)
    ensures Valid(Step(st, op)) && View(Step(st, op)) == ListStep(View(st), op)
  {
    match op
    case AppendOp(items) => AppendReads(st, items);
    case ExtendOp(positions) => ExtendReads(st, positions);
    case FastOp(ids, probs, ranks, tokens) => AppendReads(st, Zip(ids, probs, ranks, tokens));
    case NextOp(ids, probs, tokens, rank, wanted) =>
      AppendReads(st, Zip(ids, probs, RankList(rank, wanted, probs), tokens));
    case SliceOp(lo, hi, step) =>
      if step != 0 && Selected(|st.starts|, lo, hi, step) != [] {
        SelectedOrdered(|st.starts|, lo, hi, step);
        ForwardSliceReads(st, Selected(|st.starts|, lo, hi, step));
      }
  }

  ghost predicate IsRun(stores: seq<Store>, lists: seq<seq<Option<Position>>>, ops: seq<Op>) {
    && |stores| == |lists| == |ops| + 1 && stores[0] == EMPTY && lists[0] == []
    && (forall k :: 0 <= k < |ops| ==> Valid(stores[k]) ==> stores[k + 1] == Step(stores[k], ops[k]))
    && (forall k :: 0 <= k < |ops| ==> lists[k + 1] == ListStep(lists[k], ops[k]) && Forward(ops[k], |lists[k]|))
  }

  /** After any run of operations whose slices go forward the container reads back as the plain list does. */
  lemma {:induction false} RunReads(stores: seq<Store>, lists: seq<seq<Option<Position>>>, ops: seq<Op>, k: nat)
    requires IsRun(stores, lists, ops) && k <= |ops|
    ensures Valid(stores[k]) && View(stores[k]) == lists[k]
  {
    if k > 0 {
      RunReads(stores, lists, ops, k - 1);
      StepReads(stores[k - 1], ops[k - 1]);
    }
  }

  // ----- the container -----

  class FlatLogprobs {
    var starts: seq<int>
    var ends: seq<int>
    var ids: seq<int>
    var probs: seq<real>
    var ranks: seq<Option<int>>
    var tokens: seq<Option<string>>

    constructor (st: Store)
      ensures Data() == st
    {
      starts, ends := st.starts, st.ends;
      ids, probs, ranks, tokens := st.data.ids, st.data.probs, st.data.ranks, st.data.tokens;
    }

    function Items(): Lists
      reads this
    {
      Lists(ids, probs, ranks, tokens)
    }

    function Data(): Store
      reads this
    {
      Store(starts, ends, Items())
    }

    method PutItem(id: int, prob: real, rank: Option<int>, token: Option<string>)
      modifies `ids, `probs, `ranks, `tokens
      ensures Items() == Put(old(Items()), Item(id, Logprob(prob, rank, token)))
    {
      ids := ids + [id];
      probs := probs + [prob];
      ranks := ranks + [rank];
      tokens := tokens + [token];
    }

    /** Append one position given as the items of its dictionary. */
    method AppendPosition(items: seq<Item>)
      requires Valid(Data())
      modifies this
      ensures Data() == Append(old(Data()), items)
      ensures Valid(Data()) && View(Data()) == old(View(Data())) + [Some(AsDict(items))]
    {
      AppendReads(Data(), items);
      starts := starts + [|probs|];
      for k := 0 to |items|
        invariant Items() == PutAll(old(Items()), items[..k])
        invariant starts == old(starts) + [|old(probs)|] && ends == old(ends)
      {
        assert items[..k + 1][..k] == items[..k];
        PutItem(items[k].id, items[k].entry.logprob, items[k].entry.rank, items[k].entry.token);
      }
      assert items[..|items|] == items;
      ends := ends + [|probs|];
    }

    /** The loop over parallel lists, as far as the shortest goes. */
    method PutColumns(newIds: seq<int>, newProbs: seq<real>, newRanks: seq<int>, newTokens: seq<Option<string>>)
      modifies `ids, `probs, `ranks, `tokens
      ensures Items() == PutAll(old(Items()), Zip(newIds, newProbs, newRanks, newTokens))
    {
      ghost var items := Zip(newIds, newProbs, newRanks, newTokens);
      ZipAt(newIds, newProbs, newRanks, newTokens);
      var k := 0;
      while k < |newIds| && k < |newProbs| && k < |newRanks| && k < |newTokens|
        invariant k <= |items| && Items() == PutAll(old(Items()), items[..k])
      {
        assert items[..k + 1][..k] == items[..k];
        PutItem(newIds[k], newProbs[k], Some(newRanks[k]), newTokens[k]);
        k := k + 1;
      }
      assert items[..|items|] == items;
    }

    /** Append one position given as parallel lists, without building a dictionary. */
    method AppendFast(newIds: seq<int>, newProbs: seq<real>, newRanks: seq<int>, newTokens: seq<Option<string>>)
      requires Valid(Data())
      modifies this
      ensures Data() == Append(old(Data()), Zip(newIds, newProbs, newRanks, newTokens))
      ensures Valid(Data())
      ensures View(Data()) == old(View(Data())) + [Some(AsDict(Zip(newIds, newProbs, newRanks, newTokens)))]
    {
      AppendReads(Data(), Zip(newIds, newProbs, newRanks, newTokens));
      starts := starts + [|probs|];
      PutColumns(newIds, newProbs, newRanks, newTokens);
      ends := ends + [|probs|];
    }

    method Extend(positions: seq<seq<Item>>)
      requires Valid(Data())
      modifies this
      ensures Data() == ExtendAll(old(Data()), positions)
      ensures Valid(Data()) && View(Data()) == old(View(Data())) + Dicts(positions)
    {
      ExtendReads(Data(), positions);
      for k := 0 to |positions|
        invariant Valid(Data()) && Data() == ExtendAll(old(Data()), positions[..k])
      {
        assert positions[..k + 1][..k] == positions[..k];
        AppendPosition(positions[k]);
      }
      assert positions[..|positions|] == positions;
    }

    /** One position; a negative index counts from the end, and None is an index out of range. */
    method Get(index: int) returns (r: Option<Position>)
      requires Valid(Data())
      ensures r.None? <==> index < -|starts| || index >= |starts|
      ensures r.Some? ==> r == View(Data())[if index < 0 then index + |starts| else index]
    {
      if index < -|starts| || index >= |starts| {
        return None;
      }
      var p := if index < 0 then index + |starts| else index;
      ReadSucceeds(Items(), starts[p], ends[p]);
      var dict: Position := map[];
      for i := starts[p] to ends[p]
        invariant Read(Items(), starts[p], i) == Some(dict)
      {
        dict := dict[ids[i] := Logprob(probs[i], ranks[i], tokens[i])];
      }
      return Some(dict);
    }

    /** A slice; None is the failure of a zero step or an empty selection. */
    method Slice(lo: Option<int>, hi: Option<int>, step: int) returns (r: Option<FlatLogprobs>)
      requires Valid(Data())
      ensures r.None? <==> step == 0 || Selected(|starts|, lo, hi, step) == []
      ensures r.Some? ==> fresh(r.value) && InRange(Selected(|starts|, lo, hi, step), |starts|)
                          && r.value.Data() == SliceOf(Data(), Selected(|starts|, lo, hi, step))
    {
      if step == 0 || Selected(|starts|, lo, hi, step) == [] {
        return None;
      }
      var sel := Selected(|starts|, lo, hi, step);
      SelectedOrdered(|starts|, lo, hi, step);
      var a, b := starts[sel[0]], ends[sel[|sel| - 1]];
      var slice := new FlatLogprobs(Store(
        Shifted(Picked(starts, sel), a), Shifted(Picked(ends, sel), a),
        Lists(Cut(ids, a, b), Cut(probs, a, b), Cut(ranks, a, b), Cut(tokens, a, b))));
      return Some(slice);
    }
  }

  lemma {:induction false} ZipAt(ids: seq<int>, probs: seq<real>, ranks: seq<int>, tokens: seq<Option<string>>)
    ensures var z := Zip(ids, probs, ranks, tokens);
            && |z| <= |ids| && |z| <= |probs| && |z| <= |ranks| && |z| <= |tokens|
            && (|z| == |ids| || |z| == |probs| || |z| == |ranks| || |z| == |tokens|)
            && forall k :: 0 <= k < |z| ==> z[k] == Item(ids[k], Logprob(probs[k], Some(ranks[k]), tokens[k]))
  {
    if ids != [] && probs != [] && ranks != [] && tokens != [] {
      ZipAt(ids[1..], probs[1..], ranks[1..], tokens[1..]);
    }
  }

  /** The next position, in a flat container. */
  method AppendForNextPosition(flat: FlatLogprobs, ids: seq<int>, probs: seq<real>, tokens: seq<Option<string>>,
                               rank: int, wanted: int)
    requires Valid(flat.Data())
    modifies flat
    ensures Valid(flat.Data())
    ensures View(flat.Data()) == ListStep(old(View(flat.Data())), NextOp(ids, probs, tokens, rank, wanted))
  {
    flat.AppendFast(ids, probs, RankList(rank, wanted, probs), tokens);
  }
}
