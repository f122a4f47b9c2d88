/**
 Merging streamed request outputs (vllm/outputs.py): completions with the same index
 are joined, or replaced, and new ones are appended.

 Completions are values here; two outputs never share one.
 */
module OutputMerge {
  import opened Seqs
  import opened Wrappers

  /** `kept` stands for the fields that merging leaves alone. */
  datatype Completion = Completion(
    index: int, text: string, tokens: seq<int>, logprobs: Option<seq<real>>,
    cumulative: Option<real>, finish: Option<string>, stop: Option<string>, kept: string)

  function Listed(logprobs: Option<seq<real>>): seq<real> {
    if logprobs.Some? then logprobs.value else []
  }

  /** The assertion of the source: log-probabilities can only be added to a list that is there. */
  predicate Mergeable(a: Completion, x: Completion) {
    Listed(x.logprobs) == [] || a.logprobs.Some?
  }

  function Merge(a: Completion, x: Completion): Completion {
    Completion(a.index, a.text + x.text, a.tokens + x.tokens,
               if a.logprobs.Some? then Some(a.logprobs.value + Listed(x.logprobs)) else None,
               x.cumulative, x.finish, x.stop, a.kept)
  }

  function Combine(aggregate: bool, a: Completion, x: Completion): Completion {
    if aggregate then Merge(a, x) else x
  }

  predicate Combinable(aggregate: bool, a: Completion, x: Completion) {
    !aggregate || Mergeable(a, x)
  }

  // ----- lists of completions -----

  function IndexOf(x: Completion): int {
    x.index
  }

  /** The first completion with an index, or the length of the list. */
  function Place(s: seq<Completion>, index: int): (i: nat)
    ensures i <= |s| && (i < |s| ==> s[i].index == index)
    ensures forall j :: 0 <= j < i ==> s[j].index != index
  {
    FirstWith(s, IndexOf, index)
  }

  function AddOne(aggregate: bool, s: seq<Completion>, x: Completion): seq<Completion> {
    var i := Place(s, x.index);
    if i < |s| then s[i := Combine(aggregate, s[i], x)] else s + [x]
  }

  predicate OneOk(aggregate: bool, s: seq<Completion>, x: Completion) {
    var i := Place(s, x.index);
    i < |s| ==> Combinable(aggregate, s[i], x)
  }

  function AddAll(aggregate: bool, s: seq<Completion>, xs: seq<Completion>): seq<Completion> {
    if xs == [] then s else AddOne(aggregate, AddAll(aggregate, s, xs[..|xs| - 1]), xs[|xs| - 1])
  }

  predicate AllOk(aggregate: bool, s: seq<Completion>, xs: seq<Completion>) {
    xs == [] ||
    (AllOk(aggregate, s, xs[..|xs| - 1]) && OneOk(aggregate, AddAll(aggregate, s, xs[..|xs| - 1]), xs[|xs| - 1]))
  }

  /** A merge the assertion stopped: text and tokens are joined, the rest is as it was. */
  function HalfMerge(a: Completion, x: Completion): Completion {
    a.(text := a.text + x.text, tokens := a.tokens + x.tokens)
  }

  /** What one completion leaves behind, also when the assertion fails. */
  function AfterOne(aggregate: bool, s: seq<Completion>, x: Completion): seq<Completion> {
    if OneOk(aggregate, s, x) then AddOne(aggregate, s, x)
    else s[Place(s, x.index) := HalfMerge(s[Place(s, x.index)], x)]
  }

  /** What a list leaves behind: everything up to the first completion that fails, and half of that. */
  function AfterAll(aggregate: bool, s: seq<Completion>, xs: seq<Completion>): seq<Completion> {
    if xs == [] then s
    else
      var front, x := xs[..|xs| - 1], xs[|xs| - 1];
      if AllOk(aggregate, s, front) then AfterOne(aggregate, AddAll(aggregate, s, front), x)
      else AfterAll(aggregate, s, front)
  }

  /** A list that fails stops at its first completion that fails, with everything before it added. */
  lemma {:induction false} StopsAtFirst(aggregate: bool, s: seq<Completion>, xs: seq<Completion>) returns (k: nat)
    requires !AllOk(aggregate, s, xs)
    ensures k < |xs| && AllOk(aggregate, s, xs[..k]) && !OneOk(aggregate, AddAll(aggregate, s, xs[..k]), xs[k])
    ensures AfterAll(aggregate, s, xs) == AfterOne(aggregate, AddAll(aggregate, s, xs[..k]), xs[k])
  {
    var front := xs[..|xs| - 1];
    if AllOk(aggregate, s, front) {
      k := |front|;
    } else {
      k := StopsAtFirst(aggregate, s, front);
      assert front[..k] == xs[..k];
    }
  }

  lemma AfterAllOk(aggregate: bool, s: seq<Completion>, xs: seq<Completion>)
    requires AllOk(aggregate, s, xs)
    ensures AfterAll(aggregate, s, xs) == AddAll(aggregate, s, xs)
  {
  }

  // ----- one index at a time -----

  function Lookup(s: seq<Completion>, index: int): Option<Completion> {
    var i := Place(s, index);
    if i < |s| then Some(s[i]) else None
  }

  function Mine(xs: seq<Completion>, index: int): seq<Completion> {
    if xs == [] then []
    else if xs[|xs| - 1].index == index then Mine(xs[..|xs| - 1], index) + [xs[|xs| - 1]]
    else Mine(xs[..|xs| - 1], index)
  }

  /** What one index gets from its completions, in order. */
  function CombineAll(aggregate: bool, start: Option<Completion>, mine: seq<Completion>): Option<Completion> {
    if mine == [] then start
    else
      var before := CombineAll(aggregate, start, mine[..|mine| - 1]);
      Some(if before.Some? then Combine(aggregate, before.value, mine[|mine| - 1]) else mine[|mine| - 1])
  }

  lemma PlaceUnchanged(s: seq<Completion>, t: seq<Completion>, index: int)
    requires |s| <= |t| && forall j :: 0 <= j < |s| ==> t[j].index == s[j].index
    ensures Place(s, index) < |s| ==> Place(t, index) == Place(s, index)
    ensures Place(s, index) == |s| ==> Place(t, index) >= |s|
  {
    var i := Place(s, index);
    assert i < |s| ==> t[i].index == index;
  }

  lemma LookupOne(aggregate: bool, s: seq<Completion>, x: Completion, index: int)
    ensures Lookup(AddOne(aggregate, s, x), index)
            == if index != x.index then Lookup(s, index)
               else if Lookup(s, index).Some? then Some(Combine(aggregate, Lookup(s, index).value, x)) else Some(x)
  {
    var t, i := AddOne(aggregate, s, x), Place(s, index);
    PlaceUnchanged(s, t, index);
    if i == |s| && |t| > |s| {
      assert t[|s|] == x;
      assert Place(t, index) == if index == x.index then |s| else |t|;
    }
  }

  /** Adding a list gives each index exactly its own completions, in order. */
  lemma {:induction false} PerIndex(aggregate: bool, s: seq<Completion>, xs: seq<Completion>, index: int)
    ensures Lookup(AddAll(aggregate, s, xs), index) == CombineAll(aggregate, Lookup(s, index), Mine(xs, index))
  {
    if xs != [] {
      var front, x := xs[..|xs| - 1], xs[|xs| - 1];
      PerIndex(aggregate, s, front, index);
      LookupOne(aggregate, AddAll(aggregate, s, front), x, index);
      if x.index == index {
        assert Mine(xs, index)[..|Mine(xs, index)| - 1] == Mine(front, index);
      }
    }
  }

  // ----- what aggregation produces -----

  function Texts(xs: seq<Completion>): string {
    if xs == [] then "" else Texts(xs[..|xs| - 1]) + xs[|xs| - 1].text
  }

  function Tokens(xs: seq<Completion>): seq<int> {
    if xs == [] then [] else Tokens(xs[..|xs| - 1]) + xs[|xs| - 1].tokens
  }

  function Probs(xs: seq<Completion>): seq<real> {
    if xs == [] then [] else Probs(xs[..|xs| - 1]) + Listed(xs[|xs| - 1].logprobs)
  }

  /** Text, tokens and log-probabilities in order, the identity of the first and the finish data of the last. */
  ghost predicate IsJoin(cs: seq<Completion>, c: Completion)
    requires cs != []
  {
    && c.text == Texts(cs) && c.tokens == Tokens(cs)
    && c.logprobs == (if cs[0].logprobs.Some? then Some(Probs(cs)) else None)
    && c.index == cs[0].index && c.kept == cs[0].kept
    && c.cumulative == cs[|cs| - 1].cumulative && c.finish == cs[|cs| - 1].finish && c.stop == cs[|cs| - 1].stop
  }

  lemma JoinOne(c: Completion)
    ensures IsJoin([c], c)
  {
    assert [c][..0] == [];
    assert Texts([c]) == "" + c.text == c.text && Tokens([c]) == [] + c.tokens == c.tokens;
    assert Probs([c]) == [] + Listed(c.logprobs) == Listed(c.logprobs);
  }

  lemma JoinNext(cs: seq<Completion>, c: Completion, x: Completion)
    requires cs != [] && IsJoin(cs, c)
    ensures IsJoin(cs + [x], Merge(c, x))
  {
    assert (cs + [x])[..|cs|] == cs;
  }

  /** Two completions: the earlier one's text, tokens and log-probabilities stand in front. */
  lemma JoinOfTwo(a: Completion, x: Completion, c: Completion)
    ensures IsJoin([a, x], c) <==>
              && c.text == a.text + x.text && c.tokens == a.tokens + x.tokens
              && c.logprobs == (if a.logprobs.Some? then Some(a.logprobs.value + Listed(x.logprobs)) else None)
              && c.index == a.index && c.kept == a.kept
              && c.cumulative == x.cumulative && c.finish == x.finish && c.stop == x.stop
  {
    JoinOne(a);
    assert [a, x][..1] == [a];
  }

  /** All completions of one index: the one it starts with, if any, and the later ones. */
  function Chain(start: Option<Completion>, mine: seq<Completion>): seq<Completion> {
    (if start.Some? then [start.value] else []) + mine
  }

  lemma ChainSnoc(start: Option<Completion>, mine: seq<Completion>, x: Completion)
    ensures Chain(start, mine + [x]) == Chain(start, mine) + [x]
    ensures CombineAll(true, start, mine + [x])
            == Some(if CombineAll(true, start, mine).Some? then Merge(CombineAll(true, start, mine).value, x) else x)
  {
    assert (mine + [x])[..|mine|] == mine;
  }

  /** An index ends with the join of its completions. */
  lemma {:induction false} Aggregated(start: Option<Completion>, mine: seq<Completion>)
    ensures CombineAll(true, start, mine).Some? <==> Chain(start, mine) != []
    ensures Chain(start, mine) != [] ==> IsJoin(Chain(start, mine), CombineAll(true, start, mine).value)
  {
    if mine == [] {
      if start.Some? {
        JoinOne(start.value);
        assert Chain(start, mine) == [start.value];
      }
    } else {
      var front, x := mine[..|mine| - 1], mine[|mine| - 1];
      assert mine == front + [x];
      ChainSnoc(start, front, x);
      Aggregated(start, front);
      AggregatedNext(Chain(start, front), CombineAll(true, start, front), x);
    }
  }

  lemma AggregatedNext(cs: seq<Completion>, joined: Option<Completion>, x: Completion)
    requires joined.Some? <==> cs != []
    requires cs != [] ==> IsJoin(cs, joined.value)
    ensures IsJoin(cs + [x], if joined.Some? then Merge(joined.value, x) else x)
  {
    if cs == [] {
      JoinOne(x);
      assert cs + [x] == [x];
    } else {
      JoinNext(cs, joined.value, x);
    }
  }

  /** Without aggregation the last completion of an index wins. */
  lemma LastWins(start: Option<Completion>, mine: seq<Completion>)
    ensures CombineAll(false, start, mine) == if mine == [] then start else Some(mine[|mine| - 1])
  {
  }

  // ----- when the assertion fails -----

  predicate ChainOk(start: Option<Completion>, mine: seq<Completion>) {
    var cs := Chain(start, mine);
    cs != [] && cs[0].logprobs.None? ==> Probs(cs[1..]) == []
  }

  lemma {:induction false} ProbsSnoc(xs: seq<Completion>, x: Completion)
    ensures Probs(xs + [x]) == Probs(xs) + Listed(x.logprobs)
  {
    assert (xs + [x])[..|xs|] == xs;
  }

  lemma ChainNext(start: Option<Completion>, mine: seq<Completion>, x: Completion)
    ensures ChainOk(start, mine + [x]) <==>
              && ChainOk(start, mine)
              && (CombineAll(true, start, mine).Some? ==> Mergeable(CombineAll(true, start, mine).value, x))
  {
    var cs := Chain(start, mine);
    if cs == [] {
      assert Chain(start, mine + [x]) == [x];
      assert mine == [];
    } else {
      Aggregated(start, mine);
      assert Chain(start, mine + [x]) == cs + [x];
      assert (cs + [x])[1..] == cs[1..] + [x];
      ProbsSnoc(cs[1..], x);
    }
  }

  ghost predicate EveryChainOk(s: seq<Completion>, xs: seq<Completion>) {
    forall index: int :: ChainOk(Lookup(s, index), Mine(xs, index))
  }

  /**
   Merging fails exactly when some index starts without log-probabilities and a later
   completion of that index brings some.
   */
  lemma {:induction false} MergeOkIff(s: seq<Completion>, xs: seq<Completion>)
    ensures AllOk(true, s, xs) <==> EveryChainOk(s, xs)
  {
    if xs == [] {
      forall index: int ensures ChainOk(Lookup(s, index), Mine(xs, index)) {
        var cs := Chain(Lookup(s, index), []);
        assert cs != [] ==> cs[1..] == [];
      }
    } else {
      var front, x := xs[..|xs| - 1], xs[|xs| - 1];
      MergeOkIff(s, front);
      forall index: int
        ensures ChainOk(Lookup(s, index), Mine(xs, index)) <==>
                  && ChainOk(Lookup(s, index), Mine(front, index))
                  && (index == x.index ==> OneOk(true, AddAll(true, s, front), x))
      {
        PerIndex(true, s, front, index);
        ChainNext(Lookup(s, index), Mine(front, index), x);
      }
      assert ChainOk(Lookup(s, x.index), Mine(xs, x.index)) ==> OneOk(true, AddAll(true, s, front), x);
    }
  }

  // ----- order and distinctness -----

  function Indices(s: seq<Completion>): (r: seq<int>)
    ensures |r| == |s| && forall k :: 0 <= k < |r| ==> r[k] == s[k].index
  {
    seq(|s|, k requires 0 <= k < |s| => s[k].index)
  }

  ghost predicate Distinct(s: seq<Completion>) {
    forall i, j :: 0 <= i < j < |s| ==> s[i].index != s[j].index
  }

  lemma OneKeepsDistinct(aggregate: bool, s: seq<Completion>, x: Completion)
    requires Distinct(s)
    ensures Distinct(AddOne(aggregate, s, x)) && Indices(s) <= Indices(AddOne(aggregate, s, x))
  {
    var t := AddOne(aggregate, s, x);
    assert forall k :: 0 <= k < |s| ==> t[k].index == s[k].index;
  }

  /** Adding keeps the order of the indices there, keeps them distinct, and only appends. */
  lemma {:induction false} AddKeepsDistinct(aggregate: bool, s: seq<Completion>, xs: seq<Completion>)
    requires Distinct(s)
    ensures Distinct(AddAll(aggregate, s, xs)) && Indices(s) <= Indices(AddAll(aggregate, s, xs))
  {
    if xs != [] {
      AddKeepsDistinct(aggregate, s, xs[..|xs| - 1]);
      OneKeepsDistinct(aggregate, AddAll(aggregate, s, xs[..|xs| - 1]), xs[|xs| - 1]);
    }
  }

  // ----- associativity -----

  lemma {:induction false} AddSplit(aggregate: bool, s: seq<Completion>, xs: seq<Completion>, ys: seq<Completion>)
    ensures AddAll(aggregate, s, xs + ys) == AddAll(aggregate, AddAll(aggregate, s, xs), ys)
    ensures AllOk(aggregate, s, xs + ys) <==> AllOk(aggregate, s, xs) && AllOk(aggregate, AddAll(aggregate, s, xs), ys)
  {
    if ys == [] {
      assert xs + ys == xs;
    } else {
      var front := ys[..|ys| - 1];
      AddSplit(aggregate, s, xs, front);
      assert (xs + ys)[..|xs + ys| - 1] == xs + front;
    }
  }

  /** Merging y and then x is merging their merge, unless y lacks the log-probabilities that x brings. */
  lemma MergeTwice(a: Completion, y: Completion, x: Completion)
    requires y.index == x.index && (a.logprobs.None? || Mergeable(y, x))
    ensures Merge(Merge(a, y), x) == Merge(a, Merge(y, x))
  {
    assert a.text + y.text + x.text == a.text + (y.text + x.text);
    assert a.tokens + y.tokens + x.tokens == a.tokens + (y.tokens + x.tokens);
    if a.logprobs.Some? {
      var p, q, r := a.logprobs.value, Listed(y.logprobs), Listed(x.logprobs);
      assert p + q + r == p + (q + r);
      if y.logprobs.None? {
        assert p + q + r == p + q;
      }
    }
  }

  lemma AddTwice(s: seq<Completion>, y: Completion, x: Completion)
    requires y.index == x.index
    requires Lookup(s, x.index).Some? ==> Lookup(s, x.index).value.logprobs.None? || Mergeable(y, x)
    ensures AddOne(true, AddOne(true, s, y), x) == AddOne(true, s, Merge(y, x))
  {
    var i, t := Place(s, y.index), AddOne(true, s, y);
    PlaceUnchanged(s, t, x.index);
    if i < |s| {
      MergeTwice(s[i], y, x);
    } else {
      assert t[|s|].index == x.index;
      assert Place(t, x.index) == |s|;
    }
  }

  lemma PlaceAbsent(s: seq<Completion>, x: Completion, index: int)
    requires x.index != index && Place(s, x.index) < |s|
    ensures Place(AddOne(true, s, x), index) == Place(s, index)
  {
    PlaceUnchanged(s, AddOne(true, s, x), index);
  }

  lemma CommuteThere(s: seq<Completion>, x: Completion, y: Completion, i: nat, j: nat)
    requires x.index != y.index && i == Place(s, x.index) < |s| && j == Place(s, y.index) < |s|
    ensures AddOne(true, AddOne(true, s, x), y) == s[i := Merge(s[i], x)][j := Merge(s[j], y)]
  {
    PlaceAbsent(s, x, y.index);
  }

  lemma CommuteNew(s: seq<Completion>, x: Completion, y: Completion, i: nat)
    requires x.index != y.index && i == Place(s, x.index) < |s| && Place(s, y.index) == |s|
    ensures AddOne(true, AddOne(true, s, x), y) == s[i := Merge(s[i], x)] + [y]
    ensures AddOne(true, AddOne(true, s, y), x) == (s + [y])[i := Merge(s[i], x)]
  {
    PlaceAbsent(s, x, y.index);
    PlaceUnchanged(s, s + [y], x.index);
  }

  /** Additions of different indices commute when the first of them is already there. */
  lemma AddCommutes(s: seq<Completion>, x: Completion, y: Completion)
    requires x.index != y.index && Place(s, x.index) < |s|
    ensures AddOne(true, AddOne(true, s, x), y) == AddOne(true, AddOne(true, s, y), x)
  {
    var i, j := Place(s, x.index), Place(s, y.index);
    if j < |s| {
      CommuteThere(s, x, y, i, j);
      CommuteThere(s, y, x, j, i);
      SwapUpdates(s, i, Merge(s[i], x), j, Merge(s[j], y));
    } else {
      CommuteNew(s, x, y, i);
      UpdateFront(s, i, Merge(s[i], x), y);
    }
  }

  lemma UpdateFront(s: seq<Completion>, i: nat, a: Completion, y: Completion)
    requires i < |s|
    ensures s[i := a] + [y] == (s + [y])[i := a]
  {
  }

  lemma SwapUpdates(s: seq<Completion>, i: nat, a: Completion, j: nat, b: Completion)
    requires i < |s| && j < |s| && i != j
    ensures s[i := a][j := b] == s[j := b][i := a]
  {
  }

  lemma {:induction false} MineSplit(xs: seq<Completion>, y: Completion, index: int)
    ensures Mine(xs + [y], index) == if y.index == index then Mine(xs, index) + [y] else Mine(xs, index)
  {
    assert (xs + [y])[..|xs|] == xs;
  }

  lemma LookupSplit(xs: seq<Completion>, y: Completion, index: int)
    ensures Place(xs + [y], index)
            == if Place(xs, index) < |xs| then Place(xs, index) else if y.index == index then |xs| else |xs| + 1
  {
    PlaceUnchanged(xs, xs + [y], index);
    assert (xs + [y])[|xs|] == y;
  }

  /** In a list of distinct indices every index has at most one completion. */
  lemma {:induction false} MineDistinct(xs: seq<Completion>, index: int)
    requires Distinct(xs)
    ensures Mine(xs, index) == if Lookup(xs, index).Some? then [Lookup(xs, index).value] else []
  {
    if xs != [] {
      var front, y := xs[..|xs| - 1], xs[|xs| - 1];
      assert xs == front + [y];
      MineDistinct(front, index);
      MineSplit(front, y, index);
      LookupSplit(front, y, index);
    }
  }

  lemma StillThere(s: seq<Completion>, xs: seq<Completion>, index: int)
    requires Distinct(xs) && Place(xs, index) < |xs|
    ensures Place(AddAll(true, s, xs), index) < |AddAll(true, s, xs)|
  {
    PerIndex(true, s, xs, index);
    MineDistinct(xs, index);
  }

  /** x can go through b on its way to a. */
  predicate Fits(a: seq<Completion>, b: seq<Completion>, x: Completion) {
    var left, middle := Lookup(a, x.index), Lookup(b, x.index);
    left.Some? && middle.Some? && left.value.logprobs.Some? ==> Mergeable(middle.value, x)
  }

  lemma PushLast(a: seq<Completion>, front: seq<Completion>, y: Completion, x: Completion)
    requires Distinct(front + [y]) && y.index == x.index && Fits(a, front + [y], x)
    ensures AddOne(true, AddAll(true, a, front + [y]), x) == AddOne(true, AddAll(true, a, front), Merge(y, x))
  {
    assert (front + [y])[..|front|] == front;
    assert forall k :: 0 <= k < |front| ==> (front + [y])[k] == front[k];
    assert (front + [y])[|front|] == y;
    LookupSplit(front, y, x.index);
    assert Place(front, x.index) == |front|;
    MineDistinct(front, x.index);
    PerIndex(true, a, front, x.index);
    AddTwice(AddAll(true, a, front), y, x);
  }

  lemma AddAllSnoc(s: seq<Completion>, xs: seq<Completion>, y: Completion)
    ensures AddAll(true, s, xs + [y]) == AddOne(true, AddAll(true, s, xs), y)
  {
    assert (xs + [y])[..|xs|] == xs;
  }

  lemma PushPast(a: seq<Completion>, front: seq<Completion>, y: Completion, x: Completion)
    requires Distinct(front) && y.index != x.index && Place(front, x.index) < |front|
    requires AddAll(true, a, AddOne(true, front, x)) == AddOne(true, AddAll(true, a, front), x)
    ensures AddAll(true, a, AddOne(true, front, x) + [y]) == AddOne(true, AddAll(true, a, front + [y]), x)
  {
    AddAllSnoc(a, AddOne(true, front, x), y);
    AddAllSnoc(a, front, y);
    StillThere(a, front, x.index);
    AddCommutes(AddAll(true, a, front), x, y);
  }

  lemma AddOneLast(front: seq<Completion>, y: Completion, x: Completion)
    requires Place(front, x.index) == |front| && y.index == x.index
    ensures AddOne(true, front + [y], x) == front + [Merge(y, x)]
  {
    LookupSplit(front, y, x.index);
  }

  lemma AddOneFront(front: seq<Completion>, y: Completion, x: Completion)
    requires Place(front, x.index) < |front|
    ensures AddOne(true, front + [y], x) == AddOne(true, front, x) + [y]
    ensures Lookup(front + [y], x.index) == Lookup(front, x.index)
  {
    LookupSplit(front, y, x.index);
  }

  lemma DistinctFront(front: seq<Completion>, y: Completion)
    requires Distinct(front + [y])
    ensures Distinct(front) && forall k :: 0 <= k < |front| ==> front[k].index != y.index
  {
    var all := front + [y];
    assert forall k :: 0 <= k < |front| ==> all[k] == front[k];
    assert all[|front|] == y;
  }

  lemma PushAtLast(a: seq<Completion>, front: seq<Completion>, y: Completion, x: Completion)
    requires Distinct(front + [y]) && y.index == x.index && Fits(a, front + [y], x)
    requires Place(front, x.index) == |front|
    ensures AddAll(true, a, AddOne(true, front + [y], x)) == AddOne(true, AddAll(true, a, front + [y]), x)
  {
    AddOneLast(front, y, x);
    AddAllSnoc(a, front, Merge(y, x));
    PushLast(a, front, y, x);
  }

  lemma {:induction false} Push(a: seq<Completion>, b: seq<Completion>, x: Completion)
    requires Distinct(b) && Fits(a, b, x)
    ensures AddAll(true, a, AddOne(true, b, x)) == AddOne(true, AddAll(true, a, b), x)
  {
    if Place(b, x.index) == |b| {
      AddAllSnoc(a, b, x);
    } else {
      var front, y := b[..|b| - 1], b[|b| - 1];
      assert b == front + [y];
      LookupSplit(front, y, x.index);
      DistinctFront(front, y);
      if Place(front, x.index) == |front| {
        PushAtLast(a, front, y, x);
      } else {
        AddOneFront(front, y, x);
        Push(a, front, x);
        PushPast(a, front, y, x);
      }
    }
  }

  /** Every index of a that has log-probabilities gets them from b and xs without a failure. */
  ghost predicate Through(a: seq<Completion>, b: seq<Completion>, xs: seq<Completion>) {
    forall index: int ::
      Lookup(a, index).Some? && Lookup(a, index).value.logprobs.Some? ==> ChainOk(Lookup(b, index), Mine(xs, index))
  }

  lemma ThroughFront(a: seq<Completion>, b: seq<Completion>, xs: seq<Completion>, x: Completion)
    requires Through(a, b, xs + [x])
    ensures Through(a, b, xs) && Fits(a, AddAll(true, b, xs), x)
  {
    forall index: int | Lookup(a, index).Some? && Lookup(a, index).value.logprobs.Some?
      ensures ChainOk(Lookup(b, index), Mine(xs, index))
      ensures index == x.index ==> Fits(a, AddAll(true, b, xs), x)
    {
      assert ChainOk(Lookup(b, index), Mine(xs + [x], index));
      MineSplit(xs, x, index);
      ChainNext(Lookup(b, index), Mine(xs, index), x);
      PerIndex(true, b, xs, index);
    }
  }

  lemma {:induction false} PushAll(a: seq<Completion>, b: seq<Completion>, xs: seq<Completion>)
    requires Distinct(b) && Through(a, b, xs)
    ensures AddAll(true, a, AddAll(true, b, xs)) == AddAll(true, AddAll(true, a, b), xs)
  {
    if xs != [] {
      var front, x := xs[..|xs| - 1], xs[|xs| - 1];
      assert xs == front + [x];
      ThroughFront(a, b, front, x);
      PushAll(a, b, front);
      AddKeepsDistinct(true, b, front);
      Push(a, AddAll(true, b, front), x);
    }
  }

  lemma {:induction false} ProbsCons(c: Completion, rest: seq<Completion>)
    ensures Probs([c] + rest) == Listed(c.logprobs) + Probs(rest)
  {
    if rest == [] {
      assert [c] + rest == [c];
      JoinOne(c);
      assert Probs([c]) == Listed(c.logprobs);
    } else {
      var front, x := rest[..|rest| - 1], rest[|rest| - 1];
      ProbsCons(c, front);
      assert [c] + rest == ([c] + front) + [x];
      ProbsSnoc([c] + front, x);
    }
  }

  /** After a completion without log-probabilities nothing may bring any. */
  lemma ChainAfterNone(start: Completion, mine: seq<Completion>)
    requires start.logprobs.None?
    ensures ChainOk(Some(start), mine) <==> Probs(mine) == []
  {
    assert Chain(Some(start), mine) == [start] + mine;
    assert ([start] + mine)[1..] == mine;
  }

  lemma ChainWithout(start: Option<Completion>, mine: seq<Completion>)
    requires Probs(mine) == []
    ensures ChainOk(start, mine)
  {
    var cs := Chain(start, mine);
    if start.Some? {
      assert cs[1..] == mine;
    } else if mine != [] {
      assert cs == mine && mine == [mine[0]] + mine[1..];
      ProbsCons(mine[0], mine[1..]);
    }
  }

  lemma MiddleChain(a: seq<Completion>, b: seq<Completion>, c: seq<Completion>, index: int)
    requires Distinct(b) && ChainOk(Lookup(AddAll(true, a, b), index), Mine(c, index))
    requires Lookup(a, index).Some? && Lookup(a, index).value.logprobs.Some? ==>
               ChainOk(Lookup(b, index), Mine(c, index))
    ensures ChainOk(Lookup(b, index), Mine(c, index))
  {
    PerIndex(true, a, b, index);
    MineDistinct(b, index);
    var start, mine := Lookup(a, index), Mine(b, index);
    if start.None? {
      assert mine != [] ==> mine[..|mine| - 1] == [];
    } else if start.value.logprobs.None? {
      assert mine != [] ==> mine[..|mine| - 1] == [];
      var both := CombineAll(true, start, mine).value;
      ChainAfterNone(both, Mine(c, index));
      ChainWithout(Lookup(b, index), Mine(c, index));
    }
  }

  lemma RightChain(a: seq<Completion>, b: seq<Completion>, c: seq<Completion>, index: int)
    requires Distinct(b) && ChainOk(Lookup(a, index), Mine(b, index))
    requires ChainOk(Lookup(AddAll(true, a, b), index), Mine(c, index))
    ensures ChainOk(Lookup(a, index), Mine(AddAll(true, b, c), index))
  {
    var start, middle, late := Lookup(a, index), Lookup(b, index), Mine(c, index);
    AddKeepsDistinct(true, b, c);
    MineDistinct(AddAll(true, b, c), index);
    PerIndex(true, b, c, index);
    var joined := CombineAll(true, middle, late);
    var mine := Mine(AddAll(true, b, c), index);
    assert mine == if joined.Some? then [joined.value] else [];
    if start.Some? && start.value.logprobs.None? {
      NothingLate(a, b, c, index);
      Aggregated(middle, late);
      if joined.Some? {
        JoinOne(joined.value);
      }
      ChainWithout(start, mine);
    } else if start.None? {
      assert Chain(start, mine) == mine;
    }
  }

  /** An index that starts without log-probabilities never gets any, so all its later completions bring none. */
  lemma NothingLate(a: seq<Completion>, b: seq<Completion>, c: seq<Completion>, index: int)
    requires Distinct(b) && Lookup(a, index).Some? && Lookup(a, index).value.logprobs.None?
    requires ChainOk(Lookup(a, index), Mine(b, index)) && ChainOk(Lookup(AddAll(true, a, b), index), Mine(c, index))
    ensures Probs(Chain(Lookup(b, index), Mine(c, index))) == []
  {
    PerIndex(true, a, b, index);
    MineDistinct(b, index);
    var start, middle, mine, late := Lookup(a, index), Lookup(b, index), Mine(b, index), Mine(c, index);
    assert mine != [] ==> mine[..|mine| - 1] == [];
    ChainAfterNone(start.value, mine);
    ChainAfterNone(CombineAll(true, start, mine).value, late);
    if middle.Some? {
      JoinOne(middle.value);
      ProbsCons(middle.value, late);
    } else {
      assert Chain(middle, late) == late;
    }
  }

  /**
   When folding b and then c into a succeeds, folding them together first succeeds with the same
   result iff no index that has log-probabilities in a lacks them in b and gets some later.
   */
  lemma AssociativeIff(a: seq<Completion>, b: seq<Completion>, c: seq<Completion>)
    requires Distinct(b) && AllOk(true, a, b) && AllOk(true, AddAll(true, a, b), c)
    ensures (AllOk(true, b, c) && AllOk(true, a, AddAll(true, b, c))
             && AddAll(true, a, AddAll(true, b, c)) == AddAll(true, AddAll(true, a, b), c))
            <==> Through(a, b, c)
  {
    MergeOkIff(a, b);
    MergeOkIff(AddAll(true, a, b), c);
    MergeOkIff(b, c);
    MergeOkIff(a, AddAll(true, b, c));
    if Through(a, b, c) {
      forall index: int
        ensures ChainOk(Lookup(b, index), Mine(c, index)) && ChainOk(Lookup(a, index), Mine(AddAll(true, b, c), index))
      {
        MiddleChain(a, b, c, index);
        RightChain(a, b, c, index);
      }
      PushAll(a, b, c);
    }
  }

  ghost predicate Uniform(xs: seq<Completion>, present: bool) {
    forall k :: 0 <= k < |xs| ==> xs[k].logprobs.Some? == present
  }

  lemma {:induction false} UniformOk(s: seq<Completion>, xs: seq<Completion>, present: bool)
    requires Uniform(s, present) && Uniform(xs, present)
    ensures AllOk(true, s, xs) && Uniform(AddAll(true, s, xs), present)
  {
    if xs != [] {
      UniformOk(s, xs[..|xs| - 1], present);
    }
  }

  /** With uniformly present or uniformly absent log-probabilities both folds succeed and agree. */
  lemma UniformIsAssociative(a: seq<Completion>, b: seq<Completion>, c: seq<Completion>, present: bool)
    requires Distinct(b) && Uniform(a, present) && Uniform(b, present) && Uniform(c, present)
    ensures AllOk(true, a, b) && AllOk(true, AddAll(true, a, b), c)
    ensures AllOk(true, b, c) && AllOk(true, a, AddAll(true, b, c))
    ensures AddAll(true, a, AddAll(true, b, c)) == AddAll(true, AddAll(true, a, b), c)
  {
    UniformOk(a, b, present);
    UniformOk(AddAll(true, a, b), c, present);
    UniformOk(b, c, present);
    UniformOk(a, AddAll(true, b, c), present);
    forall index: int | Lookup(a, index).Some? && Lookup(a, index).value.logprobs.Some?
      ensures ChainOk(Lookup(b, index), Mine(c, index))
    {
      MinePresent(c, index, present);
    }
    PushAll(a, b, c);
  }

  /** Log-probabilities, none, then some again: one after the other succeeds, joining the last two first fails. */
  lemma AssociativeWitness(x: Completion, y: Completion, z: Completion)
    requires x.index == y.index == z.index
    requires x.logprobs.Some? && y.logprobs.None? && Listed(z.logprobs) != []
    ensures AllOk(true, [x], [y]) && AllOk(true, AddAll(true, [x], [y]), [z]) && !AllOk(true, [y], [z])
  {
    AddsOne([x], y);
    AddsOne([Merge(x, y)], z);
    AddsOne([y], z);
  }

  lemma AddsOne(s: seq<Completion>, x: Completion)
    requires |s| == 1 && s[0].index == x.index
    ensures AllOk(true, s, [x]) <==> Mergeable(s[0], x)
    ensures AddAll(true, s, [x]) == [Merge(s[0], x)]
  {
    assert [x][..0] == [];
    assert AddAll(true, s, []) == s && Place(s, x.index) == 0;
  }

  lemma {:induction false} MinePresent(xs: seq<Completion>, index: int, present: bool)
    requires forall k :: 0 <= k < |xs| ==> xs[k].logprobs.Some? == present
    ensures forall k :: 0 <= k < |Mine(xs, index)| ==> Mine(xs, index)[k].logprobs.Some? == present
  {
    if xs != [] {
      MinePresent(xs[..|xs| - 1], index, present);
    }
  }

  // ----- a request output and its stream -----

  datatype Output = Output(finished: bool, transfer: Option<string>, outputs: seq<Completion>)

  /** All completions of a stream, in order. */
  function Streamed(stream: seq<Output>): seq<Completion> {
    if stream == [] then [] else Streamed(stream[..|stream| - 1]) + stream[|stream| - 1].outputs
  }

  /** Index i holds the first completion with x's index. */
  ghost predicate FirstAt(s: seq<Completion>, index: int, i: nat) {
    i < |s| && s[i].index == index && forall j :: 0 <= j < i ==> s[j].index != index
  }

  /** What x makes of a: a replacement, the join, or the half of it that precedes the failed assertion. */
  ghost predicate Updated(aggregate: bool, a: Completion, x: Completion, c: Completion) {
    if !aggregate then c == x
    else if Listed(x.logprobs) != [] && a.logprobs.None?
    then c == a.(text := a.text + x.text, tokens := a.tokens + x.tokens)
    else IsJoin([a, x], c)
  }

  lemma UpdatedOne(aggregate: bool, s: seq<Completion>, x: Completion, i: nat)
    requires FirstAt(s, x.index, i)
    ensures var t := AfterOne(aggregate, s, x);
            |t| == |s| && t == s[i := t[i]] && Updated(aggregate, s[i], x, t[i])
  {
    assert i == Place(s, x.index);
    JoinOfTwo(s[i], x, Merge(s[i], x));
  }

  class RequestOutput {
    var finished: bool
    var transfer: Option<string>
    var outputs: seq<Completion>

    /** One completion: join or replace the first with the same index, or append; false is the failed assertion. */
    method AddCompletion(x: Completion, aggregate: bool) returns (ok: bool)
      modifies `outputs
      ensures ok <==> OneOk(aggregate, old(outputs), x)
      ensures outputs == AfterOne(aggregate, old(outputs), x)
      ensures (forall i :: 0 <= i < |old(outputs)| ==> old(outputs)[i].index != x.index) ==>
                outputs == old(outputs) + [x]
      ensures forall i :: 0 <= i < |old(outputs)| && FirstAt(old(outputs), x.index, i) ==>
                            && |outputs| == |old(outputs)| && outputs == old(outputs)[i := outputs[i]]
                            && Updated(aggregate, old(outputs)[i], x, outputs[i])
    {
      forall i | 0 <= i < |outputs| && FirstAt(outputs, x.index, i)
        ensures var t := AfterOne(aggregate, outputs, x);
                |t| == |outputs| && t == outputs[i := t[i]] && Updated(aggregate, outputs[i], x, t[i])
      {
        UpdatedOne(aggregate, outputs, x, i);
      }
      for i := 0 to |outputs|
        invariant outputs == old(outputs) && i <= Place(outputs, x.index)
      {
        if outputs[i].index == x.index {
          if aggregate {
            var a := outputs[i];
            outputs := outputs[i := a.(text := a.text + x.text, tokens := a.tokens + x.tokens)];
            if Listed(x.logprobs) != [] && a.logprobs.None? {
              return false;
            }
            outputs := outputs[i := Merge(a, x)];
          } else {
            outputs := outputs[i := x];
          }
          return true;
        }
      }
      outputs := outputs + [x];
      return true;
    }

    method Add(next: Output, aggregate: bool) returns (ok: bool)
      modifies this
      ensures finished == (old(finished) || next.finished) && transfer == next.transfer
      ensures ok <==> AllOk(aggregate, old(outputs), next.outputs)
      ensures outputs == AfterAll(aggregate, old(outputs), next.outputs)
    {
      finished := finished || next.finished;
      transfer := next.transfer;
      for k := 0 to |next.outputs|
        invariant finished == (old(finished) || next.finished) && transfer == next.transfer
        invariant AllOk(aggregate, old(outputs), next.outputs[..k])
        invariant outputs == AddAll(aggregate, old(outputs), next.outputs[..k])
      {
        PrefixNext(aggregate, old(outputs), next.outputs, k);
        ok := AddCompletion(next.outputs[k], aggregate);
        if !ok {
          FailsForGood(aggregate, old(outputs), next.outputs, k + 1);
          return;
        }
      }
      assert next.outputs[..|next.outputs|] == next.outputs;
      AfterAllOk(aggregate, old(outputs), next.outputs);
      ok := true;
    }

    /** Any stream of outputs, folded in one after the other. */
    method AddStream(stream: seq<Output>, aggregate: bool) returns (ok: bool)
      modifies this
      ensures ok <==> AllOk(aggregate, old(outputs), Streamed(stream))
      ensures outputs == AfterAll(aggregate, old(outputs), Streamed(stream))
      ensures ok ==> finished == (old(finished) || exists k :: 0 <= k < |stream| && stream[k].finished)
      ensures ok && stream != [] ==> transfer == stream[|stream| - 1].transfer
    {
      for k := 0 to |stream|
        invariant AllOk(aggregate, old(outputs), Streamed(stream[..k]))
        invariant outputs == AddAll(aggregate, old(outputs), Streamed(stream[..k]))
        invariant finished == (old(finished) || exists j :: 0 <= j < k && stream[j].finished)
        invariant k > 0 ==> transfer == stream[k - 1].transfer
      {
        StreamNext(stream, k);
        AddSplit(aggregate, old(outputs), Streamed(stream[..k]), stream[k].outputs);
        AfterSplit(aggregate, old(outputs), Streamed(stream[..k]), stream[k].outputs);
        ok := Add(stream[k], aggregate);
        if !ok {
          StreamFails(aggregate, old(outputs), stream, k + 1);
          return;
        }
        AfterAllOk(aggregate, old(outputs), Streamed(stream[..k + 1]));
      }
      assert stream[..|stream|] == stream;
      ok := true;
    }
  }

  lemma PrefixNext(aggregate: bool, s: seq<Completion>, xs: seq<Completion>, k: nat)
    requires k < |xs|
    ensures AddAll(aggregate, s, xs[..k + 1]) == AddOne(aggregate, AddAll(aggregate, s, xs[..k]), xs[k])
    ensures AllOk(aggregate, s, xs[..k + 1])
            <==> AllOk(aggregate, s, xs[..k]) && OneOk(aggregate, AddAll(aggregate, s, xs[..k]), xs[k])
    ensures AllOk(aggregate, s, xs[..k]) ==>
              AfterAll(aggregate, s, xs[..k + 1]) == AfterOne(aggregate, AddAll(aggregate, s, xs[..k]), xs[k])
  {
    assert xs[..k + 1][..k] == xs[..k];
  }

  lemma {:induction false} FailsForGood(aggregate: bool, s: seq<Completion>, xs: seq<Completion>, k: nat)
    requires k <= |xs| && !AllOk(aggregate, s, xs[..k])
    ensures !AllOk(aggregate, s, xs) && AfterAll(aggregate, s, xs) == AfterAll(aggregate, s, xs[..k])
    decreases |xs|
  {
    if k < |xs| {
      var front := xs[..|xs| - 1];
      assert front[..k] == xs[..k];
      FailsForGood(aggregate, s, front, k);
    } else {
      assert xs[..k] == xs;
    }
  }

  /** A list in two parts: the second goes on where the first, if it succeeded, stopped. */
  lemma {:induction false} AfterSplit(aggregate: bool, s: seq<Completion>, xs: seq<Completion>, ys: seq<Completion>)
    requires AllOk(aggregate, s, xs)
    ensures AfterAll(aggregate, s, xs + ys) == AfterAll(aggregate, AddAll(aggregate, s, xs), ys)
  {
    if ys == [] {
      assert xs + ys == xs;
      AfterAllOk(aggregate, s, xs);
    } else {
      var front, y := ys[..|ys| - 1], ys[|ys| - 1];
      assert xs + ys == (xs + front) + [y] && (xs + ys)[..|xs + ys| - 1] == xs + front;
      AfterSplit(aggregate, s, xs, front);
      AddSplit(aggregate, s, xs, front);
    }
  }

  lemma StreamNext(stream: seq<Output>, k: nat)
    requires k < |stream|
    ensures Streamed(stream[..k + 1]) == Streamed(stream[..k]) + stream[k].outputs
  {
    assert stream[..k + 1][..k] == stream[..k];
  }

  lemma FailedPrefix(aggregate: bool, s: seq<Completion>, xs: seq<Completion>, ys: seq<Completion>)
    requires !AllOk(aggregate, s, xs)
    ensures AfterAll(aggregate, s, xs + ys) == AfterAll(aggregate, s, xs)
  {
    assert (xs + ys)[..|xs|] == xs;
    FailsForGood(aggregate, s, xs + ys, |xs|);
  }

  lemma {:induction false} StreamFails(aggregate: bool, s: seq<Completion>, stream: seq<Output>, k: nat)
    requires k <= |stream| && !AllOk(aggregate, s, Streamed(stream[..k]))
    ensures !AllOk(aggregate, s, Streamed(stream))
    ensures AfterAll(aggregate, s, Streamed(stream)) == AfterAll(aggregate, s, Streamed(stream[..k]))
    decreases |stream|
  {
    if k < |stream| {
      var front := stream[..|stream| - 1];
      assert front[..k] == stream[..k];
      StreamFails(aggregate, s, front, k);
      AddSplit(aggregate, s, Streamed(front), stream[|stream| - 1].outputs);
      FailedPrefix(aggregate, s, Streamed(front), stream[|stream| - 1].outputs);
    } else {
      assert stream[..k] == stream;
    }
  }
}
