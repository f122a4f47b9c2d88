/**
 Eviction planning and block selection for one request (vllm/kv_evict/selection.py),
 and the in-place eviction of a worker block-table row (vllm/kv_evict/integration.py).

 Indices `k` count the real (non-null) slots of a block-table row.
 */
module Selection {
  import opened BlockTable
  import opened Sorting

  /** The logical positions of the real slots of a row, in increasing order. */
  function RealPositions(row: seq<int>): (r: seq<nat>)
    ensures forall k :: 0 <= k < |r| ==> r[k] < |row| && row[r[k]] != NULL_BLOCK
    ensures forall i, k :: 0 <= i < k < |r| ==> r[i] < r[k]
    ensures forall p :: 0 <= p < |row| && row[p] != NULL_BLOCK ==> p in r
  {
    if row == [] then []
    else
      var last := |row| - 1;
      var init := RealPositions(row[..last]);
      if row[last] != NULL_BLOCK then init + [last] else init
  }

  datatype Plan = Plan(slots: seq<nat>, candidates: seq<nat>, count: nat)

  /** The numbers from `lo` up to `hi`. */
  function Window(lo: nat, hi: nat): (r: seq<nat>)
    requires lo <= hi
    ensures |r| == hi - lo && Increasing(r)
    ensures forall k :: k in r <==> lo <= k < hi
    ensures forall i :: 0 <= i < |r| ==> lo <= r[i] < hi
  {
    if lo == hi then [] else Window(lo, hi - 1) + [hi - 1]
  }

  /**
   How many blocks to evict, and which real slots are eligible: within budget
   none; above it every slot between the sinks and the local window, and as many
   of them as it takes to reach the budget, or all.
   */
  function PlanEviction(row: seq<int>, sinks: nat, locals: nat, budget: int): (plan: Plan)
    ensures plan.slots == RealPositions(row)
    ensures Increasing(plan.candidates)
    ensures forall k :: k in plan.candidates <==> |plan.slots| > budget && sinks <= k < |plan.slots| - locals
    ensures plan.count <= |plan.candidates|
    ensures |plan.slots| <= budget ==> plan.count == 0
    ensures |plan.slots| > budget ==>
              && |plan.slots| - plan.count >= budget
              && (plan.count == |plan.candidates| || |plan.slots| - plan.count == budget)
  {
    var slots := RealPositions(row);
    var excess := |slots| - budget;
    if excess <= 0 then Plan(slots, [], 0)
    else if |slots| - locals <= sinks then Plan(slots, [], 0)
    else
      var candidates := Window(sinks, |slots| - locals);
      Plan(slots, candidates, if excess <= |candidates| then excess else |candidates|)
  }

  /** Eviction order: lower score first, equal scores by lower index. */
  predicate Before(scores: seq<real>, a: nat, b: nat)
    requires a < |scores| && b < |scores|
  {
    scores[a] < scores[b] || (scores[a] == scores[b] && a < b)
  }

  ghost predicate Ordered(scores: seq<real>, s: seq<nat>) {
    && (forall i :: 0 <= i < |s| ==> s[i] < |scores|)
    && (forall i, j :: 0 <= i < j < |s| ==> Before(scores, s[i], s[j]))
  }

  ghost predicate Increasing(s: seq<nat>) {
    forall i, j :: 0 <= i < j < |s| ==> s[i] < s[j]
  }

  ghost predicate SameMembers(a: seq<nat>, b: seq<nat>) {
    forall x :: x in a <==> x in b
  }

  function Score(scores: seq<real>, k: nat): real {
    if k < |scores| then scores[k] else 0.0
  }

  function ByScore(scores: seq<real>): (nat, nat) -> bool {
    (a: nat, b: nat) => Score(scores, a) <= Score(scores, b)
  }

  /** Stable argsort of the candidates by score. */
  function StableSort(scores: seq<real>, c: seq<nat>): (r: seq<nat>)
    requires forall i :: 0 <= i < |c| ==> c[i] < |scores|
    ensures |r| == |c| && SameMembers(r, c)
    ensures forall i :: 0 <= i < |r| ==> r[i] < |scores|
  {
    StableSortMembers(scores, c);
    SortBy<nat>(c, ByScore(scores))
  }

  lemma StableSortMembers(scores: seq<real>, c: seq<nat>)
    requires forall i :: 0 <= i < |c| ==> c[i] < |scores|
    ensures SameMembers(SortBy<nat>(c, ByScore(scores)), c)
    ensures forall i :: 0 <= i < |SortBy<nat>(c, ByScore(scores))| ==> SortBy<nat>(c, ByScore(scores))[i] < |scores|
  {
    var r := SortBy<nat>(c, ByScore(scores));
    forall x ensures x in r <==> x in c {
      SortMembers(c, ByScore(scores), x);
    }
    assert forall i :: 0 <= i < |r| ==> r[i] in r;
  }

  lemma StableSortOrders(scores: seq<real>, c: seq<nat>)
    requires Increasing(c) && forall i :: 0 <= i < |c| ==> c[i] < |scores|
    ensures Ordered(scores, StableSort(scores, c))
  {
    var less := (a: nat, b: nat) => a < b;
    SortStable(c, ByScore(scores), less);
    SortSorted(c, ByScore(scores));
    var r := StableSort(scores, c);
    forall i, j | 0 <= i < j < |r| ensures Before(scores, r[i], r[j]) {
      assert ByScore(scores)(r[i], r[j]);
      assert ByScore(scores)(r[j], r[i]) ==> less(r[i], r[j]);
    }
  }

  function ChooseLowest(candidates: seq<nat>, scores: seq<real>, count: int): (r: seq<nat>)
    requires forall i :: 0 <= i < |candidates| ==> candidates[i] < |scores|
    ensures |r| == if count <= 0 then 0 else if count <= |candidates| then count else |candidates|
    ensures forall i :: 0 <= i < |r| ==> r[i] < |scores|
  {
    if count <= 0 || candidates == [] then []
    else
      var order := StableSort(scores, candidates);
      order[..if count <= |order| then count else |order|]
  }

  /** Two arrangements of the same indices in eviction order coincide. */
  lemma {:induction false} OrderedUnique(scores: seq<real>, a: seq<nat>, b: seq<nat>)
    requires |a| == |b| && SameMembers(a, b) && Ordered(scores, a) && Ordered(scores, b)
    ensures a == b
  {
    if a != [] {
      assert a[0] in a && a[0] in b;
      assert b[0] in b && b[0] in a;
      assert a[0] == b[0];
      forall x ensures x in a[1..] <==> x in b[1..] {
        assert x in a <==> x == a[0] || x in a[1..];
        assert x in b <==> x == b[0] || x in b[1..];
      }
      OrderedUnique(scores, a[1..], b[1..]);
    }
  }

  /**
   The choice is the leading part of every arrangement of the candidates by
   (score, index), so no unchosen candidate precedes a chosen one.
   */
  lemma ChoiceIsLowest(candidates: seq<nat>, scores: seq<real>, count: nat, reference: seq<nat>)
    requires Increasing(candidates) && count <= |candidates|
    requires forall i :: 0 <= i < |candidates| ==> candidates[i] < |scores|
    requires |reference| == |candidates| && SameMembers(reference, candidates) && Ordered(scores, reference)
    ensures ChooseLowest(candidates, scores, count) == reference[..count]
    ensures forall a, b | a in reference[..count] && b in candidates && b !in reference[..count] ::
              a < |scores| && b < |scores| && Before(scores, a, b)
  {
    StableSortOrders(scores, candidates);
    OrderedUnique(scores, StableSort(scores, candidates), reference);
    forall a, b | a in reference[..count] && b in candidates && b !in reference[..count]
      ensures a < |scores| && b < |scores| && Before(scores, a, b)
    {
      assert b in reference && reference == reference[..count] + reference[count..];
      assert b in reference[count..];
    }
  }

  function PickPositions(slots: seq<nat>, ks: seq<nat>): (r: seq<nat>)
    requires forall i :: 0 <= i < |ks| ==> ks[i] < |slots|
    ensures |r| == |ks| && forall i :: 0 <= i < |ks| ==> r[i] == slots[ks[i]]
  {
    seq(|ks|, i requires 0 <= i < |ks| => slots[ks[i]])
  }

  /** The logical slots one eviction nulls, in eviction order. */
  function Evicted(row: seq<int>, sinks: nat, locals: nat, budget: int, scores: seq<real>): (r: seq<nat>)
    requires |scores| == |RealPositions(row)|
    ensures forall i :: 0 <= i < |r| ==> r[i] < |row|
  {
    var plan := PlanEviction(row, sinks, locals, budget);
    PickPositions(plan.slots, ChooseLowest(plan.candidates, scores, plan.count))
  }

  function AfterEviction(row: seq<int>, sinks: nat, locals: nat, budget: int, scores: seq<real>): (r: seq<int>)
    requires |scores| == |RealPositions(row)|
    ensures |r| == |row|
  {
    NullOut(row, Evicted(row, sinks, locals, budget, scores))
  }

  /** The chosen indices are candidates, each chosen once. */
  lemma ChosenAreCandidates(row: seq<int>, sinks: nat, locals: nat, budget: int, scores: seq<real>)
    requires |scores| == |RealPositions(row)|
    ensures var plan := PlanEviction(row, sinks, locals, budget);
            var chosen := ChooseLowest(plan.candidates, scores, plan.count);
            && (forall i :: 0 <= i < |chosen| ==> sinks <= chosen[i] < |plan.slots| - locals)
            && (forall i, j :: 0 <= i < j < |chosen| ==> chosen[i] != chosen[j])
  {
    var plan := PlanEviction(row, sinks, locals, budget);
    var order := StableSort(scores, plan.candidates);
    forall i | 0 <= i < |order| ensures sinks <= order[i] < |plan.slots| - locals {
      assert order[i] in order;
      assert order[i] in plan.candidates;
    }
    if plan.candidates != [] {
      assert Increasing(plan.candidates);
      StableSortOrders(scores, plan.candidates);
    }
  }

  lemma EvictedDistinctReal(row: seq<int>, sinks: nat, locals: nat, budget: int, scores: seq<real>)
    requires |scores| == |RealPositions(row)|
    ensures var js := Evicted(row, sinks, locals, budget, scores);
            && (forall i :: 0 <= i < |js| ==> js[i] < |row| && row[js[i]] != NULL_BLOCK)
            && (forall i, k :: 0 <= i < k < |js| ==> js[i] != js[k])
  {
    ChosenAreCandidates(row, sinks, locals, budget, scores);
    var plan := PlanEviction(row, sinks, locals, budget);
    var chosen := ChooseLowest(plan.candidates, scores, plan.count);
    var js := Evicted(row, sinks, locals, budget, scores);
    forall i, k | 0 <= i < k < |js| ensures js[i] != js[k] {
      assert chosen[i] != chosen[k];
      assert js[i] == plan.slots[chosen[i]] && js[k] == plan.slots[chosen[k]];
    }
  }

  lemma {:induction false} NullOneCount(row: seq<int>, p: nat)
    requires p < |row| && row[p] != NULL_BLOCK
    ensures |RealPositions(row[p := NULL_BLOCK])| == |RealPositions(row)| - 1
  {
    var last := |row| - 1;
    if p == last {
      assert row[p := NULL_BLOCK][..last] == row[..last];
    } else {
      assert row[p := NULL_BLOCK][..last] == row[..last][p := NULL_BLOCK];
      NullOneCount(row[..last], p);
    }
  }

  lemma NullLastCount(row: seq<int>, js: seq<nat>)
    requires js != [] && js[|js| - 1] < |row| && row[js[|js| - 1]] != NULL_BLOCK && js[|js| - 1] !in js[..|js| - 1]
    ensures |RealPositions(NullOut(row, js))| == |RealPositions(NullOut(row, js[..|js| - 1]))| - 1
  {
    NullOutLast(row, js);
    NullOneCount(NullOut(row, js[..|js| - 1]), js[|js| - 1]);
  }

  lemma {:induction false} NullOutCount(row: seq<int>, js: seq<nat>)
    requires forall i :: 0 <= i < |js| ==> js[i] < |row| && row[js[i]] != NULL_BLOCK
    requires forall i, k :: 0 <= i < k < |js| ==> js[i] != js[k]
    ensures |RealPositions(NullOut(row, js))| == |RealPositions(row)| - |js|
  {
    if js == [] {
      assert NullOut(row, js) == row;
    } else {
      NullOutCount(row, js[..|js| - 1]);
      NullLastCount(row, js);
    }
  }

  /**
   What a request keeps: within budget it is left alone; above it, it shrinks to
   the budget, or to the sinks and locals where those exceed the budget.
   */
  function Retained(held: nat, sinks: nat, locals: nat, budget: int): int {
    var protected := sinks + locals;
    if held <= budget then held
    else if held <= protected then held
    else if budget <= protected then protected
    else budget
  }

  lemma EvictionReachesBudget(row: seq<int>, sinks: nat, locals: nat, budget: int, scores: seq<real>)
    requires |scores| == |RealPositions(row)|
    ensures |RealPositions(AfterEviction(row, sinks, locals, budget, scores))|
            == Retained(|RealPositions(row)|, sinks, locals, budget)
  {
    EvictedDistinctReal(row, sinks, locals, budget, scores);
    NullOutCount(row, Evicted(row, sinks, locals, budget, scores));
  }

  /** Sinks, the local window and every slot outside the choice keep their block. */
  lemma ProtectedSurvive(row: seq<int>, sinks: nat, locals: nat, budget: int, scores: seq<real>, k: nat)
    requires |scores| == |RealPositions(row)| && k < |RealPositions(row)|
    requires k < sinks || k >= |RealPositions(row)| - locals
    ensures var p := RealPositions(row)[k];
            AfterEviction(row, sinks, locals, budget, scores)[p] == row[p] != NULL_BLOCK
  {
    ChosenAreCandidates(row, sinks, locals, budget, scores);
    var plan := PlanEviction(row, sinks, locals, budget);
    var chosen := ChooseLowest(plan.candidates, scores, plan.count);
    var js := Evicted(row, sinks, locals, budget, scores);
    forall i | 0 <= i < |js| ensures js[i] != plan.slots[k] {
      assert js[i] == plan.slots[chosen[i]] && chosen[i] != k;
    }
  }

  lemma SlotSurvives(row: seq<int>, sinks: nat, locals: nat, budget: int, scores: seq<real>, k: nat, p: nat)
    requires |scores| == |RealPositions(row)| && k < |RealPositions(row)| && RealPositions(row)[k] == p
    requires k < sinks || k >= |RealPositions(row)| - locals
    ensures AfterEviction(row, sinks, locals, budget, scores)[p] != NULL_BLOCK
  {
    ProtectedSurvive(row, sinks, locals, budget, scores, k);
  }

  lemma LowestFirst(scores: seq<real>, order: seq<nat>, k: nat)
    requires Ordered(scores, order) && k in order && k < |scores|
    requires forall i :: 0 <= i < |scores| && i != k ==> scores[k] < scores[i]
    ensures order[0] == k
  {
    forall j | 0 < j < |order| ensures order[j] != k {
      assert Before(scores, order[0], order[j]);
    }
  }

  /** The candidate of strictly lowest score is evicted whenever anything is. */
  lemma LowestEvicted(row: seq<int>, sinks: nat, locals: nat, budget: int, scores: seq<real>, k: nat)
    requires |scores| == |RealPositions(row)| && sinks <= k < |scores| - locals && |scores| > budget
    requires forall i :: 0 <= i < |scores| && i != k ==> scores[k] < scores[i]
    ensures AfterEviction(row, sinks, locals, budget, scores)[RealPositions(row)[k]] == NULL_BLOCK
  {
    var plan := PlanEviction(row, sinks, locals, budget);
    assert k in plan.candidates;
    var order := StableSort(scores, plan.candidates);
    StableSortOrders(scores, plan.candidates);
    LowestFirst(scores, order, k);
    assert ChooseLowest(plan.candidates, scores, plan.count)[0] == k;
    assert Evicted(row, sinks, locals, budget, scores)[0] == plan.slots[k];
  }

  // ----- which blocks go, from scores and window alone -----

  /** The candidates that are ahead of slot k: a lower score, or the same score and a lower index. */
  ghost function Ahead(scores: seq<real>, lo: nat, hi: int, k: nat): set<nat>
    requires k < |scores|
  {
    set i: nat | i < |scores| && lo <= i < hi && (scores[i] < scores[k] || (scores[i] == scores[k] && i < k))
  }

  /** The members of a list. */
  function Elements(s: seq<nat>): (r: set<nat>)
    ensures forall x :: x in r <==> x in s
  {
    if s == [] then {}
    else
      assert s == s[..|s| - 1] + [s[|s| - 1]];
      Elements(s[..|s| - 1]) + {s[|s| - 1]}
  }

  lemma {:induction false} ElementsCount(s: seq<nat>)
    requires forall a, b :: 0 <= a < b < |s| ==> s[a] != s[b]
    ensures |Elements(s)| == |s|
  {
    if s != [] {
      ElementsCount(s[..|s| - 1]);
      assert s[|s| - 1] !in s[..|s| - 1];
    }
  }

  lemma PlaceIff(scores: seq<real>, order: seq<nat>, lo: nat, hi: int, m: nat, j: nat)
    requires Ordered(scores, order) && m < |order| && j < |order| && lo <= order[m] < hi
    ensures order[m] in Ahead(scores, lo, hi, order[j]) <==> m < j
  {
    if m < j {
      assert Before(scores, order[m], order[j]);
    } else if m > j {
      assert Before(scores, order[j], order[m]);
    }
  }

  /** In the eviction order exactly the candidates ahead of one stand before it. */
  lemma RankIs(scores: seq<real>, order: seq<nat>, lo: nat, hi: int, j: nat)
    requires Ordered(scores, order) && j < |order| && hi <= |scores|
    requires forall x :: x in order <==> lo <= x < hi
    ensures |Ahead(scores, lo, hi, order[j])| == j
  {
    assert forall m :: 0 <= m < |order| ==> order[m] in order;
    forall m | 0 <= m < |order| ensures order[m] in Ahead(scores, lo, hi, order[j]) <==> m < j {
      PlaceIff(scores, order, lo, hi, m, j);
    }
    forall x | x in Ahead(scores, lo, hi, order[j]) ensures x in order[..j] {
      assert x in order;
      var m :| 0 <= m < |order| && order[m] == x;
    }
    forall x | x in order[..j] ensures x in Ahead(scores, lo, hi, order[j]) {
      var m :| 0 <= m < j && order[m] == x;
    }
    assert Ahead(scores, lo, hi, order[j]) == Elements(order[..j]);
    forall a, b | 0 <= a < b < j ensures order[..j][a] != order[..j][b] {
      assert Before(scores, order[a], order[b]);
    }
    ElementsCount(order[..j]);
  }

  lemma NotCandidate(row: seq<int>, sinks: nat, locals: nat, budget: int, scores: seq<real>, k: nat)
    requires |scores| == |RealPositions(row)| && k < |scores|
    requires |scores| <= budget || k < sinks || k >= |scores| - locals
    ensures AfterEviction(row, sinks, locals, budget, scores)[RealPositions(row)[k]] != NULL_BLOCK
  {
    if |scores| > budget {
      ProtectedSurvive(row, sinks, locals, budget, scores, k);
    }
  }

  /** Slot k of a row with candidates goes exactly when it is among the chosen. */
  lemma GoneIffChosen(row: seq<int>, sinks: nat, locals: nat, budget: int, scores: seq<real>, k: nat)
    requires |scores| == |RealPositions(row)| && k < |scores|
    ensures var plan := PlanEviction(row, sinks, locals, budget);
            AfterEviction(row, sinks, locals, budget, scores)[RealPositions(row)[k]] == NULL_BLOCK
            <==> k in ChooseLowest(plan.candidates, scores, plan.count)
  {
    var plan := PlanEviction(row, sinks, locals, budget);
    var chosen := ChooseLowest(plan.candidates, scores, plan.count);
    var js := Evicted(row, sinks, locals, budget, scores);
    forall i | 0 <= i < |chosen| ensures js[i] == plan.slots[k] <==> chosen[i] == k {
      assert js[i] == plan.slots[chosen[i]];
    }
    assert plan.slots[k] in js <==> k in chosen;
  }

  lemma ChosenIffRank(candidates: seq<nat>, scores: seq<real>, count: nat, lo: nat, hi: int, k: nat)
    requires Increasing(candidates) && count <= |candidates| && hi <= |scores| && lo <= k < hi
    requires forall x :: x in candidates <==> lo <= x < hi
    requires forall i :: 0 <= i < |candidates| ==> candidates[i] < |scores|
    ensures k in ChooseLowest(candidates, scores, count) <==> |Ahead(scores, lo, hi, k)| < count
    ensures |Ahead(scores, lo, hi, k)| < |candidates|
  {
    var order := StableSort(scores, candidates);
    StableSortOrders(scores, candidates);
    assert k in candidates && k in order;
    var j :| 0 <= j < |order| && order[j] == k;
    RankIs(scores, order, lo, hi, j);
    forall m | 0 <= m < |order| ensures order[m] == k <==> m == j {
      if m < j {
        assert Before(scores, order[m], order[j]);
      } else if m > j {
        assert Before(scores, order[j], order[m]);
      }
    }
  }

  /**
   A real block goes if and only if the row is over budget, the block lies between the sinks and the local
   window, and fewer blocks of that stretch are ahead of it than the row is over budget.
   */
  lemma GoesIff(row: seq<int>, sinks: nat, locals: nat, budget: int, scores: seq<real>, k: nat)
    requires |scores| == |RealPositions(row)| && k < |scores|
    ensures var held := |scores|;
            AfterEviction(row, sinks, locals, budget, scores)[RealPositions(row)[k]] == NULL_BLOCK
            <==> sinks <= k < held - locals && |Ahead(scores, sinks, held - locals, k)| < held - budget
  {
    if |scores| > budget && sinks <= k < |scores| - locals {
      GoneIffChosen(row, sinks, locals, budget, scores, k);
      PlanRank(PlanEviction(row, sinks, locals, budget), sinks, locals, budget, scores, k);
    } else {
      NotCandidate(row, sinks, locals, budget, scores, k);
    }
  }

  lemma PlanRank(plan: Plan, sinks: nat, locals: nat, budget: int, scores: seq<real>, k: nat)
    requires Increasing(plan.candidates) && |scores| > budget && sinks <= k < |scores| - locals
    requires forall x :: x in plan.candidates <==> sinks <= x < |scores| - locals
    requires forall i :: 0 <= i < |plan.candidates| ==> plan.candidates[i] < |scores|
    requires plan.count <= |plan.candidates| && |scores| - plan.count >= budget
    requires plan.count == |plan.candidates| || |scores| - plan.count == budget
    ensures k in ChooseLowest(plan.candidates, scores, plan.count)
            <==> |Ahead(scores, sinks, |scores| - locals, k)| < |scores| - budget
  {
    ChosenIffRank(plan.candidates, scores, plan.count, sinks, |scores| - locals, k);
  }

  function Singling(n: nat, k: nat): (scores: seq<real>)
    ensures |scores| == n && forall i :: 0 <= i < n ==> scores[i] == if i == k then 0.0 else 1.0
  {
    seq(n, i requires 0 <= i => if i == k then 0.0 else 1.0)
  }

  ghost predicate Survives(row: seq<int>, sinks: nat, locals: nat, budget: int, scores: seq<real>, p: nat)
    requires |scores| == |RealPositions(row)| && p < |row|
  {
    AfterEviction(row, sinks, locals, budget, scores)[p] != NULL_BLOCK
  }

  /** A real block survives whatever the scores if and only if nothing is to be evicted or it is a sink or a local. */
  lemma AlwaysSurvivesIff(row: seq<int>, sinks: nat, locals: nat, budget: int, k: nat)
    requires k < |RealPositions(row)|
    ensures (forall scores: seq<real> | |scores| == |RealPositions(row)| ::
               Survives(row, sinks, locals, budget, scores, RealPositions(row)[k]))
            <==> |RealPositions(row)| <= budget || k < sinks || k >= |RealPositions(row)| - locals
  {
    var held := |RealPositions(row)|;
    if held <= budget || k < sinks || k >= held - locals {
      forall scores: seq<real> | |scores| == held
        ensures Survives(row, sinks, locals, budget, scores, RealPositions(row)[k])
      {
        if held > budget {
          ProtectedSurvive(row, sinks, locals, budget, scores, k);
        }
      }
    } else {
      LowestEvicted(row, sinks, locals, budget, Singling(held, k), k);
      assert !Survives(row, sinks, locals, budget, Singling(held, k), RealPositions(row)[k]);
    }
  }

  /** A row that was just evicted has nothing left to evict, whatever the new scores. */
  lemma EvictionSettles(row: seq<int>, sinks: nat, locals: nat, budget: int, scores: seq<real>, later: seq<real>)
    requires |scores| == |RealPositions(row)|
    requires |later| == |RealPositions(AfterEviction(row, sinks, locals, budget, scores))|
    ensures var once := AfterEviction(row, sinks, locals, budget, scores);
            AfterEviction(once, sinks, locals, budget, later) == once
  {
    EvictionReachesBudget(row, sinks, locals, budget, scores);
    var once := AfterEviction(row, sinks, locals, budget, scores);
    assert Evicted(once, sinks, locals, budget, later) == [];
  }

  /** Repoints the chosen real slots at the null block, one by one. */
  method NullSlots(row: array<int>, n: nat, slots: seq<nat>, chosen: seq<nat>) returns (nulled: seq<nat>)
    requires n <= row.Length
    requires forall i :: 0 <= i < |slots| ==> slots[i] < n
    requires forall i :: 0 <= i < |chosen| ==> chosen[i] < |slots|
    modifies row
    ensures nulled == PickPositions(slots, chosen)
    ensures row[..n] == NullOut(old(row[..n]), nulled)
    ensures row[n..] == old(row[n..])
  {
    nulled := [];
    for i := 0 to |chosen|
      invariant |nulled| == i && forall m :: 0 <= m < i ==> nulled[m] == slots[chosen[m]]
      invariant row[..n] == NullOut(old(row[..n]), nulled)
      invariant row[n..] == old(row[n..])
    {
      var j := slots[chosen[i]];
      ghost var prior := row[..n];
      row[j] := NULL_BLOCK;
      assert row[..n] == prior[j := NULL_BLOCK];
      NullOutLast(old(row[..n]), nulled + [j]);
      assert (nulled + [j])[..i] == nulled;
      nulled := nulled + [j];
    }
    assert nulled == PickPositions(slots, chosen);
  }

  /** Nulls the chosen slots of one block-table row in place and reports them. */
  method EvictRow(row: array<int>, n: nat, sinks: nat, locals: nat, budget: int, scores: seq<real>)
    returns (nulled: seq<nat>)
    requires n <= row.Length && |scores| == |RealPositions(row[..n])|
    modifies row
    ensures nulled == Evicted(old(row[..n]), sinks, locals, budget, scores)
    ensures row[..n] == AfterEviction(old(row[..n]), sinks, locals, budget, scores)
    ensures row[n..] == old(row[n..])
  {
    var plan := PlanEviction(row[..n], sinks, locals, budget);
    if plan.count == 0 {
      return [];
    }
    var chosen := ChooseLowest(plan.candidates, scores, plan.count);
    nulled := NullSlots(row, n, plan.slots, chosen);
  }
}
