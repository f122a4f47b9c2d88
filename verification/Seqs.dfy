/** Sequence facts shared by the other modules. */
module Seqs {

  lemma ConcatAssoc<T>(x: seq<T>, y: seq<T>, z: seq<T>)
    ensures (x + y) + z == x + (y + z)
  {
  }

  lemma TakeSnoc<T>(s: seq<T>, i: nat)
    requires i < |s|
    ensures s[..i + 1] == s[..i] + [s[i]]
  {
  }

  lemma TakeAll<T>(s: seq<T>)
    ensures s[..|s|] == s
  {
  }

  lemma DropHead<T>(a: seq<T>, b: seq<T>)
    ensures a <= a + b && (a + b)[|a|..] == b
  {
  }

  lemma PrefixSelf<T>(a: seq<T>)
    ensures a <= a
  {
  }

  lemma PrefixConcat<T>(a: seq<T>, b: seq<T>, c: seq<T>)
    requires a <= b
    ensures a <= b + c
  {
  }

  lemma PrefixAt<T>(a: seq<T>, own: seq<T>, all: seq<T>, c: nat)
    requires a + own <= all && c < |own|
    ensures |a| + c < |all| && all[|a| + c] == own[c]
  {
    assert all[..|a + own|][|a| + c] == (a + own)[|a| + c];
  }

  /** The lists one behind the other. */
  function Flat<T>(ls: seq<seq<T>>): seq<T> {
    if ls == [] then [] else Flat(ls[..|ls| - 1]) + ls[|ls| - 1]
  }

  lemma FlatTake<T>(ls: seq<seq<T>>, r: nat)
    requires r < |ls|
    ensures Flat(ls[..r + 1]) == Flat(ls[..r]) + ls[r]
  {
    assert ls[..r + 1][..r] == ls[..r];
  }

  lemma {:induction false} FlatPrefix<T>(ls: seq<seq<T>>, r: nat)
    requires r <= |ls|
    ensures Flat(ls[..r]) <= Flat(ls)
  {
    if r == |ls| {
      TakeAll(ls);
      PrefixSelf(Flat(ls));
    } else {
      var last := |ls| - 1;
      FlatPrefix(ls[..last], r);
      assert ls[..last][..r] == ls[..r];
      PrefixConcat(Flat(ls[..r]), Flat(ls[..last]), ls[last]);
    }
  }

  /** The first place whose key is `k`, or the length. */
  function FirstWith<T, K(==)>(s: seq<T>, key: T -> K, k: K): (i: nat)
    ensures i <= |s| && (i < |s| ==> key(s[i]) == k)
    ensures forall j :: 0 <= j < i ==> key(s[j]) != k
  {
    if s == [] || key(s[0]) == k then 0 else 1 + FirstWith(s[1..], key, k)
  }

  /** `s` with the element of `t` at every listed place. */
  function Overlay<T>(s: seq<T>, t: seq<T>, at: seq<nat>): (r: seq<T>)
    requires |s| == |t| && forall x :: 0 <= x < |at| ==> at[x] < |s|
    ensures |r| == |s|
  {
    if at == [] then s else Overlay(s, t, at[..|at| - 1])[at[|at| - 1] := t[at[|at| - 1]]]
  }

  lemma {:induction false} OverlayAt<T>(s: seq<T>, t: seq<T>, at: seq<nat>, i: nat)
    requires |s| == |t| && i < |s| && forall x :: 0 <= x < |at| ==> at[x] < |s|
    ensures Overlay(s, t, at)[i] == if i in at then t[i] else s[i]
  {
    if at != [] {
      var last := |at| - 1;
      OverlayAt(s, t, at[..last], i);
      assert at == at[..last] + [at[last]];
    }
  }

  lemma OverlaySnoc<T>(s: seq<T>, t: seq<T>, at: seq<nat>, i: nat)
    requires |s| == |t| && i < |s| && forall x :: 0 <= x < |at| ==> at[x] < |s|
    ensures Overlay(s, t, at + [i]) == Overlay(s, t, at)[i := t[i]]
  {
    assert (at + [i])[..|at|] == at;
  }

  /** The lists at the listed places, one behind the other. */
  function Gather<T>(ls: seq<seq<T>>, at: seq<nat>): seq<T>
    requires forall x :: 0 <= x < |at| ==> at[x] < |ls|
  {
    if at == [] then [] else Gather(ls, at[..|at| - 1]) + ls[at[|at| - 1]]
  }

  lemma GatherSnoc<T>(ls: seq<seq<T>>, at: seq<nat>, i: nat)
    requires i < |ls| && forall x :: 0 <= x < |at| ==> at[x] < |ls|
    ensures Gather(ls, at + [i]) == Gather(ls, at) + ls[i]
  {
    assert (at + [i])[..|at|] == at;
  }
}

/** Running commuting steps in any order. */
module AnyOrder {

  ghost predicate Swap<M>(f: (nat, M) -> M, a: nat, b: nat, m: M) {
    f(a, f(b, m)) == f(b, f(a, m))
  }

  ghost predicate Commuting<M(!new)>(f: (nat, M) -> M, n: nat) {
    forall a: nat, b: nat, m: M {:trigger Swap(f, a, b, m)} :: a < n && b < n && a != b ==> Swap(f, a, b, m)
  }

  ghost predicate Order(o: seq<nat>, n: nat) {
    && (forall i :: 0 <= i < |o| ==> o[i] < n)
    && (forall i, j :: 0 <= i < j < |o| ==> o[i] != o[j])
  }

  /** The result of running the listed steps, first to last. */
  ghost function RunAll<M>(f: (nat, M) -> M, o: seq<nat>, m: M): M {
    if o == [] then m else f(o[|o| - 1], RunAll(f, o[..|o| - 1], m))
  }

  lemma RunSnoc<M>(f: (nat, M) -> M, o: seq<nat>, x: nat, m: M)
    ensures RunAll(f, o + [x], m) == f(x, RunAll(f, o, m))
  {
    assert (o + [x])[..|o|] == o;
  }

  /** Moving one step to the end of the order changes nothing. */
  lemma {:induction false} MoveToEnd<M(!new)>(f: (nat, M) -> M, n: nat, a: seq<nat>, x: nat, b: seq<nat>, m: M)
    requires Commuting(f, n) && Order(a + [x] + b, n)
    ensures RunAll(f, a + [x] + b, m) == RunAll(f, a + b + [x], m)
    decreases |b|
  {
    if b == [] {
      assert a + [x] + b == a + b + [x];
    } else {
      var init, y := b[..|b| - 1], b[|b| - 1];
      assert a + [x] + b == (a + [x] + init) + [y];
      assert (a + [x] + b)[|a|] == x && (a + [x] + b)[|a| + |b|] == y;
      assert Order(a + [x] + init, n) by {
        assert forall i :: 0 <= i < |a + [x] + init| ==> (a + [x] + init)[i] == (a + [x] + b)[i];
      }
      MoveToEnd(f, n, a, x, init, m);
      RunSnoc(f, a + [x] + init, y, m);
      RunSnoc(f, a + init, x, m);
      RunSnoc(f, a + init, y, m);
      assert Swap(f, x, y, RunAll(f, a + init, m));
      assert a + b == (a + init) + [y];
      RunSnoc(f, a + b, x, m);
    }
  }

  /** Every order of the same commuting steps has the same result. */
  lemma {:induction false} OrderIrrelevant<M(!new)>(f: (nat, M) -> M, n: nat, o1: seq<nat>, o2: seq<nat>, m: M)
    requires Commuting(f, n) && Order(o1, n) && Order(o2, n)
    requires |o1| == |o2| && forall a :: a in o1 <==> a in o2
    ensures RunAll(f, o1, m) == RunAll(f, o2, m)
  {
    if o1 != [] {
      var last := |o1| - 1;
      var x := o1[last];
      assert x in o2;
      var p :| 0 <= p < |o2| && o2[p] == x;
      var a, b := o2[..p], o2[p + 1..];
      assert o2 == a + [x] + b;
      MoveToEnd(f, n, a, x, b, m);
      RunSnoc(f, a + b, x, m);
      Without(o1, a, x, b, n);
      OrderIrrelevant(f, n, o1[..last], a + b, m);
    }
  }

  lemma Without(o1: seq<nat>, a: seq<nat>, x: nat, b: seq<nat>, n: nat)
    requires o1 != [] && o1[|o1| - 1] == x && |o1| == |a + [x] + b| && Order(o1, n) && Order(a + [x] + b, n)
    requires forall y :: y in o1 <==> y in a + [x] + b
    ensures Order(a + b, n) && forall y :: y in o1[..|o1| - 1] <==> y in a + b
  {
    var o2, c := a + [x] + b, a + b;
    assert forall i :: 0 <= i < |c| ==> c[i] == o2[if i < |a| then i else i + 1];
    assert o2[|a|] == x;
    assert x !in c && x !in o1[..|o1| - 1];
    assert o1 == o1[..|o1| - 1] + [x];
    forall y ensures y in o1[..|o1| - 1] <==> y in c {
      assert y in o1 <==> y in o1[..|o1| - 1] || y == x;
      assert y in o2 <==> y in c || y == x;
    }
  }
}
