/**
 Collapsing identical layers of a model (vllm/model_inspection.py): children are grouped
 by a text signature, and only the first of each group is printed.

 A module is a tree; no module is shared between two places.
 */
module ModelInspection {
  import opened Seqs
  import opened Sorting
  import opened Text

  datatype Module = Module(info: string, children: Forest)

  datatype Forest = Nil | Cons(name: string, child: Module, rest: Forest)

  /** A module with the names that lead to it. */
  datatype Entry = Entry(path: seq<string>, info: string)

  // ----- the preorder listing -----

  function Walk(m: Module, path: seq<string>): seq<Entry> {
    [Entry(path, m.info)] + WalkAll(m.children, path)
  }

  function WalkAll(f: Forest, path: seq<string>): seq<Entry> {
    match f
    case Nil => []
    case Cons(name, child, rest) => Walk(child, path + [name]) + WalkAll(rest, path)
  }

  /** What follows the children of a module is not below it. */
  ghost predicate Above(tail: seq<Entry>, path: seq<string>) {
    tail == [] || |tail[0].path| <= |path|
  }

  /** A listing of children determines the children, whatever follows it. */
  lemma {:induction false} WalkUnique(f: Forest, g: Forest, path: seq<string>, tail: seq<Entry>, tail': seq<Entry>)
    requires Above(tail, path) && Above(tail', path) && WalkAll(f, path) + tail == WalkAll(g, path) + tail'
    ensures f == g && tail == tail'
  {
    match f
    case Nil =>
      assert WalkAll(f, path) + tail == tail;
      if g.Cons? {
        NotAbove(g, path, tail');
      } else {
        assert WalkAll(g, path) + tail' == tail';
      }
    case Cons(name, child, rest) =>
      if g.Nil? {
        NotAbove(f, path, tail);
      } else {
        SameFirst(f, g, path, tail, tail');
        var below, after, after' := path + [name], WalkAll(rest, path) + tail, WalkAll(g.rest, path) + tail';
        AboveNext(rest, path, name, tail);
        AboveNext(g.rest, path, name, tail');
        WalkUnique(child.children, g.child.children, below, after, after');
        WalkUnique(rest, g.rest, path, tail, tail');
      }
  }

  lemma NotAbove(f: Forest, path: seq<string>, tail: seq<Entry>)
    requires f.Cons?
    ensures !Above(WalkAll(f, path) + tail, path)
  {
    assert (WalkAll(f, path) + tail)[0] == Entry(path + [f.name], f.child.info);
  }

  lemma AboveNext(f: Forest, path: seq<string>, name: string, tail: seq<Entry>)
    requires Above(tail, path)
    ensures Above(WalkAll(f, path) + tail, path + [name])
  {
    if f.Cons? {
      assert (WalkAll(f, path) + tail)[0] == Entry(path + [f.name], f.child.info);
    } else {
      assert WalkAll(f, path) + tail == tail;
    }
  }

  lemma Unfolded(f: Forest, path: seq<string>, tail: seq<Entry>)
    requires f.Cons?
    ensures WalkAll(f, path) + tail
            == [Entry(path + [f.name], f.child.info)]
               + (WalkAll(f.child.children, path + [f.name]) + (WalkAll(f.rest, path) + tail))
  {
  }

  /** Equal listings start with the same child name and information. */
  lemma SameFirst(f: Forest, g: Forest, path: seq<string>, tail: seq<Entry>, tail': seq<Entry>)
    requires f.Cons? && g.Cons? && WalkAll(f, path) + tail == WalkAll(g, path) + tail'
    ensures f.name == g.name && f.child.info == g.child.info
    ensures WalkAll(f.child.children, path + [f.name]) + (WalkAll(f.rest, path) + tail)
            == WalkAll(g.child.children, path + [f.name]) + (WalkAll(g.rest, path) + tail')
  {
    Unfolded(f, path, tail);
    Unfolded(g, path, tail');
    var s, s' := WalkAll(f, path) + tail, WalkAll(g, path) + tail';
    assert s[0] == s'[0];
    assert (path + [f.name])[|path|] == (path + [g.name])[|path|];
    assert s[1..] == s'[1..];
  }

  /** Equal preorder listings belong to equal trees. */
  lemma ListingUnique(m: Module, n: Module)
    requires Walk(m, []) == Walk(n, [])
    ensures m == n
  {
    assert Walk(m, [])[0] == Walk(n, [])[0];
    assert Walk(m, [])[1..] == WalkAll(m.children, []) + [];
    assert Walk(n, [])[1..] == WalkAll(n.children, []) + [];
    WalkUnique(m.children, n.children, [], [], []);
  }

  // ----- the listing as text -----

  /** Characters that can stand in a class name. */
  predicate ClassChar(c: char) {
    c != '(' && c != ':' && c != '.' && c != '\n'
  }

  /** A class name stands from place a to place e, and an opening parenthesis behind it. */
  predicate OpensAt(s: string, a: nat, e: nat) {
    a < e < |s| && s[e] == '(' && forall j :: a <= j < e ==> ClassChar(s[j])
  }

  /** The information line of a module: its class name with the details in parentheses. */
  ghost predicate Described(info: string) {
    '\n' !in info && info != [] && info[|info| - 1] == ')' && exists e :: OpensAt(info, 0, e)
  }

  /** What the framework accepts as the name of a child. */
  predicate NameOk(name: string) {
    name != [] && '.' !in name
  }

  /** The first line break at place e or behind it, or the end of the text. */
  function BreakFrom(s: string, e: nat): (p: nat)
    requires e <= |s|
    ensures e <= p <= |s| && (p < |s| ==> s[p] == '\n') && forall j :: e <= j < p ==> s[j] != '\n'
    decreases |s| - e
  {
    if e == |s| || s[e] == '\n' then e else BreakFrom(s, e + 1)
  }

  /** The line of place e runs to the end of the text, or ends in a closing parenthesis. */
  predicate LineCloses(s: string, e: nat)
    requires e < |s|
  {
    var p := BreakFrom(s, e);
    p == |s| || (p > e && s[p - 1] == ')')
  }

  /** The name can be read as a shorter name, a colon and a description or the beginning of one. */
  ghost predicate Ambiguous(name: string) {
    exists i, e :: SplitsAt(name, i, e)
  }

  predicate SplitsAt(name: string, i: nat, e: nat) {
    0 < i < |name| && name[i] == ':' && OpensAt(name, i + 1, e) && LineCloses(name, e)
  }

  lemma BreakIs(s: string, e: nat, p: nat)
    requires e <= p <= |s| && (p < |s| ==> s[p] == '\n') && forall j :: e <= j < p ==> s[j] != '\n'
    ensures BreakFrom(s, e) == p
  {
  }

  /** A line that closes, closes in every front part of the text. */
  lemma ClosesInFront(s: string, n: nat, e: nat)
    requires e < n <= |s| && s[e] == '(' && LineCloses(s, e)
    ensures LineCloses(s[..n], e)
  {
    var p := BreakFrom(s, e);
    BreakIs(s[..n], e, if p < n then p else n);
  }

  lemma ClosesBehind(s: string, n: nat, e: nat)
    requires n <= e < |s| && LineCloses(s, e)
    ensures LineCloses(s[n..], e - n)
  {
    var p, t := BreakFrom(s, e), s[n..];
    forall j | e - n <= j < p - n ensures t[j] != '\n' {
      assert t[j] == s[n + j];
    }
    BreakIs(t, e - n, p - n);
  }

  /** A module whose names are unambiguous, apart from the ones in `odd`. */
  ghost predicate Proper(m: Module, odd: set<string>) {
    Described(m.info) && ProperAll(m.children, odd)
  }

  ghost predicate ProperAll(f: Forest, odd: set<string>) {
    f.Nil? ||
    (NameOk(f.name) && (Ambiguous(f.name) ==> f.name in odd) && Proper(f.child, odd) && ProperAll(f.rest, odd))
  }

  ghost predicate ProperPath(path: seq<string>) {
    forall k :: 0 <= k < |path| ==> NameOk(path[k]) && !Ambiguous(path[k])
  }

  ghost predicate ProperEntry(e: Entry) {
    ProperPath(e.path) && Described(e.info)
  }

  lemma {:induction false} WalkProper(m: Module, path: seq<string>, k: nat)
    requires Proper(m, {}) && ProperPath(path) && k < |Walk(m, path)|
    ensures ProperEntry(Walk(m, path)[k]) && |Walk(m, path)[k].path| >= |path|
    ensures k > 0 ==> |Walk(m, path)[k].path| > |path|
    decreases m, 1
  {
    if k > 0 {
      WalkAllProper(m.children, path, k - 1);
    }
  }

  lemma {:induction false} WalkAllProper(f: Forest, path: seq<string>, k: nat)
    requires ProperAll(f, {}) && ProperPath(path) && k < |WalkAll(f, path)|
    ensures ProperEntry(WalkAll(f, path)[k]) && |WalkAll(f, path)[k].path| > |path|
    decreases f, 0
  {
    var first := Walk(f.child, path + [f.name]);
    if k < |first| {
      WalkProper(f.child, path + [f.name], k);
    } else {
      WalkAllProper(f.rest, path, k - |first|);
    }
  }

  // ----- reading an entry back -----

  /** The text of a path ends in the last character of its last name. */
  lemma {:induction false} PathEnds(p: seq<string>)
    requires p != [] && forall k :: 0 <= k < |p| ==> NameOk(p[k])
    ensures Join(p, ".") != "" && Join(p, ".")[|Join(p, ".")| - 1] != '.'
    decreases |p|
  {
    assert NameOk(p[0]);
    if |p| > 1 {
      PathEnds(p[1..]);
    } else {
      assert p[0][|p[0]| - 1] in p[0];
    }
  }

  /** A dotted path determines its names. */
  lemma PathUnique(p: seq<string>, q: seq<string>)
    requires ProperPath(p) && ProperPath(q) && Join(p, ".") == Join(q, ".")
    ensures p == q
  {
    if p == [] || q == [] {
      if p != q {
        PathEnds(if p == [] then q else p);
      }
    } else {
      SplitJoin(p, '.');
      SplitJoin(q, '.');
    }
  }

  /** A colon with a class name behind it, not at the start of a name, makes that name ambiguous. */
  lemma {:induction false} PathSplits(p: seq<string>, i: nat, e: nat)
    requires p != [] && forall n :: 0 <= n < |p| ==> NameOk(p[n])
    requires SplitsAt(Join(p, "."), i, e) && Join(p, ".")[i - 1] != '.'
    ensures exists n :: 0 <= n < |p| && Ambiguous(p[n])
    decreases |p|
  {
    var n := |p[0]|;
    if |p| == 1 {
      assert Ambiguous(p[0]);
    } else if i < n {
      InFirstName(p[0], Join(p[1..], "."), i, e);
      assert Ambiguous(p[0]);
    } else {
      InLaterName(p[0], Join(p[1..], "."), i, e);
      PathSplits(p[1..], i - n - 1, e - n - 1);
      var j :| 0 <= j < |p[1..]| && Ambiguous(p[1..][j]);
      assert p[j + 1] == p[1..][j];
    }
  }

  lemma InFirstName(first: string, rest: string, i: nat, e: nat)
    requires i < |first| && SplitsAt(first + "." + rest, i, e)
    ensures SplitsAt(first, i, e)
  {
    var text := first + "." + rest;
    assert text[|first|] == '.';
    assert forall j :: 0 <= j < |first| ==> first[j] == text[j];
    assert text[..|first|] == first;
    ClosesInFront(text, |first|, e);
  }

  lemma InLaterName(first: string, rest: string, i: nat, e: nat)
    requires |first| <= i && SplitsAt(first + "." + rest, i, e) && (first + "." + rest)[i - 1] != '.'
    ensures |first| + 1 < i && SplitsAt(rest, i - |first| - 1, e - |first| - 1) && rest[i - |first| - 2] != '.'
  {
    var text, n := first + "." + rest, |first| + 1;
    assert text[|first|] == '.';
    assert rest == text[n..];
    ClosesBehind(text, n, e);
    assert rest[i - n] == text[i] && rest[i - n - 1] == text[i - 1] && rest[e - n] == text[e];
    forall j | i - n < j < e - n ensures ClassChar(rest[j]) {
      assert rest[j] == text[n + j];
    }
  }

  /** Of two paths before a colon and a description, neither is a proper beginning of the other. */
  lemma NotShorter(p: seq<string>, q: seq<string>, info: string, u: string, v: string)
    requires p != [] && q != [] && ProperPath(p) && ProperPath(q) && Described(info) && NextLine(u)
    requires Join(p, ".") + ":" + info + u == Join(q, ".") + ":" + v
    ensures |Join(q, ".")| <= |Join(p, ".")|
  {
    var a, b := Join(p, "."), Join(q, ".");
    if |a| < |b| {
      PathEnds(p);
      var e := ColonInside(a, b, info, u, v);
      PathSplits(q, |a|, e);
    }
  }

  /** Nothing, or a new line. */
  predicate NextLine(u: string) {
    u == "" || u[0] == '\n'
  }

  lemma ColonInside(a: string, b: string, info: string, u: string, v: string) returns (e: nat)
    requires 0 < |a| < |b| && Described(info) && NextLine(u) && a + ":" + info + u == b + ":" + v
    ensures b[..|a|] == a && SplitsAt(b, |a|, e)
  {
    var s := a + ":" + info + u;
    var k :| OpensAt(info, 0, k);
    e := |a| + 1 + k;
    OpensBehind(a, info, u, k);
    InfoCloses(a, info, u, k);
    assert s[|b|] == ':' && s[..|b|] == b && s[..|a|] == a;
    OpensBefore(s, |b|, |a|, e);
  }

  /** The line of a description ends with it. */
  lemma InfoCloses(a: string, info: string, u: string, k: nat)
    requires Described(info) && OpensAt(info, 0, k) && NextLine(u)
    ensures LineCloses(a + ":" + info + u, |a| + 1 + k)
  {
    var s, n := a + ":" + info + u, |a| + 1;
    forall j | n + k <= j < n + |info| ensures s[j] != '\n' {
      assert s[j] == info[j - n];
    }
    assert s[n + |info| - 1] == info[|info| - 1] == ')';
    BreakIs(s, n + k, n + |info|);
  }

  lemma OpensBehind(a: string, info: string, u: string, k: nat)
    requires OpensAt(info, 0, k)
    ensures var s := a + ":" + info + u; s[|a|] == ':' && OpensAt(s, |a| + 1, |a| + 1 + k)
  {
    var s, n := a + ":" + info + u, |a| + 1;
    assert s[n + k] == info[k];
    forall j | n <= j < n + k ensures ClassChar(s[j]) {
      assert s[j] == info[j - n];
    }
  }

  /** A description that starts before another colon opens before it, too. */
  lemma OpensBefore(s: string, n: nat, i: nat, e: nat)
    requires 0 < i < n < |s| && s[i] == ':' && s[n] == ':' && OpensAt(s, i + 1, e) && LineCloses(s, e)
    ensures SplitsAt(s[..n], i, e)
  {
    assert e < n;
    ClosesInFront(s, n, e);
  }

  function EntryText(e: Entry): string {
    Join(e.path, ".") + ":" + e.info
  }

  function EntryTexts(es: seq<Entry>): (r: seq<string>)
    ensures |r| == |es| && forall k :: 0 <= k < |r| ==> r[k] == EntryText(es[k])
  {
    seq(|es|, k requires 0 <= k < |es| => EntryText(es[k]))
  }

  function Signature(m: Module): string {
    Join(EntryTexts(Walk(m, [])), "\n")
  }

  /** What follows an entry: nothing, or a line break and the other entries. */
  function Following(es: seq<Entry>): string {
    if es == [] then "" else "\n" + Join(EntryTexts(es), "\n")
  }

  /** An information line ends where the line does. */
  lemma LineUnique(a: string, b: string, es: seq<Entry>, fs: seq<Entry>)
    requires '\n' !in a && '\n' !in b && a + Following(es) == b + Following(fs)
    ensures a == b && Following(es) == Following(fs)
  {
    Breaks(a, es);
    Breaks(b, fs);
    if es == [] {
      assert a + "" == a && b + "" == b;
    } else {
      var u, v := Join(EntryTexts(es), "\n"), Join(EntryTexts(fs), "\n");
      Regrouped(a, u);
      Regrouped(b, v);
      CutUnique(a, u, '\n', b, v);
    }
  }

  /** There is a line break exactly when entries follow. */
  lemma Breaks(a: string, es: seq<Entry>)
    requires '\n' !in a
    ensures '\n' in a + Following(es) <==> es != []
  {
    if es != [] {
      assert (a + Following(es))[|a|] == '\n';
    }
  }

  /** The first entry of a text and what follows it can be read in one way only. */
  lemma HeadUnique(e: Entry, f: Entry, es: seq<Entry>, fs: seq<Entry>)
    requires ProperEntry(e) && ProperEntry(f) && (e.path == [] <==> f.path == [])
    requires EntryText(e) + Following(es) == EntryText(f) + Following(fs)
    ensures e == f && Following(es) == Following(fs)
  {
    var p, q, u, v := Join(e.path, "."), Join(f.path, "."), Following(es), Following(fs);
    Grouped3(p, e.info, u);
    Grouped3(q, f.info, v);
    if e.path != [] {
      NotShorter(e.path, f.path, e.info, u, f.info + v);
      NotShorter(f.path, e.path, f.info, v, e.info + u);
    }
    SameLength(p, q, e.info + u, f.info + v);
    PathUnique(e.path, f.path);
    LineUnique(e.info, f.info, es, fs);
  }

  lemma Grouped3(p: string, info: string, u: string)
    ensures p + ":" + info + u == p + ":" + (info + u)
  {
  }

  lemma Regrouped(a: string, u: string)
    ensures a + ("\n" + u) == a + "\n" + u
  {
  }

  lemma SameLength(p: string, q: string, a: string, b: string)
    requires |p| == |q| && p + ":" + a == q + ":" + b
    ensures p == q && a == b
  {
    var s := p + ":" + a;
    assert p == s[..|p|] && q == s[..|p|] && a == s[|p| + 1..] && b == s[|p| + 1..];
  }

  lemma HeadFirst(es: seq<Entry>)
    requires es != []
    ensures Join(EntryTexts(es), "\n") == EntryText(es[0]) + Following(es[1..])
  {
    assert EntryTexts(es)[1..] == EntryTexts(es[1..]);
    if |es| > 1 {
      assert EntryText(es[0]) + "\n" + Join(EntryTexts(es[1..]), "\n")
          == EntryText(es[0]) + ("\n" + Join(EntryTexts(es[1..]), "\n"));
    }
  }

  ghost predicate Below(es: seq<Entry>) {
    forall k :: 0 <= k < |es| ==> ProperEntry(es[k]) && es[k].path != []
  }

  lemma FollowingHead(es: seq<Entry>, fs: seq<Entry>)
    requires es != [] && fs != [] && Below(es) && Below(fs) && Following(es) == Following(fs)
    ensures es[0] == fs[0] && Following(es[1..]) == Following(fs[1..])
  {
    HeadFirst(es);
    HeadFirst(fs);
    assert Following(es)[1..] == Join(EntryTexts(es), "\n") && Following(fs)[1..] == Join(EntryTexts(fs), "\n");
    HeadUnique(es[0], fs[0], es[1..], fs[1..]);
  }

  lemma {:induction false} FollowingUnique(es: seq<Entry>, fs: seq<Entry>)
    requires Below(es) && Below(fs) && Following(es) == Following(fs)
    ensures es == fs
    decreases |es|
  {
    if es != [] && fs != [] {
      FollowingHead(es, fs);
      FollowingUnique(es[1..], fs[1..]);
      assert es == [es[0]] + es[1..] && fs == [fs[0]] + fs[1..];
    }
  }

  /** A listing is the root, with an empty path, and entries below it. */
  lemma ListingShape(m: Module)
    requires Proper(m, {})
    ensures ProperEntry(Walk(m, [])[0]) && Walk(m, [])[0].path == [] && Below(Walk(m, [])[1..])
  {
    var es := Walk(m, []);
    WalkProper(m, [], 0);
    forall k | 0 <= k < |es| - 1 ensures ProperEntry(es[1..][k]) && es[1..][k].path != [] {
      WalkProper(m, [], k + 1);
    }
  }

  /** With unambiguous names, two modules have the same signature exactly when they are the same tree. */
  lemma SignatureInjective(m: Module, n: Module)
    requires Proper(m, {}) && Proper(n, {})
    ensures Signature(m) == Signature(n) <==> m == n
  {
    if Signature(m) == Signature(n) {
      var es, fs := Walk(m, []), Walk(n, []);
      ListingShape(m);
      ListingShape(n);
      HeadFirst(es);
      HeadFirst(fs);
      HeadUnique(es[0], fs[0], es[1..], fs[1..]);
      FollowingUnique(es[1..], fs[1..]);
      assert es == [es[0]] + es[1..] && fs == [fs[0]] + fs[1..];
      ListingUnique(m, n);
    }
  }

  /** A signature written out: a line for each module, in preorder, with the names that lead to it. */
  lemma SignatureLines(top: string, a: string, u: string, c: string, v: string, b: string, w: string)
    ensures Signature(Module(top, Cons(a, Module(u, Cons(c, Module(v, Nil), Nil)), Cons(b, Module(w, Nil), Nil))))
            == ":" + top + "\n" + (a + ":" + u + "\n" + (a + "." + c + ":" + v + "\n" + (b + ":" + w)))
  {
    var below := Cons(c, Module(v, Nil), Nil);
    var f := Cons(a, Module(u, below), Cons(b, Module(w, Nil), Nil));
    assert [a] + [c] == [a, c] && [] + [a] == [a] && [] + [b] == [b];
    LeafBelow([a], c, v);
    LeafBelow([], b, w);
    assert Walk(f.child, [a]) == [Entry([a], u), Entry([a, c], v)];
    assert WalkAll(f, []) == [Entry([a], u), Entry([a, c], v), Entry([b], w)];
    var m := Module(top, f);
    assert Walk(m, []) == [Entry([], top), Entry([a], u), Entry([a, c], v), Entry([b], w)];
    FourLines(Entry([], top), Entry([a], u), Entry([a, c], v), Entry([b], w));
    assert Join([a, c], ".") == a + "." + c by {
      assert [a, c][1..] == [c];
    }
    assert "" + ":" + top == ":" + top;
  }

  lemma LeafBelow(path: seq<string>, name: string, info: string)
    ensures WalkAll(Cons(name, Module(info, Nil), Nil), path) == [Entry(path + [name], info)]
  {
    assert Walk(Module(info, Nil), path + [name]) == [Entry(path + [name], info)];
  }

  lemma FourLines(d: Entry, e: Entry, f: Entry, g: Entry)
    ensures Join(EntryTexts([d, e, f, g]), "\n")
            == EntryText(d) + "\n" + (EntryText(e) + "\n" + (EntryText(f) + "\n" + EntryText(g)))
  {
    var x, y, z, w := EntryText(d), EntryText(e), EntryText(f), EntryText(g);
    assert EntryTexts([d, e, f, g]) == [x, y, z, w];
    FourJoined(x, y, z, w, "\n");
  }

  lemma FourJoined(x: string, y: string, z: string, w: string, sep: string)
    ensures Join([x, y, z, w], sep) == x + sep + (y + sep + (z + sep + w))
  {
    assert [x, y, z, w][1..] == [y, z, w] && [y, z, w][1..] == [z, w] && [z, w][1..] == [w];
    assert Join([z, w], sep) == z + sep + w;
    assert Join([y, z, w], sep) == y + sep + (z + sep + w);
  }

  // ----- ambiguous names collide -----

  lemma OneChild(info: string, name: string, below: string)
    ensures Walk(Module(info, Cons(name, Module(below, Nil), Nil)), []) == [Entry([], info), Entry([name], below)]
  {
    var child := Module(below, Nil);
    assert [] + [name] == [name];
    assert Walk(child, [name]) == [Entry([name], below)];
    assert WalkAll(Cons(name, child, Nil), []) == [Entry([name], below)];
  }

  function Parent(top: string, name: string, info: string): Module {
    Module(top, Cons(name, Module(info, Nil), Nil))
  }

  /** Whatever stands behind a colon of a name can be read as the child's information instead. */
  lemma ColonCollides(top: string, a: string, b: string, info: string)
    ensures Parent(top, a, b + ":" + info) != Parent(top, a + ":" + b, info)
    ensures Signature(Parent(top, a, b + ":" + info)) == Signature(Parent(top, a + ":" + b, info))
  {
    OneChild(top, a, b + ":" + info);
    OneChild(top, a + ":" + b, info);
    assert a + ":" + (b + ":" + info) == a + ":" + b + ":" + info;
    assert EntryTexts(Walk(Parent(top, a, b + ":" + info), [])) == EntryTexts(Walk(Parent(top, a + ":" + b, info), []));
    assert |a| < |a + ":" + b|;
  }

  lemma RealDescriptions()
    ensures Described("Top()") && Described("Foo(b:Bar(x))") && Described("Bar(x))")
  {
    assert OpensAt("Top()", 0, 3);
    assert OpensAt("Foo(b:Bar(x))", 0, 3);
    assert OpensAt("Bar(x))", 0, 3);
  }

  /** Two modules as the code prints them, one of them with an ambiguous name, that share a signature. */
  lemma RealCollision()
    ensures var m, n := Parent("Top()", "a", "Foo(b:Bar(x))"), Parent("Top()", "a:Foo(b", "Bar(x))");
            && Proper(m, {}) && Proper(n, {"a:Foo(b"})
            && m != n && Signature(m) == Signature(n)
  {
    ColonCollides("Top()", "a", "Foo(b", "Bar(x))");
    assert "Foo(b" + ":" + "Bar(x))" == "Foo(b:Bar(x))" && "a" + ":" + "Foo(b" == "a:Foo(b";
    RealDescriptions();
    ParentProper("Top()", "a", "Foo(b:Bar(x))", {});
    ParentProper("Top()", "a:Foo(b", "Bar(x))", {"a:Foo(b"});
  }

  /** Among the ways to split an ambiguous name there is one whose first part is unambiguous. */
  lemma {:induction false} ShortestSplit(name: string, i: nat, e: nat) returns (i': nat, e': nat)
    requires SplitsAt(name, i, e)
    ensures SplitsAt(name, i', e') && !Ambiguous(name[..i'])
    decreases i
  {
    i', e' := i, e;
    if Ambiguous(name[..i]) {
      var j, l :| SplitsAt(name[..i], j, l);
      EarlierSplit(name, i, e, j, l);
      i', e' := ShortestSplit(name, j, l);
    }
  }

  /** A split of the first part is a split of the whole name: both lines end together. */
  lemma EarlierSplit(name: string, i: nat, e: nat, j: nat, l: nat)
    requires SplitsAt(name, i, e) && SplitsAt(name[..i], j, l)
    ensures j < i && SplitsAt(name, j, l)
  {
    var front := name[..i];
    assert forall x :: 0 <= x < i ==> name[x] == front[x];
    var p := BreakFrom(front, l);
    BreakIs(name, l, if p < i then p else BreakFrom(name, e));
  }

  /** Equal signatures mean equal trees, even when the name may be used. */
  ghost predicate SafeName(name: string) {
    forall m, n :: Proper(m, {name}) && Proper(n, {name}) && Signature(m) == Signature(n) ==> m == n
  }

  lemma {:induction false} OddUnused(m: Module, odd: set<string>)
    requires Proper(m, odd) && forall x :: x in odd ==> !Ambiguous(x)
    ensures Proper(m, {})
    decreases m, 1
  {
    OddUnusedAll(m.children, odd);
  }

  lemma {:induction false} OddUnusedAll(f: Forest, odd: set<string>)
    requires ProperAll(f, odd) && forall x :: x in odd ==> !Ambiguous(x)
    ensures ProperAll(f, {})
    decreases f, 0
  {
    if f.Cons? {
      OddUnused(f.child, odd);
      OddUnusedAll(f.rest, odd);
    }
  }

  lemma ParentProper(top: string, name: string, info: string, odd: set<string>)
    requires Described(top) && Described(info) && NameOk(name) && (Ambiguous(name) ==> name in odd)
    ensures Proper(Parent(top, name, info), odd)
  {
    assert ProperAll(Nil, odd);
    assert Proper(Module(info, Nil), odd);
  }

  /** The part behind the colon, extended by another description, is a description itself. */
  lemma SecondPart(name: string, i: nat, e: nat, info: string)
    requires SplitsAt(name, i, e) && BreakFrom(name, e) == |name| && Described(info)
    ensures Described(name[i + 1..] + ":" + info)
  {
    var b := name[i + 1..] + ":" + info;
    assert forall j :: 0 <= j < |name| - i - 1 ==> b[j] == name[i + 1 + j];
    assert OpensAt(b, 0, e - i - 1);
    assert b[|b| - 1] == info[|info| - 1];
    assert forall j :: i < j < |name| ==> name[j] != '\n';
  }

  /** The part between the colon and the line break is a description. */
  lemma MiddlePart(name: string, i: nat, e: nat)
    requires SplitsAt(name, i, e) && BreakFrom(name, e) < |name|
    ensures Described(name[i + 1..BreakFrom(name, e)])
  {
    var b := name[i + 1..BreakFrom(name, e)];
    assert forall j :: 0 <= j < |b| ==> b[j] == name[i + 1 + j];
    assert OpensAt(b, 0, e - i - 1);
  }

  /** The listing of some children as text. */
  function ListText(f: Forest): string {
    Join(EntryTexts(WalkAll(f, [])), "\n")
  }

  function Leaf(name: string, info: string, rest: Forest): Forest {
    Cons(name, Module(info, Nil), rest)
  }

  lemma LeafWalk(name: string, info: string, rest: Forest)
    ensures WalkAll(Leaf(name, info, rest), []) == [Entry([name], info)] + WalkAll(rest, [])
  {
    assert [] + [name] == [name];
    assert Walk(Module(info, Nil), [name]) == [Entry([name], info)] + [];
  }

  lemma LeafText(name: string, info: string, rest: Forest)
    ensures ListText(Leaf(name, info, rest))
            == if rest.Nil? then name + ":" + info else name + ":" + info + "\n" + ListText(rest)
  {
    LeafWalk(name, info, rest);
    var es, fs := WalkAll(Leaf(name, info, rest), []), WalkAll(rest, []);
    assert EntryTexts(es) == [name + ":" + info] + EntryTexts(fs);
    assert rest.Cons? ==> fs != [];
  }

  lemma RootText(top: string, f: Forest)
    requires f.Cons?
    ensures Signature(Module(top, f)) == EntryText(Entry([], top)) + ("\n" + ListText(f))
  {
    var es := Walk(Module(top, f), []);
    HeadFirst(es);
    assert es[1..] == WalkAll(f, []) && es[0] == Entry([], top);
    SomeEntries(f);
  }

  lemma SomeEntries(f: Forest)
    requires f.Cons?
    ensures WalkAll(f, []) != []
  {
  }

  const DETAILS := "B(c:D())"

  lemma DetailsDescribed()
    ensures Described(DETAILS) && Described("D())") && !Ambiguous(":B(c")
  {
    assert OpensAt(DETAILS, 0, 1) && OpensAt("D())", 0, 1);
  }

  lemma LeafProper(name: string, info: string, rest: Forest)
    requires NameOk(name) && !Ambiguous(name) && Described(info) && ProperAll(rest, {})
    ensures ProperAll(Leaf(name, info, rest), {})
  {
    assert Proper(Module(info, Nil), {});
  }

  /** What may follow a line break in an ambiguous name, listed with unambiguous names. */
  lemma {:induction false} AfterBreak(rest: string) returns (f: Forest)
    requires '.' !in rest
    ensures f.Cons? && ProperAll(f, {}) && ListText(f) == rest + ":" + DETAILS
    decreases |rest|, 1
  {
    DetailsDescribed();
    if rest == "" {
      f := Leaf(":B(c", "D())", Nil);
      LeafProper(":B(c", "D())", Nil);
      LeafText(":B(c", "D())", Nil);
      assert ":B(c" + ":" + "D())" == "" + ":" + DETAILS;
    } else if Ambiguous(rest) {
      f := OtherReading(rest);
    } else {
      f := Leaf(rest, DETAILS, Nil);
      LeafProper(rest, DETAILS, Nil);
      LeafText(rest, DETAILS, Nil);
    }
  }

  /** An ambiguous name before these details reads like children with unambiguous names. */
  lemma {:induction false} OtherReading(name: string) returns (f: Forest)
    requires NameOk(name) && Ambiguous(name)
    ensures f.Cons? && ProperAll(f, {}) && ListText(f) == name + ":" + DETAILS
    decreases |name|, 0
  {
    var i, e :| SplitsAt(name, i, e);
    i, e := ShortestSplit(name, i, e);
    if BreakFrom(name, e) == |name| {
      f := OneLine(name, i, e);
    } else {
      var g := AfterBreak(name[BreakFrom(name, e) + 1..]);
      f := MoreLines(name, i, e, g);
    }
  }

  lemma OneLine(name: string, i: nat, e: nat) returns (f: Forest)
    requires NameOk(name) && SplitsAt(name, i, e) && !Ambiguous(name[..i]) && BreakFrom(name, e) == |name|
    ensures f.Cons? && ProperAll(f, {}) && ListText(f) == name + ":" + DETAILS
  {
    var a, b := name[..i], name[i + 1..] + ":" + DETAILS;
    DetailsDescribed();
    SecondPart(name, i, e, DETAILS);
    f := Leaf(a, b, Nil);
    LeafProper(a, b, Nil);
    LeafText(a, b, Nil);
    LineText(name, i, DETAILS);
  }

  lemma LineText(name: string, i: nat, info: string)
    requires i < |name| && name[i] == ':'
    ensures name[..i] + ":" + (name[i + 1..] + ":" + info) == name + ":" + info
  {
    var front, back := name[..i] + ":", name[i + 1..];
    assert name == front + back;
    ConcatAssoc(front, back, ":" + info);
    assert front + back + (":" + info) == front + back + ":" + info;
    assert back + (":" + info) == back + ":" + info;
  }

  lemma MoreLines(name: string, i: nat, e: nat, g: Forest) returns (f: Forest)
    requires NameOk(name) && SplitsAt(name, i, e) && !Ambiguous(name[..i]) && BreakFrom(name, e) < |name|
    requires g.Cons? && ProperAll(g, {}) && ListText(g) == name[BreakFrom(name, e) + 1..] + ":" + DETAILS
    ensures f.Cons? && ProperAll(f, {}) && ListText(f) == name + ":" + DETAILS
  {
    var p := BreakFrom(name, e);
    var a, line := name[..i], name[i + 1..p];
    MiddlePart(name, i, e);
    f := Leaf(a, line, g);
    LeafProper(a, line, g);
    LeafText(a, line, g);
    LinesText(name, i, p, DETAILS);
  }

  lemma LinesText(name: string, i: nat, p: nat, info: string)
    requires i < p < |name| && name[i] == ':' && name[p] == '\n'
    ensures name[..i] + ":" + name[i + 1..p] + "\n" + (name[p + 1..] + ":" + info) == name + ":" + info
  {
    assert name == name[..i] + ":" + name[i + 1..p] + "\n" + name[p + 1..];
    var front, back := name[..i] + ":" + name[i + 1..p] + "\n", name[p + 1..];
    ConcatAssoc(front, back, ":" + info);
    assert front + back + (":" + info) == front + back + ":" + info;
    assert back + (":" + info) == back + ":" + info;
  }

  /** Every ambiguous name occurs in two printable trees with one signature. */
  lemma AmbiguousCollides(name: string)
    requires NameOk(name) && Ambiguous(name)
    ensures !SafeName(name)
  {
    var f := OtherReading(name);
    DetailsDescribed();
    var m, n := Parent(DETAILS, name, DETAILS), Module(DETAILS, f);
    ParentProper(DETAILS, name, DETAILS, {name});
    MoreOdd(n, {name});
    assert m.children == Leaf(name, DETAILS, Nil);
    LeafText(name, DETAILS, Nil);
    RootText(DETAILS, m.children);
    RootText(DETAILS, f);
    assert m != n;
  }

  lemma {:induction false} MoreOdd(m: Module, odd: set<string>)
    requires Proper(m, {})
    ensures Proper(m, odd)
    decreases m, 1
  {
    MoreOddAll(m.children, odd);
  }

  lemma {:induction false} MoreOddAll(f: Forest, odd: set<string>)
    requires ProperAll(f, {})
    ensures ProperAll(f, odd)
    decreases f, 0
  {
    if f.Cons? {
      MoreOdd(f.child, odd);
      MoreOddAll(f.rest, odd);
    }
  }

  /** A name keeps signatures apart exactly when it is unambiguous. */
  lemma SafeNameIff(name: string)
    requires NameOk(name)
    ensures SafeName(name) <==> !Ambiguous(name)
  {
    if Ambiguous(name) {
      AmbiguousCollides(name);
    } else {
      forall m, n | Proper(m, {name}) && Proper(n, {name}) && Signature(m) == Signature(n) ensures m == n {
        OddUnused(m, {name});
        OddUnused(n, {name});
        SignatureInjective(m, n);
      }
    }
  }

  // ----- grouping the numbered children -----

  type Child = (int, Module)

  datatype Group = Group(signature: string, members: seq<Child>)

  function SignatureOf(g: Group): string {
    g.signature
  }

  /** The group with a signature, or the number of groups. */
  function GroupIndex(groups: seq<Group>, signature: string): (i: nat)
    ensures i <= |groups| && (i < |groups| ==> groups[i].signature == signature)
    ensures forall j :: 0 <= j < i ==> groups[j].signature != signature
  {
    FirstWith(groups, SignatureOf, signature)
  }

  function AddChild(groups: seq<Group>, x: Child): seq<Group> {
    var i := GroupIndex(groups, Signature(x.1));
    if i < |groups| then groups[i := groups[i].(members := groups[i].members + [x])]
    else groups + [Group(Signature(x.1), [x])]
  }

  function GroupsOf(xs: seq<Child>): seq<Group> {
    if xs == [] then [] else AddChild(GroupsOf(xs[..|xs| - 1]), xs[|xs| - 1])
  }

  /** The numbered children that are the same tree as m, in order. */
  function Copies(xs: seq<Child>, m: Module): seq<Child> {
    if xs == [] then []
    else if xs[|xs| - 1].1 == m then Copies(xs[..|xs| - 1], m) + [xs[|xs| - 1]]
    else Copies(xs[..|xs| - 1], m)
  }

  ghost predicate AllProper(xs: seq<Child>) {
    forall k :: 0 <= k < |xs| ==> Proper(xs[k].1, {})
  }

  /** A group holds all copies of its representative and nothing else. */
  ghost predicate IsGroup(xs: seq<Child>, g: Group) {
    && g.members != [] && Proper(g.members[0].1, {})
    && g.signature == Signature(g.members[0].1)
    && g.members == Copies(xs, g.members[0].1)
  }

  ghost predicate Apart(groups: seq<Group>) {
    forall i, j :: 0 <= i < j < |groups| ==> groups[i].signature != groups[j].signature
  }

  ghost predicate Covered(xs: seq<Child>, groups: seq<Group>) {
    forall k :: 0 <= k < |xs| ==> GroupIndex(groups, Signature(xs[k].1)) < |groups|
  }

  ghost predicate Grouped(xs: seq<Child>, groups: seq<Group>) {
    Apart(groups) && Covered(xs, groups) && forall i :: 0 <= i < |groups| ==> IsGroup(xs, groups[i])
  }

  lemma {:induction false} CopiesSame(xs: seq<Child>, m: Module, k: nat)
    requires k < |Copies(xs, m)|
    ensures Copies(xs, m)[k].1 == m
  {
    var front := xs[..|xs| - 1];
    if k < |Copies(front, m)| {
      CopiesSame(front, m, k);
    }
  }

  lemma {:induction false} CopiesNone(xs: seq<Child>, m: Module)
    requires forall k :: 0 <= k < |xs| ==> xs[k].1 != m
    ensures Copies(xs, m) == []
  {
    if xs != [] {
      CopiesNone(xs[..|xs| - 1], m);
    }
  }

  lemma AddChildCovers(xs: seq<Child>, x: Child, groups: seq<Group>)
    requires Covered(xs, groups)
    ensures Covered(xs + [x], AddChild(groups, x))
  {
    var all, added := xs + [x], AddChild(groups, x);
    forall k | 0 <= k < |all| ensures GroupIndex(added, Signature(all[k].1)) < |added| {
      var i := GroupIndex(groups, Signature(all[k].1));
      assert i < |added| && added[i].signature == Signature(all[k].1);
      var found := GroupIndex(added, Signature(all[k].1));
      assert found <= i;
    }
  }

  lemma AddChildGroups(xs: seq<Child>, x: Child, groups: seq<Group>, q: nat)
    requires AllProper(xs + [x]) && Grouped(xs, groups) && q < |AddChild(groups, x)|
    ensures IsGroup(xs + [x], AddChild(groups, x)[q])
  {
    var all, i := xs + [x], GroupIndex(groups, Signature(x.1));
    assert Proper(all[|xs|].1, {}) && all[..|xs|] == xs;
    if q < |groups| {
      var g := groups[q];
      assert IsGroup(xs, g);
      SignatureInjective(g.members[0].1, x.1);
    } else {
      forall k | 0 <= k < |xs| ensures xs[k].1 != x.1 {
        assert GroupIndex(groups, Signature(xs[k].1)) < |groups|;
      }
      CopiesNone(xs, x.1);
    }
  }

  /** The groups are exactly the classes of equal trees. */
  lemma {:induction false} GroupsAreClasses(xs: seq<Child>)
    requires AllProper(xs)
    ensures Grouped(xs, GroupsOf(xs))
  {
    if xs != [] {
      var front, x := xs[..|xs| - 1], xs[|xs| - 1];
      assert xs == front + [x];
      GroupsAreClasses(front);
      AddChildGrouped(front, x, GroupsOf(front));
    }
  }

  lemma AddChildGrouped(xs: seq<Child>, x: Child, groups: seq<Group>)
    requires AllProper(xs + [x]) && Grouped(xs, groups)
    ensures Grouped(xs + [x], AddChild(groups, x))
  {
    AddChildCovers(xs, x, groups);
    forall q | 0 <= q < |AddChild(groups, x)| ensures IsGroup(xs + [x], AddChild(groups, x)[q]) {
      AddChildGroups(xs, x, groups, q);
    }
  }

  /** Every numbered child is in exactly one group, and it is the same tree as the one printed for that group. */
  lemma ChildInOneGroup(xs: seq<Child>, k: nat)
    requires AllProper(xs) && k < |xs|
    ensures exists i :: 0 <= i < |GroupsOf(xs)| && xs[k] in GroupsOf(xs)[i].members
                        && GroupsOf(xs)[i].members[0].1 == xs[k].1
                        && forall j :: 0 <= j < |GroupsOf(xs)| && xs[k] in GroupsOf(xs)[j].members ==> j == i
  {
    GroupsAreClasses(xs);
    var groups := GroupsOf(xs);
    var i := GroupIndex(groups, Signature(xs[k].1));
    assert IsGroup(xs, groups[i]);
    SignatureInjective(groups[i].members[0].1, xs[k].1);
    CopiesHolds(xs, k);
    forall j | 0 <= j < |groups| && xs[k] in groups[j].members ensures j == i {
      assert IsGroup(xs, groups[j]);
      var q :| 0 <= q < |groups[j].members| && groups[j].members[q] == xs[k];
      CopiesSame(xs, groups[j].members[0].1, q);
    }
  }

  lemma {:induction false} CopiesHolds(xs: seq<Child>, k: nat)
    requires k < |xs|
    ensures xs[k] in Copies(xs, xs[k].1)
  {
    if k < |xs| - 1 {
      CopiesHolds(xs[..|xs| - 1], k);
    }
  }

  /** The copies stand in the order of the children. */
  lemma {:induction false} CopiesOrdered(xs: seq<Child>, m: Module, i: nat, j: nat)
    requires i < j < |Copies(xs, m)|
    ensures exists p, q :: 0 <= p < q < |xs| && xs[p] == Copies(xs, m)[i] && xs[q] == Copies(xs, m)[j]
  {
    var n := |xs| - 1;
    var before := Copies(xs[..n], m);
    if j < |before| {
      CopiesOrdered(xs[..n], m, i, j);
      var p, q :| 0 <= p < q < n && xs[..n][p] == before[i] && xs[..n][q] == before[j];
      assert xs[p] == Copies(xs, m)[i] && xs[q] == Copies(xs, m)[j];
    } else {
      var p := CopyAt(xs[..n], m, i);
      assert xs[p] == Copies(xs, m)[i] && xs[n] == Copies(xs, m)[j];
    }
  }

  lemma {:induction false} CopyAt(xs: seq<Child>, m: Module, i: nat) returns (p: nat)
    requires i < |Copies(xs, m)|
    ensures p < |xs| && xs[p] == Copies(xs, m)[i]
  {
    var n := |xs| - 1;
    if i < |Copies(xs[..n], m)| {
      p := CopyAt(xs[..n], m, i);
    } else {
      p := n;
    }
  }

  ghost predicate Filled(groups: seq<Group>) {
    forall i :: 0 <= i < |groups| ==> groups[i].members != []
  }

  lemma {:induction false} GroupsFilled(xs: seq<Child>)
    ensures Filled(GroupsOf(xs))
  {
    if xs != [] {
      GroupsFilled(xs[..|xs| - 1]);
    }
  }

  function FirstIndex(g: Group): int {
    if g.members == [] then 0 else g.members[0].0
  }

  predicate FirstNotAfter(g: Group, h: Group) {
    FirstIndex(g) <= FirstIndex(h)
  }

  lemma SortedFilled(groups: seq<Group>)
    requires Filled(groups)
    ensures var r := SortBy(groups, FirstNotAfter);
            && Filled(r)
            && forall i, j :: 0 <= i < j < |r| ==> r[i].members[0].0 <= r[j].members[0].0
  {
    var r := SortBy(groups, FirstNotAfter);
    SortSorted(groups, FirstNotAfter);
    forall i | 0 <= i < |r| ensures r[i].members != [] {
      assert r[i] in multiset(r);
      assert r[i] in groups;
    }
    forall i, j | 0 <= i < j < |r| ensures FirstIndex(r[i]) <= FirstIndex(r[j]) {
      assert FirstNotAfter(r[i], r[j]);
    }
  }

  /** The loop over the numbered children, then the groups in order of their first index. */
  method GroupChildren(xs: seq<Child>) returns (groups: seq<Group>)
    ensures groups == SortBy(GroupsOf(xs), FirstNotAfter)
    ensures multiset(groups) == multiset(GroupsOf(xs)) && Filled(groups)
    ensures forall i, j :: 0 <= i < j < |groups| ==> groups[i].members[0].0 <= groups[j].members[0].0
  {
    groups := [];
    for k := 0 to |xs|
      invariant groups == GroupsOf(xs[..k])
    {
      assert xs[..k + 1][..k] == xs[..k];
      ghost var before := groups;
      var signature := Signature(xs[k].1);
      var i := GroupIndex(groups, signature);
      if i == |groups| {
        groups := groups + [Group(signature, [])];
      }
      groups := groups[i := groups[i].(members := groups[i].members + [xs[k]])];
      assert [] + [xs[k]] == [xs[k]];
      assert groups == AddChild(before, xs[k]);
    }
    assert xs[..|xs|] == xs;
    SortSorted(groups, FirstNotAfter);
    GroupsFilled(xs);
    SortedFilled(groups);
    groups := SortBy(groups, FirstNotAfter);
  }
}
