/**
 The anchored source patcher (skive/patch_vllm.py): each edit inserts a block beside a
 unique anchor, keeps a copy of the file as it first found it, and skips a file that
 already shows the edit's first line.

 The review diffs it also writes are not part of the model.
 */
module Patcher {
  import opened Seqs
  import opened Text

  const MARKER := "SKIVE:"

  datatype Edit = Edit(path: string, anchor: string, insertion: string, before: bool)

  datatype Disk = Disk(files: map<string, string>, backups: map<string, string>)

  // ----- searching text -----

  /** Text s begins at place i of t. */
  predicate At(t: string, i: int, s: string) {
    0 <= i && i + |s| <= |t| && forall k :: 0 <= k < |s| ==> t[i + k] == s[k]
  }

  predicate Has(t: string, s: string) {
    exists i :: 0 <= i <= |t| && At(t, i, s)
  }

  /** The first place, or -1. */
  function FirstAt(t: string, s: string): (i: int)
    ensures i == -1 || At(t, i, s)
    decreases |t|
  {
    if At(t, 0, s) then 0
    else if t == [] then -1
    else
      var i := FirstAt(t[1..], s);
      if i == -1 then -1 else i + 1
  }

  /** No occurrence comes before the first place. */
  lemma {:induction false} FirstIsFirst(t: string, s: string, j: nat)
    requires j <= |t| && At(t, j, s)
    ensures 0 <= FirstAt(t, s) <= j
    decreases |t|
  {
    if !At(t, 0, s) {
      assert At(t[1..], j - 1, s);
      FirstIsFirst(t[1..], s, j - 1);
    }
  }

  /** Occurrences counted from the left without overlap. */
  function Count(t: string, s: string): nat
    decreases |t|
  {
    if s == [] then |t| + 1
    else if FirstAt(t, s) == -1 then 0
    else 1 + Count(t[FirstAt(t, s) + |s|..], s)
  }

  lemma AtShift(t: string, q: nat, j: nat, s: string)
    requires q <= |t|
    ensures At(t[q..], j, s) <==> At(t, q + j, s)
  {
    var rest := t[q..];
    if j + |s| <= |rest| {
      assert forall k :: 0 <= k < |s| ==> (rest[j + k] == s[k] <==> t[q + j + k] == s[k]);
    }
  }

  lemma NoneFrom(t: string, q: nat, s: string)
    requires q <= |t|
    ensures FirstAt(t[q..], s) == -1 <==> forall j :: q <= j <= |t| ==> !At(t, j, s)
  {
    var i := FirstAt(t[q..], s);
    if i != -1 {
      AtShift(t, q, i, s);
    } else {
      forall j | q <= j <= |t| ensures !At(t, j, s) {
        AtShift(t, q, j - q, s);
        if At(t[q..], j - q, s) {
          FirstIsFirst(t[q..], s, j - q);
        }
      }
    }
  }

  lemma CountNone(t: string, s: string)
    requires s != []
    ensures Count(t, s) == 0 <==> FirstAt(t, s) == -1
  {
  }

  /** The anchor check passes exactly when the anchor occurs and no second occurrence lies clear of the first. */
  lemma CountOneIff(t: string, s: string)
    requires s != []
    ensures Count(t, s) == 1 <==>
              FirstAt(t, s) != -1 && forall j :: FirstAt(t, s) + |s| <= j <= |t| ==> !At(t, j, s)
  {
    var i := FirstAt(t, s);
    if i != -1 {
      var q := i + |s|;
      NoneFrom(t, q, s);
      CountNone(t[q..], s);
      assert Count(t, s) == 1 + Count(t[q..], s);
    }
  }

  function Space(c: char): bool {
    c == ' ' || c == '\n' || c == '\t' || c == '\r'
  }

  function StripLeft(s: string): string {
    if s != [] && Space(s[0]) then StripLeft(s[1..]) else s
  }

  function Strip(s: string): string {
    StripRight(StripLeft(s))
  }

  function StripRight(s: string): string {
    if s != [] && Space(s[|s| - 1]) then StripRight(s[..|s| - 1]) else s
  }

  /** The first line of the insertion, which shows that the edit was made. */
  function Key(e: Edit): string {
    Split(Strip(e.insertion), '\n')[0]
  }

  lemma HasPart(t: string, i: nat, j: nat, s: string)
    requires i <= j <= |t| && Has(t[i..j], s)
    ensures Has(t, s)
  {
    var k :| 0 <= k <= |t[i..j]| && At(t[i..j], k, s);
    assert At(t, i + k, s);
  }

  lemma {:induction false} StripPart(s: string)
    ensures exists i, j :: 0 <= i <= j <= |s| && Strip(s) == s[i..j]
  {
    var i := LeftPart(s);
    var j := RightPart(StripLeft(s));
    assert Strip(s) == s[i..][..j] == s[i..i + j];
  }

  lemma {:induction false} LeftPart(s: string) returns (i: nat)
    ensures i <= |s| && StripLeft(s) == s[i..]
  {
    if s != [] && Space(s[0]) {
      i := LeftPart(s[1..]);
      i := i + 1;
    } else {
      i := 0;
    }
  }

  lemma {:induction false} RightPart(s: string) returns (j: nat)
    ensures j <= |s| && StripRight(s) == s[..j]
  {
    if s != [] && Space(s[|s| - 1]) {
      j := RightPart(s[..|s| - 1]);
    } else {
      j := |s|;
    }
  }

  /** The key is a piece of the inserted text. */
  lemma KeyInInsertion(e: Edit)
    ensures Has(e.insertion, Key(e))
  {
    var s := Strip(e.insertion);
    StripPart(e.insertion);
    var i, j :| 0 <= i <= j <= |e.insertion| && s == e.insertion[i..j];
    assert At(s, 0, Key(e));
    HasPart(e.insertion, i, j, Key(e));
  }

  // ----- one edit on one text -----

  predicate Shown(e: Edit, t: string) {
    Has(t, MARKER) && Has(t, Key(e))
  }

  /** Replace the first occurrence. */
  function ReplaceFirst(t: string, s: string, r: string): string
    requires FirstAt(t, s) != -1
  {
    t[..FirstAt(t, s)] + r + t[FirstAt(t, s) + |s|..]
  }

  function Edited(e: Edit, t: string): string
    requires FirstAt(t, e.anchor) != -1
  {
    ReplaceFirst(t, e.anchor, if e.before then e.insertion + e.anchor else e.anchor + e.insertion)
  }

  /** Where the new text goes. */
  function PointOf(e: Edit, t: string): (q: nat)
    requires FirstAt(t, e.anchor) != -1
    ensures q <= |t|
  {
    FirstAt(t, e.anchor) + (if e.before then 0 else |e.anchor|)
  }

  /** Replacing the anchor by itself with the insertion beside it only inserts. */
  lemma EditInserts(e: Edit, t: string)
    requires FirstAt(t, e.anchor) != -1
    ensures Edited(e, t) == t[..PointOf(e, t)] + e.insertion + t[PointOf(e, t)..]
  {
    if e.before {
      ReplaceBefore(t, e.anchor, e.insertion);
    } else {
      ReplaceBehind(t, e.anchor, e.insertion);
    }
  }

  lemma ReplaceBefore(t: string, a: string, ins: string)
    requires FirstAt(t, a) != -1
    ensures var i := FirstAt(t, a); ReplaceFirst(t, a, ins + a) == t[..i] + ins + t[i..]
  {
    InsertBefore(t, FirstAt(t, a), a, ins);
  }

  lemma ReplaceBehind(t: string, a: string, ins: string)
    requires FirstAt(t, a) != -1
    ensures var i := FirstAt(t, a) + |a|; ReplaceFirst(t, a, a + ins) == t[..i] + ins + t[i..]
  {
    InsertAfter(t, FirstAt(t, a), a, ins);
  }

  lemma InsertBefore(t: string, i: int, a: string, ins: string)
    requires At(t, i, a)
    ensures t[..i] + (ins + a) + t[i + |a|..] == t[..i] + ins + t[i..]
  {
    SplitAnchor(t, i, a);
    Regroup(t[..i], ins, a, t[i + |a|..]);
  }

  lemma InsertAfter(t: string, i: int, a: string, ins: string)
    requires At(t, i, a)
    ensures t[..i] + (a + ins) + t[i + |a|..] == t[..i + |a|] + ins + t[i + |a|..]
  {
    SplitAnchor(t, i, a);
    Regroup(t[..i], a, ins, t[i + |a|..]);
  }

  lemma SplitAnchor(t: string, i: int, a: string)
    requires At(t, i, a)
    ensures t[i..] == a + t[i + |a|..] && t[..i + |a|] == t[..i] + a
  {
    assert t[i..i + |a|] == a;
    assert t[i..] == t[i..i + |a|] + t[i + |a|..];
    assert t[..i + |a|] == t[..i] + t[i..i + |a|];
  }

  lemma Regroup(x: string, y: string, z: string, w: string)
    ensures x + (y + z) + w == x + y + (z + w) && x + (y + z) + w == (x + y) + z + w
  {
    ConcatAssoc(x, y, z);
    ConcatAssoc(x + y, z, w);
  }

  /** Inserting leaves a piece of text whole unless it goes into the middle of it. */
  lemma SurvivesInsert(t: string, q: nat, ins: string, s: string, i: nat)
    requires q <= |t| && At(t, i, s) && (q <= i || i + |s| <= q)
    ensures Has(t[..q] + ins + t[q..], s)
  {
    var r := t[..q] + ins + t[q..];
    if i + |s| <= q {
      assert At(r, i, s);
    } else {
      assert forall k :: 0 <= k < |s| ==> s[k] == t[i + k] == r[i + |ins| + k];
      assert At(r, i + |ins|, s);
    }
  }

  // ----- edits that cannot split each other -----

  predicate Prefixes(a: string, b: string) {
    a <= b || b <= a
  }

  predicate Suffixes(a: string, b: string) {
    var n := if |a| < |b| then |a| else |b|;
    a[|a| - n..] == b[|b| - n..]
  }

  /** The insertion point of e can never lie inside an occurrence of s. */
  ghost predicate Harmless(e: Edit, s: string) {
    forall j :: 0 < j < |s| ==> if e.before then !Prefixes(e.anchor, s[j..]) else !Suffixes(e.anchor, s[..j])
  }

  lemma NotInside(e: Edit, t: string, s: string, i: nat)
    requires FirstAt(t, e.anchor) != -1 && Harmless(e, s) && At(t, i, s)
    ensures PointOf(e, t) <= i || i + |s| <= PointOf(e, t)
  {
    var q := PointOf(e, t);
    if i < q < i + |s| {
      PointMeets(e, t, s, i, q - i);
    }
  }

  lemma PointMeets(e: Edit, t: string, s: string, i: nat, j: nat)
    requires FirstAt(t, e.anchor) != -1 && At(t, i, s) && j <= |s| && PointOf(e, t) == i + j
    ensures if e.before then Prefixes(e.anchor, s[j..]) else Suffixes(e.anchor, s[..j])
  {
    AtParts(t, i, s, j);
    if e.before {
      MeetAfter(t, i + j, e.anchor, s[j..]);
    } else {
      MeetBefore(t, i + j, e.anchor, s[..j]);
    }
  }

  lemma AtParts(t: string, i: nat, s: string, j: nat)
    requires At(t, i, s) && j <= |s|
    ensures At(t, i, s[..j]) && At(t, i + j, s[j..])
  {
    forall k | 0 <= k < |s[j..]| ensures t[i + j + k] == s[j..][k] {
      assert s[j..][k] == s[j + k];
    }
  }

  lemma MeetAfter(t: string, q: nat, a: string, b: string)
    requires At(t, q, a) && At(t, q, b)
    ensures Prefixes(a, b)
  {
    assert forall k :: 0 <= k < |a| && k < |b| ==> a[k] == t[q + k] == b[k];
  }

  lemma MeetBefore(t: string, q: nat, a: string, b: string)
    requires At(t, q - |a|, a) && At(t, q - |b|, b)
    ensures Suffixes(a, b)
  {
    var n := if |a| < |b| then |a| else |b|;
    var x, y := a[|a| - n..], b[|b| - n..];
    forall k | 0 <= k < n ensures x[k] == y[k] {
      assert a[|a| - n + k] == t[q - |a| + (|a| - n + k)];
      assert b[|b| - n + k] == t[q - |b| + (|b| - n + k)];
    }
  }

  /** Making an edit shows it, if its insertion carries the marker. */
  lemma EditShows(e: Edit, t: string)
    requires FirstAt(t, e.anchor) != -1 && Has(e.insertion, MARKER)
    ensures Shown(e, Edited(e, t))
  {
    EditInserts(e, t);
    KeyInInsertion(e);
    var q, r := PointOf(e, t), Edited(e, t);
    assert r[q..q + |e.insertion|] == e.insertion;
    HasPart(r, q, q + |e.insertion|, Key(e));
    HasPart(r, q, q + |e.insertion|, MARKER);
  }

  // ----- edits on the disk -----

  datatype Outcome = Missing | Skipped | AnchorError | Applied

  function OutcomeOf(d: Disk, e: Edit): Outcome {
    if e.path !in d.files then Missing
    else if Shown(e, d.files[e.path]) then Skipped
    else if Count(d.files[e.path], e.anchor) != 1 then AnchorError
    else Applied
  }

  lemma CountedIsFound(t: string, s: string)
    requires Count(t, s) > 0
    ensures FirstAt(t, s) != -1
  {
    if s == [] {
      assert At(t, 0, s);
    }
  }

  // ----- the skip test and the outcome, from the texts alone -----

  /** Blanks, tabs and line ends only. */
  ghost predicate Blank(s: string) {
    forall k :: 0 <= k < |s| ==> s[k] in {' ', '\t', '\n', '\r'}
  }

  /**
   The text is blanks, then the line, then the tail: a line that begins with a character that is no blank,
   and either ends in one with only blanks behind it, or is followed by a line break and more text.
   */
  ghost predicate FirstLine(s: string, pad: string, line: string, tail: string) {
    && s == pad + line + tail && Blank(pad) && line != [] && !Blank(line[..1]) && '\n' !in line
    && (|| (Blank(tail) && !Blank(line[|line| - 1..]))
        || (tail != [] && tail[0] == '\n' && !Blank(tail)))
  }

  lemma {:induction false} StripLeftIs(pad: string, s: string)
    requires Blank(pad) && s != [] && !Blank(s[..1])
    ensures StripLeft(pad + s) == s
  {
    if pad == [] {
      assert pad + s == s && s[..1][0] == s[0];
    } else {
      assert (pad + s)[0] == pad[0] && (pad + s)[1..] == pad[1..] + s;
      StripLeftIs(pad[1..], s);
    }
  }

  lemma {:induction false} StripRightIs(s: string, tail: string)
    requires Blank(tail) && s != [] && !Blank(s[|s| - 1..])
    ensures StripRight(s + tail) == s
  {
    if tail == [] {
      assert s + tail == s && s[|s| - 1..][0] == s[|s| - 1];
    } else {
      var n := |tail| - 1;
      assert (s + tail)[..|s + tail| - 1] == s + tail[..n];
      StripRightIs(s, tail[..n]);
    }
  }

  /** The part up to the last character that is no blank. */
  lemma {:induction false} LastText(s: string) returns (j: nat)
    requires !Blank(s)
    ensures 0 < j <= |s| && Blank(s[j..]) && !Blank(s[..j][j - 1..])
  {
    j := |s|;
    if Blank(s[j - 1..]) {
      var front := s[..j - 1];
      assert s == front + s[j - 1..];
      j := LastText(front);
      assert s[j..] == front[j..] + s[|s| - 1..];
      assert s[..j] == front[..j];
    } else {
      assert s[..j] == s;
    }
  }

  lemma KeyIs(e: Edit, pad: string, line: string, tail: string)
    requires FirstLine(e.insertion, pad, line, tail)
    ensures Key(e) == line
  {
    var rest := line + tail;
    assert e.insertion == pad + rest;
    assert rest[..1] == line[..1];
    StripLeftIs(pad, rest);
    if Blank(tail) {
      StripRightIs(line, tail);
    } else {
      var j := LastText(tail);
      LineThenText(line, tail, j);
      SplitFirst(line, '\n', tail[1..j]);
    }
  }

  lemma LineThenText(line: string, tail: string, j: nat)
    requires 0 < j <= |tail| && tail[0] == '\n' && Blank(tail[j..]) && !Blank(tail[..j][j - 1..])
    ensures StripRight(line + tail) == line + "\n" + tail[1..j]
  {
    var s := line + tail[..j];
    assert s[|s| - 1..] == tail[..j][j - 1..];
    assert line + tail == s + tail[j..];
    StripRightIs(s, tail[j..]);
    assert tail[..j] == "\n" + tail[1..j];
    assert s == line + "\n" + tail[1..j];
  }

  /** An edit counts as made exactly when the text has the marker and the first line of the insertion. */
  lemma ShownIff(e: Edit, t: string, pad: string, line: string, tail: string)
    requires FirstLine(e.insertion, pad, line, tail)
    ensures Shown(e, t) <==> Has(t, "SKIVE:") && Has(t, line)
  {
    KeyIs(e, pad, line, tail);
  }

  lemma OnlyLine(text: string, j: nat)
    requires 0 < j <= |text| && !Blank(text[..1]) && '\n' !in text[..j]
    requires Blank(text[j..]) && !Blank(text[..j][j - 1..])
    ensures FirstLine(text, "", text[..j], text[j..])
  {
    assert text == "" + text[..j] + text[j..];
    assert text[..j][..1] == text[..1];
  }

  lemma LineAndMore(text: string, k: nat, j: nat)
    requires 0 < k < j <= |text| && !Blank(text[..1]) && '\n' !in text[..k] && text[k] == '\n'
    requires !Blank(text[..j][j - 1..])
    ensures FirstLine(text, "", text[..k], text[k..])
  {
    assert text == "" + text[..k] + text[k..];
    assert text[..k][..1] == text[..1];
    assert text[..j][j - 1..][0] == text[k..][j - 1 - k];
  }

  /** A text that begins with a character that is no blank, cut behind its first line. */
  lemma CutLine(text: string) returns (line: string, tail: string)
    requires text != [] && !Blank(text[..1])
    ensures FirstLine(text, "", line, tail)
  {
    var j := LastText(text);
    var k := Find(text[..j], '\n');
    line, tail := text[..k], text[k..];
    assert text[..j][..k] == line;
    if k == j {
      OnlyLine(text, j);
    } else {
      NotAtStart(text, k);
      LineAndMore(text, k, j);
    }
  }

  lemma NotAtStart(text: string, k: nat)
    requires k < |text| && !Blank(text[..1]) && text[k] == '\n'
    ensures k > 0
  {
    assert text[..1][0] == text[0];
  }

  /** Every insertion with a character that is no blank has such a first line. */
  lemma FirstLineExists(s: string) returns (pad: string, line: string, tail: string)
    requires !Blank(s)
    ensures FirstLine(s, pad, line, tail)
  {
    var i := FirstText(s);
    assert s[i..][..1] == s[i..i + 1];
    line, tail := CutLine(s[i..]);
    pad := s[..i];
    assert s == pad + s[i..];
    assert pad + ("" + line + tail) == pad + line + tail;
  }

  lemma {:induction false} FirstText(s: string) returns (i: nat)
    requires !Blank(s)
    ensures i < |s| && Blank(s[..i]) && !Blank(s[i..i + 1])
  {
    if Blank(s[..1]) {
      assert s == s[..1] + s[1..];
      i := FirstText(s[1..]);
      assert s[..i + 1] == s[..1] + s[1..][..i];
      assert s[i + 1..i + 2] == s[1..][i..i + 1];
      i := i + 1;
    } else {
      i := 0;
    }
  }

  /** The anchor stands at place i, not before it, and not again behind its end. */
  ghost predicate OnceAt(t: string, i: nat, a: string) {
    && At(t, i, a) && (forall j :: 0 <= j < i ==> !At(t, j, a))
    && forall j :: i + |a| <= j <= |t| ==> !At(t, j, a)
  }

  /**
   An edit whose first line or marker is missing is made on every text that has the anchor once: the
   insertion goes right before the anchor or right behind it.
   */
  lemma AppliedOnce(d: Disk, e: Edit, backup: bool, pad: string, line: string, tail: string, i: nat)
    requires e.path in d.files && FirstLine(e.insertion, pad, line, tail) && e.anchor != []
    requires !(Has(d.files[e.path], "SKIVE:") && Has(d.files[e.path], line)) && OnceAt(d.files[e.path], i, e.anchor)
    ensures OutcomeOf(d, e) == Applied && i + |e.anchor| <= |d.files[e.path]|
    ensures var t, after := d.files[e.path], Apply(d, e, backup).files;
            e.path in after && after[e.path]
            == if e.before then t[..i] + e.insertion + t[i..]
               else t[..i + |e.anchor|] + e.insertion + t[i + |e.anchor|..]
  {
    var t := d.files[e.path];
    ShownIff(e, t, pad, line, tail);
    CountedOnce(t, e.anchor, i);
    EditInserts(e, t);
  }

  lemma CountedOnce(t: string, a: string, i: nat)
    requires OnceAt(t, i, a) && a != []
    ensures FirstAt(t, a) == i && Count(t, a) == 1
  {
    FirstIsFirst(t, a, i);
    assert At(t, FirstAt(t, a), a);
    CountOneIff(t, a);
  }

  /** The other outcomes: no file, an edit that shows, or an anchor that is not there or occurs again behind itself. */
  lemma OtherOutcomes(d: Disk, e: Edit, pad: string, line: string, tail: string)
    requires FirstLine(e.insertion, pad, line, tail) && e.anchor != []
    ensures OutcomeOf(d, e) == Missing <==> e.path !in d.files
    ensures OutcomeOf(d, e) == Skipped <==>
              e.path in d.files && Has(d.files[e.path], "SKIVE:") && Has(d.files[e.path], line)
    ensures OutcomeOf(d, e) == AnchorError <==>
              && e.path in d.files && !(Has(d.files[e.path], "SKIVE:") && Has(d.files[e.path], line))
              && !exists i: nat :: OnceAt(d.files[e.path], i, e.anchor)
  {
    if e.path in d.files {
      ShownIff(e, d.files[e.path], pad, line, tail);
      CountsIff(d.files[e.path], e.anchor);
    }
  }

  lemma CountsIff(t: string, a: string)
    requires a != []
    ensures Count(t, a) == 1 <==> exists i: nat :: OnceAt(t, i, a)
  {
    CountOneIff(t, a);
    if Count(t, a) == 1 {
      forall j: nat | j < FirstAt(t, a) ensures !At(t, j, a) {
        NotBeforeFirst(t, a, j);
      }
      assert OnceAt(t, FirstAt(t, a), a);
    } else {
      forall i: nat ensures !OnceAt(t, i, a) {
        NotOnce(t, a, i);
      }
    }
  }

  lemma NotBeforeFirst(t: string, a: string, j: nat)
    requires 0 <= j < FirstAt(t, a)
    ensures !At(t, j, a)
  {
    if At(t, j, a) {
      FirstIsFirst(t, a, j);
    }
  }

  lemma NotOnce(t: string, a: string, i: nat)
    requires a != [] && Count(t, a) != 1
    ensures !OnceAt(t, i, a)
  {
    if OnceAt(t, i, a) {
      CountedOnce(t, a, i);
    }
  }

  function Saved(d: Disk, path: string, backup: bool): map<string, string>
    requires path in d.files
  {
    if backup && path !in d.backups then d.backups[path := d.files[path]] else d.backups
  }

  function Apply(d: Disk, e: Edit, backup: bool): Disk {
    if OutcomeOf(d, e) != Applied then d
    else
      CountedIsFound(d.files[e.path], e.anchor);
      Disk(d.files[e.path := Edited(e, d.files[e.path])], Saved(d, e.path, backup))
  }

  /** Restore one file from its backup, if there is one. */
  function RestoreOne(d: Disk, path: string): Disk {
    if path in d.backups then d.(files := d.files[path := d.backups[path]]) else d
  }

  function Restore(d: Disk, paths: seq<string>): Disk {
    if paths == [] then d else RestoreOne(Restore(d, paths[..|paths| - 1]), paths[|paths| - 1])
  }

  // ----- backups over any run -----

  datatype Command = EditCommand(edit: Edit) | RevertCommand(paths: seq<string>)

  function Execute(d: Disk, c: Command): Disk {
    match c
    case EditCommand(e) => Apply(d, e, true)
    case RevertCommand(paths) => Restore(d, paths)
  }

  function ExecuteAll(d: Disk, cs: seq<Command>): Disk {
    if cs == [] then d else Execute(ExecuteAll(d, cs[..|cs| - 1]), cs[|cs| - 1])
  }

  /** Every backup is the original file, and a file without one is untouched. */
  ghost predicate Faithful(d: Disk, original: map<string, string>) {
    && d.files.Keys == original.Keys
    && (forall p :: p in d.backups ==> p in original && d.backups[p] == original[p])
    && (forall p :: p in d.files && p !in d.backups ==> d.files[p] == original[p])
  }

  lemma {:induction false} RestoreFaithful(d: Disk, paths: seq<string>, original: map<string, string>)
    requires Faithful(d, original)
    ensures Faithful(Restore(d, paths), original) && Restore(d, paths).backups == d.backups
    ensures forall p :: p in paths && p in original ==> Restore(d, paths).files[p] == original[p]
    ensures forall p :: p in original && p !in paths ==> Restore(d, paths).files[p] == d.files[p]
  {
    if paths != [] {
      var front := paths[..|paths| - 1];
      RestoreFaithful(d, front, original);
      assert paths == front + [paths[|paths| - 1]];
    }
  }

  /** With backups on, any run of edits and reverts keeps every backup equal to the original file. */
  lemma {:induction false} RunFaithful(original: map<string, string>, cs: seq<Command>)
    ensures Faithful(ExecuteAll(Disk(original, map[]), cs), original)
  {
    if cs != [] {
      var front := cs[..|cs| - 1];
      RunFaithful(original, front);
      match cs[|cs| - 1]
      case EditCommand(e) =>
      case RevertCommand(paths) => RestoreFaithful(ExecuteAll(Disk(original, map[]), front), paths, original);
    }
  }

  /** So a revert over all files restores exactly what was there at the start. */
  lemma RevertRestores(original: map<string, string>, cs: seq<Command>, paths: seq<string>)
    requires forall p :: p in original ==> p in paths
    ensures Restore(ExecuteAll(Disk(original, map[]), cs), paths).files == original
  {
    RunFaithful(original, cs);
    RestoreFaithful(ExecuteAll(Disk(original, map[]), cs), paths, original);
  }

  /** Without a backup, a first edit that inserts something cannot be reverted. */
  lemma UnsavedEditStays(original: map<string, string>, e: Edit, paths: seq<string>)
    requires OutcomeOf(Disk(original, map[]), e) == Applied && e.insertion != []
    ensures Restore(Apply(Disk(original, map[]), e, false), paths).files != original
  {
    var d := Disk(original, map[]);
    CountedIsFound(original[e.path], e.anchor);
    EditInserts(e, original[e.path]);
    NothingToRestore(Apply(d, e, false), paths);
    assert |Edited(e, original[e.path])| == |original[e.path]| + |e.insertion|;
    assert Apply(d, e, false).files[e.path] == Edited(e, original[e.path]);
  }

  lemma {:induction false} NothingToRestore(d: Disk, paths: seq<string>)
    requires d.backups == map[]
    ensures Restore(d, paths) == d
  {
    if paths != [] {
      NothingToRestore(d, paths[..|paths| - 1]);
    }
  }

  // ----- a whole pass, and doing it again -----

  /** The edits in order; the pass stops at the first one that fails. */
  function Pass(d: Disk, es: seq<Edit>, backup: bool): (bool, Disk) {
    if es == [] then (true, d)
    else
      var before := Pass(d, es[..|es| - 1], backup);
      var e := es[|es| - 1];
      if !before.0 || OutcomeOf(before.1, e).Missing? || OutcomeOf(before.1, e).AnchorError? then (false, before.1)
      else (true, Apply(before.1, e, backup))
  }

  ghost predicate AllShown(d: Disk, es: seq<Edit>) {
    forall k :: 0 <= k < |es| ==> es[k].path in d.files && Shown(es[k], d.files[es[k].path])
  }

  lemma {:induction false} ShownPassIdle(d: Disk, es: seq<Edit>, backup: bool)
    requires AllShown(d, es)
    ensures Pass(d, es, backup) == (true, d)
  {
    if es != [] {
      ShownPassIdle(d, es[..|es| - 1], backup);
    }
  }

  ghost predicate Inserting(es: seq<Edit>) {
    forall k :: 0 <= k < |es| ==> es[k].insertion != []
  }

  /** Every file is as it was or longer. */
  ghost predicate Grown(d: Disk, d': Disk) {
    && d.files.Keys == d'.files.Keys
    && (forall p :: p in d.files ==> d.files[p] == d'.files[p] || |d.files[p]| < |d'.files[p]|)
  }

  lemma ApplyGrows(d: Disk, e: Edit, backup: bool)
    ensures Grown(d, Apply(d, e, backup))
    ensures OutcomeOf(d, e).Applied? && e.insertion != [] ==> |d.files[e.path]| < |Apply(d, e, backup).files[e.path]|
  {
    if OutcomeOf(d, e).Applied? {
      CountedIsFound(d.files[e.path], e.anchor);
      EditGrows(e, d.files[e.path]);
    }
  }

  lemma EditGrows(e: Edit, t: string)
    requires FirstAt(t, e.anchor) != -1
    ensures if e.insertion == [] then Edited(e, t) == t else |t| < |Edited(e, t)|
  {
    EditInserts(e, t);
    InsertLength(t, PointOf(e, t), e.insertion);
  }

  lemma InsertLength(t: string, q: nat, ins: string)
    requires q <= |t|
    ensures |t[..q] + ins + t[q..]| == |t| + |ins|
    ensures ins == [] ==> t[..q] + ins + t[q..] == t
  {
  }

  lemma {:induction false} PassGrows(d: Disk, es: seq<Edit>, backup: bool)
    ensures Grown(d, Pass(d, es, backup).1)
  {
    if es != [] {
      var front := es[..|es| - 1];
      PassGrows(d, front, backup);
      ApplyGrows(Pass(d, front, backup).1, es[|es| - 1], backup);
    }
  }

  /** A pass completes and changes no file exactly when every edit already shows. */
  lemma {:induction false} PassIdleIff(d: Disk, es: seq<Edit>, backup: bool)
    requires Inserting(es)
    ensures Pass(d, es, backup).0 && Pass(d, es, backup).1.files == d.files <==> AllShown(d, es)
  {
    if AllShown(d, es) {
      ShownPassIdle(d, es, backup);
    } else if Pass(d, es, backup).0 && es != [] {
      var front, e := es[..|es| - 1], es[|es| - 1];
      assert es == front + [e];
      var before := Pass(d, front, backup).1;
      PassIdleIff(d, front, backup);
      PassGrows(d, front, backup);
      ApplyGrows(before, e, backup);
      if before.files == d.files {
        assert AllShown(d, front);
      } else {
        PassChanged(d, before, Apply(before, e, backup));
      }
    }
  }

  /** Files that only grow and have changed do not come back. */
  lemma PassChanged(d: Disk, before: Disk, after: Disk)
    requires Grown(d, before) && Grown(before, after) && before.files != d.files
    ensures after.files != d.files
  {
    var p :| p in d.files && before.files[p] != d.files[p];
    assert |d.files[p]| < |after.files[p]|;
  }

  /** What the pass reports: some edit was made. */
  predicate AnyApplied(d: Disk, es: seq<Edit>, backup: bool) {
    es != [] && (AnyApplied(d, es[..|es| - 1], backup)
                 || OutcomeOf(Pass(d, es[..|es| - 1], backup).1, es[|es| - 1]).Applied?)
  }

  lemma {:induction false} NoneApplied(d: Disk, es: seq<Edit>, backup: bool)
    requires !AnyApplied(d, es, backup)
    ensures Pass(d, es, backup).1 == d
  {
    if es != [] {
      NoneApplied(d, es[..|es| - 1], backup);
    }
  }

  lemma {:induction false} ShownNoneApplied(d: Disk, es: seq<Edit>, backup: bool)
    requires AllShown(d, es)
    ensures !AnyApplied(d, es, backup)
  {
    if es != [] {
      ShownNoneApplied(d, es[..|es| - 1], backup);
      ShownPassIdle(d, es[..|es| - 1], backup);
    }
  }

  /** A completed pass reports no change exactly when every edit already showed. */
  lemma ReportIff(d: Disk, es: seq<Edit>, backup: bool)
    requires Inserting(es) && Pass(d, es, backup).0
    ensures AnyApplied(d, es, backup) <==> !AllShown(d, es)
  {
    PassIdleIff(d, es, backup);
    if AllShown(d, es) {
      ShownNoneApplied(d, es, backup);
    } else if !AnyApplied(d, es, backup) {
      NoneApplied(d, es, backup);
    }
  }

  // ----- when repeating a pass changes nothing -----

  /** Some occurrence of s is not cut in two by the insertion of e. */
  ghost predicate Unsplit(e: Edit, t: string, s: string)
    requires FirstAt(t, e.anchor) != -1
  {
    exists i :: 0 <= i <= |t| && At(t, i, s) && (PointOf(e, t) <= i || i + |s| <= PointOf(e, t))
  }

  /** Where e is made, the marker and the first lines of the earlier edits of that file are not cut in two. */
  ghost predicate EditSpares(d: Disk, es: seq<Edit>, e: Edit) {
    OutcomeOf(d, e).Applied? ==>
      && FirstAt(d.files[e.path], e.anchor) != -1
      && forall k :: 0 <= k < |es| && es[k].path == e.path ==>
                       Unsplit(e, d.files[e.path], Key(es[k])) && Unsplit(e, d.files[e.path], MARKER)
  }

  /** No edit of the pass cuts an earlier one's first line or the marker in two. */
  ghost predicate PassSpares(d: Disk, es: seq<Edit>, backup: bool) {
    es == [] ||
    (PassSpares(d, es[..|es| - 1], backup)
     && EditSpares(Pass(d, es[..|es| - 1], backup).1, es[..|es| - 1], es[|es| - 1]))
  }

  ghost predicate Marked(es: seq<Edit>) {
    forall k :: 0 <= k < |es| ==> Has(es[k].insertion, MARKER)
  }

  /** A piece of text that is not cut in two is still there. */
  lemma UnsplitKept(e: Edit, t: string, s: string)
    requires FirstAt(t, e.anchor) != -1 && Unsplit(e, t, s)
    ensures Has(Edited(e, t), s)
  {
    var i :| 0 <= i <= |t| && At(t, i, s) && (PointOf(e, t) <= i || i + |s| <= PointOf(e, t));
    EditInserts(e, t);
    SurvivesInsert(t, PointOf(e, t), e.insertion, s, i);
  }

  lemma ShownNext(d: Disk, es: seq<Edit>, e: Edit, backup: bool)
    requires AllShown(d, es) && Has(e.insertion, MARKER) && EditSpares(d, es, e)
    requires OutcomeOf(d, e).Skipped? || OutcomeOf(d, e).Applied?
    ensures AllShown(Apply(d, e, backup), es + [e])
  {
    var d' := Apply(d, e, backup);
    if OutcomeOf(d, e).Applied? {
      var t := d.files[e.path];
      CountedIsFound(t, e.anchor);
      EditShows(e, t);
      forall k | 0 <= k < |es| ensures es[k].path in d'.files && Shown(es[k], d'.files[es[k].path]) {
        if es[k].path == e.path {
          UnsplitKept(e, t, Key(es[k]));
          UnsplitKept(e, t, MARKER);
        }
      }
    }
  }

  lemma {:induction false} PassShows(d: Disk, es: seq<Edit>, backup: bool)
    requires Marked(es) && PassSpares(d, es, backup) && Pass(d, es, backup).0
    ensures AllShown(Pass(d, es, backup).1, es)
  {
    if es != [] {
      var front, e := es[..|es| - 1], es[|es| - 1];
      assert es == front + [e];
      assert forall k :: 0 <= k < |front| ==> front[k] == es[k];
      PassShows(d, front, backup);
      ShownNext(Pass(d, front, backup).1, front, e, backup);
    }
  }

  /** Doing a completed pass again skips every edit and leaves the disk as it is. */
  lemma RepeatedPassIdle(d: Disk, es: seq<Edit>, backup: bool)
    requires Marked(es) && PassSpares(d, es, backup) && Pass(d, es, backup).0
    ensures Pass(Pass(d, es, backup).1, es, backup) == (true, Pass(d, es, backup).1)
  {
    PassShows(d, es, backup);
    ShownPassIdle(Pass(d, es, backup).1, es, backup);
  }

  /** Read off the edits alone: no anchor can overlap the marker or an earlier first line. */
  ghost predicate NoSplits(es: seq<Edit>) {
    forall i, j :: 0 <= i < j < |es| && es[i].path == es[j].path ==>
                     Harmless(es[j], Key(es[i])) && Harmless(es[j], MARKER)
  }

  lemma HarmlessUnsplit(e: Edit, t: string, s: string)
    requires FirstAt(t, e.anchor) != -1 && Harmless(e, s) && Has(t, s)
    ensures Unsplit(e, t, s)
  {
    var i :| 0 <= i <= |t| && At(t, i, s);
    NotInside(e, t, s, i);
  }

  /** A harmless edit keeps a piece of text that was there. */
  lemma HarmlessKeeps(e: Edit, t: string, s: string)
    requires FirstAt(t, e.anchor) != -1 && Harmless(e, s) && Has(t, s)
    ensures Has(Edited(e, t), s)
  {
    HarmlessUnsplit(e, t, s);
    UnsplitKept(e, t, s);
  }

  /** On any disk such edits cut nothing in two. */
  lemma {:induction false} NoSplitsSpares(d: Disk, es: seq<Edit>, backup: bool)
    requires Marked(es) && NoSplits(es) && Pass(d, es, backup).0
    ensures PassSpares(d, es, backup)
  {
    if es != [] {
      var front, e := es[..|es| - 1], es[|es| - 1];
      assert forall k :: 0 <= k < |front| ==> front[k] == es[k];
      NoSplitsSpares(d, front, backup);
      PassShows(d, front, backup);
      var now := Pass(d, front, backup).1;
      if OutcomeOf(now, e).Applied? {
        var t := now.files[e.path];
        CountedIsFound(t, e.anchor);
        forall k | 0 <= k < |front| && front[k].path == e.path
          ensures Unsplit(e, t, Key(front[k])) && Unsplit(e, t, MARKER)
        {
          HarmlessUnsplit(e, t, Key(front[k]));
          HarmlessUnsplit(e, t, MARKER);
        }
      }
    }
  }

  // ----- the patcher -----

  class Tree {
    var files: map<string, string>
    var backups: map<string, string>

    function Data(): Disk
      reads this
    {
      Disk(files, backups)
    }

    /** Save the file as it is, unless a copy was saved before. */
    method Backup(path: string, backup: bool)
      requires path in files
      modifies `backups
      ensures backups == Saved(old(Data()), path, backup)
    {
      if !backup {
        return;
      }
      if path !in backups {
        backups := backups[path := files[path]];
      }
    }

    method ApplyEdit(e: Edit, backup: bool) returns (outcome: Outcome)
      modifies this
      ensures outcome == OutcomeOf(old(Data()), e) && Data() == Apply(old(Data()), e, backup)
    {
      if e.path !in files {
        return Missing;
      }
      var text := files[e.path];
      if Shown(e, text) {
        return Skipped;
      }
      if Count(text, e.anchor) != 1 {
        return AnchorError;
      }
      Backup(e.path, backup);
      CountedIsFound(text, e.anchor);
      var replacement := if e.before then e.insertion + e.anchor else e.anchor + e.insertion;
      files := files[e.path := ReplaceFirst(text, e.anchor, replacement)];
      return Applied;
    }

    method Revert(paths: seq<string>)
      modifies `files
      ensures Data() == Restore(old(Data()), paths)
    {
      for k := 0 to |paths|
        invariant Data() == Restore(old(Data()), paths[..k])
      {
        assert paths[..k + 1][..k] == paths[..k];
        if paths[k] in backups {
          files := files[paths[k] := backups[paths[k]]];
        }
      }
      assert paths[..|paths|] == paths;
    }

    /** The edits in order; a missing file or a failed anchor check ends the pass. */
    method RunPass(es: seq<Edit>, backup: bool) returns (completed: bool, changed: bool)
      modifies this
      ensures (completed, Data()) == Pass(old(Data()), es, backup)
      ensures completed ==> changed == AnyApplied(old(Data()), es, backup)
    {
      changed := false;
      for k := 0 to |es|
        invariant Pass(old(Data()), es[..k], backup) == (true, Data())
        invariant changed == AnyApplied(old(Data()), es[..k], backup)
      {
        assert es[..k + 1][..k] == es[..k];
        var outcome := ApplyEdit(es[k], backup);
        if outcome.Missing? || outcome.AnchorError? {
          StoppedPass(old(Data()), es, k, backup);
          return false, changed;
        }
        changed := changed || outcome.Applied?;
      }
      assert es[..|es|] == es;
      return true, changed;
    }
  }

  lemma {:induction false} StoppedPass(d: Disk, es: seq<Edit>, k: nat, backup: bool)
    requires k < |es| && Pass(d, es[..k], backup).0
    requires var outcome := OutcomeOf(Pass(d, es[..k], backup).1, es[k]); outcome.Missing? || outcome.AnchorError?
    ensures Pass(d, es, backup) == (false, Pass(d, es[..k], backup).1)
    decreases |es|
  {
    var front := es[..|es| - 1];
    if k < |es| - 1 {
      assert front[..k] == es[..k];
      StoppedPass(d, front, k, backup);
    } else {
      assert es[..k] == front;
    }
  }
}
