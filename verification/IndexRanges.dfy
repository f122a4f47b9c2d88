/** Printing a list of layer indices as ranges (vllm/model_inspection.py). */
module IndexRanges {
  import opened Seqs
  import opened Sorting
  import opened Text
  import opened Wrappers

  datatype Range = Range(first: int, last: int)

  predicate NotAfter(i: int, j: int) {
    i <= j
  }

  function Sorted(indices: seq<int>): (r: seq<int>)
    ensures |r| == |indices|
  {
    SortBy(indices, NotAfter)
  }

  /** Extend the last range by one index, or begin a new one. */
  function Extend(ranges: seq<Range>, i: int): seq<Range> {
    if ranges != [] && i == ranges[|ranges| - 1].last + 1
    then ranges[|ranges| - 1 := ranges[|ranges| - 1].(last := i)]
    else ranges + [Range(i, i)]
  }

  function RangesOf(s: seq<int>): seq<Range> {
    if s == [] then [] else Extend(RangesOf(s[..|s| - 1]), s[|s| - 1])
  }

  function Span(first: int, last: int): seq<int>
    decreases last - first
  {
    if first > last then [] else if first == last then [last] else Span(first, last - 1) + [last]
  }

  function Expand(ranges: seq<Range>): seq<int> {
    if ranges == [] then []
    else Expand(ranges[..|ranges| - 1]) + Span(ranges[|ranges| - 1].first, ranges[|ranges| - 1].last)
  }

  ghost predicate Ordered(ranges: seq<Range>) {
    forall k :: 0 <= k < |ranges| ==> ranges[k].first <= ranges[k].last
  }

  lemma SpanSnoc(first: int, last: int)
    requires first <= last
    ensures Span(first, last + 1) == Span(first, last) + [last + 1]
  {
  }

  /** Taking in one more index adds just that index. */
  lemma ExpandExtend(ranges: seq<Range>, i: int)
    requires Ordered(ranges)
    ensures var r := Extend(ranges, i);
            Ordered(r) && r != [] && r[|r| - 1].last == i && Expand(r) == Expand(ranges) + [i]
  {
    var r, n := Extend(ranges, i), |ranges|;
    if n > 0 && i == ranges[n - 1].last + 1 {
      assert r[..n - 1] == ranges[..n - 1];
      SpanSnoc(ranges[n - 1].first, ranges[n - 1].last);
      ConcatAssoc(Expand(ranges[..n - 1]), Span(ranges[n - 1].first, ranges[n - 1].last), [i]);
    } else {
      assert r[..n] == ranges;
    }
  }

  /** Expanding the ranges gives back the list they were made from. */
  lemma {:induction false} ExpandRanges(s: seq<int>)
    ensures Ordered(RangesOf(s)) && Expand(RangesOf(s)) == s
    ensures s != [] ==> RangesOf(s) != [] && RangesOf(s)[|RangesOf(s)| - 1].last == s[|s| - 1]
  {
    if s != [] {
      var front, i := s[..|s| - 1], s[|s| - 1];
      ExpandRanges(front);
      ExpandExtend(RangesOf(front), i);
      assert s == front + [i];
    }
  }

  ghost predicate Rising(s: seq<int>) {
    forall i, j :: 0 <= i < j < |s| ==> s[i] < s[j]
  }

  /** No two neighbouring ranges could be merged. */
  ghost predicate Maximal(ranges: seq<Range>) {
    forall k :: 0 <= k < |ranges| - 1 ==> ranges[k].last + 1 < ranges[k + 1].first
  }

  /** For distinct indices the ranges are maximal. */
  lemma {:induction false} RangesMaximal(s: seq<int>)
    requires Rising(s)
    ensures Maximal(RangesOf(s))
  {
    if s != [] {
      RangesMaximal(s[..|s| - 1]);
      ExpandRanges(s[..|s| - 1]);
      ExpandRanges(s);
    }
  }

  // ----- as text -----

  function IntText(i: int): (r: string)
    ensures r != []
  {
    if i < 0 then "-" + Str(-i) else Str(i)
  }

  function ReadInt(text: string): int {
    if text != [] && text[0] == '-' then -Number(text[1..]) else Number(text)
  }

  lemma IntRoundTrip(i: int)
    ensures ReadInt(IntText(i)) == i
    ensures '-' !in IntText(i)[1..] && ',' !in IntText(i) && ' ' !in IntText(i)
  {
    var n: nat := if i < 0 then -i else i;
    NumberOfStr(n);
    if i < 0 {
      assert ("-" + Str(n))[1..] == Str(n);
    } else {
      assert Str(i)[0] != '-';
    }
  }

  function RangeText(r: Range): string {
    if r.first == r.last then IntText(r.first) else IntText(r.first) + "-" + IntText(r.last)
  }

  function Texts(ranges: seq<Range>): (r: seq<string>)
    ensures |r| == |ranges| && forall k :: 0 <= k < |r| ==> r[k] == RangeText(ranges[k])
  {
    seq(|ranges|, k requires 0 <= k < |ranges| => RangeText(ranges[k]))
  }

  /** A dash behind the first character separates the ends; one in front is a sign. */
  function ParseRange(text: string): Range {
    if text == [] then Range(0, 0)
    else
      var cut := 1 + Find(text[1..], '-');
      if cut == |text| then Range(ReadInt(text), ReadInt(text))
      else Range(ReadInt(text[..cut]), ReadInt(text[cut + 1..]))
  }

  lemma ParsePair(a: string, b: string)
    requires a != [] && '-' !in a[1..]
    ensures ParseRange(a + "-" + b) == Range(ReadInt(a), ReadInt(b))
  {
    var text := a + "-" + b;
    assert text[1..] == a[1..] + ['-'] + b;
    FindAfter(a[1..], '-', b);
    assert text[..|a|] == a && text[|a| + 1..] == b;
  }

  lemma ParseSingle(a: string)
    requires a != [] && '-' !in a[1..]
    ensures ParseRange(a) == Range(ReadInt(a), ReadInt(a))
  {
  }

  lemma RangeRoundTrip(r: Range)
    ensures ParseRange(RangeText(r)) == r
    ensures RangeText(r) != [] && ',' !in RangeText(r) && ' ' !in RangeText(r)
  {
    IntRoundTrip(r.first);
    IntRoundTrip(r.last);
    if r.first == r.last {
      ParseSingle(IntText(r.first));
    } else {
      ParsePair(IntText(r.first), IntText(r.last));
    }
  }

  /** Read printed ranges: pieces between commas, without the blank after each comma. */
  function Parse(text: string): seq<Range> {
    var pieces := Split(text, ',');
    seq(|pieces|, k requires 0 <= k < |pieces| => ParseRange(Unpadded(pieces[k])))
  }

  function Unpadded(piece: string): string {
    if piece != [] && piece[0] == ' ' then piece[1..] else piece
  }

  function Padded(parts: seq<string>): (r: seq<string>)
    ensures |r| == |parts|
  {
    seq(|parts|, k requires 0 <= k < |parts| => if k == 0 then parts[k] else " " + parts[k])
  }

  lemma {:induction false} JoinPadded(parts: seq<string>, lead: string)
    requires parts != []
    ensures Join([lead + parts[0]] + Padded(parts)[1..], ",") == lead + Join(parts, ", ")
    decreases |parts|
  {
    var padded := [lead + parts[0]] + Padded(parts)[1..];
    if |parts| > 1 {
      JoinPadded(parts[1..], " ");
      assert padded[1..] == [" " + parts[1]] + Padded(parts[1..])[1..];
      var rest := Join(parts[1..], ", ");
      assert lead + parts[0] + "," + (" " + rest) == lead + (parts[0] + ", " + rest);
    }
  }

  lemma PaddedJoins(parts: seq<string>)
    requires parts != []
    ensures Join(Padded(parts), ",") == Join(parts, ", ")
  {
    JoinPadded(parts, "");
    assert "" + Join(parts, ", ") == Join(parts, ", ");
    assert "" + parts[0] == parts[0];
    assert [parts[0]] + Padded(parts)[1..] == Padded(parts);
    assert ["" + parts[0]] + Padded(parts)[1..] == Padded(parts);
  }

  lemma SplitPadded(parts: seq<string>)
    requires parts != [] && forall k :: 0 <= k < |parts| ==> ',' !in parts[k]
    ensures Split(Join(parts, ", "), ',') == Padded(parts)
  {
    PaddedJoins(parts);
    SplitJoin(Padded(parts), ',');
  }

  /** Reading the printed ranges gives the ranges back. */
  lemma ParseText(ranges: seq<Range>)
    requires ranges != []
    ensures Parse(Join(Texts(ranges), ", ")) == ranges
  {
    var parts := Texts(ranges);
    forall k | 0 <= k < |parts| ensures ',' !in parts[k] {
      RangeRoundTrip(ranges[k]);
    }
    SplitPadded(parts);
    var parsed := Parse(Join(parts, ", "));
    forall k | 0 <= k < |parts| ensures parsed[k] == ranges[k] {
      RangeRoundTrip(ranges[k]);
      PieceRoundTrip(parts, k);
    }
  }

  lemma PieceRoundTrip(parts: seq<string>, k: nat)
    requires k < |parts| && parts[k] != [] && ' ' !in parts[k]
    ensures Unpadded(Padded(parts)[k]) == parts[k]
  {
    if k == 0 {
      assert parts[0][0] in parts[0];
    } else {
      assert (" " + parts[k])[1..] == parts[k];
    }
  }

  // ----- the printer -----

  /** Fails on an empty list, like taking its first element. */
  method FormatIndexRanges(indices: seq<int>) returns (r: Option<string>)
    ensures r == if indices == [] then None else Some(Join(Texts(RangesOf(Sorted(indices))), ", "))
  {
    var s := Sorted(indices);
    if s == [] {
      return None;
    }
    var ranges: seq<string> := [];
    var first, last := s[0], s[0];
    ghost var closed: seq<Range> := [];
    for k := 1 to |s|
      invariant RangesOf(s[..k]) == closed + [Range(first, last)]
      invariant ranges == Texts(closed)
    {
      assert s[..k + 1][..k] == s[..k];
      if s[k] == last + 1 {
        last := s[k];
      } else {
        closed := closed + [Range(first, last)];
        ranges := ranges + [if first == last then IntText(first) else IntText(first) + "-" + IntText(last)];
        first, last := s[k], s[k];
      }
    }
    assert s[..|s|] == s;
    ranges := ranges + [if first == last then IntText(first) else IntText(first) + "-" + IntText(last)];
    assert ranges == Texts(closed + [Range(first, last)]);
    return Some(Join(ranges, ", "));
  }

  /** Parsing the printed text and expanding the ranges gives back the indices in rising order. */
  lemma PrintedRangesRoundTrip(indices: seq<int>)
    requires indices != []
    ensures Expand(Parse(Join(Texts(RangesOf(Sorted(indices))), ", "))) == Sorted(indices)
    ensures multiset(Sorted(indices)) == multiset(indices)
    ensures forall i, j :: 0 <= i < j < |indices| ==> Sorted(indices)[i] <= Sorted(indices)[j]
  {
    SortSorted(indices, NotAfter);
    forall i, j | 0 <= i < j < |indices| ensures Sorted(indices)[i] <= Sorted(indices)[j] {
      assert NotAfter(Sorted(indices)[i], Sorted(indices)[j]);
    }
    ExpandRanges(Sorted(indices));
    ParseText(RangesOf(Sorted(indices)));
  }

  ghost predicate Distinct(s: seq<int>) {
    forall i, j :: 0 <= i < j < |s| ==> s[i] != s[j]
  }

  lemma {:induction false} DistinctOnce(s: seq<int>, x: int)
    requires Distinct(s)
    ensures multiset(s)[x] <= 1
  {
    if s != [] {
      var n := |s| - 1;
      DistinctOnce(s[..n], x);
      assert s == s[..n] + [s[n]];
      assert s[n] !in s[..n];
    }
  }

  lemma OnceDiffers(s: seq<int>, i: nat, j: nat)
    requires i < j < |s| && multiset(s)[s[i]] <= 1
    ensures s[i] != s[j]
  {
    assert s == s[..j] + s[j..];
    assert s[i] in s[..j] && s[j] in s[j..];
  }

  /** Sorting distinct indices gives a strictly rising list, so their ranges are maximal. */
  lemma PrintedRangesMaximal(indices: seq<int>)
    requires Distinct(indices)
    ensures Rising(Sorted(indices)) && Maximal(RangesOf(Sorted(indices)))
  {
    var s := Sorted(indices);
    SortSorted(indices, NotAfter);
    forall i, j | 0 <= i < j < |s| ensures s[i] < s[j] {
      DistinctOnce(indices, s[i]);
      OnceDiffers(s, i, j);
      assert NotAfter(s[i], s[j]);
    }
    RangesMaximal(s);
  }

  /** A range of one index is printed as that index alone. */
  lemma SingleHasNoDash(r: Range)
    requires r.first <= r.last
    ensures r.first == r.last <==> '-' !in RangeText(r)[1..]
  {
    IntRoundTrip(r.first);
    if r.first < r.last {
      assert RangeText(r)[|IntText(r.first)|] == '-';
      assert RangeText(r)[1..][|IntText(r.first)| - 1] == '-';
    }
  }

  lemma RangesSnoc(s: seq<int>, i: int)
    ensures RangesOf(s + [i]) == Extend(RangesOf(s), i)
  {
    assert (s + [i])[..|s|] == s;
  }

  lemma ThreeInARow(s: seq<int>, i: int)
    requires RangesOf(s) == [] || RangesOf(s)[|RangesOf(s)| - 1].last + 1 < i
    ensures RangesOf(s + [i, i + 1, i + 2]) == RangesOf(s) + [Range(i, i + 2)]
  {
    RangesSnoc(s, i);
    RangesSnoc(s + [i], i + 1);
    RangesSnoc(s + [i] + [i + 1], i + 2);
    assert s + [i, i + 1, i + 2] == s + [i] + [i + 1] + [i + 2];
  }

  lemma TwoTexts(a: Range, b: Range)
    ensures Join(Texts([a, b]), ", ") == RangeText(a) + ", " + RangeText(b)
  {
    assert Texts([a, b])[1..] == [RangeText(b)];
  }

  /** Two runs of three neighbours are printed as two ranges; two indices apart are printed one by one. */
  lemma PrintedRuns(i: int, j: int)
    requires i + 3 < j
    ensures Join(Texts(RangesOf([i, i + 1, i + 2, j, j + 1, j + 2])), ", ")
            == IntText(i) + "-" + IntText(i + 2) + ", " + (IntText(j) + "-" + IntText(j + 2))
    ensures Join(Texts(RangesOf([i, j])), ", ") == IntText(i) + ", " + IntText(j)
  {
    ThreeInARow([], i);
    ThreeInARow([i, i + 1, i + 2], j);
    assert [] + [i, i + 1, i + 2] == [i, i + 1, i + 2];
    assert [i, i + 1, i + 2] + [j, j + 1, j + 2] == [i, i + 1, i + 2, j, j + 1, j + 2];
    TwoTexts(Range(i, i + 2), Range(j, j + 2));
    RangesSnoc([], i);
    RangesSnoc([i], j);
    assert [] + [i] == [i] && [i] + [j] == [i, j];
    TwoTexts(Range(i, i), Range(j, j));
  }
}
