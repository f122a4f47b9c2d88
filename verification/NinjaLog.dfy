/**
 Reading a build log (tools/report_build_time_ninja.py): records are grouped by
 command hash, and a record that cannot belong to the build read so far starts a
 new build.

 Times are the integral milliseconds of the log.
 */
module NinjaLog {
  import opened Wrappers

  datatype Record = Record(start: int, end: int, name: string, hash: string)

  /** A log line after splitting: wrong number of fields, a time that is not a number, or a record. */
  datatype Line = Malformed | BadNumber | Good(record: Record)

  datatype Entry = Entry(hash: string, start: int, end: int, names: seq<string>)

  // ----- grouping -----

  function IndexOf(entries: seq<Entry>, hash: string): (i: nat)
    ensures i <= |entries|
    ensures i < |entries| ==> entries[i].hash == hash
    ensures forall j :: 0 <= j < i ==> entries[j].hash != hash
  {
    if entries == [] || entries[0].hash == hash then 0 else 1 + IndexOf(entries[1..], hash)
  }

  function Add(entries: seq<Entry>, r: Record): seq<Entry> {
    var i := IndexOf(entries, r.hash);
    if i < |entries| then entries[i := entries[i].(names := entries[i].names + [r.name])]
    else entries + [Entry(r.hash, r.start, r.end, [r.name])]
  }

  /** The entries of records c up to n. */
  function Group(rs: seq<Record>, c: nat, n: nat): seq<Entry>
    requires c <= n <= |rs|
    decreases n
  {
    if n == c then [] else Add(Group(rs, c, n - 1), rs[n - 1])
  }

  /** The output names recorded for one command, in order. */
  function NamesOf(rs: seq<Record>, c: nat, n: nat, hash: string): seq<string>
    requires c <= n <= |rs|
    decreases n
  {
    if n == c then []
    else NamesOf(rs, c, n - 1, hash) + (if rs[n - 1].hash == hash then [rs[n - 1].name] else [])
  }

  /** The commands in the order of their first record. */
  function Hashes(rs: seq<Record>, c: nat, n: nat): seq<string>
    requires c <= n <= |rs|
    decreases n
  {
    if n == c then []
    else if NamesOf(rs, c, n - 1, rs[n - 1].hash) == [] then Hashes(rs, c, n - 1) + [rs[n - 1].hash]
    else Hashes(rs, c, n - 1)
  }

  lemma {:induction false} HashesNamed(rs: seq<Record>, c: nat, n: nat, hash: string)
    requires c <= n <= |rs|
    ensures hash in Hashes(rs, c, n) <==> NamesOf(rs, c, n, hash) != []
    decreases n
  {
    if c < n {
      HashesNamed(rs, c, n - 1, hash);
    }
  }

  lemma {:induction false} HashesDistinct(rs: seq<Record>, c: nat, n: nat)
    requires c <= n <= |rs|
    ensures forall i, j :: 0 <= i < j < |Hashes(rs, c, n)| ==> Hashes(rs, c, n)[i] != Hashes(rs, c, n)[j]
    decreases n
  {
    if c < n {
      HashesDistinct(rs, c, n - 1);
      HashesNamed(rs, c, n - 1, rs[n - 1].hash);
    }
  }

  /** The records of one command. */
  ghost function RecordsOf(rs: seq<Record>, c: nat, n: nat, hash: string): set<int>
    requires c <= n <= |rs|
  {
    set j | c <= j < n && rs[j].hash == hash
  }

  lemma RecordsSame(rs: seq<Record>, c: nat, n: nat, hash: string)
    requires c <= n < |rs| && rs[n].hash != hash
    ensures RecordsOf(rs, c, n + 1, hash) == RecordsOf(rs, c, n, hash)
  {
  }

  lemma RecordsMore(rs: seq<Record>, c: nat, n: nat, hash: string)
    requires c <= n < |rs| && rs[n].hash == hash
    ensures RecordsOf(rs, c, n + 1, hash) == RecordsOf(rs, c, n, hash) + {n} && n !in RecordsOf(rs, c, n, hash)
  {
  }

  lemma OneMore(s: set<int>, t: set<int>, n: int)
    requires t == s + {n} && n !in s
    ensures |t| == |s| + 1
  {
  }

  /** A command has one name for each of its records. */
  lemma {:induction false} NamesCount(rs: seq<Record>, c: nat, n: nat, hash: string)
    requires c <= n <= |rs|
    ensures |NamesOf(rs, c, n, hash)| == |RecordsOf(rs, c, n, hash)|
    decreases n
  {
    if n == c {
      assert RecordsOf(rs, c, n, hash) == {};
    } else {
      NamesCount(rs, c, n - 1, hash);
      if rs[n - 1].hash == hash {
        RecordsMore(rs, c, n - 1, hash);
        OneMore(RecordsOf(rs, c, n - 1, hash), RecordsOf(rs, c, n, hash), n - 1);
      } else {
        RecordsSame(rs, c, n - 1, hash);
      }
    }
  }

  /** The name of a record stands where the earlier records of its command are counted. */
  lemma {:induction false} NameAt(rs: seq<Record>, c: nat, n: nat, j: nat)
    requires c <= j < n <= |rs|
    ensures var names, k := NamesOf(rs, c, n, rs[j].hash), |RecordsOf(rs, c, j, rs[j].hash)|;
            k < |names| && names[k] == rs[j].name
    decreases n
  {
    if j < n - 1 {
      NameAt(rs, c, n - 1, j);
    } else {
      NamesCount(rs, c, j, rs[j].hash);
    }
  }

  /** Record p is the first one of its command. */
  ghost predicate IsFirst(rs: seq<Record>, c: nat, n: nat, hash: string, p: nat)
    requires c <= n <= |rs|
  {
    c <= p < n && rs[p].hash == hash && forall q :: c <= q < p ==> rs[q].hash != hash
  }

  ghost predicate HasFirst(rs: seq<Record>, c: nat, n: nat, hash: string, bound: nat)
    requires c <= n <= |rs|
  {
    exists p: nat :: IsFirst(rs, c, n, hash, p) && p < bound
  }

  /** The commands stand in the order of their first records. */
  lemma {:induction false} HashesOrdered(rs: seq<Record>, c: nat, n: nat, i: nat, j: nat, p: nat)
    requires c <= n <= |rs| && i < j < |Hashes(rs, c, n)| && IsFirst(rs, c, n, Hashes(rs, c, n)[j], p)
    ensures HasFirst(rs, c, n, Hashes(rs, c, n)[i], p)
    decreases n
  {
    assert c < n;
    var hs := Hashes(rs, c, n - 1);
    if j < |hs| {
      var q := FirstOf(rs, c, n - 1, hs[j]);
      assert p == q;
      HashesOrdered(rs, c, n - 1, i, j, p);
      var k: nat :| IsFirst(rs, c, n - 1, hs[i], k) && k < p;
      assert IsFirst(rs, c, n, hs[i], k);
    } else {
      NamedSomewhere(rs, c, n - 1, rs[n - 1].hash);
      var k := FirstOf(rs, c, n - 1, hs[i]);
      assert IsFirst(rs, c, n, hs[i], k) && p == n - 1;
    }
  }

  lemma {:induction false} FirstOf(rs: seq<Record>, c: nat, n: nat, hash: string) returns (p: nat)
    requires c <= n <= |rs| && hash in Hashes(rs, c, n)
    ensures IsFirst(rs, c, n, hash, p)
    decreases n
  {
    assert c < n;
    if hash in Hashes(rs, c, n - 1) {
      p := FirstOf(rs, c, n - 1, hash);
    } else {
      HashesNamed(rs, c, n - 1, hash);
      NamedSomewhere(rs, c, n - 1, hash);
      p := n - 1;
    }
  }

  ghost predicate EntryOk(rs: seq<Record>, c: nat, n: nat, hash: string, e: Entry)
    requires c <= n <= |rs|
  {
    e.hash == hash && e.names == NamesOf(rs, c, n, hash)
  }

  /** Every command once, in order of first appearance, with exactly its names in order. */
  ghost predicate Groups(rs: seq<Record>, c: nat, n: nat, entries: seq<Entry>)
    requires c <= n <= |rs|
  {
    && |entries| == |Hashes(rs, c, n)|
    && forall i :: 0 <= i < |entries| ==> EntryOk(rs, c, n, Hashes(rs, c, n)[i], entries[i])
  }

  lemma {:induction false} GroupIsExact(rs: seq<Record>, c: nat, n: nat)
    requires c <= n <= |rs|
    ensures Groups(rs, c, n, Group(rs, c, n))
    decreases n
  {
    if c < n {
      GroupIsExact(rs, c, n - 1);
      AddGroups(rs, c, n, Group(rs, c, n - 1));
    }
  }

  /** A lookup succeeds iff the command has a record. */
  lemma LookupIff(rs: seq<Record>, c: nat, n: nat, entries: seq<Entry>, hash: string)
    requires c <= n <= |rs| && Groups(rs, c, n, entries)
    ensures IndexOf(entries, hash) < |entries| <==> NamesOf(rs, c, n, hash) != []
  {
    var i, hs := IndexOf(entries, hash), Hashes(rs, c, n);
    HashesNamed(rs, c, n, hash);
    assert forall j :: 0 <= j < |entries| ==> EntryOk(rs, c, n, hs[j], entries[j]);
  }

  lemma AddGroups(rs: seq<Record>, c: nat, n: nat, entries: seq<Entry>)
    requires c < n <= |rs| && Groups(rs, c, n - 1, entries)
    ensures Groups(rs, c, n, Add(entries, rs[n - 1]))
  {
    var r := rs[n - 1];
    LookupIff(rs, c, n - 1, entries, r.hash);
    HashesDistinct(rs, c, n - 1);
    var added, hs, i := Add(entries, r), Hashes(rs, c, n), IndexOf(entries, r.hash);
    forall q | 0 <= q < |added| ensures EntryOk(rs, c, n, hs[q], added[q]) {
      if q < |entries| {
        assert EntryOk(rs, c, n - 1, Hashes(rs, c, n - 1)[q], entries[q]);
      }
    }
  }

  // ----- consistent runs of records -----

  /** Record n cannot continue the build that began at record c. */
  ghost predicate Conflicts(rs: seq<Record>, c: nat, n: nat)
    requires c <= n < |rs|
  {
    || (n > 0 && rs[n].end < rs[n - 1].end)
    || exists j :: c <= j < n && rs[j].hash == rs[n].hash && !SameTimes(rs[j], rs[n])
  }

  predicate SameTimes(a: Record, b: Record) {
    a.start == b.start && a.end == b.end
  }

  /** One build: end times never decrease and a command has one pair of times. */
  ghost predicate Consistent(rs: seq<Record>, c: nat, n: nat)
    requires c <= n <= |rs|
  {
    && (forall i, j :: c <= i <= j < n ==> rs[i].end <= rs[j].end)
    && (forall i, j :: c <= i <= j < n && rs[i].hash == rs[j].hash ==> SameTimes(rs[i], rs[j]))
  }

  /** Where the build that is being read began. */
  ghost function CutAt(rs: seq<Record>, n: nat): (c: nat)
    requires n <= |rs|
    ensures c <= n
  {
    if n == 0 then 0 else if Conflicts(rs, CutAt(rs, n - 1), n - 1) then n - 1 else CutAt(rs, n - 1)
  }

  lemma ConsistentNext(rs: seq<Record>, c: nat, n: nat)
    requires c <= n < |rs| && Consistent(rs, c, n) && !Conflicts(rs, c, n)
    ensures Consistent(rs, c, n + 1)
  {
    forall i | c <= i < n ensures rs[i].end <= rs[n].end {
      assert rs[i].end <= rs[n - 1].end;
    }
  }

  /** The build being read is consistent, and its first record did not fit what was read before it. */
  lemma {:induction false} CutIsConsistent(rs: seq<Record>, n: nat)
    requires n <= |rs|
    ensures Consistent(rs, CutAt(rs, n), n)
    ensures CutAt(rs, n) > 0 ==> CutAt(rs, n) < n && Conflicts(rs, CutAt(rs, CutAt(rs, n)), CutAt(rs, n))
  {
    if n > 0 {
      CutIsConsistent(rs, n - 1);
      if !Conflicts(rs, CutAt(rs, n - 1), n - 1) {
        ConsistentNext(rs, CutAt(rs, n - 1), n - 1);
      }
    }
  }

  /** A later record of the build reaches back past its first record to one of the same command with other times. */
  ghost predicate Reaches(rs: seq<Record>, c: nat, n: nat)
    requires 0 < c <= n <= |rs|
  {
    exists j :: c <= j < n && rs[j].hash == rs[c - 1].hash && !SameTimes(rs[c - 1], rs[j])
  }

  lemma FitsBefore(rs: seq<Record>, c: nat, n: nat)
    requires 0 < c < n <= |rs| && Consistent(rs, c, n)
    ensures Consistent(rs, c - 1, n) <==> rs[c - 1].end <= rs[c].end && !Reaches(rs, c, n)
  {
    if rs[c - 1].end <= rs[c].end && !Reaches(rs, c, n) {
      forall i, j | c - 1 <= i <= j < n
        ensures rs[i].end <= rs[j].end && (rs[i].hash == rs[j].hash ==> SameTimes(rs[i], rs[j]))
      {
        assert j >= c ==> rs[c].end <= rs[j].end;
      }
    }
  }

  /**
   The build read is the longest consistent run at the end of the log unless it was cut by the
   second comparison only: end times do not fall at the cut, and no record of the build repeats
   the command of the record before it with other times.
   */
  lemma LongestIff(rs: seq<Record>, n: nat)
    requires n <= |rs|
    ensures var c := CutAt(rs, n);
            (forall b :: 0 <= b < c ==> !Consistent(rs, b, n))
            <==> c == 0 || rs[c].end < rs[c - 1].end || Reaches(rs, c, n)
  {
    var c := CutAt(rs, n);
    CutIsConsistent(rs, n);
    if c > 0 {
      FitsBefore(rs, c, n);
      forall b | 0 <= b < c ensures Consistent(rs, b, n) ==> Consistent(rs, c - 1, n) {
      }
    }
  }

  /** A cut made because end times fall always leaves the longest run. */
  lemma FallingEndCutsLongest(rs: seq<Record>, n: nat, b: nat)
    requires n <= |rs| && b < CutAt(rs, n) && rs[CutAt(rs, n)].end < rs[CutAt(rs, n) - 1].end
    ensures !Consistent(rs, b, n)
  {
    LongestIff(rs, n);
  }

  /** The reset can drop a record that still fits: the second of these three. */
  lemma ResetDropsTooMuch()
    ensures var rs := [Record(0, 1, "x", "a"), Record(0, 2, "y", "b"), Record(0, 3, "z", "a")];
            CutAt(rs, 3) == 2 && Consistent(rs, 1, 3)
  {
    var rs := [Record(0, 1, "x", "a"), Record(0, 2, "y", "b"), Record(0, 3, "z", "a")];
    assert !Conflicts(rs, 0, 0) && CutAt(rs, 1) == 0;
    assert !Conflicts(rs, 0, 1) && CutAt(rs, 2) == 0;
    assert rs[0].hash == rs[2].hash && !SameTimes(rs[0], rs[2]);
    assert Conflicts(rs, 0, 2);
  }

  /** Each command's entry carries the times of all its records. */
  ghost predicate TimesKept(rs: seq<Record>, c: nat, n: nat, entries: seq<Entry>)
    requires c <= n <= |rs|
  {
    forall i :: 0 <= i < |entries| ==> EntryTimes(rs, c, n, entries[i])
  }

  ghost predicate EntryTimes(rs: seq<Record>, c: nat, n: nat, e: Entry)
    requires c <= n <= |rs|
  {
    forall j :: c <= j < n && rs[j].hash == e.hash ==> e.start == rs[j].start && e.end == rs[j].end
  }

  lemma {:induction false} NamedSomewhere(rs: seq<Record>, c: nat, n: nat, hash: string)
    requires c <= n <= |rs|
    ensures NamesOf(rs, c, n, hash) != [] <==> exists j :: c <= j < n && rs[j].hash == hash
    decreases n
  {
    if c < n {
      NamedSomewhere(rs, c, n - 1, hash);
    }
  }

  /** An entry has the times of the first record of its command; in a consistent run, of every one. */
  lemma {:induction false} GroupKeepsTimes(rs: seq<Record>, c: nat, n: nat)
    requires c <= n <= |rs| && Consistent(rs, c, n)
    ensures TimesKept(rs, c, n, Group(rs, c, n))
    decreases n
  {
    if c < n {
      assert Consistent(rs, c, n - 1);
      GroupKeepsTimes(rs, c, n - 1);
      GroupIsExact(rs, c, n - 1);
      AddKeepsTimes(rs, c, n, Group(rs, c, n - 1));
    }
  }

  /** Also without consistency: an entry has the times of the first record of its command. */
  lemma {:induction false} GroupKeepsFirst(rs: seq<Record>, c: nat, n: nat, i: nat, p: nat)
    requires c <= n <= |rs| && i < |Group(rs, c, n)| && IsFirst(rs, c, n, Group(rs, c, n)[i].hash, p)
    ensures Group(rs, c, n)[i].start == rs[p].start && Group(rs, c, n)[i].end == rs[p].end
    decreases n
  {
    assert c < n;
    var before := Group(rs, c, n - 1);
    GroupIsExact(rs, c, n - 1);
    if i < |before| {
      FirstIsEarlier(rs, c, n, before, i, p);
      GroupKeepsFirst(rs, c, n - 1, i, p);
    } else {
      NewIsFirst(rs, c, n, before, p);
    }
  }

  lemma NewIsFirst(rs: seq<Record>, c: nat, n: nat, entries: seq<Entry>, p: nat)
    requires c < n <= |rs| && Groups(rs, c, n - 1, entries) && IndexOf(entries, rs[n - 1].hash) == |entries|
    requires IsFirst(rs, c, n, rs[n - 1].hash, p)
    ensures p == n - 1
  {
    LookupIff(rs, c, n - 1, entries, rs[n - 1].hash);
    NamedSomewhere(rs, c, n - 1, rs[n - 1].hash);
  }

  lemma FirstIsEarlier(rs: seq<Record>, c: nat, n: nat, entries: seq<Entry>, i: nat, p: nat)
    requires c < n <= |rs| && Groups(rs, c, n - 1, entries) && i < |entries|
    requires IsFirst(rs, c, n, entries[i].hash, p)
    ensures IsFirst(rs, c, n - 1, entries[i].hash, p)
  {
    EntryHasRecord(rs, c, n - 1, entries, i);
  }

  lemma EntryHasRecord(rs: seq<Record>, c: nat, n: nat, entries: seq<Entry>, i: nat)
    requires c <= n <= |rs| && Groups(rs, c, n, entries) && i < |entries|
    ensures exists j :: c <= j < n && rs[j].hash == entries[i].hash
  {
    assert EntryOk(rs, c, n, Hashes(rs, c, n)[i], entries[i]);
    HashesNamed(rs, c, n, entries[i].hash);
    NamedSomewhere(rs, c, n, entries[i].hash);
  }

  lemma AddKeepsTimes(rs: seq<Record>, c: nat, n: nat, entries: seq<Entry>)
    requires c < n <= |rs| && Consistent(rs, c, n)
    requires Groups(rs, c, n - 1, entries) && TimesKept(rs, c, n - 1, entries)
    ensures TimesKept(rs, c, n, Add(entries, rs[n - 1]))
  {
    var r, added := rs[n - 1], Add(entries, rs[n - 1]);
    forall q | 0 <= q < |added| ensures EntryTimes(rs, c, n, added[q]) {
      if q < |entries| {
        assert EntryTimes(rs, c, n - 1, entries[q]);
        OldEntryKeepsTimes(rs, c, n, entries, q);
      } else {
        LookupIff(rs, c, n - 1, entries, r.hash);
        NamedSomewhere(rs, c, n - 1, r.hash);
      }
    }
  }

  lemma OldEntryKeepsTimes(rs: seq<Record>, c: nat, n: nat, entries: seq<Entry>, q: nat)
    requires c < n <= |rs| && Consistent(rs, c, n) && q < |entries|
    requires Groups(rs, c, n - 1, entries) && EntryTimes(rs, c, n - 1, entries[q])
    ensures EntryTimes(rs, c, n, entries[q])
  {
    EntryHasRecord(rs, c, n - 1, entries, q);
    var j :| c <= j < n - 1 && rs[j].hash == entries[q].hash;
    assert rs[j].hash == rs[n - 1].hash ==> SameTimes(rs[j], rs[n - 1]);
  }

  // ----- the reader -----

  function Records(lines: seq<Line>): seq<Record> {
    if lines == [] then []
    else if lines[|lines| - 1].Good? then Records(lines[..|lines| - 1]) + [lines[|lines| - 1].record]
    else Records(lines[..|lines| - 1])
  }

  /** What is read: everything when all builds are wanted, otherwise the last build. */
  ghost function Expected(rs: seq<Record>, showAll: bool): seq<Entry> {
    Group(rs, if showAll then 0 else CutAt(rs, |rs|), |rs|)
  }

  /** Does the record fit the entries of a consistent build? */
  lemma ConflictFound(rs: seq<Record>, c: nat, n: nat)
    requires c <= n < |rs| && Consistent(rs, c, n)
    ensures var entries := Group(rs, c, n);
            var i := IndexOf(entries, rs[n].hash);
            (exists j :: c <= j < n && rs[j].hash == rs[n].hash && !SameTimes(rs[j], rs[n]))
            <==> i < |entries| && (entries[i].start != rs[n].start || entries[i].end != rs[n].end)
  {
    var entries := Group(rs, c, n);
    var i := IndexOf(entries, rs[n].hash);
    GroupIsExact(rs, c, n);
    GroupKeepsTimes(rs, c, n);
    LookupIff(rs, c, n, entries, rs[n].hash);
    NamedSomewhere(rs, c, n, rs[n].hash);
    if i < |entries| {
      assert EntryTimes(rs, c, n, entries[i]);
    }
  }

  lemma AllNext(rs: seq<Record>, r: Record)
    ensures Expected(rs + [r], true) == Add(Expected(rs, true), r)
  {
    GroupSnoc(rs, r, 0);
  }

  lemma GroupSnoc(rs: seq<Record>, r: Record, c: nat)
    requires c <= |rs|
    ensures Group(rs + [r], c, |rs| + 1) == Add(Group(rs, c, |rs|), r)
  {
    GroupPrefix(rs, rs + [r], c, |rs|);
    GroupNext(rs + [r], c, |rs|);
  }

  lemma GroupNext(rs: seq<Record>, c: nat, n: nat)
    requires c <= n < |rs|
    ensures Group(rs, c, n + 1) == Add(Group(rs, c, n), rs[n])
  {
  }

  lemma CutSnoc(rs: seq<Record>, r: Record)
    ensures CutAt(rs + [r], |rs| + 1)
            == if Conflicts(rs + [r], CutAt(rs, |rs|), |rs|) then |rs| else CutAt(rs, |rs|)
  {
    CutPrefix(rs, rs + [r], |rs|);
  }

  lemma LastNext(rs: seq<Record>, r: Record)
    ensures Expected(rs + [r], false)
            == Add(if Conflicts(rs + [r], CutAt(rs, |rs|), |rs|) then [] else Expected(rs, false), r)
  {
    CutSnoc(rs, r);
    if Conflicts(rs + [r], CutAt(rs, |rs|), |rs|) {
      GroupSnoc(rs, r, |rs|);
    } else {
      GroupSnoc(rs, r, CutAt(rs, |rs|));
    }
  }

  /** What the reader compares decides whether the record conflicts with the build. */
  lemma ConflictIff(rs: seq<Record>, r: Record)
    ensures var entries := Expected(rs, false);
            var i := IndexOf(entries, r.hash);
            Conflicts(rs + [r], CutAt(rs, |rs|), |rs|)
            <==> || (rs != [] && r.end < rs[|rs| - 1].end)
                 || (i < |entries| && (entries[i].start != r.start || entries[i].end != r.end))
  {
    var all, n, c := rs + [r], |rs|, CutAt(rs, |rs|);
    CutPrefix(rs, all, n);
    GroupPrefix(rs, all, c, n);
    CutIsConsistent(all, n);
    ConflictFound(all, c, n);
  }

  /** One record: forget the entries when it cannot belong to the same build, then add it. */
  method OnRecord(entries: seq<Entry>, lastEnd: int, r: Record, showAll: bool, ghost rs: seq<Record>)
    returns (entries': seq<Entry>)
    requires entries == Expected(rs, showAll)
    requires rs == [] || lastEnd == rs[|rs| - 1].end
    ensures entries' == Expected(rs + [r], showAll)
  {
    if showAll {
      AllNext(rs, r);
    } else {
      LastNext(rs, r);
      ConflictIff(rs, r);
    }
    var kept := entries;
    if !showAll && r.end < lastEnd {
      kept := [];
    }
    var i := IndexOf(kept, r.hash);
    if i < |kept| && !showAll && (kept[i].start != r.start || kept[i].end != r.end) {
      kept := [];
    }
    entries' := Add(kept, r);
  }

  lemma {:induction false} CutPrefix(rs: seq<Record>, all: seq<Record>, n: nat)
    requires rs <= all && n <= |rs|
    ensures CutAt(rs, n) == CutAt(all, n)
  {
    if n > 0 {
      CutPrefix(rs, all, n - 1);
      var c := CutAt(rs, n - 1);
      assert Conflicts(rs, c, n - 1) <==> Conflicts(all, c, n - 1);
    }
  }

  lemma {:induction false} GroupPrefix(rs: seq<Record>, all: seq<Record>, c: nat, n: nat)
    requires rs <= all && c <= n <= |rs|
    ensures Group(rs, c, n) == Group(all, c, n)
    decreases n
  {
    if c < n {
      GroupPrefix(rs, all, c, n - 1);
    }
  }

  /** Reading fails on a wrong header and on a time that is not a number. */
  method ReadTargets(headerOk: bool, lines: seq<Line>, showAll: bool) returns (r: Option<seq<Entry>>)
    ensures r == if headerOk && BadNumber !in lines then Some(Expected(Records(lines), showAll)) else None
  {
    if !headerOk {
      return None;
    }
    var entries: seq<Entry> := [];
    var lastEnd := 0;
    for i := 0 to |lines|
      invariant BadNumber !in lines[..i]
      invariant entries == Expected(Records(lines[..i]), showAll)
      invariant Records(lines[..i]) == [] || lastEnd == Records(lines[..i])[|Records(lines[..i])| - 1].end
    {
      assert lines[..i + 1] == lines[..i] + [lines[i]];
      assert lines[..i + 1][..i] == lines[..i];
      match lines[i]
      case Malformed =>
      case BadNumber =>
        return None;
      case Good(record) =>
        entries := OnRecord(entries, lastEnd, record, showAll, Records(lines[..i]));
        lastEnd := record.end;
    }
    assert lines[..|lines|] == lines;
    return Some(entries);
  }

  /**
   With `showAll` off the result is the grouping of one block of records that reaches the end of
   the log: end times never decrease in it, every command has one pair of times, and its names
   are all kept in order.
   */
  lemma LastBuildRead(rs: seq<Record>)
    ensures exists c :: 0 <= c <= |rs| && Consistent(rs, c, |rs|) && (c == |rs| ==> rs == [])
                        && Expected(rs, false) == Group(rs, c, |rs|)
                        && Groups(rs, c, |rs|, Expected(rs, false)) && TimesKept(rs, c, |rs|, Expected(rs, false))
  {
    var c := CutAt(rs, |rs|);
    CutIsConsistent(rs, |rs|);
    GroupIsExact(rs, c, |rs|);
    GroupKeepsTimes(rs, c, |rs|);
  }
}
