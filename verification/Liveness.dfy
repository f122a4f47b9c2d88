/**
 Values passed along a line of stages: each stage takes some values, frees some of
 them and hands some on.  When does every stage find what it takes?
 */
module Liveness {

  datatype Stage<T> = Stage(inputs: set<T>, freed: set<T>, passed: set<T>)

  /** What is needed before stage k: its inputs, and later needs it does not meet itself. */
  function Need<T>(ss: seq<Stage<T>>, final: set<T>, k: nat): set<T>
    requires k <= |ss|
    decreases |ss| - k
  {
    if k == |ss| then final else ss[k].inputs + (Need(ss, final, k + 1) - ss[k].passed)
  }

  lemma NeedStep<T>(ss: seq<Stage<T>>, final: set<T>, k: nat, n: T)
    requires k < |ss|
    ensures n in Need(ss, final, k) <==> n in ss[k].inputs || (n in Need(ss, final, k + 1) && n !in ss[k].passed)
  {
  }

  /** What is available before stage k. */
  function Available<T>(ss: seq<Stage<T>>, start: set<T>, k: nat): set<T>
    requires k <= |ss|
  {
    if k == 0 then start else (Available(ss, start, k - 1) - ss[k - 1].freed) + ss[k - 1].passed
  }

  /** Every stage finds its inputs, and the final values are there at the end. */
  ghost predicate Runs<T(!new)>(ss: seq<Stage<T>>, start: set<T>, final: set<T>) {
    && (forall k :: 0 <= k < |ss| ==> ss[k].inputs <= Available(ss, start, k))
    && final <= Available(ss, start, |ss|)
  }

  /** No stage frees a value that is needed after it without handing it on. */
  ghost predicate KeepsNeeded<T(!new)>(ss: seq<Stage<T>>, final: set<T>) {
    forall k :: 0 <= k < |ss| ==> ss[k].freed * Need(ss, final, k + 1) <= ss[k].passed
  }

  lemma {:induction false} NeededIsAvailable<T(!new)>(ss: seq<Stage<T>>, start: set<T>, final: set<T>, k: nat)
    requires Need(ss, final, 0) <= start && KeepsNeeded(ss, final) && k <= |ss|
    ensures Need(ss, final, k) <= Available(ss, start, k)
  {
    if k > 0 {
      NeededIsAvailable(ss, start, final, k - 1);
      assert ss[k - 1].freed * Need(ss, final, k) <= ss[k - 1].passed;
    }
  }

  /** A needed value that is missing stays missing until a stage fails. */
  lemma {:induction false} MissingFails<T(!new)>(ss: seq<Stage<T>>, start: set<T>, final: set<T>, k: nat, n: T)
    requires k <= |ss| && n in Need(ss, final, k) && n !in Available(ss, start, k)
    ensures !Runs(ss, start, final)
    decreases |ss| - k
  {
    if k < |ss| && n !in ss[k].inputs {
      MissingFails(ss, start, final, k + 1, n);
    }
  }

  /** The line runs if and only if the start covers the need and every stage keeps what is needed later. */
  lemma RunsIff<T(!new)>(ss: seq<Stage<T>>, start: set<T>, final: set<T>)
    ensures Runs(ss, start, final) <==> Need(ss, final, 0) <= start && KeepsNeeded(ss, final)
  {
    if Need(ss, final, 0) <= start && KeepsNeeded(ss, final) {
      forall k | 0 <= k < |ss| ensures ss[k].inputs <= Available(ss, start, k) {
        NeededIsAvailable(ss, start, final, k);
      }
      NeededIsAvailable(ss, start, final, |ss|);
    } else if !(Need(ss, final, 0) <= start) {
      var n :| n in Need(ss, final, 0) && n !in start;
      MissingFails(ss, start, final, 0, n);
    } else {
      var k :| 0 <= k < |ss| && !(ss[k].freed * Need(ss, final, k + 1) <= ss[k].passed);
      var n :| n in ss[k].freed * Need(ss, final, k + 1) && n !in ss[k].passed;
      MissingFails(ss, start, final, k + 1, n);
    }
  }
}
