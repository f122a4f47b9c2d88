/**
 The event sweep of the build-time report (tools/report_build_time_ninja.py): every
 stretch of time is shared equally among the tasks running in it.

 Times are exact reals.  A task is named by its position in the list of entries.
 */
module NinjaSweep {
  import opened Sorting
  import opened Wrappers

  datatype Task = Task(start: real, end: real)

  datatype Event = Event(time: real, stop: bool, task: nat)

  // ----- the reference: cutting time at the events -----

  /** The tasks that cover the whole stretch from a to b. */
  function Running(tasks: seq<Task>, a: real, b: real): set<nat> {
    set i: nat | i < |tasks| && tasks[i].start <= a && b <= tasks[i].end
  }

  /** One of n equal parts of a stretch; nothing when nobody runs. */
  function Part(length: real, n: nat): real {
    if n == 0 then 0.0 else length / n as real
  }

  lemma Product(x: real, y: real)
    requires y > 0.0
    ensures x >= 0.0 ==> x * y >= 0.0
    ensures x < 0.0 ==> x * y < 0.0
  {
  }

  lemma PartBounds(length: real, n: nat)
    requires length >= 0.0
    ensures 0.0 <= Part(length, n) <= length
    ensures length == 0.0 ==> Part(length, n) == 0.0
    ensures n > 0 ==> n as real * Part(length, n) == length
  {
    if n > 0 {
      var q := length / n as real;
      assert q * n as real == length;
      Product(q, n as real);
      if n > 1 {
        Product(q, n as real - 1.0);
        assert q * n as real == q + q * (n as real - 1.0);
      }
    }
  }

  function Slice(tasks: seq<Task>, a: real, b: real): real {
    Part(b - a, |Running(tasks, a, b)|)
  }

  /** What task i gets of the first m stretches: its part of each stretch it covers. */
  function Share(tasks: seq<Task>, ts: seq<real>, i: nat, m: nat): real
    requires m < |ts|
  {
    if m == 0 then 0.0
    else Share(tasks, ts, i, m - 1)
         + (if i in Running(tasks, ts[m - 1], ts[m]) then Slice(tasks, ts[m - 1], ts[m]) else 0.0)
  }

  /** How much of the first m stretches has at least one running task. */
  function BusyTo(tasks: seq<Task>, ts: seq<real>, m: nat): real
    requires m < |ts|
  {
    if m == 0 then 0.0
    else BusyTo(tasks, ts, m - 1) + (if Running(tasks, ts[m - 1], ts[m]) == {} then 0.0 else ts[m] - ts[m - 1])
  }

  ghost predicate Rising(ts: seq<real>) {
    forall j, k :: 0 <= j <= k < |ts| ==> ts[j] <= ts[k]
  }

  /** No time point lies strictly inside a stretch. */
  ghost predicate CutsAll(tasks: seq<Task>, ts: seq<real>) {
    forall i :: 0 <= i < |tasks| ==> tasks[i].start in ts && tasks[i].end in ts
  }

  // ----- events in order -----

  function EventOf(tasks: seq<Task>, i: nat, stop: bool): Event
    requires i < |tasks|
  {
    Event(if stop then tasks[i].end else tasks[i].start, stop, i)
  }

  /** The sort key: time first, then starts before stops. */
  predicate NotAfter(a: Event, b: Event) {
    a.time < b.time || (a.time == b.time && (a.stop ==> b.stop))
  }

  ghost predicate InOrder(ev: seq<Event>) {
    forall j, k :: 0 <= j < k < |ev| ==> NotAfter(ev[j], ev[k])
  }

  ghost predicate NoRepeats(ev: seq<Event>) {
    forall j, k :: 0 <= j < k < |ev| ==> ev[j] != ev[k]
  }

  ghost predicate IsEventOf(tasks: seq<Task>, e: Event) {
    e.task < |tasks| && e == EventOf(tasks, e.task, e.stop)
  }

  ghost predicate SameEvents(tasks: seq<Task>, ev: seq<Event>) {
    forall e :: e in ev <==> IsEventOf(tasks, e)
  }

  /** Some arrangement of all start and stop events that respects the sort key. */
  ghost predicate Scheduled(tasks: seq<Task>, ev: seq<Event>) {
    InOrder(ev) && NoRepeats(ev) && SameEvents(tasks, ev) && |ev| == 2 * |tasks|
  }

  function Times(ev: seq<Event>): (ts: seq<real>)
    ensures |ts| == |ev| && forall j :: 0 <= j < |ts| ==> ts[j] == ev[j].time
  {
    seq(|ev|, j requires 0 <= j < |ev| => ev[j].time)
  }

  lemma TimesRise(ev: seq<Event>)
    requires InOrder(ev)
    ensures Rising(Times(ev))
  {
  }

  lemma UniformBetween(tasks: seq<Task>, ts: seq<real>, m: nat, i: nat, x: real)
    requires Rising(ts) && CutsAll(tasks, ts) && m + 1 < |ts| && i < |tasks|
    requires ts[m] < x < ts[m + 1]
    ensures tasks[i].start <= x < tasks[i].end <==> i in Running(tasks, ts[m], ts[m + 1])
  {
    var s :| 0 <= s < |ts| && ts[s] == tasks[i].start;
    var e :| 0 <= e < |ts| && ts[e] == tasks[i].end;
  }

  lemma TimesCut(tasks: seq<Task>, ev: seq<Event>)
    requires Scheduled(tasks, ev)
    ensures Rising(Times(ev)) && CutsAll(tasks, Times(ev))
  {
    forall i | 0 <= i < |tasks| ensures tasks[i].start in Times(ev) && tasks[i].end in Times(ev) {
      assert IsEventOf(tasks, EventOf(tasks, i, false)) && IsEventOf(tasks, EventOf(tasks, i, true));
      var s :| 0 <= s < |ev| && ev[s] == EventOf(tasks, i, false);
      var e :| 0 <= e < |ev| && ev[e] == EventOf(tasks, i, true);
      assert Times(ev)[s] == tasks[i].start && Times(ev)[e] == tasks[i].end;
    }
  }

  /** Strictly between two neighbouring events the set of running tasks does not change. */
  lemma StretchIsUniform(tasks: seq<Task>, ev: seq<Event>, m: nat, i: nat, x: real)
    requires Scheduled(tasks, ev) && m + 1 < |ev| && i < |tasks|
    requires ev[m].time < x < ev[m + 1].time
    ensures tasks[i].start <= x < tasks[i].end <==> i in Running(tasks, ev[m].time, ev[m + 1].time)
  {
    TimesCut(tasks, ev);
    UniformBetween(tasks, Times(ev), m, i, x);
  }

  // ----- the sweep -----

  datatype State =
    | Failed
    | Ok(running: map<nat, real>, last: real, acc: real, total: real, weighted: map<nat, real>)

  function Advanced(st: State, time: real): real
    requires st.Ok?
  {
    st.acc + Part(time - st.last, |st.running|)
  }

  /** One event: a stop whose task is not running fails. */
  function Handle(st: State, e: Event): State
    requires st.Ok?
  {
    var acc := Advanced(st, e.time);
    if !e.stop then Ok(st.running[e.task := acc], e.time, acc, st.total, st.weighted)
    else if e.task !in st.running then Failed
    else
      var weight := acc - st.running[e.task];
      Ok(st.running - {e.task}, e.time, acc, st.total + weight, st.weighted[e.task := weight])
  }

  function RunTo(ev: seq<Event>, k: nat): State
    requires k <= |ev| && |ev| > 0
  {
    if k == 0 then Ok(map[], ev[0].time, 0.0, 0.0, map[])
    else if RunTo(ev, k - 1).Failed? then Failed
    else Handle(RunTo(ev, k - 1), ev[k - 1])
  }

  // ----- who is running -----

  predicate Seen(ev: seq<Event>, k: nat, e: Event)
    requires k <= |ev|
  {
    e in ev[..k]
  }

  lemma SeenNext(ev: seq<Event>, k: nat, e: Event)
    requires k < |ev| && NoRepeats(ev)
    ensures Seen(ev, k + 1, e) <==> Seen(ev, k, e) || e == ev[k]
    ensures !Seen(ev, k, ev[k])
  {
    assert ev[..k + 1] == ev[..k] + [ev[k]];
  }

  lemma SeenInOrder(tasks: seq<Task>, ev: seq<Event>, k: nat, e: Event)
    requires 0 < k < |ev| && Scheduled(tasks, ev) && IsEventOf(tasks, e)
    ensures Seen(ev, k, e) ==> e.time <= ev[k - 1].time
    ensures !Seen(ev, k, e) ==> ev[k].time <= e.time
  {
    var j :| 0 <= j < |ev| && ev[j] == e;
    assert j < k ==> ev[..k][j] == e;
  }

  function Active(tasks: seq<Task>, ev: seq<Event>, k: nat): set<nat>
    requires k <= |ev|
  {
    set i: nat | i < |tasks| && Seen(ev, k, EventOf(tasks, i, false)) && !Seen(ev, k, EventOf(tasks, i, true))
  }

  /** Over a stretch of positive length the tasks in the running table are those that cover it. */
  lemma ActiveIsRunning(tasks: seq<Task>, ev: seq<Event>, k: nat)
    requires 0 < k < |ev| && Scheduled(tasks, ev) && ev[k - 1].time < ev[k].time
    ensures Active(tasks, ev, k) == Running(tasks, ev[k - 1].time, ev[k].time)
  {
    forall i: nat | i < |tasks|
      ensures i in Active(tasks, ev, k) <==> i in Running(tasks, ev[k - 1].time, ev[k].time)
    {
      SeenInOrder(tasks, ev, k, EventOf(tasks, i, false));
      SeenInOrder(tasks, ev, k, EventOf(tasks, i, true));
    }
  }

  // ----- what the sweep has done after k events -----

  /** What the tables say task i has received so far. */
  function Received(st: State, i: nat): real
    requires st.Ok?
  {
    if i in st.weighted then st.weighted[i] else if i in st.running then st.acc - st.running[i] else 0.0
  }

  ghost predicate KeyOk(tasks: seq<Task>, ev: seq<Event>, k: nat, st: State, i: nat)
    requires k <= |ev| && i < |tasks| && st.Ok?
  {
    var started, stopped := Seen(ev, k, EventOf(tasks, i, false)), Seen(ev, k, EventOf(tasks, i, true));
    && (i in st.running <==> started && !stopped)
    && (i in st.weighted <==> stopped)
    && (stopped ==> started && tasks[i].start <= tasks[i].end)
  }

  ghost predicate KeysOk(tasks: seq<Task>, ev: seq<Event>, k: nat, st: State)
    requires k <= |ev|
  {
    && st.Ok?
    && (forall i :: i in st.running ==> i < |tasks|)
    && (forall i :: 0 <= i < |tasks| ==> KeyOk(tasks, ev, k, st, i))
  }

  ghost predicate SharesOk(tasks: seq<Task>, ev: seq<Event>, k: nat, st: State)
    requires 0 < k <= |ev| && st.Ok?
  {
    && st.last == ev[k - 1].time
    && forall i :: 0 <= i < |tasks| ==> Received(st, i) == Share(tasks, Times(ev), i, k - 1)
  }

  /** A stop finds its task running unless the task ends before it starts. */
  lemma StopFinds(tasks: seq<Task>, ev: seq<Event>, k: nat, st: State)
    requires k < |ev| && Scheduled(tasks, ev) && KeysOk(tasks, ev, k, st) && ev[k].stop
    ensures ev[k].task < |tasks|
    ensures ev[k].task in st.running ==> tasks[ev[k].task].start <= tasks[ev[k].task].end
    ensures ev[k].task !in st.running ==> tasks[ev[k].task].end < tasks[ev[k].task].start
  {
    var e := ev[k];
    assert IsEventOf(tasks, e);
    assert KeyOk(tasks, ev, k, st, e.task);
    var begin := EventOf(tasks, e.task, false);
    SeenNext(ev, k, e);
    assert IsEventOf(tasks, begin);
    var j :| 0 <= j < |ev| && ev[j] == begin;
    assert j < k ==> ev[..k][j] == begin;
  }

  lemma KeyNext(tasks: seq<Task>, ev: seq<Event>, k: nat, st: State, i: nat)
    requires k < |ev| && Scheduled(tasks, ev) && KeysOk(tasks, ev, k, st) && Handle(st, ev[k]).Ok? && i < |tasks|
    ensures KeyOk(tasks, ev, k + 1, Handle(st, ev[k]), i)
  {
    assert IsEventOf(tasks, ev[k]) && KeyOk(tasks, ev, k, st, i);
    if ev[k].stop {
      StopFinds(tasks, ev, k, st);
    }
    SeenNext(ev, k, EventOf(tasks, i, false));
    SeenNext(ev, k, EventOf(tasks, i, true));
  }

  lemma KeysNext(tasks: seq<Task>, ev: seq<Event>, k: nat, st: State)
    requires k < |ev| && Scheduled(tasks, ev) && KeysOk(tasks, ev, k, st) && Handle(st, ev[k]).Ok?
    ensures KeysOk(tasks, ev, k + 1, Handle(st, ev[k]))
  {
    assert IsEventOf(tasks, ev[k]);
    var n, st' := k + 1, Handle(st, ev[k]);
    forall i | 0 <= i < |tasks| ensures KeyOk(tasks, ev, n, st', i) {
      KeyNext(tasks, ev, k, st, i);
    }
  }

  /** The weighted clock advances by each running task's part of the stretch. */
  lemma ClockAdvances(tasks: seq<Task>, ev: seq<Event>, k: nat, st: State)
    requires 0 < k < |ev| && Scheduled(tasks, ev) && KeysOk(tasks, ev, k, st) && SharesOk(tasks, ev, k, st)
    ensures Advanced(st, ev[k].time) - st.acc == Slice(tasks, ev[k - 1].time, ev[k].time)
    ensures ev[k - 1].time == ev[k].time ==> Slice(tasks, ev[k - 1].time, ev[k].time) == 0.0
    ensures ev[k - 1].time < ev[k].time ==> st.running.Keys == Running(tasks, ev[k - 1].time, ev[k].time)
  {
    if ev[k - 1].time == ev[k].time {
      PartBounds(0.0, |st.running|);
      PartBounds(0.0, |Running(tasks, ev[k - 1].time, ev[k].time)|);
    } else {
      ActiveIsRunning(tasks, ev, k);
      forall i: nat | i < |tasks| ensures i in st.running <==> i in Active(tasks, ev, k) {
        assert KeyOk(tasks, ev, k, st, i);
      }
      assert st.running.Keys == Running(tasks, ev[k - 1].time, ev[k].time);
      assert |st.running| == |st.running.Keys|;
    }
  }

  lemma ReceivedNext(st: State, e: Event, i: nat)
    requires st.Ok? && Handle(st, e).Ok? && (i in st.running ==> i !in st.weighted)
    requires i == e.task && !e.stop ==> i !in st.running && i !in st.weighted
    ensures Received(Handle(st, e), i)
            == Received(st, i) + (if i in st.running then Advanced(st, e.time) - st.acc else 0.0)
  {
  }

  lemma NewTask(tasks: seq<Task>, ev: seq<Event>, k: nat, st: State)
    requires k < |ev| && Scheduled(tasks, ev) && KeysOk(tasks, ev, k, st) && !ev[k].stop
    ensures ev[k].task !in st.running && ev[k].task !in st.weighted
  {
    assert IsEventOf(tasks, ev[k]) && KeyOk(tasks, ev, k, st, ev[k].task);
    SeenNext(ev, k, ev[k]);
  }

  lemma SharesNext(tasks: seq<Task>, ev: seq<Event>, k: nat, st: State)
    requires 0 < k < |ev| && Scheduled(tasks, ev) && KeysOk(tasks, ev, k, st) && SharesOk(tasks, ev, k, st)
    requires Handle(st, ev[k]).Ok?
    ensures SharesOk(tasks, ev, k + 1, Handle(st, ev[k]))
  {
    ClockAdvances(tasks, ev, k, st);
    if !ev[k].stop {
      NewTask(tasks, ev, k, st);
    }
    forall i | 0 <= i < |tasks| ensures Received(Handle(st, ev[k]), i) == Share(tasks, Times(ev), i, k) {
      assert KeyOk(tasks, ev, k, st, i);
      ReceivedNext(st, ev[k], i);
    }
  }

  ghost predicate Backwards(tasks: seq<Task>) {
    exists i :: 0 <= i < |tasks| && tasks[i].end < tasks[i].start
  }

  ghost predicate Tracks(tasks: seq<Task>, ev: seq<Event>, k: nat, st: State)
    requires 0 < k <= |ev|
  {
    if st.Failed? then Backwards(tasks) else KeysOk(tasks, ev, k, st) && SharesOk(tasks, ev, k, st)
  }

  lemma TracksFirst(tasks: seq<Task>, ev: seq<Event>)
    requires |ev| > 0 && Scheduled(tasks, ev)
    ensures Tracks(tasks, ev, 1, RunTo(ev, 1))
  {
    var st := RunTo(ev, 0);
    assert KeysOk(tasks, ev, 0, st);
    var st' := Handle(st, ev[0]);
    if st'.Failed? {
      StopFinds(tasks, ev, 0, st);
    } else {
      KeysNext(tasks, ev, 0, st);
      assert forall i :: 0 <= i < |tasks| ==> Received(st', i) == 0.0;
    }
  }

  lemma TracksNext(tasks: seq<Task>, ev: seq<Event>, k: nat, st: State)
    requires 0 < k < |ev| && Scheduled(tasks, ev) && st.Ok? && Tracks(tasks, ev, k, st)
    ensures Tracks(tasks, ev, k + 1, Handle(st, ev[k]))
  {
    if Handle(st, ev[k]).Failed? {
      StopFinds(tasks, ev, k, st);
    } else {
      KeysNext(tasks, ev, k, st);
      SharesNext(tasks, ev, k, st);
    }
  }

  /** After any number of events the tables agree with the reference shares. */
  lemma {:induction false} RunTracks(tasks: seq<Task>, ev: seq<Event>, k: nat)
    requires 0 < k <= |ev| && Scheduled(tasks, ev)
    ensures Tracks(tasks, ev, k, RunTo(ev, k))
  {
    if k == 1 {
      TracksFirst(tasks, ev);
    } else {
      RunTracks(tasks, ev, k - 1);
      if RunTo(ev, k - 1).Ok? {
        TracksNext(tasks, ev, k - 1, RunTo(ev, k - 1));
      }
    }
  }

  // ----- the weights add up -----

  function SumTo(weighted: map<nat, real>, n: nat): real {
    if n == 0 then 0.0
    else SumTo(weighted, n - 1) + (if n - 1 in weighted then weighted[n - 1] else 0.0)
  }

  lemma {:induction false} SumAdds(weighted: map<nat, real>, n: nat, i: nat, x: real)
    requires i !in weighted
    ensures SumTo(weighted[i := x], n) == SumTo(weighted, n) + (if i < n then x else 0.0)
  {
    if n > 0 {
      SumAdds(weighted, n - 1, i, x);
    }
  }

  /** The running total is the sum of the weights handed out. */
  lemma {:induction false} TotalIsSum(tasks: seq<Task>, ev: seq<Event>, k: nat)
    requires k <= |ev| && |ev| > 0 && Scheduled(tasks, ev) && RunTo(ev, k).Ok?
    ensures RunTo(ev, k).total == SumTo(RunTo(ev, k).weighted, |tasks|)
  {
    if k == 0 {
      SumEmpty(|tasks|);
    } else {
      TotalIsSum(tasks, ev, k - 1);
      var st, e := RunTo(ev, k - 1), ev[k - 1];
      if e.stop {
        assert IsEventOf(tasks, e);
        NotYetWeighted(tasks, ev, k - 1);
        SumAdds(st.weighted, |tasks|, e.task, Advanced(st, e.time) - st.running[e.task]);
      }
    }
  }

  lemma {:induction false} SumEmpty(n: nat)
    ensures SumTo(map[], n) == 0.0
  {
    if n > 0 {
      SumEmpty(n - 1);
    }
  }

  lemma NotYetWeighted(tasks: seq<Task>, ev: seq<Event>, k: nat)
    requires k < |ev| && Scheduled(tasks, ev) && RunTo(ev, k).Ok? && ev[k].stop
    ensures ev[k].task !in RunTo(ev, k).weighted
  {
    assert IsEventOf(tasks, ev[k]);
    if k > 0 {
      RunTracks(tasks, ev, k);
      assert KeyOk(tasks, ev, k, RunTo(ev, k), ev[k].task);
      SeenNext(ev, k, ev[k]);
    }
  }

  /** One part of size x for each of the first n tasks that is in the set. */
  function PartsTo(who: set<nat>, x: real, n: nat): real {
    if n == 0 then 0.0 else PartsTo(who, x, n - 1) + (if n - 1 in who then x else 0.0)
  }

  function Below(who: set<nat>, n: nat): set<nat> {
    set i | i in who && i < n
  }

  lemma OneMore(n: nat, x: real)
    ensures (n + 1) as real * x == n as real * x + x
  {
  }

  lemma {:induction false} PartsCount(who: set<nat>, x: real, n: nat)
    ensures PartsTo(who, x, n) == |Below(who, n)| as real * x
  {
    if n > 0 {
      PartsCount(who, x, n - 1);
      OneMore(|Below(who, n - 1)|, x);
      if n - 1 in who {
        assert Below(who, n) == Below(who, n - 1) + {n - 1};
      } else {
        assert Below(who, n) == Below(who, n - 1);
      }
    }
  }

  /** The parts of one stretch make up the stretch, if anyone runs in it. */
  lemma PartsMakeStretch(tasks: seq<Task>, a: real, b: real)
    requires a <= b
    ensures PartsTo(Running(tasks, a, b), Slice(tasks, a, b), |tasks|)
            == if Running(tasks, a, b) == {} then 0.0 else b - a
  {
    PartsCount(Running(tasks, a, b), Slice(tasks, a, b), |tasks|);
    assert Below(Running(tasks, a, b), |tasks|) == Running(tasks, a, b);
    PartBounds(b - a, |Running(tasks, a, b)|);
  }

  function SharesTo(tasks: seq<Task>, ts: seq<real>, m: nat, n: nat): real
    requires m < |ts|
  {
    if n == 0 then 0.0 else SharesTo(tasks, ts, m, n - 1) + Share(tasks, ts, n - 1, m)
  }

  lemma {:induction false} SharesStep(tasks: seq<Task>, ts: seq<real>, m: nat, n: nat)
    requires 0 < m < |ts|
    ensures SharesTo(tasks, ts, m, n)
            == SharesTo(tasks, ts, m - 1, n)
               + PartsTo(Running(tasks, ts[m - 1], ts[m]), Slice(tasks, ts[m - 1], ts[m]), n)
  {
    if n > 0 {
      SharesStep(tasks, ts, m, n - 1);
    }
  }

  lemma {:induction false} NoShares(tasks: seq<Task>, ts: seq<real>, n: nat)
    requires |ts| > 0
    ensures SharesTo(tasks, ts, 0, n) == 0.0
  {
    if n > 0 {
      NoShares(tasks, ts, n - 1);
    }
  }

  /** All shares together are the busy time. */
  lemma {:induction false} SharesAreBusy(tasks: seq<Task>, ts: seq<real>, m: nat)
    requires m < |ts| && Rising(ts)
    ensures SharesTo(tasks, ts, m, |tasks|) == BusyTo(tasks, ts, m)
  {
    if m == 0 {
      NoShares(tasks, ts, |tasks|);
    } else {
      SharesAreBusy(tasks, ts, m - 1);
      SharesStep(tasks, ts, m, |tasks|);
      PartsMakeStretch(tasks, ts[m - 1], ts[m]);
    }
  }

  // ----- bounds -----

  /** A share is never negative and never more than the part of the task's own time that has passed. */
  lemma {:induction false} ShareBounds(tasks: seq<Task>, ts: seq<real>, i: nat, m: nat)
    requires m < |ts| && Rising(ts) && i < |tasks| && tasks[i].start <= tasks[i].end
    ensures 0.0 <= Share(tasks, ts, i, m)
    ensures Share(tasks, ts, i, m)
            <= if ts[m] <= tasks[i].start then 0.0
               else if ts[m] <= tasks[i].end then ts[m] - tasks[i].start
               else tasks[i].end - tasks[i].start
  {
    if m > 0 {
      ShareBounds(tasks, ts, i, m - 1);
      PartBounds(ts[m] - ts[m - 1], |Running(tasks, ts[m - 1], ts[m])|);
    }
  }

  /** Some stretch of positive length has nobody running. */
  ghost predicate IdleBefore(tasks: seq<Task>, ts: seq<real>, m: nat)
    requires m < |ts|
  {
    exists j :: 0 <= j < m && ts[j] < ts[j + 1] && Running(tasks, ts[j], ts[j + 1]) == {}
  }

  /** The busy time is at most the elapsed time, and equal to it exactly when there is no idle stretch. */
  lemma {:induction false} BusyBounds(tasks: seq<Task>, ts: seq<real>, m: nat)
    requires m < |ts| && Rising(ts)
    ensures BusyTo(tasks, ts, m) <= ts[m] - ts[0]
    ensures BusyTo(tasks, ts, m) == ts[m] - ts[0] <==> !IdleBefore(tasks, ts, m)
  {
    if m > 0 {
      BusyBounds(tasks, ts, m - 1);
      var j := m - 1;
      assert ts[j] <= ts[j + 1];
      assert IdleBefore(tasks, ts, m) <==>
               IdleBefore(tasks, ts, m - 1) || (ts[j] < ts[j + 1] && Running(tasks, ts[j], ts[j + 1]) == {});
    }
  }

  // ----- the arrangement does not matter -----

  function Without(ev: seq<Event>, p: nat): seq<Event>
    requires p < |ev|
  {
    ev[..p] + ev[p + 1..]
  }

  lemma WithoutKeeps(ev: seq<Event>, p: nat)
    requires p < |ev| && InOrder(ev) && NoRepeats(ev)
    ensures InOrder(Without(ev, p)) && NoRepeats(Without(ev, p))
    ensures forall e :: e in Without(ev, p) <==> e in ev && e != ev[p]
  {
    var s := Without(ev, p);
    assert forall j :: 0 <= j < |s| ==> s[j] == ev[if j < p then j else j + 1];
    forall e ensures e in s <==> e in ev && e != ev[p] {
      if e in ev && e != ev[p] {
        var j :| 0 <= j < |ev| && ev[j] == e;
        assert s[if j < p then j else j - 1] == e;
      }
    }
  }

  /** Two arrangements of the same events show the same times in the same places. */
  lemma {:induction false} SameTimes(ev: seq<Event>, other: seq<Event>)
    requires InOrder(ev) && NoRepeats(ev) && InOrder(other) && NoRepeats(other)
    requires |ev| == |other| && forall e :: e in ev <==> e in other
    ensures forall j :: 0 <= j < |ev| ==> ev[j].time == other[j].time
    decreases |ev|
  {
    if ev != [] {
      var n := |ev| - 1;
      assert ev[n] in ev;
      var p :| 0 <= p < |other| && other[p] == ev[n];
      WithoutKeeps(ev, n);
      WithoutKeeps(other, p);
      var rest := Without(other, p);
      assert Without(ev, n) == ev[..n];
      SameTimes(ev[..n], rest);
      forall j | 0 <= j <= n ensures ev[j].time == other[j].time {
        LastTies(ev, other, p, j);
      }
    }
  }

  /** Everything after the place of a latest event happens at its time. */
  lemma LastTies(ev: seq<Event>, other: seq<Event>, p: nat, j: nat)
    requires |ev| == |other| > p && InOrder(ev) && InOrder(other) && ev[|ev| - 1] == other[p] && j < |ev|
    requires forall e :: e in ev <==> e in other
    requires forall q :: 0 <= q < |ev| - 1 ==> ev[q].time == Without(other, p)[q].time
    ensures ev[j].time == other[j].time
  {
    var n := |ev| - 1;
    var last := ev[n].time;
    forall q | p <= q <= n ensures other[q].time == last {
      assert other[q] in ev;
      var r :| 0 <= r < |ev| && ev[r] == other[q];
    }
    if j < n {
      assert Without(other, p)[j] == other[if j < p then j else j + 1];
    }
  }

  /** No result of the sweep depends on how events with equal keys are arranged. */
  lemma ArrangementIrrelevant(tasks: seq<Task>, ev: seq<Event>, other: seq<Event>)
    requires Scheduled(tasks, ev) && Scheduled(tasks, other)
    ensures Times(ev) == Times(other)
    ensures |ev| > 0 && RunTo(ev, |ev|).Ok? ==>
              && RunTo(other, |other|).Ok?
              && RunTo(other, |other|).weighted == RunTo(ev, |ev|).weighted
              && RunTo(other, |other|).total == RunTo(ev, |ev|).total
  {
    SameTimes(ev, other);
    assert Times(ev) == Times(other);
    if |ev| > 0 {
      SweepIsExact(tasks, ev);
      SweepIsExact(tasks, other);
      if RunTo(ev, |ev|).Ok? {
        var w, w' := RunTo(ev, |ev|).weighted, RunTo(other, |other|).weighted;
        assert w.Keys == w'.Keys;
        assert w == w';
      }
    }
  }

  // ----- the whole sweep -----

  lemma {:induction false} SumIsShares(tasks: seq<Task>, ts: seq<real>, weighted: map<nat, real>, n: nat)
    requires |ts| > 0 && n <= |tasks|
    requires forall i :: 0 <= i < n ==> i in weighted && weighted[i] == Share(tasks, ts, i, |ts| - 1)
    ensures SumTo(weighted, n) == SharesTo(tasks, ts, |ts| - 1, n)
  {
    if n > 0 {
      SumIsShares(tasks, ts, weighted, n - 1);
    }
  }

  /**
   The sweep fails exactly when some task ends before it starts.  Otherwise nothing is
   left running, every task receives its share, and the total is the busy time.
   */
  lemma SweepIsExact(tasks: seq<Task>, ev: seq<Event>)
    requires Scheduled(tasks, ev) && |ev| > 0
    ensures RunTo(ev, |ev|).Failed? <==> Backwards(tasks)
    ensures RunTo(ev, |ev|).Ok? ==>
              var st := RunTo(ev, |ev|);
              && st.running == map[]
              && (forall i :: i in st.weighted <==> 0 <= i < |tasks|)
              && (forall i :: 0 <= i < |tasks| ==> st.weighted[i] == Share(tasks, Times(ev), i, |ev| - 1))
              && st.total == BusyTo(tasks, Times(ev), |ev| - 1)
  {
    RunTracks(tasks, ev, |ev|);
    if RunTo(ev, |ev|).Ok? {
      AllStopped(tasks, ev);
      TotalIsBusy(tasks, ev);
    }
  }

  lemma TotalIsBusy(tasks: seq<Task>, ev: seq<Event>)
    requires Scheduled(tasks, ev) && |ev| > 0 && RunTo(ev, |ev|).Ok?
    ensures RunTo(ev, |ev|).total == BusyTo(tasks, Times(ev), |ev| - 1)
  {
    AllStopped(tasks, ev);
    TotalIsSum(tasks, ev, |ev|);
    TimesRise(ev);
    WeightsAreBusy(tasks, Times(ev), RunTo(ev, |ev|).weighted);
  }

  lemma WeightsAreBusy(tasks: seq<Task>, ts: seq<real>, weighted: map<nat, real>)
    requires |ts| > 0 && Rising(ts)
    requires forall i :: 0 <= i < |tasks| ==> i in weighted && weighted[i] == Share(tasks, ts, i, |ts| - 1)
    ensures SumTo(weighted, |tasks|) == BusyTo(tasks, ts, |ts| - 1)
  {
    SumIsShares(tasks, ts, weighted, |tasks|);
    SharesAreBusy(tasks, ts, |ts| - 1);
  }

  lemma {:induction false} WeightedInRange(tasks: seq<Task>, ev: seq<Event>, k: nat)
    requires k <= |ev| && |ev| > 0 && Scheduled(tasks, ev) && RunTo(ev, k).Ok?
    ensures forall i :: i in RunTo(ev, k).weighted ==> i < |tasks|
  {
    if k > 0 {
      WeightedInRange(tasks, ev, k - 1);
      assert IsEventOf(tasks, ev[k - 1]);
    }
  }

  lemma AllStopped(tasks: seq<Task>, ev: seq<Event>)
    requires Scheduled(tasks, ev) && |ev| > 0 && RunTo(ev, |ev|).Ok?
    ensures var st := RunTo(ev, |ev|);
            && st.running == map[]
            && (forall i :: i in st.weighted <==> 0 <= i < |tasks|)
            && (forall i :: 0 <= i < |tasks| ==> st.weighted[i] == Share(tasks, Times(ev), i, |ev| - 1))
            && !Backwards(tasks)
  {
    var st := RunTo(ev, |ev|);
    RunTracks(tasks, ev, |ev|);
    WeightedInRange(tasks, ev, |ev|);
    assert ev[..|ev|] == ev;
    forall i | 0 <= i < |tasks|
      ensures i in st.weighted && i !in st.running && tasks[i].start <= tasks[i].end
      ensures st.weighted[i] == Share(tasks, Times(ev), i, |ev| - 1)
    {
      assert IsEventOf(tasks, EventOf(tasks, i, true));
      assert KeyOk(tasks, ev, |ev|, st, i);
      assert Received(st, i) == Share(tasks, Times(ev), i, |ev| - 1);
    }
    assert st.running.Keys == {};
  }

  // ----- building and sorting the events -----

  function Events(tasks: seq<Task>, n: nat): (ev: seq<Event>)
    requires n <= |tasks|
    ensures |ev| == 2 * n
  {
    if n == 0 then [] else Events(tasks, n - 1) + [EventOf(tasks, n - 1, false), EventOf(tasks, n - 1, true)]
  }

  lemma {:induction false} EventsAre(tasks: seq<Task>, n: nat)
    requires n <= |tasks|
    ensures NoRepeats(Events(tasks, n))
    ensures forall e :: e in Events(tasks, n) <==> e.task < n && IsEventOf(tasks, e)
  {
    if n > 0 {
      EventsAre(tasks, n - 1);
      TwoMore(Events(tasks, n - 1), EventOf(tasks, n - 1, false), EventOf(tasks, n - 1, true));
    }
  }

  lemma TwoMore(before: seq<Event>, x: Event, y: Event)
    requires NoRepeats(before) && x !in before && y !in before && x != y
    ensures NoRepeats(before + [x, y]) && forall e :: e in before + [x, y] <==> e in before || e == x || e == y
  {
    assert forall j :: 0 <= j < |before| ==> before[j] in before;
  }

  lemma {:induction false} SortNoRepeats(s: seq<Event>)
    requires NoRepeats(s)
    ensures NoRepeats(SortBy(s, NotAfter))
  {
    if s != [] {
      var front, last := s[..|s| - 1], s[|s| - 1];
      SortNoRepeats(front);
      SortMembers(front, NotAfter, last);
      InsertNoRepeats(SortBy(front, NotAfter), last);
    }
  }

  lemma {:induction false} InsertNoRepeats(s: seq<Event>, e: Event)
    requires NoRepeats(s) && e !in s
    ensures NoRepeats(InsertBy(s, e, NotAfter))
  {
    if s != [] && !NotAfter(s[|s| - 1], e) {
      var front, last := s[..|s| - 1], s[|s| - 1];
      InsertNoRepeats(front, e);
      InsertMembers(front, e, NotAfter, last);
    }
  }

  /** The events of all tasks in the order the sweep takes them. */
  function SortedEvents(tasks: seq<Task>): (ev: seq<Event>)
    ensures |ev| == 2 * |tasks|
  {
    SortBy(Events(tasks, |tasks|), NotAfter)
  }

  /** The sorted event list is an arrangement of all events. */
  lemma SortedIsScheduled(tasks: seq<Task>)
    ensures Scheduled(tasks, SortedEvents(tasks))
  {
    EventsAre(tasks, |tasks|);
    var events := Events(tasks, |tasks|);
    SortSorted(events, NotAfter);
    SortNoRepeats(events);
    forall e ensures e in SortedEvents(tasks) <==> e in events {
      SortMembers(events, NotAfter, e);
    }
  }

  // ----- the imperative report -----

  class Target {
    const start: real
    const end: real
    var weighted: real

    constructor (start: real, end: real)
      ensures this.start == start && this.end == end && weighted == 0.0
    {
      this.start, this.end, weighted := start, end, 0.0;
    }
  }

  function TasksOf(targets: seq<Target>): (tasks: seq<Task>)
    ensures |tasks| == |targets|
  {
    seq(|targets|, i requires 0 <= i < |targets| => Task(targets[i].start, targets[i].end))
  }

  ghost predicate Distinct(targets: seq<Target>) {
    forall i, j :: 0 <= i < j < |targets| ==> targets[i] != targets[j]
  }

  ghost predicate Holds(targets: seq<Target>, weighted: map<nat, real>)
    reads targets
  {
    forall i :: i in weighted ==> i < |targets| && targets[i].weighted == weighted[i]
  }

  /** One turn of the loop: nothing is returned when a stop does not find its start. */
  method OnEvent(targets: seq<Target>, e: Event, running: map<nat, real>, last: real, acc: real, total: real,
                 ghost weighted: map<nat, real>)
    returns (next: Option<(map<nat, real>, real, real)>, ghost weighted': map<nat, real>)
    requires Distinct(targets) && e.task < |targets| && Holds(targets, weighted)
    modifies targets
    ensures Holds(targets, weighted')
    ensures Handle(Ok(running, last, acc, total, weighted), e)
            == if next.None? then Failed else Ok(next.value.0, e.time, next.value.1, next.value.2, weighted')
  {
    var acc' := acc;
    if |running| > 0 {
      acc' := acc + (e.time - last) / |running| as real;
    }
    weighted' := weighted;
    if !e.stop {
      return Some((running[e.task := acc'], acc', total)), weighted;
    }
    if e.task !in running {
      return None, weighted;
    }
    var weight := acc' - running[e.task];
    targets[e.task].weighted := weight;
    weighted' := weighted[e.task := weight];
    return Some((running - {e.task}, acc', total + weight)), weighted';
  }

  /** The loop over the events; None is the lookup failure of a stop without its start. */
  method Sweep(targets: seq<Target>, ev: seq<Event>) returns (total: Option<real>)
    requires Distinct(targets) && Scheduled(TasksOf(targets), ev) && |ev| > 0
    modifies targets
    ensures total.None? <==> Backwards(TasksOf(targets))
    ensures total.Some? ==> total.value == BusyTo(TasksOf(targets), Times(ev), |ev| - 1)
    ensures total.Some? ==> forall i :: 0 <= i < |targets| ==>
              targets[i].weighted == Share(TasksOf(targets), Times(ev), i, |ev| - 1)
  {
    var running: map<nat, real> := map[];
    var last, acc, sum := ev[0].time, 0.0, 0.0;
    ghost var weighted: map<nat, real> := map[];
    for k := 0 to |ev|
      invariant RunTo(ev, k) == Ok(running, last, acc, sum, weighted)
      invariant Holds(targets, weighted)
    {
      assert IsEventOf(TasksOf(targets), ev[k]);
      var next;
      next, weighted := OnEvent(targets, ev[k], running, last, acc, sum, weighted);
      if next.None? {
        FailsForGood(ev, k + 1, |ev|);
        SweepIsExact(TasksOf(targets), ev);
        return None;
      }
      running, acc, sum := next.value.0, next.value.1, next.value.2;
      last := ev[k].time;
    }
    SweepIsExact(TasksOf(targets), ev);
    return Some(sum);
  }

  lemma {:induction false} FailsForGood(ev: seq<Event>, k: nat, n: nat)
    requires 0 < k <= n <= |ev| && RunTo(ev, k).Failed?
    ensures RunTo(ev, n).Failed?
  {
    if k < n {
      FailsForGood(ev, k, n - 1);
    }
  }

  // ----- earliest start, latest end -----

  function Earliest(tasks: seq<Task>, n: nat): real
    requires n <= |tasks|
  {
    if n == 0 then -1.0
    else if Earliest(tasks, n - 1) < 0.0 || tasks[n - 1].start < Earliest(tasks, n - 1) then tasks[n - 1].start
    else Earliest(tasks, n - 1)
  }

  function Latest(tasks: seq<Task>, n: nat): real
    requires n <= |tasks|
  {
    if n == 0 then 0.0 else if tasks[n - 1].end > Latest(tasks, n - 1) then tasks[n - 1].end else Latest(tasks, n - 1)
  }

  function CpuTime(tasks: seq<Task>, n: nat): real
    requires n <= |tasks|
  {
    if n == 0 then 0.0 else CpuTime(tasks, n - 1) + (tasks[n - 1].end - tasks[n - 1].start)
  }

  // ----- processor time -----

  /** How much of the first m stretches task i covers. */
  function CoveredTo(tasks: seq<Task>, ts: seq<real>, i: nat, m: nat): real
    requires m < |ts|
  {
    if m == 0 then 0.0
    else CoveredTo(tasks, ts, i, m - 1) + (if i in Running(tasks, ts[m - 1], ts[m]) then ts[m] - ts[m - 1] else 0.0)
  }

  /** The stretches, each as often as tasks run in it. */
  function LoadTo(tasks: seq<Task>, ts: seq<real>, m: nat): real
    requires m < |ts|
  {
    if m == 0 then 0.0
    else LoadTo(tasks, ts, m - 1) + |Running(tasks, ts[m - 1], ts[m])| as real * (ts[m] - ts[m - 1])
  }

  /** Up to any time a task has covered the part of its own time that has passed. */
  lemma {:induction false} CoveredIs(tasks: seq<Task>, ts: seq<real>, i: nat, m: nat)
    requires m < |ts| && Rising(ts) && CutsAll(tasks, ts) && i < |tasks| && tasks[i].start <= tasks[i].end
    ensures CoveredTo(tasks, ts, i, m)
            == if ts[m] <= tasks[i].start then 0.0
               else if ts[m] <= tasks[i].end then ts[m] - tasks[i].start
               else tasks[i].end - tasks[i].start
  {
    var s :| 0 <= s < |ts| && ts[s] == tasks[i].start;
    var e :| 0 <= e < |ts| && ts[e] == tasks[i].end;
    if m > 0 {
      CoveredIs(tasks, ts, i, m - 1);
    }
  }

  function CoverageTo(tasks: seq<Task>, ts: seq<real>, m: nat, n: nat): real
    requires m < |ts|
  {
    if n == 0 then 0.0 else CoverageTo(tasks, ts, m, n - 1) + CoveredTo(tasks, ts, n - 1, m)
  }

  lemma {:induction false} CoverageStep(tasks: seq<Task>, ts: seq<real>, m: nat, n: nat)
    requires 0 < m < |ts|
    ensures CoverageTo(tasks, ts, m, n)
            == CoverageTo(tasks, ts, m - 1, n) + PartsTo(Running(tasks, ts[m - 1], ts[m]), ts[m] - ts[m - 1], n)
  {
    if n > 0 {
      CoverageStep(tasks, ts, m, n - 1);
    }
  }

  lemma {:induction false} NoCoverage(tasks: seq<Task>, ts: seq<real>, n: nat)
    requires |ts| > 0
    ensures CoverageTo(tasks, ts, 0, n) == 0.0
  {
    if n > 0 {
      NoCoverage(tasks, ts, n - 1);
    }
  }

  lemma {:induction false} CoverageIsLoad(tasks: seq<Task>, ts: seq<real>, m: nat)
    requires m < |ts|
    ensures CoverageTo(tasks, ts, m, |tasks|) == LoadTo(tasks, ts, m)
  {
    if m == 0 {
      NoCoverage(tasks, ts, |tasks|);
    } else {
      CoverageIsLoad(tasks, ts, m - 1);
      CoverageStep(tasks, ts, m, |tasks|);
      StretchLoad(tasks, ts[m - 1], ts[m], ts[m] - ts[m - 1]);
    }
  }

  lemma StretchLoad(tasks: seq<Task>, a: real, b: real, x: real)
    ensures PartsTo(Running(tasks, a, b), x, |tasks|) == |Running(tasks, a, b)| as real * x
  {
    PartsCount(Running(tasks, a, b), x, |tasks|);
    assert Below(Running(tasks, a, b), |tasks|) == Running(tasks, a, b);
  }

  lemma TaskCovered(tasks: seq<Task>, ts: seq<real>, i: nat)
    requires ts != [] && Rising(ts) && CutsAll(tasks, ts) && i < |tasks|
    requires tasks[i].start <= tasks[i].end <= ts[|ts| - 1]
    ensures CoveredTo(tasks, ts, i, |ts| - 1) == tasks[i].end - tasks[i].start
  {
    CoveredIs(tasks, ts, i, |ts| - 1);
  }

  lemma {:induction false} CpuIsCoverage(tasks: seq<Task>, ts: seq<real>, n: nat)
    requires ts != [] && n <= |tasks|
    requires forall i :: 0 <= i < n ==> CoveredTo(tasks, ts, i, |ts| - 1) == tasks[i].end - tasks[i].start
    ensures CpuTime(tasks, n) == CoverageTo(tasks, ts, |ts| - 1, n)
  {
    if n > 0 {
      CpuIsCoverage(tasks, ts, n - 1);
    }
  }

  lemma EndPassed(tasks: seq<Task>, ev: seq<Event>, i: nat)
    requires Scheduled(tasks, ev) && i < |tasks|
    ensures |ev| > 0 && tasks[i].end <= Times(ev)[|ev| - 1]
  {
    assert IsEventOf(tasks, EventOf(tasks, i, true));
    var q :| 0 <= q < |ev| && ev[q] == EventOf(tasks, i, true);
  }

  lemma LoadOf(tasks: seq<Task>, ts: seq<real>)
    requires ts != [] && Rising(ts) && CutsAll(tasks, ts)
    requires forall i :: 0 <= i < |tasks| ==> tasks[i].start <= tasks[i].end <= ts[|ts| - 1]
    ensures CpuTime(tasks, |tasks|) == LoadTo(tasks, ts, |ts| - 1)
  {
    forall i | 0 <= i < |tasks| ensures CoveredTo(tasks, ts, i, |ts| - 1) == tasks[i].end - tasks[i].start {
      TaskCovered(tasks, ts, i);
    }
    CpuIsCoverage(tasks, ts, |tasks|);
    CoverageIsLoad(tasks, ts, |ts| - 1);
  }

  /** The processor time is the sum over all stretches of their length times the number of tasks running in them. */
  lemma CpuIsLoad(tasks: seq<Task>, ev: seq<Event>)
    requires Scheduled(tasks, ev) && |ev| > 0 && !Backwards(tasks)
    ensures CpuTime(tasks, |tasks|) == LoadTo(tasks, Times(ev), |ev| - 1)
  {
    TimesCut(tasks, ev);
    forall i | 0 <= i < |tasks| ensures tasks[i].start <= tasks[i].end <= Times(ev)[|ev| - 1] {
      EndPassed(tasks, ev, i);
    }
    LoadOf(tasks, Times(ev));
  }

  ghost predicate IsFirstStart(tasks: seq<Task>, n: nat, x: real)
    requires n <= |tasks|
  {
    (exists i :: 0 <= i < n && tasks[i].start == x) && forall i :: 0 <= i < n ==> x <= tasks[i].start
  }

  ghost predicate IsLastEnd(tasks: seq<Task>, n: nat, x: real)
    requires n <= |tasks|
  {
    (exists i :: 0 <= i < n && tasks[i].end == x) && forall i :: 0 <= i < n ==> tasks[i].end <= x
  }

  ghost predicate StartsFromZero(tasks: seq<Task>, n: nat)
    requires n <= |tasks|
  {
    forall i :: 0 <= i < n ==> tasks[i].start >= 0.0
  }

  /**
   The value kept as earliest is a start seen so far, and is the smallest one exactly when
   no start is negative or the last start is the smallest.
   */
  lemma {:induction false} EarliestIff(tasks: seq<Task>, n: nat)
    requires 0 < n <= |tasks|
    ensures exists i :: 0 <= i < n && tasks[i].start == Earliest(tasks, n)
    ensures IsFirstStart(tasks, n, Earliest(tasks, n))
            <==> StartsFromZero(tasks, n) || IsFirstStart(tasks, n, tasks[n - 1].start)
    ensures StartsFromZero(tasks, n) ==> Earliest(tasks, n) >= 0.0
  {
    if n == 1 {
      assert tasks[0].start == Earliest(tasks, 1);
    } else {
      EarliestIff(tasks, n - 1);
      if StartsFromZero(tasks, n) {
        assert StartsFromZero(tasks, n - 1);
      } else {
        EarliestNegative(tasks, n);
      }
    }
  }

  lemma EarliestNegative(tasks: seq<Task>, n: nat)
    requires 1 < n <= |tasks| && !StartsFromZero(tasks, n)
    ensures IsFirstStart(tasks, n, Earliest(tasks, n)) <==> IsFirstStart(tasks, n, tasks[n - 1].start)
  {
    var i :| 0 <= i < n && tasks[i].start < 0.0;
    if IsFirstStart(tasks, n, Earliest(tasks, n)) {
      assert Earliest(tasks, n) < 0.0;
    }
  }

  /** Two starts before zero, the smaller one first: the larger one is kept. */
  lemma EarliestWitness()
    ensures var tasks := [Task(-2.0, 0.0), Task(-1.0, 0.0)];
            Earliest(tasks, 2) == -1.0 && !IsFirstStart(tasks, 2, Earliest(tasks, 2))
  {
    var tasks := [Task(-2.0, 0.0), Task(-1.0, 0.0)];
    assert Earliest(tasks, 1) == -2.0;
    assert tasks[0].start < tasks[1].start;
  }

  lemma {:induction false} LatestIsLargest(tasks: seq<Task>, n: nat)
    requires n <= |tasks|
    ensures 0.0 <= Latest(tasks, n) && forall i :: 0 <= i < n ==> tasks[i].end <= Latest(tasks, n)
    ensures Latest(tasks, n) == 0.0 || exists i :: 0 <= i < n && tasks[i].end == Latest(tasks, n)
  {
    if n > 0 {
      LatestIsLargest(tasks, n - 1);
      if tasks[n - 1].end <= Latest(tasks, n - 1) && Latest(tasks, n - 1) != 0.0 {
        var i :| 0 <= i < n - 1 && tasks[i].end == Latest(tasks, n - 1);
        assert tasks[i].end == Latest(tasks, n);
      }
    }
  }

  ghost predicate SomeEndFromZero(tasks: seq<Task>, n: nat)
    requires n <= |tasks|
  {
    exists i :: 0 <= i < n && tasks[i].end >= 0.0
  }

  /** The value kept as latest is the last end exactly when some end is not negative. */
  lemma LatestIff(tasks: seq<Task>, n: nat)
    requires n <= |tasks|
    ensures IsLastEnd(tasks, n, Latest(tasks, n)) <==> SomeEndFromZero(tasks, n)
  {
    LatestIsLargest(tasks, n);
    if SomeEndFromZero(tasks, n) {
      var i :| 0 <= i < n && tasks[i].end >= 0.0;
      if Latest(tasks, n) == 0.0 {
        assert tasks[i].end == Latest(tasks, n);
      }
    }
  }

  /** All ends before zero: the latest stays at zero, which is no end. */
  lemma LatestWitness()
    ensures var tasks := [Task(-2.0, -1.0)]; Latest(tasks, 1) == 0.0 && !IsLastEnd(tasks, 1, Latest(tasks, 1))
  {
    assert [Task(-2.0, -1.0)][0].end == -1.0;
  }

  /** The first sorted time is the smallest start, the last one the largest end. */
  lemma SpanOfTimes(tasks: seq<Task>, ev: seq<Event>)
    requires Scheduled(tasks, ev) && |ev| > 0 && !Backwards(tasks)
    ensures IsFirstStart(tasks, |tasks|, Times(ev)[0]) && IsLastEnd(tasks, |tasks|, Times(ev)[|ev| - 1])
  {
    var e, f := ev[0], ev[|ev| - 1];
    assert IsEventOf(tasks, e) && IsEventOf(tasks, f);
    forall i | 0 <= i < |tasks| ensures e.time <= tasks[i].start && tasks[i].end <= f.time {
      assert IsEventOf(tasks, EventOf(tasks, i, false)) && IsEventOf(tasks, EventOf(tasks, i, true));
      var p :| 0 <= p < |ev| && ev[p] == EventOf(tasks, i, false);
      var q :| 0 <= q < |ev| && ev[q] == EventOf(tasks, i, true);
    }
    assert tasks[e.task].start == e.time;
    assert tasks[f.task].end == f.time;
  }

  /** What a caller can check: the kept bounds are the first start and the last end. */
  ghost predicate LengthExact(tasks: seq<Task>)
    requires tasks != []
  {
    && (StartsFromZero(tasks, |tasks|) || IsFirstStart(tasks, |tasks|, tasks[|tasks| - 1].start))
    && SomeEndFromZero(tasks, |tasks|)
  }

  /** The sweep runs from the kept earliest start to the kept latest end exactly when those are right. */
  lemma LengthIsSpan(tasks: seq<Task>, ev: seq<Event>)
    requires Scheduled(tasks, ev) && |ev| > 0 && !Backwards(tasks)
    ensures Times(ev)[0] == Earliest(tasks, |tasks|) && Times(ev)[|ev| - 1] == Latest(tasks, |tasks|)
            <==> LengthExact(tasks)
  {
    EarliestIff(tasks, |tasks|);
    LatestIff(tasks, |tasks|);
    SpanOfTimes(tasks, ev);
  }

  /** Every weight lies between zero and the task's own duration. */
  lemma WeightWithinDuration(tasks: seq<Task>, ev: seq<Event>, i: nat)
    requires Scheduled(tasks, ev) && |ev| > 0 && i < |tasks| && tasks[i].start <= tasks[i].end
    ensures 0.0 <= Share(tasks, Times(ev), i, |ev| - 1) <= tasks[i].end - tasks[i].start
  {
    TimesRise(ev);
    ShareBounds(tasks, Times(ev), i, |ev| - 1);
  }

  /** The weights sum to the length of the build exactly when it was never idle, and never to more. */
  lemma TotalAgainstLength(tasks: seq<Task>, ev: seq<Event>)
    requires Scheduled(tasks, ev) && |ev| > 0 && !Backwards(tasks) && LengthExact(tasks)
    ensures BusyTo(tasks, Times(ev), |ev| - 1) <= Latest(tasks, |tasks|) - Earliest(tasks, |tasks|)
    ensures BusyTo(tasks, Times(ev), |ev| - 1) == Latest(tasks, |tasks|) - Earliest(tasks, |tasks|)
            <==> !IdleBefore(tasks, Times(ev), |ev| - 1)
  {
    LengthIsSpan(tasks, ev);
    BusyWithin(tasks, ev);
  }

  lemma BusyWithin(tasks: seq<Task>, ev: seq<Event>)
    requires InOrder(ev) && |ev| > 0
    ensures var ts, m := Times(ev), |ev| - 1;
            && BusyTo(tasks, ts, m) <= ts[m] - ts[0]
            && (BusyTo(tasks, ts, m) == ts[m] - ts[0] <==> !IdleBefore(tasks, ts, m))
  {
    TimesRise(ev);
    BusyBounds(tasks, Times(ev), |ev| - 1);
  }

  datatype Summary = Summary(length: real, cpu: real, weighted: real)

  /** The first loop: bounds, processor time and the event list. */
  method CollectEvents(targets: seq<Target>) returns (earliest: real, latest: real, cpu: real, events: seq<Event>)
    ensures var tasks := TasksOf(targets);
            && earliest == Earliest(tasks, |tasks|) && latest == Latest(tasks, |tasks|)
            && cpu == CpuTime(tasks, |tasks|) && events == Events(tasks, |tasks|)
  {
    var tasks := TasksOf(targets);
    earliest, latest, cpu, events := -1.0, 0.0, 0.0, [];
    for n := 0 to |targets|
      invariant earliest == Earliest(tasks, n) && latest == Latest(tasks, n)
      invariant cpu == CpuTime(tasks, n) && events == Events(tasks, n)
    {
      var target := targets[n];
      if earliest < 0.0 || target.start < earliest {
        earliest := target.start;
      }
      if target.end > latest {
        latest := target.end;
      }
      cpu := cpu + (target.end - target.start);
      events := events + [Event(target.start, false, n), Event(target.end, true, n)];
    }
  }

  /** Sorting the collected events and sweeping over them. */
  method SweepSorted(targets: seq<Target>, events: seq<Event>, ghost tasks: seq<Task>) returns (total: Option<real>)
    requires Distinct(targets) && tasks == TasksOf(targets) && tasks != [] && events == Events(tasks, |tasks|)
    modifies targets
    ensures total.None? <==> Backwards(tasks)
    ensures var ev := SortedEvents(tasks);
            total.Some? ==> total.value == BusyTo(tasks, Times(ev), |ev| - 1)
                            && forall i :: 0 <= i < |targets| ==>
                                 targets[i].weighted == Share(tasks, Times(ev), i, |ev| - 1)
  {
    SortedIsScheduled(tasks);
    total := Sweep(targets, SortBy(events, NotAfter));
  }

  /** The report fails on an empty list and on a task that ends before it starts, and only then. */
  method SummarizeEntries(targets: seq<Target>) returns (r: Option<Summary>)
    requires Distinct(targets)
    modifies targets
    ensures r.None? <==> targets == [] || Backwards(TasksOf(targets))
    ensures r.Some? ==>
              var tasks := TasksOf(targets);
              var ev := SortedEvents(tasks);
              && r.value.length == Latest(tasks, |tasks|) - Earliest(tasks, |tasks|)
              && r.value.cpu == CpuTime(tasks, |tasks|)
              && r.value.weighted == BusyTo(tasks, Times(ev), |ev| - 1)
              && forall i :: 0 <= i < |targets| ==> targets[i].weighted == Share(tasks, Times(ev), i, |ev| - 1)
  {
    var earliest, latest, cpu, events := CollectEvents(targets);
    if events == [] {
      return None;
    }
    var total := SweepSorted(targets, events, TasksOf(targets));
    return if total.None? then None else Some(Summary(latest - earliest, cpu, total.value));
  }
}
