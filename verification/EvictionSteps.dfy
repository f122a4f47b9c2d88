/**
 The two imperative ends of the eviction protocol: the worker's post-step hook,
 which scans the batch and nulls block-table entries, and the scheduler's
 reclaim loop, which frees the blocks behind them (vllm/kv_evict/integration.py).
 */
module EvictionSteps {
  import opened Arith
  import opened BlockTable
  import opened EvictionProtocol
  import opened Seqs
  import opened Wrappers
  import S = Selection

  // ----- worker side -----

  datatype Config = Config(budget: int, locals: nat, every: nat, margin: int)

  function RealCount(row: seq<int>): nat {
    |S.RealPositions(row)|
  }

  function TotalReal(rows: seq<seq<int>>): nat {
    if rows == [] then 0 else TotalReal(rows[..|rows| - 1]) + RealCount(rows[|rows| - 1])
  }

  lemma {:induction false} TotalRealUpdate(rows: seq<seq<int>>, i: nat, row: seq<int>)
    requires i < |rows|
    ensures TotalReal(rows[i := row]) == TotalReal(rows) - RealCount(rows[i]) + RealCount(row)
  {
    var last := |rows| - 1;
    if i == last {
      assert rows[i := row][..last] == rows[..last];
    } else {
      assert rows[i := row][..last] == rows[..last][i := row];
      TotalRealUpdate(rows[..last], i, row);
    }
  }

  /** The rows over budget, in order. */
  function OverRows(rows: seq<seq<int>>, budget: int, n: nat): (r: seq<nat>)
    requires n <= |rows|
    ensures forall x :: 0 <= x < |r| ==> r[x] < n && RealCount(rows[r[x]]) > budget
    ensures forall x, y :: 0 <= x < y < |r| ==> r[x] < r[y]
    ensures forall i :: 0 <= i < n && RealCount(rows[i]) > budget ==> i in r
  {
    if n == 0 then []
    else
      var init := OverRows(rows, budget, n - 1);
      if RealCount(rows[n - 1]) > budget then init + [n - 1] else init
  }

  /** Eviction waits while the step counter is off the period and no row is `margin` over budget. */
  ghost predicate Deferred(rows: seq<seq<int>>, c: Config, step: nat)
    requires c.every > 0
  {
    step % c.every != 0 && NoneFarOver(rows, c)
  }

  ghost predicate NoneFarOver(rows: seq<seq<int>>, c: Config) {
    forall i :: 0 <= i < |rows| && RealCount(rows[i]) > c.budget ==> RealCount(rows[i]) - c.budget < c.margin
  }

  /** The scored batch one step works on. */
  datatype Batch = Batch(
    rows: seq<seq<int>>,
    reqs: seq<Option<string>>,
    sinks: seq<nat>,
    scores: seq<seq<real>>,
    group: nat)

  predicate BatchOk(b: Batch) {
    && |b.reqs| == |b.sinks| == |b.scores| == |b.rows|
    && forall i :: 0 <= i < |b.rows| ==> |b.scores[i]| == RealCount(b.rows[i])
  }

  function EvictedSlots(b: Batch, c: Config, i: nat): seq<Slot>
    requires BatchOk(b) && i < |b.rows|
  {
    if b.reqs[i] == None then []
    else Slots(Key(b.reqs[i].value, b.group), S.Evicted(b.rows[i], b.sinks[i], c.locals, c.budget, b.scores[i]))
  }

  function RowAfter(b: Batch, c: Config, i: nat): seq<int>
    requires BatchOk(b) && i < |b.rows|
  {
    if b.reqs[i] == None then b.rows[i]
    else S.AfterEviction(b.rows[i], b.sinks[i], c.locals, c.budget, b.scores[i])
  }

  /** Every row as it would be after its own eviction. */
  function Afters(b: Batch, c: Config): (r: seq<seq<int>>)
    requires BatchOk(b)
    ensures |r| == |b.rows| && forall i :: 0 <= i < |r| ==> r[i] == RowAfter(b, c, i)
  {
    seq(|b.rows|, i requires 0 <= i < |b.rows| => RowAfter(b, c, i))
  }

  /** The slots every row would lose. */
  function Losses(b: Batch, c: Config): (r: seq<seq<Slot>>)
    requires BatchOk(b)
    ensures |r| == |b.rows| && forall i :: 0 <= i < |r| ==> r[i] == EvictedSlots(b, c, i)
  {
    seq(|b.rows|, i requires 0 <= i < |b.rows| => EvictedSlots(b, c, i))
  }

  /** The slots evicted from the listed rows, row after row. */
  function BatchSlots(b: Batch, c: Config, over: seq<nat>): seq<Slot>
    requires BatchOk(b) && forall x :: 0 <= x < |over| ==> over[x] < |b.rows|
  {
    Gather(Losses(b, c), over)
  }

  /** The batch after the listed rows were evicted, one after the other. */
  function RowsAfter(b: Batch, c: Config, over: seq<nat>): (r: seq<seq<int>>)
    requires BatchOk(b) && forall x :: 0 <= x < |over| ==> over[x] < |b.rows|
    ensures |r| == |b.rows|
  {
    Overlay(b.rows, Afters(b, c), over)
  }

  /** A row within budget loses nothing. */
  lemma WithinBudgetUntouched(b: Batch, c: Config, i: nat)
    requires BatchOk(b) && i < |b.rows| && RealCount(b.rows[i]) <= c.budget
    ensures RowAfter(b, c, i) == b.rows[i]
  {
  }

  /** A row's real blocks are conserved: what leaves the row is queued. */
  lemma RowConserves(b: Batch, c: Config, i: nat)
    requires BatchOk(b) && i < |b.rows|
    ensures RealCount(RowAfter(b, c, i)) + |EvictedSlots(b, c, i)| == RealCount(b.rows[i])
  {
    if b.reqs[i] != None {
      S.EvictedDistinctReal(b.rows[i], b.sinks[i], c.locals, c.budget, b.scores[i]);
      S.NullOutCount(b.rows[i], S.Evicted(b.rows[i], b.sinks[i], c.locals, c.budget, b.scores[i]));
    }
  }

  /** The worker's fields after the rows `done` were evicted; `queue` was pending before. */
  ghost predicate Evicting(b: Batch, c: Config, done: seq<nat>,
                           rows: seq<seq<int>>, pending: seq<Slot>, queue: seq<Slot>)
    requires BatchOk(b) && forall x :: 0 <= x < |done| ==> done[x] < |b.rows|
  {
    rows == RowsAfter(b, c, done) && pending == queue + BatchSlots(b, c, done)
  }

  lemma EvictingStep(b: Batch, c: Config, done: seq<nat>, i: nat,
                     rows: seq<seq<int>>, pending: seq<Slot>, queue: seq<Slot>)
    requires BatchOk(b) && i < |b.rows| && i !in done && forall x :: 0 <= x < |done| ==> done[x] < |b.rows|
    requires Evicting(b, c, done, rows, pending, queue)
    ensures |rows| == |b.rows| && rows[i] == b.rows[i]
    ensures Evicting(b, c, done + [i], rows[i := RowAfter(b, c, i)], pending + EvictedSlots(b, c, i), queue)
  {
    OverlayAt(b.rows, Afters(b, c), done, i);
    OverlaySnoc(b.rows, Afters(b, c), done, i);
    GatherSnoc(Losses(b, c), done, i);
    ConcatAssoc(queue, BatchSlots(b, c, done), EvictedSlots(b, c, i));
  }

  /** Eviction conserves blocks: what leaves the rows is queued for the scheduler, nothing else. */
  lemma {:induction false} BatchConserves(b: Batch, c: Config, over: seq<nat>)
    requires BatchOk(b) && forall x :: 0 <= x < |over| ==> over[x] < |b.rows|
    requires forall x, y :: 0 <= x < y < |over| ==> over[x] < over[y]
    ensures TotalReal(RowsAfter(b, c, over)) + |BatchSlots(b, c, over)| == TotalReal(b.rows)
  {
    if over != [] {
      var done, i := over[..|over| - 1], over[|over| - 1];
      BatchConserves(b, c, done);
      OverlayAt(b.rows, Afters(b, c), done, i);
      RowConserves(b, c, i);
      TotalRealUpdate(RowsAfter(b, c, done), i, RowAfter(b, c, i));
    }
  }

  // ----- counting evictions per request -----

  function CountFor(slots: seq<Slot>, req: string): nat {
    if slots == [] then 0
    else CountFor(slots[..|slots| - 1], req) + (if slots[|slots| - 1].key.req == req then 1 else 0)
  }

  lemma {:induction false} CountForConcat(a: seq<Slot>, b: seq<Slot>, req: string)
    ensures CountFor(a + b, req) == CountFor(a, req) + CountFor(b, req)
  {
    if b == [] {
      assert a + b == a;
    } else {
      var last := |b| - 1;
      assert (a + b)[..|a + b| - 1] == a + b[..last];
      CountForConcat(a, b[..last], req);
    }
  }

  lemma {:induction false} CountForSlots(key: Key, js: seq<nat>, req: string)
    ensures CountFor(Slots(key, js), req) == if key.req == req then |js| else 0
  {
    if js != [] {
      var last := |js| - 1;
      assert Slots(key, js)[..last] == Slots(key, js[..last]);
      CountForSlots(key, js[..last], req);
    }
  }

  /** The places of a queue that name the request. */
  function PlacesOf(slots: seq<Slot>, req: string): set<nat> {
    set i: nat | i < |slots| && slots[i].key.req == req
  }

  lemma {:induction false} CountForIs(slots: seq<Slot>, req: string)
    ensures CountFor(slots, req) == |PlacesOf(slots, req)|
  {
    if slots == [] {
      assert PlacesOf(slots, req) == {};
    } else {
      var last := |slots| - 1;
      CountForIs(slots[..last], req);
      if slots[last].key.req == req {
        assert PlacesOf(slots, req) == PlacesOf(slots[..last], req) + {last};
      } else {
        assert PlacesOf(slots, req) == PlacesOf(slots[..last], req);
      }
    }
  }

  function Recorded(byReq: map<string, nat>, req: string): nat {
    if req in byReq then byReq[req] else 0
  }

  /** The per-request counts hold what the queue held before and every slot queued since. */
  ghost predicate Counted(byReq: map<string, nat>, before: map<string, nat>, slots: seq<Slot>) {
    forall req :: Recorded(byReq, req) == Recorded(before, req) + CountFor(slots, req)
  }

  lemma CountedMore(byReq: map<string, nat>, before: map<string, nat>, slots: seq<Slot>, key: Key, js: seq<nat>)
    requires Counted(byReq, before, slots)
    ensures Counted(byReq[key.req := Recorded(byReq, key.req) + |js|], before, slots + Slots(key, js))
    ensures js == [] ==> Counted(byReq, before, slots + Slots(key, js))
  {
    var now := byReq[key.req := Recorded(byReq, key.req) + |js|];
    forall req ensures Recorded(now, req) == Recorded(before, req) + CountFor(slots + Slots(key, js), req) {
      CountForConcat(slots, Slots(key, js), req);
      CountForSlots(key, js, req);
      assert Recorded(byReq, req) == Recorded(before, req) + CountFor(slots, req);
    }
    if js == [] {
      assert slots + Slots(key, js) == slots;
    }
  }

  // ----- the hook -----

  /**
   What the hook does to a batch: nothing while deferred or within budget,
   otherwise it evicts every over-budget row.
   */
  ghost predicate Stepped(b: Batch, c: Config, step: nat,
                          rows: seq<seq<int>>, pending: seq<Slot>, queue: seq<Slot>)
    requires BatchOk(b) && c.every > 0
  {
    var over := OverRows(b.rows, c.budget, |b.rows|);
    if over != [] && Deferred(b.rows, c, step) then rows == b.rows && pending == queue
    else Evicting(b, c, over, rows, pending, queue)
  }

  /** Unless eviction is deferred every row ends up evicted on its own terms. */
  lemma SteppedRow(b: Batch, c: Config, step: nat,
                   rows: seq<seq<int>>, pending: seq<Slot>, queue: seq<Slot>, i: nat)
    requires c.every > 0 && BatchOk(b) && i < |b.rows| && Stepped(b, c, step, rows, pending, queue)
    ensures |rows| == |b.rows| && rows[i] == if Deferred(b.rows, c, step) then b.rows[i] else RowAfter(b, c, i)
  {
    var over := OverRows(b.rows, c.budget, |b.rows|);
    OverlayAt(b.rows, Afters(b, c), over, i);
    if i !in over {
      WithinBudgetUntouched(b, c, i);
    }
  }

  /** Some row is over budget, and by the margin or more. */
  ghost predicate FarRow(rows: seq<seq<int>>, c: Config) {
    exists i :: 0 <= i < |rows| && RealCount(rows[i]) > c.budget && RealCount(rows[i]) >= c.budget + c.margin
  }

  /** Every row with a request is down to what it retains. */
  ghost predicate Settled(b: Batch, c: Config, rows: seq<seq<int>>) {
    && |rows| == |b.rows| == |b.reqs| == |b.sinks|
    && forall i :: 0 <= i < |rows| && b.reqs[i].Some? ==>
                     RealCount(rows[i]) == S.Retained(RealCount(b.rows[i]), b.sinks[i], c.locals, c.budget)
  }

  /** On every multiple of the period, and whenever a row is far over, the hook settles the batch. */
  lemma HookSettles(b: Batch, c: Config, step: nat, rows: seq<seq<int>>, pending: seq<Slot>, queue: seq<Slot>)
    requires c.every > 0 && BatchOk(b) && Stepped(b, c, step, rows, pending, queue)
    ensures step % c.every == 0 || FarRow(b.rows, c) ==> Settled(b, c, rows)
    ensures step % c.every != 0 && !FarRow(b.rows, c) ==> rows == b.rows && pending == queue
  {
    assert Deferred(b.rows, c, step) <==> step % c.every != 0 && !FarRow(b.rows, c);
    if !Deferred(b.rows, c, step) {
      forall i | 0 <= i < |b.rows| && b.reqs[i].Some?
        ensures |rows| == |b.rows|
        ensures RealCount(rows[i]) == S.Retained(RealCount(b.rows[i]), b.sinks[i], c.locals, c.budget)
      {
        SteppedRow(b, c, step, rows, pending, queue, i);
        S.EvictionReachesBudget(b.rows[i], b.sinks[i], c.locals, c.budget, b.scores[i]);
      }
    } else {
      NothingOver(b, c, rows, pending, queue);
    }
  }

  lemma NothingOver(b: Batch, c: Config, rows: seq<seq<int>>, pending: seq<Slot>, queue: seq<Slot>)
    requires BatchOk(b)
    ensures OverRows(b.rows, c.budget, |b.rows|) == [] && Evicting(b, c, [], rows, pending, queue) ==>
              rows == b.rows && pending == queue
  {
    assert queue + [] == queue;
  }

  /** One call of the hook: its step number, the batch it finds, and the rows and queue before and after. */
  datatype Hook = Hook(step: nat, b: Batch, rows: seq<seq<int>>, pending: seq<Slot>, queue: seq<Slot>)

  ghost predicate HookOk(h: Hook, c: Config)
    requires c.every > 0
  {
    BatchOk(h.b) && Stepped(h.b, c, h.step, h.rows, h.pending, h.queue)
  }

  lemma HookOnPeriod(h: Hook, c: Config)
    requires c.every > 0 && HookOk(h, c) && OnPeriod(h.step, c.every)
    ensures Settled(h.b, c, h.rows)
  {
    HookSettles(h.b, c, h.step, h.rows, h.pending, h.queue);
  }

  /** Whatever happens in between, one of any `every` calls in a row settles the batch it finds. */
  lemma PeriodSettles(hooks: seq<Hook>, c: Config, start: nat) returns (k: nat)
    requires 0 < c.every <= |hooks|
    requires forall k :: 0 <= k < |hooks| ==> hooks[k].step == start + k + 1 && HookOk(hooks[k], c)
    ensures k < c.every && Settled(hooks[k].b, c, hooks[k].rows)
  {
    k := NextMultiple(start, c.every);
    HookOnPeriod(hooks[k], c);
  }

  predicate OnPeriod(step: nat, every: nat)
    requires every > 0
  {
    step % every == 0
  }

  lemma NextMultiple(start: nat, every: nat) returns (k: nat)
    requires every > 0
    ensures k < every && OnPeriod(start + k + 1, every)
  {
    var q := start / every;
    DivBounds(start, every);
    k := every - 1 - start % every;
    MulStep(q, every);
    DivUnique(start + k + 1, every, q + 1);
  }

  class Worker {
    var rows: seq<seq<int>>
    var reqs: seq<Option<string>>
    var pending: seq<Slot>
    var step: nat
    var evicted: nat
    var byReq: map<string, nat>

    /**
     The hook run after every decode step.  `sinks[i]` is row i's protected
     prefix and `scores[i]` the importance of its real blocks.
     */
    method PostStep(c: Config, group: nat, sinks: seq<nat>, scores: seq<seq<real>>)
      requires c.every > 0 && BatchOk(Batch(rows, reqs, sinks, scores, group))
      modifies this
      ensures reqs == old(reqs) && step == old(step) + 1
      ensures Stepped(old(Batch(rows, reqs, sinks, scores, group)), c, step, rows, pending, old(pending))
      ensures step % c.every == 0 || FarRow(old(rows), c) ==>
                Settled(old(Batch(rows, reqs, sinks, scores, group)), c, rows)
      ensures step % c.every != 0 && !FarRow(old(rows), c) ==> rows == old(rows) && pending == old(pending)
      ensures old(pending) <= pending && evicted - old(evicted) == |pending| - old(|pending|)
      ensures Counted(byReq, old(byReq), pending[old(|pending|)..])
    {
      var over := OverRows(rows, c.budget, |rows|);
      step := step + 1;
      var far := FarOver(rows, c, over);
      if |over| > 0 && step % c.every != 0 && !far {
        return;
      }
      ghost var b, queue := Batch(rows, reqs, sinks, scores, group), pending;
      EvictOver(c, group, sinks, scores, over);
      HookSettles(b, c, step, rows, pending, queue);
    }

    /** Does the largest excess over the budget reach the margin? */
    static method FarOver(rows: seq<seq<int>>, c: Config, over: seq<nat>) returns (far: bool)
      requires over == OverRows(rows, c.budget, |rows|)
      ensures over != [] ==> (far <==> !NoneFarOver(rows, c))
    {
      var excess := MaxExcess(rows, c, over);
      far := excess >= c.margin;
      if far && over != [] {
        var x :| 0 <= x < |over| && RealCount(rows[over[x]]) - c.budget == excess;
      }
    }

    /** The largest amount by which a listed row exceeds the budget. */
    static method MaxExcess(rows: seq<seq<int>>, c: Config, over: seq<nat>) returns (excess: int)
      requires forall x :: 0 <= x < |over| ==> over[x] < |rows|
      ensures forall x :: 0 <= x < |over| ==> RealCount(rows[over[x]]) - c.budget <= excess
      ensures over != [] ==> exists x :: 0 <= x < |over| && RealCount(rows[over[x]]) - c.budget == excess
    {
      excess := 0;
      for x := 0 to |over|
        invariant forall y :: 0 <= y < x ==> RealCount(rows[over[y]]) - c.budget <= excess
        invariant x > 0 ==> exists y :: 0 <= y < x && RealCount(rows[over[y]]) - c.budget == excess
      {
        if x == 0 || RealCount(rows[over[x]]) - c.budget > excess {
          excess := RealCount(rows[over[x]]) - c.budget;
        }
      }
    }

    /** Evicts from each listed row in turn, skipping rows without a request. */
    method EvictOver(c: Config, group: nat, sinks: seq<nat>, scores: seq<seq<real>>, over: seq<nat>)
      requires BatchOk(Batch(rows, reqs, sinks, scores, group))
      requires forall x :: 0 <= x < |over| ==> over[x] < |rows|
      requires forall x :: 0 <= x < |over| ==> over[x] !in over[..x]
      modifies this`rows, this`pending, this`evicted, this`byReq
      ensures Evicting(old(Batch(rows, reqs, sinks, scores, group)), c, over, rows, pending, old(pending))
      ensures old(pending) <= pending && evicted - old(evicted) == |pending| - old(|pending|)
      ensures Counted(byReq, old(byReq), pending[old(|pending|)..])
    {
      ghost var b := Batch(rows, reqs, sinks, scores, group);
      ghost var slots := [];
      assert pending + slots == pending;
      for x := 0 to |over|
        invariant reqs == b.reqs && Evicting(b, c, over[..x], rows, pending, old(pending))
        invariant pending == old(pending) + slots && evicted - old(evicted) == |slots|
        invariant Counted(byReq, old(byReq), slots)
      {
        EvictingStep(b, c, over[..x], over[x], rows, pending, old(pending));
        TakeSnoc(over, x);
        ConcatAssoc(old(pending), slots, EvictedSlots(b, c, over[x]));
        EvictOne(c, group, sinks, scores, over[x], b, slots, old(byReq));
        slots := slots + EvictedSlots(b, c, over[x]);
      }
      TakeAll(over);
      DropHead(old(pending), slots);
    }

    /** One row of the loop above; `slots` were queued and counted by the earlier rows. */
    method EvictOne(c: Config, group: nat, sinks: seq<nat>, scores: seq<seq<real>>, i: nat,
                    ghost b: Batch, ghost slots: seq<Slot>, ghost before: map<string, nat>)
      requires BatchOk(b) && i < |rows| == |b.rows| && rows[i] == b.rows[i]
      requires b.reqs == reqs && b.sinks == sinks && b.scores == scores && b.group == group
      requires Counted(byReq, before, slots)
      modifies this`rows, this`pending, this`evicted, this`byReq
      ensures rows == old(rows)[i := RowAfter(b, c, i)]
      ensures pending == old(pending) + EvictedSlots(b, c, i)
      ensures evicted - old(evicted) == |pending| - old(|pending|)
      ensures Counted(byReq, before, slots + EvictedSlots(b, c, i))
    {
      match reqs[i] {
        case None =>
          assert slots + EvictedSlots(b, c, i) == slots;
        case Some(req) =>
          var js := S.Evicted(rows[i], sinks[i], c.locals, c.budget, scores[i]);
          Queue(i, Key(req, group), js, slots, before);
      }
    }

    /** Nulls the slots `js` of row i and queues and counts them for its request. */
    method Queue(i: nat, key: Key, js: seq<nat>, ghost slots: seq<Slot>, ghost before: map<string, nat>)
      requires i < |rows| && Counted(byReq, before, slots)
      modifies this`rows, this`pending, this`evicted, this`byReq
      ensures rows == old(rows)[i := NullOut(old(rows)[i], js)]
      ensures pending == old(pending) + Slots(key, js)
      ensures evicted - old(evicted) == |js|
      ensures Counted(byReq, before, slots + Slots(key, js))
    {
      CountedMore(byReq, before, slots, key, js);
      rows := rows[i := NullOut(rows[i], js)];
      pending := pending + Slots(key, js);
      evicted := evicted + |js|;
      if |js| > 0 {
        byReq := byReq[key.req := (if key.req in byReq then byReq[key.req] else 0) + |js|];
      }
    }
  }

  /** The hook moves blocks from the rows to the queue and loses none. */
  lemma SteppedConserves(b: Batch, c: Config, step: nat,
                         rows: seq<seq<int>>, pending: seq<Slot>, queue: seq<Slot>)
    requires c.every > 0 && BatchOk(b) && Stepped(b, c, step, rows, pending, queue)
    ensures TotalReal(rows) + |pending| == TotalReal(b.rows) + |queue|
  {
    BatchConserves(b, c, OverRows(b.rows, c.budget, |b.rows|));
  }

  /**
   However often eviction was deferred, after the hook a row with a request holds
   at most `margin - 1` blocks over the budget, or its protected blocks.
   */
  lemma SteppedBound(b: Batch, c: Config, step: nat,
                     rows: seq<seq<int>>, pending: seq<Slot>, queue: seq<Slot>, i: nat)
    requires c.every > 0 && BatchOk(b) && i < |b.rows| && Stepped(b, c, step, rows, pending, queue)
    requires b.reqs[i] != None
    ensures |rows| == |b.rows|
    ensures || RealCount(rows[i]) <= c.budget
            || RealCount(rows[i]) <= c.budget + c.margin - 1
            || RealCount(rows[i]) <= b.sinks[i] + c.locals
  {
    SteppedRow(b, c, step, rows, pending, queue, i);
    S.EvictionReachesBudget(b.rows[i], b.sinks[i], c.locals, c.budget, b.scores[i]);
  }

  // ----- what the hook queues -----

  /** Row i belongs to the request of slot p, and lost exactly the block p names. */
  ghost predicate Lost(b: Batch, rows: seq<seq<int>>, i: nat, p: Slot)
    requires i < |b.rows| == |b.reqs| == |rows|
  {
    && b.reqs[i] == Some(p.key.req) && p.key.group == b.group && p.at < |b.rows[i]| == |rows[i]|
    && b.rows[i][p.at] != NULL_BLOCK && rows[i][p.at] == NULL_BLOCK
  }

  lemma {:induction false} GatherIff<T>(ls: seq<seq<T>>, at: seq<nat>, p: T)
    requires forall x :: 0 <= x < |at| ==> at[x] < |ls|
    ensures p in Gather(ls, at) <==> exists x :: 0 <= x < |at| && p in ls[at[x]]
  {
    if at != [] {
      var front, last := at[..|at| - 1], |at| - 1;
      GatherIff(ls, front, p);
      assert forall x :: 0 <= x < last ==> front[x] == at[x];
      assert (exists x :: 0 <= x < |at| && p in ls[at[x]]) <==>
               p in ls[at[last]] || exists x :: 0 <= x < |front| && p in ls[front[x]];
    }
  }

  lemma SlotsIff(key: Key, js: seq<nat>, p: Slot)
    ensures p in Slots(key, js) <==> p.key == key && p.at in js
  {
    var r := Slots(key, js);
    if p.key == key && p.at in js {
      var i :| 0 <= i < |js| && js[i] == p.at;
      assert r[i] == p;
    }
  }

  /** What a row loses is what its request is queued for. */
  lemma RowLoses(b: Batch, c: Config, i: nat, p: Slot)
    requires BatchOk(b) && i < |b.rows|
    ensures p in EvictedSlots(b, c, i) <==>
              && b.reqs[i] == Some(p.key.req) && p.key.group == b.group && p.at < |b.rows[i]| == |RowAfter(b, c, i)|
              && b.rows[i][p.at] != NULL_BLOCK && RowAfter(b, c, i)[p.at] == NULL_BLOCK
  {
    if b.reqs[i].Some? {
      var js := S.Evicted(b.rows[i], b.sinks[i], c.locals, c.budget, b.scores[i]);
      S.EvictedDistinctReal(b.rows[i], b.sinks[i], c.locals, c.budget, b.scores[i]);
      SlotsIff(Key(b.reqs[i].value, b.group), js, p);
      assert p.at in js ==> p.at < |b.rows[i]|;
    }
  }

  /** The hook queues exactly the blocks that left the rows, under their requests and the group of the batch. */
  lemma HookQueues(b: Batch, c: Config, step: nat,
                   rows: seq<seq<int>>, pending: seq<Slot>, queue: seq<Slot>, p: Slot)
    requires c.every > 0 && BatchOk(b) && Stepped(b, c, step, rows, pending, queue)
    ensures |rows| == |b.rows| && queue <= pending
    ensures p in pending[|queue|..] <==> exists i :: 0 <= i < |b.rows| && Lost(b, rows, i, p)
  {
    var over := OverRows(b.rows, c.budget, |b.rows|);
    if over != [] && Deferred(b.rows, c, step) {
      assert pending[|queue|..] == [];
    } else {
      DropHead(queue, BatchSlots(b, c, over));
      GatherIff(Losses(b, c), over, p);
      forall i | 0 <= i < |b.rows| ensures Lost(b, rows, i, p) <==> i in over && p in EvictedSlots(b, c, i) {
        OverlayAt(b.rows, Afters(b, c), over, i);
        RowLoses(b, c, i, p);
      }
      QueuedIff(b, c, over, rows, p);
    }
  }

  lemma QueuedIff(b: Batch, c: Config, over: seq<nat>, rows: seq<seq<int>>, p: Slot)
    requires BatchOk(b) && |rows| == |b.rows| && forall x :: 0 <= x < |over| ==> over[x] < |b.rows|
    requires forall i :: 0 <= i < |b.rows| ==> (Lost(b, rows, i, p) <==> i in over && p in EvictedSlots(b, c, i))
    ensures (exists x :: 0 <= x < |over| && p in Losses(b, c)[over[x]])
            <==> exists i :: 0 <= i < |b.rows| && Lost(b, rows, i, p)
  {
    forall x | 0 <= x < |over| && p in Losses(b, c)[over[x]] ensures Lost(b, rows, over[x], p) {
      assert over[x] in over;
    }
    forall i | 0 <= i < |b.rows| && Lost(b, rows, i, p)
      ensures exists x :: 0 <= x < |over| && p in Losses(b, c)[over[x]]
    {
      var x :| 0 <= x < |over| && over[x] == i;
      assert p in Losses(b, c)[over[x]];
    }
  }

  // ----- the hook as steps of the protocol -----

  /** No two rows of the batch belong to one request. */
  ghost predicate Named(b: Batch) {
    |b.reqs| == |b.rows| && forall i, j :: 0 <= i < j < |b.reqs| && b.reqs[i].Some? ==> b.reqs[i] != b.reqs[j]
  }

  function KeyOf(b: Batch, i: nat): Key
    requires i < |b.reqs| && b.reqs[i].Some?
  {
    Key(b.reqs[i].value, b.group)
  }

  /** The protocol state holds the rows of the batch under their requests. */
  ghost predicate Shows(s: State, b: Batch) {
    |b.reqs| == |b.rows|
    && forall i :: 0 <= i < |b.rows| && b.reqs[i].Some? ==> KeyOf(b, i) in s.rows && s.rows[KeyOf(b, i)] == b.rows[i]
  }

  /** Every other row, and everything but the rows and the queue, is as it was. */
  ghost predicate Elsewhere(s: State, u: State, b: Batch) {
    && u == s.(rows := u.rows, pending := u.pending) && u.rows.Keys == s.rows.Keys && |b.reqs| == |b.rows|
    && forall k :: k in s.rows && (forall i :: 0 <= i < |b.reqs| && b.reqs[i].Some? ==> KeyOf(b, i) != k) ==>
                     u.rows[k] == s.rows[k]
  }

  function HookStep(b: Batch, c: Config, i: nat): seq<Step>
    requires BatchOk(b) && i < |b.rows|
  {
    if b.reqs[i] == None then []
    else [Evict(KeyOf(b, i), S.Evicted(b.rows[i], b.sinks[i], c.locals, c.budget, b.scores[i]))]
  }

  /** One eviction step for every row that has a request, from the x-th listed one on. */
  function HookSteps(b: Batch, c: Config, over: seq<nat>, x: nat): seq<Step>
    requires BatchOk(b) && x <= |over| && forall y :: 0 <= y < |over| ==> over[y] < |b.rows|
    decreases |over| - x
  {
    if x == |over| then [] else HookStep(b, c, over[x]) + HookSteps(b, c, over, x + 1)
  }

  /** What one row of the batch contributes: one enabled eviction, with the row and the slots the hook computes. */
  lemma HookRow(u: State, b: Batch, c: Config, i: nat)
    requires Sound(u) && BatchOk(b) && i < |b.rows| && b.reqs[i].Some?
    requires KeyOf(b, i) in u.rows && u.rows[KeyOf(b, i)] == b.rows[i]
    ensures InRange(u) && Enabled(u, HookStep(b, c, i)[0])
    ensures Next(u, HookStep(b, c, i)[0])
            == u.(rows := u.rows[KeyOf(b, i) := RowAfter(b, c, i)], pending := u.pending + EvictedSlots(b, c, i))
  {
    S.EvictedDistinctReal(b.rows[i], b.sinks[i], c.locals, c.budget, b.scores[i]);
    InvBounds(u);
  }

  lemma ShowsStep(u: State, v: State, b: Batch, rows: seq<seq<int>>, i: nat, row: seq<int>)
    requires |rows| == |b.rows| && Shows(u, b.(rows := rows)) && Named(b) && i < |b.rows| && b.reqs[i].Some?
    requires v.rows == u.rows[KeyOf(b, i) := row]
    ensures Shows(v, b.(rows := rows[i := row]))
  {
    var after := b.(rows := rows[i := row]);
    forall j | 0 <= j < |b.rows| && b.reqs[j].Some?
      ensures KeyOf(after, j) in v.rows && v.rows[KeyOf(after, j)] == after.rows[j]
    {
      assert KeyOf(after, j) == KeyOf(b, j) == KeyOf(b.(rows := rows), j);
      if j != i {
        assert b.reqs[j] != b.reqs[i];
      }
    }
  }

  /** The state after the rows `done`, as the hook leaves it. */
  ghost predicate HookLeaves(s: State, u: State, b: Batch, c: Config, done: seq<nat>)
    requires BatchOk(b) && forall x :: 0 <= x < |done| ==> done[x] < |b.rows|
  {
    && u.pending == s.pending + BatchSlots(b, c, done)
    && Shows(u, b.(rows := RowsAfter(b, c, done)))
    && Elsewhere(s, u, b)
  }

  lemma HookMoves(s: State, u: State, v: State, b: Batch, c: Config, done: seq<nat>, i: nat)
    requires BatchOk(b) && Named(b) && i < |b.rows| && b.reqs[i].Some?
    requires forall x :: 0 <= x < |done| ==> done[x] < |b.rows|
    requires HookLeaves(s, u, b, c, done) && KeyOf(b, i) in u.rows
    requires v == u.(rows := u.rows[KeyOf(b, i) := RowAfter(b, c, i)], pending := u.pending + EvictedSlots(b, c, i))
    ensures HookLeaves(s, v, b, c, done + [i])
  {
    OverlaySnoc(b.rows, Afters(b, c), done, i);
    GatherSnoc(Losses(b, c), done, i);
    ConcatAssoc(s.pending, BatchSlots(b, c, done), EvictedSlots(b, c, i));
    ShowsStep(u, v, b, RowsAfter(b, c, done), i, RowAfter(b, c, i));
  }

  /** A row without a request adds nothing. */
  lemma HookSkips(s: State, u: State, b: Batch, c: Config, done: seq<nat>, i: nat)
    requires BatchOk(b) && i < |b.rows| && b.reqs[i].None? && i !in done
    requires forall x :: 0 <= x < |done| ==> done[x] < |b.rows|
    requires HookLeaves(s, u, b, c, done)
    ensures HookLeaves(s, u, b, c, done + [i])
  {
    OverlayAt(b.rows, Afters(b, c), done, i);
    OverlaySnoc(b.rows, Afters(b, c), done, i);
    GatherSnoc(Losses(b, c), done, i);
    assert RowsAfter(b, c, done + [i]) == RowsAfter(b, c, done);
    assert BatchSlots(b, c, done + [i]) == BatchSlots(b, c, done);
  }

  lemma RowWaits(s: State, u: State, b: Batch, c: Config, done: seq<nat>, i: nat)
    requires BatchOk(b) && i < |b.rows| && b.reqs[i].Some? && i !in done
    requires forall x :: 0 <= x < |done| ==> done[x] < |b.rows|
    requires HookLeaves(s, u, b, c, done)
    ensures KeyOf(b, i) in u.rows && u.rows[KeyOf(b, i)] == b.rows[i]
  {
    OverlayAt(b.rows, Afters(b, c), done, i);
    assert KeyOf(b.(rows := RowsAfter(b, c, done)), i) == KeyOf(b, i);
  }

  /** One turn of the hook's loop is an enabled step of the protocol, or none for a row without a request. */
  lemma HookTurn(s: State, u: State, b: Batch, c: Config, done: seq<nat>, i: nat) returns (v: State)
    requires Sound(u) && BatchOk(b) && Named(b) && i < |b.rows| && i !in done
    requires forall x :: 0 <= x < |done| ==> done[x] < |b.rows|
    requires HookLeaves(s, u, b, c, done)
    ensures Sound(v) && HookLeaves(s, v, b, c, done + [i]) && InRange(u)
    ensures var step := HookStep(b, c, i);
            if step == [] then v == u
            else |step| == 1 && Enabled(u, step[0]) && step[0].Evict? && v == Next(u, step[0])
  {
    InvBounds(u);
    if b.reqs[i].Some? {
      RowWaits(s, u, b, c, done, i);
      HookRow(u, b, c, i);
      StepKeeps(u, HookStep(b, c, i)[0]);
      v := Next(u, HookStep(b, c, i)[0]);
      HookMoves(s, u, v, b, c, done, i);
    } else {
      v := u;
      HookSkips(s, u, b, c, done, i);
    }
  }

  /** The hook's loop is a run of enabled eviction steps of the protocol. */
  lemma {:induction false} HookRun(s: State, u: State, b: Batch, c: Config, over: seq<nat>, x: nat)
    requires Sound(u) && BatchOk(b) && Named(b) && x <= |over|
    requires forall y :: 0 <= y < |over| ==> over[y] < |b.rows|
    requires forall y, z :: 0 <= y < z < |over| ==> over[y] < over[z]
    requires HookLeaves(s, u, b, c, over[..x])
    ensures GuardedRun(u, HookSteps(b, c, over, x))
    ensures HookLeaves(s, RunEnd(u, HookSteps(b, c, over, x)), b, c, over)
    decreases |over| - x
  {
    if x == |over| {
      TakeAll(over);
    } else {
      var v := HookTurn(s, u, b, c, over[..x], over[x]);
      TakeSnoc(over, x);
      HookRun(s, v, b, c, over, x + 1);
      HookCons(u, v, b, c, over, x);
    }
  }

  lemma HookCons(u: State, v: State, b: Batch, c: Config, over: seq<nat>, x: nat)
    requires Sound(u) && Sound(v) && InRange(u) && BatchOk(b) && x < |over|
    requires forall y :: 0 <= y < |over| ==> over[y] < |b.rows|
    requires var step := HookStep(b, c, over[x]);
             if step == [] then v == u
             else |step| == 1 && Enabled(u, step[0]) && step[0].Evict? && v == Next(u, step[0])
    requires GuardedRun(v, HookSteps(b, c, over, x + 1))
    ensures GuardedRun(u, HookSteps(b, c, over, x))
    ensures RunEnd(u, HookSteps(b, c, over, x)) == RunEnd(v, HookSteps(b, c, over, x + 1))
  {
    var step, rest := HookStep(b, c, over[x]), HookSteps(b, c, over, x + 1);
    if step == [] {
      assert step + rest == rest;
    } else {
      GuardedCons(u, step[0], rest);
      assert step + rest == [step[0]] + rest;
    }
  }

  /**
   What the hook leaves behind is what a run of enabled eviction steps leaves:
   the same rows under the same requests, the same queue, nothing else touched.
   */
  lemma SteppedIsRun(s: State, b: Batch, c: Config, step: nat, rows: seq<seq<int>>, pending: seq<Slot>)
    requires Sound(s) && BatchOk(b) && Named(b) && Shows(s, b) && c.every > 0
    requires Stepped(b, c, step, rows, pending, s.pending)
    ensures var over := OverRows(b.rows, c.budget, |b.rows|);
            var steps := if over != [] && Deferred(b.rows, c, step) then [] else HookSteps(b, c, over, 0);
            && GuardedRun(s, steps)
            && (var u := RunEnd(s, steps);
                u.pending == pending && Shows(u, b.(rows := rows)) && Elsewhere(s, u, b))
  {
    var over := OverRows(b.rows, c.budget, |b.rows|);
    if over != [] && Deferred(b.rows, c, step) {
      assert b.(rows := rows) == b;
    } else {
      assert s.pending + BatchSlots(b, c, []) == s.pending && b.(rows := RowsAfter(b, c, [])) == b;
      assert over[..0] == [];
      HookRun(s, s, b, c, over, 0);
    }
  }

  // ----- scheduler side -----

  /** An evicted slot as the worker reports it; a pair means group 0. */
  datatype Item = Pair(req: string, at: nat) | Triple(req: string, at: nat, group: nat)

  function SlotOf(item: Item): Slot {
    match item
    case Pair(req, at) => Slot(Key(req, 0), at)
    case Triple(req, at, group) => Slot(Key(req, group), at)
  }

  function SlotsOf(items: seq<Item>): (r: seq<Slot>)
    ensures |r| == |items| && forall i :: 0 <= i < |items| ==> r[i] == SlotOf(items[i])
  {
    seq(|items|, i requires 0 <= i < |items| => SlotOf(items[i]))
  }

  /** The item names slot j of the request's table in a group. */
  predicate Names(item: Item, k: Key, j: nat) {
    item == Triple(k.req, j, k.group) || (item == Pair(k.req, j) && k.group == 0)
  }

  lemma NamesSlot(items: seq<Item>, k: Key, j: nat)
    ensures Slot(k, j) in SlotsOf(items) <==> exists i :: 0 <= i < |items| && Names(items[i], k, j)
  {
    forall i | 0 <= i < |items| ensures SlotsOf(items)[i] == Slot(k, j) <==> Names(items[i], k, j) {
    }
  }

  /** The table with the named slots nulled. */
  ghost predicate Reclaimed(items: seq<Item>, before: map<Key, seq<int>>, after: map<Key, seq<int>>) {
    && after.Keys == before.Keys
    && forall k :: k in before ==> |after[k]| == |before[k]| && forall j :: 0 <= j < |before[k]| ==>
         after[k][j] == if exists i :: 0 <= i < |items| && Names(items[i], k, j) then NULL_BLOCK else before[k][j]
  }

  lemma ReclaimIs(items: seq<Item>, s: State)
    requires s.pending == SlotsOf(items)
    ensures Reclaimed(items, s.sched, Drain(s).sched)
  {
    forall k | k in s.sched
      ensures k in Drain(s).sched && |Drain(s).sched[k]| == |s.sched[k]|
      ensures forall j :: 0 <= j < |s.sched[k]| ==>
                Drain(s).sched[k][j]
                == if exists i :: 0 <= i < |items| && Names(items[i], k, j) then NULL_BLOCK else s.sched[k][j]
    {
      DrainIs(s, k);
      forall j | 0 <= j < |s.sched[k]|
        ensures Slot(k, j) in s.pending <==> exists i :: 0 <= i < |items| && Names(items[i], k, j)
      {
        NamesSlot(items, k, j);
      }
    }
    DrainKeys(s);
  }

  class KVCacheManager {
    const groups: nat
    var free: seq<int>
    var refs: seq<int>
    var tables: map<Key, seq<int>>

    ghost predicate Valid()
      reads this
    {
      PoolOk(free, refs, tables) && forall k :: k in tables ==> k.group < groups
    }

    ghost function Abstract(pending: seq<Slot>): State
      reads this
    {
      State(free, refs, tables, map[], map[], pending)
    }

    /** Returns one reference of a block; the block joins the free queue at zero. */
    method FreeBlock(b: int)
      requires 0 < b < |refs|
      modifies this`refs, this`free
      ensures refs == old(refs)[b := old(refs)[b] - 1]
      ensures free == if refs[b] == 0 then old(free) + [b] else old(free)
    {
      refs := refs[b := refs[b] - 1];
      if refs[b] == 0 {
        free := free + [b];
      }
    }

    /** Frees the block behind each reported slot and nulls the slot. */
    method Reclaim(items: seq<Item>) returns (freed: nat)
      requires Valid()
      modifies this
      ensures Valid()
      ensures var t := Drain(old(Abstract(SlotsOf(items)))); free == t.free && refs == t.refs && tables == t.sched
      ensures Reclaimed(items, old(tables), tables)
      ensures |free| == old(|free|) + freed
    {
      freed := 0;
      ghost var pending := SlotsOf(items);
      ReclaimIs(items, Abstract(pending));
      ghost var goal := Drain(Abstract(pending));
      for i := 0 to |items|
        invariant Valid()
        invariant Drain(Abstract(pending[i..])) == goal
        invariant |free| == old(|free|) + freed
      {
        var slot := SlotOf(items[i]);
        assert pending[i..][0] == slot && pending[i..][1..] == pending[i + 1..];
        if slot.key.group >= groups || slot.key !in tables || slot.at >= |tables[slot.key]| {
          continue;
        }
        var blocks := tables[slot.key];
        var b := blocks[slot.at];
        if b == NULL_BLOCK {
          continue;
        }
        ReclaimPool(free, refs, tables, slot.key, slot.at);
        tables := tables[slot.key := blocks[slot.at := NULL_BLOCK]];
        FreeBlock(b);
        freed := freed + 1;
      }
    }
  }
}
