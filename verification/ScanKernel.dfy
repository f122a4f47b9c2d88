/**
 The per-token arithmetic of the scan kernel (vllm/_xpu_ops.py) and its closed
 form: what the recurrence computes, written without the recurrence.
 */
module ScanKernel {
  import opened SelectiveScan
  import opened Wrappers

  datatype Params = Params(
    exp: real -> real, softplus: real -> real, useSoftplus: bool, D: Option<real>, bias: Option<real>, A: Vec)

  /** A masked load: lanes beyond the vector read as zero. */
  function Lane(v: Vec, i: nat): real {
    if i < |v| then v[i] else 0.0
  }

  function Step(p: Params, t: Token): real {
    var d := match p.bias case None => t.delta case Some(b) => t.delta + b;
    if p.useSoftplus then p.softplus(d) else d
  }

  function Scaled(d: real, a: real): real {
    d * a
  }

  function NextState(p: Params, st: Vec, t: Token): (r: Vec)
    ensures |r| == |p.A|
  {
    var d := Step(p, t);
    seq(|p.A|, i requires 0 <= i < |p.A| => p.exp(Scaled(d, p.A[i])) * Lane(st, i) + d * t.u * Lane(t.B, i))
  }

  function Dot(a: Vec, b: Vec, n: nat): real {
    if n == 0 then 0.0 else Dot(a, b, n - 1) + Lane(a, n - 1) * Lane(b, n - 1)
  }

  function Output(p: Params, st: Vec, t: Token): real {
    Dot(st, t.C, |p.A|) + match p.D case None => 0.0 case Some(d) => d * t.u
  }

  /** The gate z / (1 + exp(-z)); with a positive `exp` the divisor is never zero. */
  function Gated(p: Params, o: real, z: real): real {
    var divisor := 1.0 + p.exp(-z);
    if divisor == 0.0 then 0.0 else o * z / divisor
  }

  function KernelOf(p: Params): Kernel {
    Machine((st: Vec, t: Token) => NextState(p, st, t),
            (st: Vec, t: Token) => (Output(p, st, t), Gated(p, Output(p, st, t), t.z)))
  }

  // ----- the closed form -----

  ghost predicate AddRule(g: real -> real, x: real, y: real) {
    g(x + y) == g(x) * g(y)
  }

  /** Sums of steps turn into products of decays. */
  ghost predicate IsExponential(g: real -> real) {
    g(0.0) == 1.0 && forall x: real, y: real {:trigger AddRule(g, x, y)} :: AddRule(g, x, y)
  }

  /** One lane as a scalar recurrence: decay by g(step), then add the input. */
  datatype Pulse = Pulse(step: real, input: real)

  function RunLane(g: real -> real, x: real, ps: seq<Pulse>): real {
    if ps == [] then x
    else g(ps[|ps| - 1].step) * RunLane(g, x, ps[..|ps| - 1]) + ps[|ps| - 1].input
  }

  /** Sum of the steps from pulse j on. */
  function StepsFrom(ps: seq<Pulse>, j: nat): real
    requires j <= |ps|
    decreases |ps|
  {
    if |ps| == j then 0.0 else StepsFrom(ps[..|ps| - 1], j) + ps[|ps| - 1].step
  }

  /** What the first n pulses still contribute at the end, each decayed by the steps after it. */
  function Contributions(g: real -> real, ps: seq<Pulse>, n: nat): real
    requires n <= |ps|
  {
    if n == 0 then 0.0 else Contributions(g, ps, n - 1) + g(StepsFrom(ps, n)) * ps[n - 1].input
  }

  /** The lane as an explicit sum: the decayed initial value plus every decayed input. */
  function ClosedForm(g: real -> real, x: real, ps: seq<Pulse>): real {
    g(StepsFrom(ps, 0)) * x + Contributions(g, ps, |ps|)
  }

  lemma DecayStep(g: real -> real, s: real, d: real, v: real)
    requires IsExponential(g)
    ensures g(s + d) * v == g(d) * (g(s) * v)
  {
    assert AddRule(g, s, d);
    MulSwap(g(s), g(d), v);
  }

  lemma MulSwap(x: real, y: real, v: real)
    ensures (x * y) * v == y * (x * v)
  {
  }

  lemma Distribute(e: real, x: real, y: real)
    ensures e * (x + y) == e * x + e * y
  {
  }

  lemma {:induction false} ContributionsDecay(g: real -> real, ps: seq<Pulse>, n: nat)
    requires IsExponential(g) && n < |ps|
    ensures var init, p := ps[..|ps| - 1], ps[|ps| - 1];
            Contributions(g, ps, n) == g(p.step) * Contributions(g, init, n)
  {
    var init, p := ps[..|ps| - 1], ps[|ps| - 1];
    if n > 0 {
      ContributionsDecay(g, ps, n - 1);
      DecayStep(g, StepsFrom(init, n), p.step, ps[n - 1].input);
      Distribute(g(p.step), Contributions(g, init, n - 1), g(StepsFrom(init, n)) * ps[n - 1].input);
    }
  }

  /** The recurrence computes the closed form for every sequence. */
  lemma {:induction false} LaneIsClosedForm(g: real -> real, x: real, ps: seq<Pulse>)
    requires IsExponential(g)
    ensures RunLane(g, x, ps) == ClosedForm(g, x, ps)
  {
    if ps != [] {
      var init, p := ps[..|ps| - 1], ps[|ps| - 1];
      LaneIsClosedForm(g, x, init);
      ContributionsDecay(g, ps, |init|);
      DecayStep(g, StepsFrom(init, 0), p.step, x);
      Distribute(g(p.step), g(StepsFrom(init, 0)) * x, Contributions(g, init, |init|));
      assert StepsFrom(ps, |ps|) == 0.0;
    }
  }

  // ----- the kernel's lanes -----

  function PulseOf(p: Params, t: Token, i: nat): Pulse {
    Pulse(Step(p, t), Step(p, t) * t.u * Lane(t.B, i))
  }

  function Pulses(p: Params, toks: seq<Token>, i: nat): (r: seq<Pulse>)
    ensures |r| == |toks| && forall j :: 0 <= j < |toks| ==> r[j] == PulseOf(p, toks[j], i)
  {
    seq(|toks|, j requires 0 <= j < |toks| => PulseOf(p, toks[j], i))
  }

  /** The decay of a lane over a step s. */
  function Decay(exp: real -> real, a: real): real -> real {
    (s: real) => exp(Scaled(s, a))
  }

  lemma LaneStep(p: Params, st: Vec, t: Token, i: nat)
    requires i < |p.A|
    ensures Lane(NextState(p, st, t), i) == Decay(p.exp, p.A[i])(Step(p, t)) * Lane(st, i) + PulseOf(p, t, i).input
  {
  }

  lemma {:induction false} FoldIsLane(p: Params, st: Vec, toks: seq<Token>, i: nat)
    requires i < |p.A|
    ensures Lane(Fold(KernelOf(p), st, toks), i) == RunLane(Decay(p.exp, p.A[i]), Lane(st, i), Pulses(p, toks, i))
  {
    if toks != [] {
      var init, t := toks[..|toks| - 1], toks[|toks| - 1];
      FoldIsLane(p, st, init, i);
      assert Pulses(p, toks, i)[..|init|] == Pulses(p, init, i);
      var before := Fold(KernelOf(p), st, init);
      assert Fold(KernelOf(p), st, toks) == NextState(p, before, t);
      LaneStep(p, before, t, i);
    }
  }

  lemma DecayIsExponential(exp: real -> real, a: real)
    requires IsExponential(exp)
    ensures IsExponential(Decay(exp, a))
  {
    var g := Decay(exp, a);
    assert Scaled(0.0, a) == 0.0;
    forall x: real, y: real ensures AddRule(g, x, y) {
      assert AddRule(exp, Scaled(x, a), Scaled(y, a));
      assert Scaled(x + y, a) == Scaled(x, a) + Scaled(y, a);
      assert g(x + y) == exp(Scaled(x + y, a)) && g(x) == exp(Scaled(x, a)) && g(y) == exp(Scaled(y, a));
    }
  }

  /**
   The state of every lane after any sequence is the exponentially decayed initial
   state plus every input decayed by the steps that follow it.
   */
  lemma ScanIsClosedForm(p: Params, st: Vec, toks: seq<Token>, i: nat)
    requires IsExponential(p.exp) && i < |p.A|
    ensures Lane(Fold(KernelOf(p), st, toks), i) == ClosedForm(Decay(p.exp, p.A[i]), Lane(st, i), Pulses(p, toks, i))
  {
    FoldIsLane(p, st, toks, i);
    DecayIsExponential(p.exp, p.A[i]);
    LaneIsClosedForm(Decay(p.exp, p.A[i]), Lane(st, i), Pulses(p, toks, i));
  }

  // ----- what the kernel writes, from its parameters and inputs alone -----

  /** The vectors have one entry for each state element. */
  ghost predicate Sized(p: Params, st: Vec, toks: seq<Token>) {
    |st| == |p.A| && forall j :: 0 <= j < |toks| ==> |toks[j].B| == |p.A| == |toks[j].C|
  }

  /**
   The pulses of element i: the step is delta, plus the bias if there is one, through softplus if it is
   on; the input is step times u times B.
   */
  ghost predicate PulsesOf(p: Params, toks: seq<Token>, i: nat, ps: seq<Pulse>)
    requires forall j :: 0 <= j < |toks| ==> i < |toks[j].B|
  {
    |ps| == |toks| && forall j :: 0 <= j < |ps| ==> IsPulse(p, toks[j], i, ps[j])
  }

  ghost predicate IsPulse(p: Params, t: Token, i: nat, q: Pulse)
    requires i < |t.B|
  {
    && (p.bias.None? && !p.useSoftplus ==> q.step == t.delta)
    && (p.bias.Some? && !p.useSoftplus ==> q.step == t.delta + p.bias.value)
    && (p.bias.None? && p.useSoftplus ==> q.step == p.softplus(t.delta))
    && (p.bias.Some? && p.useSoftplus ==> q.step == p.softplus(t.delta + p.bias.value))
    && q.input == q.step * t.u * t.B[i]
  }

  lemma PulsesAre(p: Params, toks: seq<Token>, i: nat, ps: seq<Pulse>)
    requires forall j :: 0 <= j < |toks| ==> i < |toks[j].B|
    requires PulsesOf(p, toks, i, ps)
    ensures ps == Pulses(p, toks, i)
  {
    forall j | 0 <= j < |ps| ensures ps[j] == Pulses(p, toks, i)[j] {
      assert IsPulse(p, toks[j], i, ps[j]);
    }
  }

  lemma FoldSized(p: Params, st: Vec, toks: seq<Token>)
    requires |st| == |p.A|
    ensures |Fold(KernelOf(p), st, toks)| == |p.A|
  {
  }

  /** Over a step x the element decays by exp(x * a). */
  ghost predicate Decays(g: real -> real, exp: real -> real, a: real) {
    forall x: real :: g(x) == exp(x * a)
  }

  lemma DecaysIsDecay(g: real -> real, exp: real -> real, a: real)
    requires Decays(g, exp, a)
    ensures forall x: real :: g(x) == Decay(exp, a)(x)
  {
    forall x: real ensures g(x) == Decay(exp, a)(x) {
      assert Scaled(x, a) == x * a;
    }
  }

  /** The final state, element by element, is the closed form with decay exp(step * A). */
  lemma StateIsClosedForm(p: Params, st: Vec, toks: seq<Token>, i: nat, g: real -> real, ps: seq<Pulse>)
    requires IsExponential(p.exp) && Sized(p, st, toks) && i < |p.A|
    requires Decays(g, p.exp, p.A[i]) && PulsesOf(p, toks, i, ps)
    ensures |Fold(KernelOf(p), st, toks)| == |p.A|
    ensures Fold(KernelOf(p), st, toks)[i] == ClosedForm(g, st[i], ps)
  {
    PulsesAre(p, toks, i, ps);
    FoldSized(p, st, toks);
    ScanIsClosedForm(p, st, toks, i);
    DecaysIsDecay(g, p.exp, p.A[i]);
    SameDecay(g, Decay(p.exp, p.A[i]), st[i], ps);
  }

  lemma SameDecay(g: real -> real, h: real -> real, x: real, ps: seq<Pulse>)
    requires forall s: real :: g(s) == h(s)
    ensures ClosedForm(g, x, ps) == ClosedForm(h, x, ps)
  {
    SameContributions(g, h, ps, |ps|);
  }

  lemma {:induction false} SameContributions(g: real -> real, h: real -> real, ps: seq<Pulse>, n: nat)
    requires n <= |ps| && forall s: real :: g(s) == h(s)
    ensures Contributions(g, ps, n) == Contributions(h, ps, n)
  {
    if n > 0 {
      SameContributions(g, h, ps, n - 1);
    }
  }

  /** One token: the element decays by exp(step * A) and gains step times u times B. */
  lemma OneToken(p: Params, st: Vec, t: Token, i: nat, q: Pulse)
    requires i < |p.A| && i < |st| && i < |t.B| && IsPulse(p, t, i, q)
    ensures |Fold(KernelOf(p), st, [t])| == |p.A|
    ensures Fold(KernelOf(p), st, [t])[i] == p.exp(q.step * p.A[i]) * st[i] + q.input
  {
    assert [t][..0] == [];
    FoldLast(p, st, [t]);
    LaneStep(p, st, t, i);
    assert Scaled(q.step, p.A[i]) == q.step * p.A[i];
  }

  lemma WrittenAt(p: Params, st: Vec, toks: seq<Token>, k: nat)
    requires k < |toks|
    ensures var o := Outs(KernelOf(p), st, toks)[k];
            && o.0 == Output(p, Fold(KernelOf(p), st, toks[..k + 1]), toks[k])
            && o.1 == Gated(p, o.0, toks[k].z)
  {
    OutsAt(KernelOf(p), st, toks, k);
  }

  lemma {:induction false} DotZero(a: Vec, c: Vec, n: nat)
    requires n <= |c| && forall j :: 0 <= j < n ==> c[j] == 0.0
    ensures Dot(a, c, n) == 0.0
  {
    if n > 0 {
      DotZero(a, c, n - 1);
    }
  }

  lemma {:induction false} DotUnit(a: Vec, c: Vec, n: nat, i: nat)
    requires n <= |c| && n <= |a| && i < |c| && c[i] == 1.0 && forall j :: 0 <= j < n && j != i ==> c[j] == 0.0
    ensures Dot(a, c, n) == if i < n then a[i] else 0.0
  {
    if n > 0 {
      DotUnit(a, c, n - 1, i);
    }
  }

  lemma {:induction false} DotLinear(a: Vec, c: Vec, c': Vec, r: Vec, s: real, n: nat)
    requires n <= |c| == |c'| == |r| && forall j :: 0 <= j < n ==> r[j] == s * c[j] + c'[j]
    ensures Dot(a, r, n) == s * Dot(a, c, n) + Dot(a, c', n)
  {
    if n > 0 {
      DotLinear(a, c, c', r, s, n - 1);
      LinearTerm(Lane(a, n - 1), c[n - 1], c'[n - 1], s, Dot(a, c, n - 1));
    }
  }

  lemma LinearTerm(x: real, c: real, c': real, s: real, d: real)
    ensures x * (s * c + c') == s * (x * c) + x * c'
    ensures s * (d + x * c) == s * d + s * (x * c)
  {
    assert x * (s * c + c') == x * (s * c) + x * c';
  }

  /** The share of D in an output. */
  ghost predicate IsSkip(p: Params, t: Token, d: real) {
    (p.D.None? ==> d == 0.0) && (p.D.Some? ==> d == p.D.value * t.u)
  }

  /** Where C is zero the output is D times u. */
  lemma OutputOfZero(p: Params, st: Vec, toks: seq<Token>, k: nat, d: real)
    requires Sized(p, st, toks) && k < |toks| && IsSkip(p, toks[k], d)
    requires forall j :: 0 <= j < |p.A| ==> toks[k].C[j] == 0.0
    ensures Outs(KernelOf(p), st, toks)[k].0 == d
  {
    WrittenAt(p, st, toks, k);
    DotZero(Fold(KernelOf(p), st, toks[..k + 1]), toks[k].C, |p.A|);
    OutputIs(p, Fold(KernelOf(p), st, toks[..k + 1]), toks[k], d);
  }

  /** Where C picks element i the output is the closed form of that element over the tokens so far, plus D times u. */
  lemma OutputOfUnit(p: Params, st: Vec, toks: seq<Token>, k: nat, i: nat, g: real -> real, ps: seq<Pulse>, d: real)
    requires IsExponential(p.exp) && Sized(p, st, toks) && k < |toks| && i < |p.A| && IsSkip(p, toks[k], d)
    requires Decays(g, p.exp, p.A[i]) && PulsesOf(p, toks[..k + 1], i, ps)
    requires toks[k].C[i] == 1.0 && forall j :: 0 <= j < |p.A| && j != i ==> toks[k].C[j] == 0.0
    ensures Outs(KernelOf(p), st, toks)[k].0 == ClosedForm(g, st[i], ps) + d
  {
    WrittenAt(p, st, toks, k);
    StateIsClosedForm(p, st, toks[..k + 1], i, g, ps);
    DotUnit(Fold(KernelOf(p), st, toks[..k + 1]), toks[k].C, |p.A|, i);
    OutputIs(p, Fold(KernelOf(p), st, toks[..k + 1]), toks[k], d);
  }

  lemma StepIgnoresC(p: Params, st: Vec, t: Token, c: Vec)
    ensures NextState(p, st, t.(C := c)) == NextState(p, st, t)
  {
    var r, r' := NextState(p, st, t.(C := c)), NextState(p, st, t);
    forall i | 0 <= i < |p.A| ensures r[i] == r'[i] {
      assert Step(p, t.(C := c)) == Step(p, t);
    }
  }

  lemma FoldLast(p: Params, st: Vec, toks: seq<Token>)
    requires toks != []
    ensures Fold(KernelOf(p), st, toks)
            == NextState(p, Fold(KernelOf(p), st, toks[..|toks| - 1]), toks[|toks| - 1])
  {
  }

  /** The state does not depend on C of the last token. */
  lemma StateIgnoresC(p: Params, st: Vec, toks: seq<Token>, c: Vec)
    requires toks != []
    ensures var n := |toks| - 1; Fold(KernelOf(p), st, toks[n := toks[n].(C := c)]) == Fold(KernelOf(p), st, toks)
  {
    var n := |toks| - 1;
    var other := toks[n := toks[n].(C := c)];
    assert other[..n] == toks[..n];
    FoldLast(p, st, toks);
    FoldLast(p, st, other);
    StepIgnoresC(p, Fold(KernelOf(p), st, toks[..n]), toks[n], c);
  }

  /** Output k of the sequence with another C at token k. */
  function OutputWith(p: Params, st: Vec, toks: seq<Token>, k: nat, c: Vec): real
    requires k < |toks|
  {
    Outs(KernelOf(p), st, toks[k := toks[k].(C := c)])[k].0
  }

  /**
   Apart from D times u the output is linear in C: for r = s * c + c' it is s times the output for c
   plus the output for c'.  With the two lemmas above this fixes it for every C.
   */
  lemma OutputLinear(p: Params, st: Vec, toks: seq<Token>, k: nat, c: Vec, c': Vec, r: Vec, s: real, d: real)
    requires k < |toks| && |c| == |c'| == |r| == |p.A| && IsSkip(p, toks[k], d)
    requires forall j :: 0 <= j < |p.A| ==> r[j] == s * c[j] + c'[j]
    ensures Combines(OutputWith(p, st, toks, k, r), OutputWith(p, st, toks, k, c), OutputWith(p, st, toks, k, c'), s, d)
  {
    var state := Fold(KernelOf(p), st, toks[..k + 1]);
    OutputFor(p, st, toks, k, r, d);
    OutputFor(p, st, toks, k, c, d);
    OutputFor(p, st, toks, k, c', d);
    DotCombines(state, c, c', r, s, |p.A|, d);
  }

  /** Without the share d: y is s times y1 plus y2. */
  ghost predicate Combines(y: real, y1: real, y2: real, s: real, d: real) {
    y - d == s * (y1 - d) + (y2 - d)
  }

  lemma DotCombines(a: Vec, c: Vec, c': Vec, r: Vec, s: real, n: nat, d: real)
    requires n <= |c| == |c'| == |r| && forall j :: 0 <= j < n ==> r[j] == s * c[j] + c'[j]
    ensures Combines(Dot(a, r, n) + d, Dot(a, c, n) + d, Dot(a, c', n) + d, s, d)
  {
    DotLinear(a, c, c', r, s, n);
  }

  lemma OutputFor(p: Params, st: Vec, toks: seq<Token>, k: nat, c: Vec, d: real)
    requires k < |toks| && IsSkip(p, toks[k], d)
    ensures OutputWith(p, st, toks, k, c) == Dot(Fold(KernelOf(p), st, toks[..k + 1]), c, |p.A|) + d
  {
    var other, front := toks[k := toks[k].(C := c)], toks[..k + 1];
    WrittenAt(p, st, other, k);
    assert Fold(KernelOf(p), st, other[..k + 1]) == Fold(KernelOf(p), st, front) by {
      assert other[..k + 1] == front[k := front[k].(C := c)];
      StateIgnoresC(p, st, front, c);
    }
    OutputIs(p, Fold(KernelOf(p), st, front), toks[k].(C := c), d);
  }

  lemma OutputIs(p: Params, state: Vec, t: Token, d: real)
    requires IsSkip(p, t, d)
    ensures Output(p, state, t) == Dot(state, t.C, |p.A|) + d
  {
  }

  /** The gated output times 1 + exp(-z) is the output times z. */
  lemma GateExact(p: Params, st: Vec, toks: seq<Token>, k: nat)
    requires k < |toks| && 1.0 + p.exp(-toks[k].z) != 0.0
    ensures GateOf(p.exp, toks[k].z, Outs(KernelOf(p), st, toks)[k])
  {
    WrittenAt(p, st, toks, k);
    GatedTimes(p, Outs(KernelOf(p), st, toks)[k].0, toks[k].z);
  }

  ghost predicate GateOf(exp: real -> real, z: real, o: (real, real)) {
    o.1 * (1.0 + exp(-z)) == o.0 * z
  }

  lemma GatedTimes(p: Params, o: real, z: real)
    requires 1.0 + p.exp(-z) != 0.0
    ensures GateOf(p.exp, z, (o, Gated(p, o, z)))
  {
    Quotient(o * z, 1.0 + p.exp(-z));
  }

  lemma Quotient(x: real, y: real)
    requires y != 0.0
    ensures x / y * y == x
  {
  }
}
