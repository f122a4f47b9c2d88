/**
 Dynamic 8-bit quantisation of one row (vllm/_xpu_ops.py, the reference implementation), in
 exact arithmetic and for any rounding to a nearest integer.
 */
module Quantizer {

  type Row = s: seq<real> | |s| > 0 witness [0.0]

  type Rounding = real -> int

  /** Rounding to a nearest integer, ties either way. */
  ghost predicate Nearest(round: Rounding) {
    forall x: real :: -0.5 <= round(x) as real - x <= 0.5
  }

  function Pow2(n: nat): nat {
    if n == 0 then 1 else 2 * Pow2(n - 1)
  }

  lemma {:induction false} Pow2Rises(m: nat, n: nat)
    requires m <= n
    ensures 1 <= Pow2(m) <= Pow2(n) && (m < n ==> 2 * Pow2(m) <= Pow2(n))
    decreases n
  {
    if m < n {
      Pow2Rises(m, n - 1);
    } else if n > 0 {
      Pow2Rises(m - 1, n - 1);
    }
  }

  function QMin(symmetric: bool, bits: nat): int
    requires bits > 0
  {
    if symmetric then 0 - Pow2(bits - 1) else 0
  }

  function QMax(symmetric: bool, bits: nat): int
    requires bits > 0
  {
    if symmetric then Pow2(bits - 1) - 1 else Pow2(bits) - 1
  }

  // ----- the row -----

  function Max(a: real, b: real): real {
    if a >= b then a else b
  }

  function Abs(x: real): real {
    if x < 0.0 then -x else x
  }

  function RowMax(s: Row): (r: real)
    ensures r in s && forall k :: 0 <= k < |s| ==> s[k] <= r
  {
    if |s| == 1 then s[0]
    else
      var r := RowMax(s[..|s| - 1]);
      if r >= s[|s| - 1] then r else s[|s| - 1]
  }

  function RowMin(s: Row): (r: real)
    ensures r in s && forall k :: 0 <= k < |s| ==> r <= s[k]
  {
    if |s| == 1 then s[0]
    else
      var r := RowMin(s[..|s| - 1]);
      if r <= s[|s| - 1] then r else s[|s| - 1]
  }

  function Scale(s: Row, symmetric: bool, bits: nat): (r: real)
    requires bits >= 2
    ensures r > 0.0
  {
    Pow2Rises(1, bits - 1);
    Pow2Rises(1, bits);
    var span := if symmetric then Max(Abs(RowMin(s)), Abs(RowMax(s))) else RowMax(s) - RowMin(s);
    Max(span / QMax(symmetric, bits) as real, 0.00001)
  }

  function ZeroPoint(s: Row, symmetric: bool, bits: nat, round: Rounding): int
    requires bits >= 2
  {
    if symmetric then 0 else -round(RowMin(s) / Scale(s, symmetric, bits))
  }

  function Clamp(x: int, lo: int, hi: int): int {
    if x < lo then lo else if x > hi then hi else x
  }

  /** The value in units of the scale, moved by the zero point. */
  function Level(x: real, s: Row, symmetric: bool, bits: nat, round: Rounding): real
    requires bits >= 2
  {
    x / Scale(s, symmetric, bits) + ZeroPoint(s, symmetric, bits, round) as real
  }

  /** The quantised value before clamping. */
  function Rounded(x: real, s: Row, symmetric: bool, bits: nat, round: Rounding): int
    requires bits >= 2
  {
    round(Level(x, s, symmetric, bits, round))
  }

  function Quantize(x: real, s: Row, symmetric: bool, bits: nat, round: Rounding): int
    requires bits >= 2
  {
    Clamp(Rounded(x, s, symmetric, bits, round), QMin(symmetric, bits), QMax(symmetric, bits))
  }

  function Times(n: int, c: real): real {
    n as real * c
  }

  function Dequantize(q: int, s: Row, symmetric: bool, bits: nat, round: Rounding): real
    requires bits >= 2
  {
    Times(q - ZeroPoint(s, symmetric, bits, round), Scale(s, symmetric, bits))
  }

  // ----- arithmetic -----

  lemma TimesOrder(a: real, b: real, c: real)
    requires c > 0.0
    ensures a <= b <==> a * c <= b * c
  {
    if a < b {
      assert (b - a) * c > 0.0;
    } else if a > b {
      assert (a - b) * c > 0.0;
    }
  }

  lemma QuotientBound(x: real, c: real, q: real)
    requires c > 0.0
    ensures x / c <= q <==> x <= q * c
    ensures q <= x / c <==> q * c <= x
  {
    assert (x / c) * c == x;
    TimesOrder(x / c, q, c);
    TimesOrder(q, x / c, c);
  }

  lemma QuotientOrder(x: real, y: real, c: real)
    requires c > 0.0 && x <= y
    ensures x / c <= y / c
  {
    assert (y / c) * c == y;
    QuotientBound(x, c, y / c);
  }

  lemma QuotientSpan(x: real, m: real, c: real, q: real)
    requires c > 0.0 && m <= x <= m + q * c
    ensures m / c <= x / c <= m / c + q
  {
    QuotientOrder(m, x, c);
    assert (m / c) * c == m;
    assert (m / c + q) * c == m + q * c;
    QuotientBound(x, c, m / c + q);
  }

  /** A nearest rounding is monotone. */
  lemma RoundMonotone(round: Rounding, x: real, y: real)
    requires Nearest(round) && x <= y
    ensures round(x) <= round(y)
  {
    assert -0.5 <= round(x) as real - x <= 0.5;
    assert -0.5 <= round(y) as real - y <= 0.5;
  }

  lemma RoundInteger(round: Rounding, n: int)
    requires Nearest(round)
    ensures round(n as real) == n
  {
    assert -0.5 <= round(n as real) as real - n as real <= 0.5;
  }

  /** Clamping a nearest integer of v moves it no further from v than half a unit, if v is in reach. */
  lemma ClampNear(v: real, r: int, lo: int, hi: int)
    requires lo <= hi && -0.5 <= r as real - v <= 0.5 && lo as real - 0.5 <= v <= hi as real + 0.5
    ensures -0.5 <= Clamp(r, lo, hi) as real - v <= 0.5
  {
  }

  // ----- what the scale guarantees -----

  lemma QRange(symmetric: bool, bits: nat)
    requires bits >= 2
    ensures QMin(symmetric, bits) <= 0 < QMax(symmetric, bits)
    ensures symmetric ==> QMin(symmetric, bits) == -QMax(symmetric, bits) - 1
  {
    Pow2Rises(1, bits - 1);
    Pow2Rises(1, bits);
  }

  ghost predicate WithinMagnitude(s: Row, limit: real) {
    forall k :: 0 <= k < |s| ==> -limit <= s[k] <= limit
  }

  ghost predicate HasMagnitude(s: Row, limit: real) {
    exists k :: 0 <= k < |s| && (s[k] == limit || s[k] == -limit)
  }

  ghost predicate WithinSpread(s: Row, limit: real) {
    forall j, k :: 0 <= j < |s| && 0 <= k < |s| ==> s[j] - s[k] <= limit
  }

  ghost predicate HasSpread(s: Row, limit: real) {
    exists j, k :: 0 <= j < |s| && 0 <= k < |s| && s[j] - s[k] == limit
  }

  lemma RowMagnitude(s: Row)
    ensures var span := Max(Abs(RowMin(s)), Abs(RowMax(s))); WithinMagnitude(s, span) && HasMagnitude(s, span)
  {
    var i :| 0 <= i < |s| && s[i] == RowMin(s);
    var j :| 0 <= j < |s| && s[j] == RowMax(s);
  }

  lemma RowSpread(s: Row)
    ensures WithinSpread(s, RowMax(s) - RowMin(s)) && HasSpread(s, RowMax(s) - RowMin(s))
  {
    var i :| 0 <= i < |s| && s[i] == RowMin(s);
    var j :| 0 <= j < |s| && s[j] == RowMax(s);
  }

  /** The span fills the codes up to n exactly, or leaves room because of the floor. */
  ghost predicate Fills(span: real, n: int, c: real) {
    c >= 0.00001 && span <= Times(n, c) && (c == 0.00001 || span == Times(n, c))
  }

  lemma SpanScaled(span: real, n: int)
    requires n > 0
    ensures Fills(span, n, Max(span / n as real, 0.00001))
  {
    var q, c := n as real, Max(span / n as real, 0.00001);
    QuotientBound(span, q, c);
    assert c * q == q * c == Times(n, c);
    assert (span / q) * q == span;
  }

  lemma ScaleFills(s: Row, symmetric: bool, bits: nat)
    requires bits >= 2
    ensures var span := if symmetric then Max(Abs(RowMin(s)), Abs(RowMax(s))) else RowMax(s) - RowMin(s);
            Fills(span, QMax(symmetric, bits), Scale(s, symmetric, bits))
  {
    QRange(symmetric, bits);
    var span := if symmetric then Max(Abs(RowMin(s)), Abs(RowMax(s))) else RowMax(s) - RowMin(s);
    SpanScaled(span, QMax(symmetric, bits));
  }

  /** The symmetric scale is the least one, not below the floor, that brings every magnitude within the largest code. */
  lemma SymmetricScaleExact(s: Row, bits: nat)
    requires bits >= 2
    ensures var c := Scale(s, true, bits);
            var limit := Times(Pow2(bits - 1) - 1, c);
            c >= 0.00001 && WithinMagnitude(s, limit) && (c == 0.00001 || HasMagnitude(s, limit))
  {
    ScaleFills(s, true, bits);
    RowMagnitude(s);
  }

  /** The asymmetric scale is the least one, not below the floor, that brings every difference within the code range. */
  lemma AsymmetricScaleExact(s: Row, bits: nat)
    requires bits >= 2
    ensures var c := Scale(s, false, bits);
            var limit := Times(Pow2(bits) - 1, c);
            c >= 0.00001 && WithinSpread(s, limit) && (c == 0.00001 || HasSpread(s, limit))
  {
    ScaleFills(s, false, bits);
    RowSpread(s);
  }

  lemma ScaledSymmetric(x: real, s: Row, bits: nat)
    requires bits >= 2 && x in s
    ensures -(QMax(true, bits) as real) <= x / Scale(s, true, bits) <= QMax(true, bits) as real
  {
    QRange(true, bits);
    var k :| 0 <= k < |s| && s[k] == x;
    var span, c, q := Max(Abs(RowMin(s)), Abs(RowMax(s))), Scale(s, true, bits), QMax(true, bits) as real;
    QuotientBound(span, q, c);
    assert -span <= x <= span && c * q == q * c && (-q) * c == -(q * c);
    QuotientBound(x, c, q);
    QuotientBound(x, c, -q);
  }

  lemma ScaledAsymmetric(x: real, s: Row, bits: nat)
    requires bits >= 2 && x in s
    ensures var low := RowMin(s) / Scale(s, false, bits);
            low <= x / Scale(s, false, bits) <= low + QMax(false, bits) as real
  {
    QRange(false, bits);
    var k :| 0 <= k < |s| && s[k] == x;
    var m, c, q := RowMin(s), Scale(s, false, bits), QMax(false, bits) as real;
    QuotientBound(RowMax(s) - m, q, c);
    assert c * q == q * c;
    QuotientSpan(x, m, c, q);
  }

  /** The value to be rounded is at most half a unit outside the target range. */
  lemma InReach(x: real, s: Row, symmetric: bool, bits: nat, round: Rounding)
    requires bits >= 2 && x in s && Nearest(round)
    ensures QMin(symmetric, bits) as real - 0.5 <= Level(x, s, symmetric, bits, round)
    ensures Level(x, s, symmetric, bits, round) <= QMax(symmetric, bits) as real + 0.5
  {
    QRange(symmetric, bits);
    if symmetric {
      ScaledSymmetric(x, s, bits);
    } else {
      ScaledAsymmetric(x, s, bits);
      var low := RowMin(s) / Scale(s, false, bits);
      assert -0.5 <= round(low) as real - low <= 0.5;
    }
  }

  // ----- the results -----

  /** Dequantising gives each value of the row back to within half the scale, in both modes. */
  lemma ErrorWithinHalfScale(x: real, s: Row, symmetric: bool, bits: nat, round: Rounding)
    requires bits >= 2 && x in s && Nearest(round)
    ensures -0.5 * Scale(s, symmetric, bits)
            <= Dequantize(Quantize(x, s, symmetric, bits, round), s, symmetric, bits, round) - x
            <= 0.5 * Scale(s, symmetric, bits)
  {
    QuantizeNear(x, s, symmetric, bits, round);
    ScaledError(x, Scale(s, symmetric, bits),
                Quantize(x, s, symmetric, bits, round), ZeroPoint(s, symmetric, bits, round));
  }

  lemma QuantizeNear(x: real, s: Row, symmetric: bool, bits: nat, round: Rounding)
    requires bits >= 2 && x in s && Nearest(round)
    ensures -0.5 <= Quantize(x, s, symmetric, bits, round) as real - Level(x, s, symmetric, bits, round) <= 0.5
  {
    var v := Level(x, s, symmetric, bits, round);
    QRange(symmetric, bits);
    InReach(x, s, symmetric, bits, round);
    assert -0.5 <= round(v) as real - v <= 0.5;
    ClampNear(v, round(v), QMin(symmetric, bits), QMax(symmetric, bits));
  }

  lemma ScaledError(x: real, c: real, q: int, z: int)
    requires c > 0.0 && -0.5 <= q as real - (x / c + z as real) <= 0.5
    ensures -0.5 * c <= Times(q - z, c) - x <= 0.5 * c
  {
    var d := (q - z) as real - x / c;
    assert (x / c) * c == x;
    assert d * c == (q - z) as real * c - x;
    TimesOrder(-0.5, d, c);
    TimesOrder(d, 0.5, c);
  }

  /** In symmetric mode the clamp never acts. */
  lemma SymmetricNeverClamps(x: real, s: Row, bits: nat, round: Rounding)
    requires bits >= 2 && x in s && Nearest(round)
    ensures QMin(true, bits) < Rounded(x, s, true, bits, round) <= QMax(true, bits)
    ensures Quantize(x, s, true, bits, round) == Rounded(x, s, true, bits, round)
  {
    QRange(true, bits);
    ScaledSymmetric(x, s, bits);
    var v, q := x / Scale(s, true, bits), QMax(true, bits);
    RoundMonotone(round, v, q as real);
    RoundMonotone(round, (-q) as real, v);
    RoundInteger(round, q);
    RoundInteger(round, -q);
    assert v + 0.0 == v;
  }

  /** In asymmetric mode the clamp moves a value by at most one. */
  lemma AsymmetricClampsByOne(x: real, s: Row, bits: nat, round: Rounding)
    requires bits >= 2 && x in s && Nearest(round)
    ensures -1 <= Rounded(x, s, false, bits, round) - Quantize(x, s, false, bits, round) <= 1
  {
    QRange(false, bits);
    InReach(x, s, false, bits, round);
    var v := Level(x, s, false, bits, round);
    assert -0.5 <= round(v) as real - v <= 0.5;
  }

  /** Quantisation keeps the order of a row. */
  lemma QuantizeMonotone(x: real, y: real, s: Row, symmetric: bool, bits: nat, round: Rounding)
    requires bits >= 2 && x <= y && Nearest(round)
    ensures Quantize(x, s, symmetric, bits, round) <= Quantize(y, s, symmetric, bits, round)
  {
    QRange(symmetric, bits);
    QuotientOrder(x, y, Scale(s, symmetric, bits));
    RoundMonotone(round, Level(x, s, symmetric, bits, round), Level(y, s, symmetric, bits, round));
  }

  /** The scale is no larger than it must be: unless it is at its floor, a largest value gets a largest code. */
  lemma SymmetricUsesRange(x: real, s: Row, bits: nat, round: Rounding)
    requires bits >= 2 && x in s && Nearest(round)
    requires Abs(x) == Max(Abs(RowMin(s)), Abs(RowMax(s))) && Scale(s, true, bits) > 0.00001
    ensures Quantize(x, s, true, bits, round) == if x >= 0.0 then QMax(true, bits) else -QMax(true, bits)
  {
    QRange(true, bits);
    var q, c := QMax(true, bits), Scale(s, true, bits);
    ExactQuotient(Abs(x), q as real, c);
    NegativeQuotient(Abs(x), c);
    RoundInteger(round, q);
    RoundInteger(round, -q);
    var v := Level(x, s, true, bits, round);
    assert v == if x >= 0.0 then q as real else (-q) as real;
  }

  lemma ExactQuotient(span: real, q: real, c: real)
    requires q > 0.0 && c > 0.0 && c == span / q
    ensures span / c == q
  {
    assert c * q == span;
    QuotientBound(span, c, q);
    assert q * c == span;
  }

  lemma NegativeQuotient(x: real, c: real)
    requires c > 0.0
    ensures (-x) / c == -(x / c)
  {
  }

  lemma AsymmetricUsesRange(s: Row, bits: nat, round: Rounding)
    requires bits >= 2 && Nearest(round) && Scale(s, false, bits) > 0.00001
    ensures 0 <= Quantize(RowMin(s), s, false, bits, round) <= 1
    ensures QMax(false, bits) - 1 <= Quantize(RowMax(s), s, false, bits, round) <= QMax(false, bits)
  {
    QRange(false, bits);
    var m, q, c := RowMin(s), QMax(false, bits) as real, Scale(s, false, bits);
    ExactQuotient(RowMax(s) - m, q, c);
    DifferenceQuotient(RowMax(s), m, c);
    var low := m / c;
    assert -0.5 <= round(low) as real - low <= 0.5;
    var a, b := Level(m, s, false, bits, round), Level(RowMax(s), s, false, bits, round);
    assert -0.5 <= a <= 0.5 && b == a + q;
    assert -0.5 <= round(a) as real - a <= 0.5;
    assert -0.5 <= round(b) as real - b <= 0.5;
  }

  lemma DifferenceQuotient(x: real, y: real, c: real)
    requires c > 0.0
    ensures (x - y) / c == x / c - y / c
  {
  }

  // ----- the storage type -----

  /** The value fits the eight-bit type of its mode. */
  predicate Fits(q: int, symmetric: bool) {
    if symmetric then -128 <= q <= 127 else 0 <= q <= 255
  }

  ghost predicate AlwaysFits(symmetric: bool, bits: nat, round: Rounding)
    requires bits >= 2
  {
    forall s: Row, k :: 0 <= k < |s| ==> Fits(Quantize(s[k], s, symmetric, bits, round), symmetric)
  }

  /** A row whose largest value is quantised to the largest code. */
  function Widest(symmetric: bool, bits: nat): Row
    requires bits >= 2
  {
    [0.0, QMax(symmetric, bits) as real]
  }

  lemma SelfQuotient(q: real)
    requires q > 0.0
    ensures q / q == 1.0
  {
  }

  lemma WidestScale(symmetric: bool, bits: nat)
    requires bits >= 2
    ensures Scale(Widest(symmetric, bits), symmetric, bits) == 1.0 && RowMin(Widest(symmetric, bits)) == 0.0
  {
    QRange(symmetric, bits);
    var s, q := Widest(symmetric, bits), QMax(symmetric, bits) as real;
    TwoValues(q);
    SelfQuotient(q);
  }

  lemma TwoValues(q: real)
    requires q > 0.0
    ensures RowMax([0.0, q]) == q && RowMin([0.0, q]) == 0.0
  {
    var s: Row := [0.0, q];
    assert s[0] == 0.0 && s[1] == q;
  }

  lemma WidestReaches(symmetric: bool, bits: nat, round: Rounding)
    requires bits >= 2 && Nearest(round)
    ensures var w := Widest(symmetric, bits); Quantize(w[1], w, symmetric, bits, round) == QMax(symmetric, bits)
  {
    QRange(symmetric, bits);
    WidestScale(symmetric, bits);
    var s, q := Widest(symmetric, bits), QMax(symmetric, bits);
    assert 0.0 / 1.0 == 0.0 && q as real / 1.0 == q as real;
    RoundInteger(round, 0);
    RoundInteger(round, q);
    assert Level(s[1], s, symmetric, bits, round) == q as real;
  }

  /** The codes fit the storage type exactly for at most eight bits. */
  lemma FitsIff(symmetric: bool, bits: nat, round: Rounding)
    requires bits >= 2 && Nearest(round)
    ensures AlwaysFits(symmetric, bits, round) <==> bits <= 8
  {
    assert Pow2(8) == 256 && Pow2(7) == 128 by {
      assert Pow2(4) == 16;
    }
    QRange(symmetric, bits);
    if bits <= 8 {
      Pow2Rises(bits, 8);
      Pow2Rises(bits - 1, 7);
    } else {
      Pow2Rises(8, bits);
      Pow2Rises(7, bits - 1);
      WidestReaches(symmetric, bits, round);
      var s := Widest(symmetric, bits);
      assert !Fits(Quantize(s[1], s, symmetric, bits, round), symmetric);
    }
  }
}
