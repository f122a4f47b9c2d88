/** Integer division and multiplication facts shared by the index arithmetic of the other modules. */
module Arith {

  lemma MulMono(x: int, y: int, b: nat)
    requires x <= y
    ensures x * b <= y * b
  {
  }

  lemma MulStep(n: int, b: int)
    ensures (n + 1) * b == n * b + b
    ensures (n - 1) * b == n * b - b
  {
  }

  lemma MulSplit(n: int, k: int, b: int)
    ensures (n - k) * b == n * b - k * b
  {
  }

  lemma DivUnique(a: int, b: nat, q: int)
    requires b > 0 && q * b <= a < q * b + b
    ensures a / b == q && a % b == a - q * b
  {
    var p := a / b;
    assert a == p * b + a % b && 0 <= a % b < b;
    MulStep(p, b);
    MulStep(q, b);
    if p < q {
      MulMono(p + 1, q, b);
    } else if q < p {
      MulMono(q + 1, p, b);
    }
  }

  lemma DivBounds(a: int, b: nat)
    requires b > 0
    ensures (a / b) * b <= a < (a / b) * b + b
    ensures a % b == a - (a / b) * b
  {
  }

  /** Number of blocks of size `bs` that `len` tokens occupy. */
  function Blocks(len: nat, bs: nat): nat
    requires bs > 0
  {
    if len == 0 then 0 else if len <= bs then 1 else 1 + Blocks(len - bs, bs)
  }

  lemma {:induction false} BlocksBounds(len: nat, bs: nat)
    requires bs > 0
    ensures len <= Blocks(len, bs) * bs < len + bs
  {
    if len > bs {
      BlocksBounds(len - bs, bs);
      MulStep(Blocks(len - bs, bs), bs);
    } else if len > 0 {
      MulStep(0, bs);
    }
  }

  lemma {:induction false} BlocksGrow(len: nat, more: nat, bs: nat)
    requires bs > 0
    ensures Blocks(len, bs) <= Blocks(len + more, bs)
  {
    if len > bs {
      BlocksGrow(len - bs, more, bs);
    }
  }

  /** The ceiling division of the source. */
  lemma BlocksIsCeiling(len: nat, bs: nat)
    requires bs > 0
    ensures Blocks(len, bs) == (len + bs - 1) / bs
    ensures Blocks(len, bs) * bs == len <==> len % bs == 0
  {
    BlocksBounds(len, bs);
    DivUnique(len + bs - 1, bs, Blocks(len, bs));
    DivBounds(len, bs);
    if len % bs == 0 {
      assert (len / bs) * bs == len;
      DivUnique(len + bs - 1, bs, len / bs);
    } else if Blocks(len, bs) * bs == len {
      DivUnique(len, bs, Blocks(len, bs));
    }
  }
}
