// Shifts and masks by a size.  Record and cluster sizes are powers of two, so log_media keeps
// their logarithms, and the file system writes x << log, x >> log and x & (size - 1).  These
// are the same operations for any positive size n, counted out by repeated addition, so that
// facts about them need induction but no nonlinear arithmetic.
module Shift {
  function Mul(q: nat, n: nat): nat {
    if q == 0 then 0 else n + Mul(q - 1, n)
  }

  function Quo(o: nat, n: nat): nat {
    if n == 0 || o < n then 0 else 1 + Quo(o - n, n)
  }

  function Rem(o: nat, n: nat): nat
    ensures 0 < n ==> Rem(o, n) < n
  {
    if n == 0 || o < n then o else Rem(o - n, n)
  }

  lemma {:induction false} MulIsProduct(q: nat, n: nat)
    ensures Mul(q, n) == q * n
  {
    if q > 0 {
      MulIsProduct(q - 1, n);
    }
  }

  lemma {:induction false} QuoRemAreDivMod(o: nat, n: nat)
    requires 0 < n
    ensures Quo(o, n) == o / n && Rem(o, n) == o % n
  {
    Recompose(o, n);
    MulIsProduct(Quo(o, n), n);
    var d := Quo(o, n) - o / n;
    assert d * n == o % n - Rem(o, n);
    SignedMultiple(d, n);
  }

  lemma SignedMultiple(d: int, n: nat)
    ensures 1 <= d ==> n <= d * n
    ensures d <= -1 ==> d * n + n <= 0
  {
  }

  lemma {:induction false} Recompose(o: nat, n: nat)
    requires 0 < n
    ensures o == Mul(Quo(o, n), n) + Rem(o, n) && Rem(o, n) < n
  {
    if n <= o {
      Recompose(o - n, n);
    }
  }

  lemma {:induction false} Decompose(q: nat, r: nat, n: nat)
    requires r < n
    ensures Quo(Mul(q, n) + r, n) == q && Rem(Mul(q, n) + r, n) == r
  {
    if q > 0 {
      Decompose(q - 1, r, n);
    }
  }

  lemma {:induction false} MulAdd(a: nat, b: nat, n: nat)
    ensures Mul(a + b, n) == Mul(a, n) + Mul(b, n)
  {
    if a > 0 {
      MulAdd(a - 1, b, n);
    }
  }

  lemma {:induction false} MulMul(a: nat, b: nat, n: nat)
    ensures Mul(Mul(a, b), n) == Mul(a, Mul(b, n))
  {
    if a > 0 {
      MulMul(a - 1, b, n);
      MulAdd(b, Mul(a - 1, b), n);
    }
  }

  lemma {:induction false} MulPos(q: nat, n: nat)
    requires 0 < q && 0 < n
    ensures n <= Mul(q, n) && q <= Mul(q, n)
  {
    if q > 1 {
      MulPos(q - 1, n);
    }
  }

  lemma MulOne(n: nat)
    ensures Mul(1, n) == n && Mul(0, n) == 0
  {
    assert Mul(1, n) == n + Mul(0, n);
  }

  // Monotone, and strictly so when n is positive.
  lemma MulMono(a: nat, b: nat, n: nat)
    requires a <= b
    ensures Mul(a, n) <= Mul(b, n)
    ensures a < b ==> Mul(a, n) + n <= Mul(b, n)
  {
    hide Mul;
    MulAdd(a, b - a, n);
    if a < b {
      MulAdd(a, 1, n);
      MulAdd(a + 1, b - a - 1, n);
      MulOne(n);
    }
  }

  // o < num << log exactly when o >> log < num.
  lemma QuoBound(o: nat, num: nat, n: nat)
    requires 0 < n
    ensures o < Mul(num, n) <==> Quo(o, n) < num
  {
    hide Mul, Quo, Rem;
    Recompose(o, n);
    if Quo(o, n) < num {
      MulMono(Quo(o, n), num, n);
    } else {
      MulMono(num, Quo(o, n), n);
    }
  }

  // Adding whole units moves the quotient and keeps the remainder.
  lemma QuoAdd(q: nat, o: nat, n: nat)
    requires 0 < n
    ensures Quo(Mul(q, n) + o, n) == q + Quo(o, n) && Rem(Mul(q, n) + o, n) == Rem(o, n)
  {
    hide Mul, Quo, Rem;
    Recompose(o, n);
    MulAdd(q, Quo(o, n), n);
    Decompose(q + Quo(o, n), Rem(o, n), n);
  }

  lemma {:induction false} QuoMono(b: nat, n: nat, size: nat)
    requires b <= n
    ensures Quo(b, size) <= Quo(n, size)
  {
    if 0 < size <= b {
      QuoMono(b - size, n - size, size);
    }
  }

  // The position after o is in the same unit, or starts the next one.
  lemma QuoNext(o: nat, n: nat)
    requires 0 < n
    ensures if Rem(o, n) + 1 == n then Quo(o + 1, n) == Quo(o, n) + 1 && Rem(o + 1, n) == 0
      else Quo(o + 1, n) == Quo(o, n) && Rem(o + 1, n) == Rem(o, n) + 1
  {
    hide Mul, Quo, Rem;
    Recompose(o, n);
    if Rem(o, n) + 1 == n {
      MulAdd(Quo(o, n), 1, n);
      MulOne(n);
      Decompose(Quo(o, n) + 1, 0, n);
    } else {
      Decompose(Quo(o, n), Rem(o, n) + 1, n);
    }
  }

  // Two positions in the same place of the same unit are equal.
  lemma QuoRemUnique(o: nat, p: nat, n: nat)
    requires 0 < n && Quo(o, n) == Quo(p, n) && Rem(o, n) == Rem(p, n)
    ensures o == p
  {
    hide Mul, Quo, Rem;
    Recompose(o, n);
    Recompose(p, n);
  }

  // Dividing by b << log of n is dividing by n, then by b.
  lemma QuoQuo(o: nat, b: nat, n: nat)
    requires 0 < n && 0 < b
    ensures Quo(o, Mul(b, n)) == Quo(Quo(o, n), b)
    ensures Rem(o, Mul(b, n)) == Mul(Rem(Quo(o, n), b), n) + Rem(o, n)
  {
    hide Mul, Quo, Rem;
    var q := Quo(o, n);
    var k, s := Quo(q, b), Rem(q, b);
    Recompose(o, n);
    Recompose(q, b);
    MulAdd(Mul(k, b), s, n);
    MulMul(k, b, n);
    MulMono(s, b, n);
    Decompose(k, Mul(s, n) + Rem(o, n), Mul(b, n));
  }
}
