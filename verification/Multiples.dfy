/** Divisibility by counting up, and what it has to do with remainders. */
module Multiples {

  /** x is a multiple of a. */
  predicate Divides(a: nat, x: nat)
    requires a > 0
  {
    x == 0 || (x >= a && Divides(a, x - a))
  }

  lemma {:induction false} DividesMod(a: nat, x: nat)
    requires a > 0 && Divides(a, x)
    ensures x % a == 0
  {
    if x > 0 {
      DividesMod(a, x - a);
      AddMod(x - a, a);
    }
  }

  lemma AddMod(x: nat, a: nat)
    requires a > 0
    ensures (x + a) % a == x % a
  {
    assert x == (x / a) * a + x % a;
    assert x + a == ((x + a) / a) * a + (x + a) % a;
    RemainderUnique(a, x / a + 1, x % a, (x + a) / a, (x + a) % a);
  }

  lemma RemainderUnique(a: nat, q: nat, r: nat, d: nat, s: nat)
    requires r < a && s < a && q * a + r == d * a + s
    ensures r == s
  {
    assert (q - d) * a == q * a - d * a;
    assert (d - q) * a == d * a - q * a;
    if q > d {
      MultipleIsLarge(q - d, a);
    } else if q < d {
      MultipleIsLarge(d - q, a);
    }
  }

  lemma {:induction false} MultipleIsLarge(k: nat, a: nat)
    requires k >= 1
    ensures k * a >= a
  {
    if k > 1 {
      MultipleIsLarge(k - 1, a);
      assert k * a == (k - 1) * a + a;
    }
  }

  lemma {:induction false} MultiplesApart(a: nat, x: nat, y: nat)
    requires a > 0 && Divides(a, x) && Divides(a, y) && x < y
    ensures x + a <= y
  {
    if x > 0 {
      MultiplesApart(a, x - a, y - a);
    }
  }

  lemma {:induction false} DividesSum(a: nat, x: nat, y: nat)
    requires a > 0 && Divides(a, x) && Divides(a, y)
    ensures Divides(a, x + y)
    decreases x
  {
    if x > 0 {
      DividesSum(a, x - a, y);
    }
  }

  // ---------------------------------------------------------------- remainders

  /** Numbers with the same remainder are a multiple apart. */
  lemma {:induction false} SameRemainder(x: nat, y: nat, n: nat)
    requires n > 0 && x <= y && x % n == y % n
    ensures Divides(n, y - x)
  {
    if y >= n {
      AddMod(y - n, n);
      if x >= n {
        AddMod(x - n, n);
        SameRemainder(x - n, y - n, n);
      } else {
        SmallRemainder(x, n);
        SmallRemainder2(x, y - n, n);
        SameRemainder(x, y - n, n);
      }
    } else {
      SmallRemainder(x, n);
      SmallRemainder(y, n);
    }
  }

  lemma SmallRemainder(x: nat, n: nat)
    requires x < n
    ensures x % n == x
  {
    RemainderUnique(n, 0, x, x / n, x % n);
  }

  lemma SmallRemainder2(x: nat, y: nat, n: nat)
    requires x < n && y % n == x
    ensures x <= y
  {
    if y < n {
      SmallRemainder(y, n);
    }
  }

  /** Reducing before adding makes no difference. */
  lemma {:induction false} ReduceFirst(x: nat, y: nat, n: nat)
    requires n > 0
    ensures (x % n + y) % n == (x + y) % n
  {
    if x < n {
      SmallRemainder(x, n);
    } else {
      AddMod(x - n, n);
      ReduceFirst(x - n, y, n);
      AddMod(x - n + y, n);
    }
  }

  // ---------------------------------------------------------------- divisors

  lemma {:induction false} DividesDifference(a: nat, x: nat, y: nat)
    requires a > 0 && x <= y && Divides(a, x) && Divides(a, y)
    ensures Divides(a, y - x)
  {
    if x > 0 {
      DividesDifference(a, x - a, y - a);
    }
  }

  lemma {:induction false} DividesMultiple(a: nat, k: nat)
    requires a > 0
    ensures Divides(a, k * a)
  {
    if k > 0 {
      DividesMultiple(a, k - 1);
      assert k * a == (k - 1) * a + a;
    }
  }

  /** A multiple as a product. */
  lemma {:induction false} Cofactor(a: nat, x: nat) returns (k: nat)
    requires a > 0 && Divides(a, x)
    ensures x == k * a
  {
    if x == 0 {
      k := 0;
    } else {
      var j := Cofactor(a, x - a);
      k := j + 1;
      assert (j + 1) * a == j * a + a;
    }
  }

  ghost predicate Coprime(a: nat, b: nat) {
    forall d: nat | d > 1 :: !(Divides(d, a) && Divides(d, b))
  }

  lemma CoprimeLess(a: nat, b: nat)
    requires b <= a && Coprime(a, b)
    ensures Coprime(a - b, b)
  {
    forall d: nat | d > 1
      ensures !(Divides(d, a - b) && Divides(d, b))
    {
      if Divides(d, a - b) && Divides(d, b) {
        DividesSum(d, a - b, b);
        assert false;
      }
    }
  }

  lemma Distributes(x: nat, y: nat, c: nat)
    ensures (x + y) * c == x * c + y * c && c * (x + y) == c * x + c * y
  {
  }

  lemma Regroup(j: nat, c: nat, n: nat)
    ensures (j * c) * n == (j * n) * c
  {
  }

  /** Euclid's lemma: what divides a product and is coprime to one factor divides the other. */
  lemma {:induction false} Euclid(c: nat, n: nat, m: nat)
    requires n > 0 && Coprime(c, n) && Divides(n, m * c)
    ensures Divides(n, m)
    decreases c + n, if c < n then 1 else 0
  {
    if c == 0 {
      OnlyOne(n);
      DividesMultiple(1, m);
    } else if c >= n {
      Distributes(c - n, n, m);
      DividesMultiple(n, m);
      DividesDifference(n, m * n, m * c);
      CoprimeLess(c, n);
      Euclid(c - n, n, m);
    } else {
      var k := Cofactor(n, m * c);
      DividesMultiple(c, m);
      Euclid(n, c, k);
      var j := Cofactor(c, k);
      Regroup(j, c, n);
      Cancel(m, j * n, c);
      DividesMultiple(n, j);
    }
  }

  lemma OnlyOne(n: nat)
    requires n > 0 && Coprime(0, n)
    ensures n == 1
  {
    assert Divides(n, n) && Divides(n, 0);
  }

  lemma Cancel(x: nat, y: nat, c: nat)
    requires c > 0 && x * c == y * c
    ensures x == y
  {
    assert y * c - x * c == (y - x) * c;
    assert x * c - y * c == (x - y) * c;
    if x < y {
      MultipleIsLarge(y - x, c);
    } else if y < x {
      MultipleIsLarge(x - y, c);
    }
  }
}
