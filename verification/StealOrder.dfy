/** The random order in which kernel/thread/scheduler.c visits the CPUs to steal from. */
module StealOrder {
  import opened Multiples
  import opened Permutation

  /** g is the greatest common divisor of a and b. */
  ghost predicate IsGcd(g: nat, a: nat, b: nat) {
    && g > 0 && Divides(g, a) && Divides(g, b)
    && forall d: nat | d > 0 && Divides(d, a) && Divides(d, b) :: Divides(d, g)
  }

  /** Replacing a by its remainder keeps the common divisors. */
  lemma {:induction false} RemainderDivides(d: nat, a: nat, b: nat)
    requires d > 0 && b > 0 && Divides(d, b)
    ensures Divides(d, a) <==> Divides(d, a % b)
    decreases a
  {
    if a < b {
      SmallRemainder(a, b);
    } else {
      AddMod(a - b, b);
      RemainderDivides(d, a - b, b);
      if Divides(d, a) {
        DividesDifference(d, b, a);
      }
      if Divides(d, a - b) {
        DividesSum(d, a - b, b);
      }
    }
  }

  method Gcd(a0: nat, b0: nat) returns (a: nat)
    requires a0 > 0 || b0 > 0
    ensures IsGcd(a, a0, b0)
  {
    a := a0;
    var b: nat := b0;
    while b != 0
      invariant a > 0 || b > 0
      invariant forall d: nat {:trigger Divides(d, a0)} | d > 0 :: Divides(d, a0) && Divides(d, b0) <==>
                Divides(d, a)
                && Divides(d, b)
      decreases b
    {
      var t: nat := b;
      forall d: nat | d > 0 && Divides(d, b)
        ensures Divides(d, a) <==> Divides(d, a % b)
      {
        RemainderDivides(d, a, b);
      }
      b := a % b;
      a := t;
    }
    assert Divides(a, a) && Divides(a, 0);
  }

  /** gcd(a, b) == 1 is what it means to be coprime. */
  lemma GcdOne(g: nat, a: nat, b: nat)
    requires IsGcd(g, a, b)
    ensures g == 1 <==> Coprime(a, b)
  {
    if g == 1 {
      forall d: nat | d > 1
        ensures !(Divides(d, a) && Divides(d, b))
      {
        assert !Divides(d, 1);
      }
    }
  }

  /** The numbers up to count that are coprime to it, in increasing order. */
  ghost predicate AreCoprimes(coprimes: seq<nat>, count: nat) {
    && coprimes != [] && (forall i :: i in coprimes <==> 1 <= i <= count && Coprime(i, count))
    && forall j, k | 0 <= j < k < |coprimes| :: coprimes[j] < coprimes[k]
  }

  /** random_order_reset: records exactly the numbers up to count that are coprime to it. */
  method Reset(count: nat) returns (coprimes: seq<nat>)
    requires count > 0
    ensures AreCoprimes(coprimes, count)
  {
    coprimes := [];
    for i := 1 to count + 1
      invariant forall j :: j in coprimes <==> 1 <= j < i && Coprime(j, count)
      invariant i > 1 ==> coprimes != []
      invariant forall j, k | 0 <= j < k < |coprimes| :: coprimes[j] < coprimes[k]
      invariant forall j | 0 <= j < |coprimes| :: coprimes[j] < i
    {
      var g := Gcd(i, count);
      GcdOne(g, i, count);
      if g == 1 {
        coprimes := coprimes + [i];
      }
      if i == 1 {
        OneIsCoprime(count);
      }
    }
  }

  lemma OneIsCoprime(n: nat)
    ensures Coprime(1, n)
  {
    assert forall d: nat | d > 1 :: !Divides(d, 1);
  }

  /** The position after k steps of random_enum_next. */
  function Position(start: nat, inc: nat, count: nat, k: nat): nat
    requires count > 0
  {
    if k == 0 then start else (Position(start, inc, count, k - 1) + inc) % count
  }

  lemma {:induction false} PositionIs(start: nat, inc: nat, count: nat, k: nat)
    requires count > 0 && start < count
    ensures Position(start, inc, count, k) == (start + k * inc) % count
  {
    if k == 0 {
      SmallRemainder(start, count);
      assert start + 0 * inc == start;
    } else {
      PositionIs(start, inc, count, k - 1);
      ReduceFirst(start + (k - 1) * inc, inc, count);
      assert start + (k - 1) * inc + inc == start + k * inc;
    }
  }

  /** Stepping by a number coprime to count comes to no position twice within count steps. */
  lemma PositionsDiffer(start: nat, inc: nat, count: nat, j: nat, k: nat)
    requires count > 0 && start < count && Coprime(inc, count) && j < k < count
    ensures Position(start, inc, count, j) != Position(start, inc, count, k)
  {
    PositionIs(start, inc, count, j);
    PositionIs(start, inc, count, k);
    Distributes(j, k - j, inc);
    StepsApart(start + j * inc, start + k * inc, inc, count, k - j);
  }

  lemma StepsApart(x: nat, y: nat, inc: nat, count: nat, steps: nat)
    requires 0 < steps < count && Coprime(inc, count) && y == x + steps * inc
    ensures x % count != y % count
  {
    if x % count == y % count {
      MultipleSteps(x, steps * inc, count);
      Euclid(inc, count, steps);
      assert false;
    }
  }

  lemma MultipleSteps(x: nat, d: nat, n: nat)
    requires n > 0 && x % n == (x + d) % n
    ensures Divides(n, d)
  {
    SameRemainder(x, x + d, n);
  }

  /** A random enumeration: i of count positions have been visited. */
  datatype RandomEnum = RandomEnum(i: nat, count: nat, pos: nat, inc: nat)

  /** random_order_start */
  method Start(coprimes: seq<nat>, count: nat, seed: nat) returns (e: RandomEnum)
    requires count > 0 && AreCoprimes(coprimes, count)
    ensures e.i == 0 && e.count == count && e.pos == seed % count && e.inc == coprimes[seed / count % |coprimes|]
    ensures 1 <= e.inc <= count && Coprime(e.inc, count)
  {
    var q := seed / count;
    assert coprimes[q % |coprimes|] in coprimes;
    e := RandomEnum(0, count, seed % count, coprimes[q % |coprimes|]);
  }

  /** The positions visited in n steps. */
  function Walk(start: nat, inc: nat, count: nat, n: nat): (r: seq<nat>)
    requires count > 0
    ensures |r| == n && forall j | 0 <= j < n :: r[j] == Position(start, inc, count, j)
  {
    if n == 0 then [] else Walk(start, inc, count, n - 1) + [Position(start, inc, count, n - 1)]
  }

  /** random_enum_next */
  method Step(e: RandomEnum) returns (e': RandomEnum)
    requires e.count > 0
    ensures e' == e.(i := e.i + 1, pos := e'.pos) && e'.pos == (e.pos + e.inc) % e.count
  {
    e' := e.(i := e.i + 1, pos := (e.pos + e.inc) % e.count);
  }

  /**
   The loop of steal_work over the CPUs: for any number of CPUs and any seed, it visits each exactly once.
   The seed says where it begins and how far it goes each time.
  */
  method Visit(count: nat, seed: nat) returns (order: seq<nat>, ghost coprimes: seq<nat>)
    requires count > 0
    ensures |order| == count && AreCoprimes(coprimes, count) && order[0] == seed % count
    ensures forall k | 0 <= k < count - 1 :: order[k + 1] == (order[k] + coprimes[seed / count % |coprimes|]) % count
    ensures forall j, k | 0 <= j < k < count :: order[j] != order[k]
    ensures forall cpu: nat :: cpu in order <==> cpu < count
  {
    var steps := Reset(count);
    var e := Start(steps, count, seed);
    coprimes := steps;
    ghost var start := e.pos;
    order := [];
    while e.i != e.count
      invariant e.count == count && e.i <= count && Coprime(e.inc, count)
      invariant e.inc == steps[seed / count % |steps|] && start == seed % count
      invariant e.pos == Position(start, e.inc, count, e.i) && order == Walk(start, e.inc, count, e.i)
      decreases count - e.i
    {
      order := order + [e.pos];
      e := Step(e);
    }
    WalkVisitsAll(start, e.inc, count);
    forall k | 0 <= k < count - 1
      ensures order[k + 1] == (order[k] + e.inc) % count
    {
      assert order[k + 1] == Position(start, e.inc, count, k + 1);
    }
  }

  /** Every beginning and every step can come up: a seed for which that order is taken. */
  lemma EveryWalk(count: nat, coprimes: seq<nat>, start: nat, inc: nat) returns (seed: nat)
    requires count > 0 && AreCoprimes(coprimes, count) && start < count && 1 <= inc <= count && Coprime(inc, count)
    ensures seed % count == start && coprimes[seed / count % |coprimes|] == inc
  {
    var k :| 0 <= k < |coprimes| && coprimes[k] == inc;
    seed := k * count + start;
    RemainderUnique(count, k, start, seed / count, seed % count);
    assert (seed / count) * count == k * count;
    Cancel(seed / count, k, count);
    SmallRemainder(k, |coprimes|);
  }

  lemma WalkVisitsAll(start: nat, inc: nat, count: nat)
    requires count > 0 && start < count && Coprime(inc, count)
    ensures var order := Walk(start, inc, count, count);
            && (forall j, k | 0 <= j < k < count :: order[j] != order[k])
            && (forall cpu: nat :: cpu in order <==> cpu < count)
  {
    var order := Walk(start, inc, count, count);
    forall j, k | 0 <= j < k < count
      ensures order[j] != order[k]
    {
      PositionsDiffer(start, inc, count, j, k);
    }
    forall j | 0 <= j < count
      ensures order[j] < count
    {
      PositionIs(start, inc, count, j);
    }
    Pigeonhole(order, count);
  }
}
