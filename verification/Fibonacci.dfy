/**
 The Fibonacci hit counter that ranks every index entry.

 A counter sits on a level `fib` and counts hits until it passes the level's
 threshold F(fib), then climbs one level.  All fields are 32-bit unsigned words,
 so every sum is taken modulo 2^32, as in the source.
 */
module Fibonacci {

  const WORD: int := 0x1_0000_0000

  type Word = x: int | 0 <= x < 0x1_0000_0000

  /** The mathematical Fibonacci number. */
  function F(n: nat): nat
  {
    if n < 2 then n else F(n - 1) + F(n - 2)
  }

  /** 32-bit addition. */
  function Add32(a: Word, b: Word): Word
  {
    if a + b >= WORD then a + b - WORD else a + b
  }

  function FWrapped(n: nat): Word
  {
    if n < 2 then n else Add32(FWrapped(n - 1), FWrapped(n - 2))
  }

  /** What the 32-bit loop yields: the wrapped Fibonacci number, except that
      `num + 1` wraps to zero at the largest argument and the loop never runs. */
  function Fib32(num: Word): Word
  {
    if num == WORD - 1 then 0 else FWrapped(num)
  }

  /** How often the 32-bit sums wrapped on the way to n. */
  function Wraps(n: nat): nat
  {
    if n < 2 then 0
    else Wraps(n - 1) + Wraps(n - 2) + if FWrapped(n - 1) + FWrapped(n - 2) >= WORD then 1 else 0
  }

  /** The wrapped number is F(n) modulo 2^32. */
  lemma {:induction false} FWrappedIsModulo(n: nat)
    ensures F(n) == Wraps(n) * WORD + FWrapped(n)
  {
    if n >= 2 {
      FWrappedIsModulo(n - 1);
      FWrappedIsModulo(n - 2);
    }
  }

  /** The source's loop, with 32-bit additions. */
  method Compute(num: Word) returns (r: Word)
    ensures r == Fib32(num)
  {
    if num == 1 || num == 0 {
      return num;
    }
    var current: Word, parent: Word, grandparent: Word := 0, 1, 0;
    var bound: Word := Add32(num, 1);
    var i := 2;
    while i < bound
      invariant if bound == 0 then i == 2 else 2 <= i <= bound
      invariant parent == FWrapped(i - 1) && grandparent == FWrapped(i - 2)
      invariant current == if i == 2 then 0 else parent
    {
      current := Add32(parent, grandparent);
      grandparent := parent;
      parent := current;
      i := i + 1;
    }
    return current;
  }

  datatype Counter = Counter(fib: Word, count: Word, threshold: Word)

  const Fresh: Counter := Counter(0, 0, Fib32(0))

  function Incremented(c: Counter): Counter
  {
    var count: Word := Add32(c.count, 1);
    if count > c.threshold then
      var fib: Word := Add32(c.fib, 1);
      Counter(fib, 0, Fib32(fib))
    else
      c.(count := count)
  }

  function Decremented(c: Counter): Counter
  {
    if c.fib == 0 then
      if c.count == 0 then c else c.(count := c.count - 1)
    else if c.count == 0 then
      var t := Fib32(c.fib - 1);
      Counter(c.fib - 1, t, t)
    else
      c.(count := c.count - 1)
  }

  function Compare(a: Counter, b: Counter): int
  {
    if a.fib > b.fib then 1
    else if a.fib < b.fib then -1
    else if a.count > b.count then 1
    else if a.count < b.count then -1
    else 0
  }

  /** The counter as the source holds it: three words updated in place. */
  class HitCounter {
    var fib: Word
    var count: Word
    var threshold: Word

    function Value(): Counter
      reads this
    {
      Counter(fib, count, threshold)
    }

    constructor ()
      ensures Value() == Fresh
    {
      fib, count := 0, 0;
      var t := Compute(0);
      threshold := t;
    }

    method Increment() returns (promoted: bool)
      modifies this
      ensures Value() == Incremented(old(Value()))
      ensures promoted <==> old(Add32(count, 1) > threshold)
    {
      count := Add32(count, 1);
      if count > threshold {
        fib := Add32(fib, 1);
        count := 0;
        threshold := Compute(fib);
        return true;
      }
      return false;
    }

    method Decrement() returns (demoted: bool)
      modifies this
      ensures Value() == Decremented(old(Value()))
      ensures demoted <==> old(fib != 0 && count == 0)
    {
      if fib == 0 {
        if count != 0 {
          count := count - 1;
        }
        return false;
      } else if count == 0 {
        fib := fib - 1;
        threshold := Compute(fib);
        count := threshold;
        return true;
      } else {
        count := count - 1;
        return false;
      }
    }
  }

  /** A counter whose threshold is the true Fibonacci number of its level. */
  predicate WellFormed(c: Counter)
  {
    c.threshold == F(c.fib) && c.count <= c.threshold
  }

  /** The number of hits a well-formed counter stands for: level k absorbs
      F(k) + 1 hits, and F(0) + ... + F(fib - 1) + fib = fib + F(fib + 1) - 1. */
  function Hits(c: Counter): int
  {
    c.fib + F(c.fib + 1) - 1 + c.count
  }

  lemma {:induction false} FMonotone(a: nat, b: nat)
    requires a <= b
    ensures F(a) <= F(b)
    decreases b - a
  {
    if a < b {
      FMonotone(a, b - 1);
      if b >= 2 {
        assert F(b) == F(b - 1) + F(b - 2);
      }
    }
  }

  /** The largest level whose Fibonacci number is a 32-bit word. */
  const TOP: Word := 47

  /** F(49) + 46, the last hit count before the next threshold overflows. */
  const LAST: nat := 7_778_742_095

  lemma {:induction false} FValues()
    ensures F(46) == 1836311903 && F(47) == 2971215073
    ensures F(48) == 4807526976 && F(49) == 7778742049
  {
    assert F(2) == 1 && F(3) == 2;
    assert F(4) == 3 && F(5) == 5;
    assert F(6) == 8 && F(7) == 13;
    assert F(8) == 21 && F(9) == 34;
    assert F(10) == 55 && F(11) == 89;
    assert F(12) == 144 && F(13) == 233;
    assert F(14) == 377 && F(15) == 610;
    assert F(16) == 987 && F(17) == 1597;
    assert F(18) == 2584 && F(19) == 4181;
    assert F(20) == 6765 && F(21) == 10946;
    assert F(22) == 17711 && F(23) == 28657;
    assert F(24) == 46368 && F(25) == 75025;
    assert F(26) == 121393 && F(27) == 196418;
    assert F(28) == 317811 && F(29) == 514229;
    assert F(30) == 832040 && F(31) == 1346269;
    assert F(32) == 2178309 && F(33) == 3524578;
    assert F(34) == 5702887 && F(35) == 9227465;
    assert F(36) == 14930352 && F(37) == 24157817;
    assert F(38) == 39088169 && F(39) == 63245986;
    assert F(40) == 102334155 && F(41) == 165580141;
    assert F(42) == 267914296 && F(43) == 433494437;
    assert F(44) == 701408733 && F(45) == 1134903170;
    assert F(46) == 1836311903 && F(47) == 2971215073;
    assert F(48) == 4807526976 && F(49) == 7778742049;
  }

  lemma {:induction false} LastValue()
    ensures LAST == F(49) + 46
  {
    FValues();
  }

  /** Levels up to 47 fit a word, later ones do not. */
  lemma {:induction false} FBounds(k: nat)
    ensures k <= TOP <==> F(k) < WORD
    ensures k <= TOP ==> F(k) <= 2971215073
    ensures k == TOP ==> F(k) == 2971215073 && F(k + 1) == 4807526976
  {
    FValues();
    if k <= TOP {
      FMonotone(k, 47);
    } else {
      FMonotone(48, k);
    }
  }

  /** A level's threshold is exact precisely up to level 47. */
  lemma {:induction false} ThresholdExact(k: Word)
    ensures Fib32(k) == F(k) <==> k <= TOP
  {
    FBounds(k);
    if k <= TOP {
      NoWrapUpTo(k);
    }
  }

  lemma {:induction false} NoWrapUpTo(k: nat)
    requires k <= TOP
    ensures FWrapped(k) == F(k)
  {
    if k >= 2 {
      NoWrapUpTo(k - 1);
      NoWrapUpTo(k - 2);
      FBounds(k);
    }
  }

  lemma {:induction false} LowerLevelFewerHits(a: Counter, b: Counter)
    requires a.fib < b.fib && a.count <= F(a.fib)
    ensures Hits(a) < Hits(b)
  {
    assert F(a.fib + 2) == F(a.fib + 1) + F(a.fib);
    FMonotone(a.fib + 2, b.fib + 1);
  }

  /** One increment is one hit, and it stays exact on every counter but the last. */
  lemma {:induction false} IncrementExact(c: Counter)
    requires WellFormed(c)
    ensures Hits(c) <= LAST
    ensures WellFormed(Incremented(c)) <==> Hits(c) != LAST
    ensures Hits(c) != LAST ==> Hits(Incremented(c)) == Hits(c) + 1
  {
    HitsBound(c);
    if c.count == c.threshold {
      ClimbExact(c);
    }
  }

  /** The largest well-formed counter is a full one on level 47. */
  lemma {:induction false} HitsBound(c: Counter)
    requires WellFormed(c)
    ensures c.threshold < WORD - 1 && c.fib <= TOP && Hits(c) <= LAST
    ensures Hits(c) == LAST <==> c.fib == TOP && c.count == c.threshold
  {
    hide F;
    FBounds(c.fib);
    if c.fib < TOP {
      var top := LastCounter(c.fib);
      LowerLevelFewerHits(c, top);
    }
  }

  /** Leaving a level is one hit too, as long as the next threshold is exact. */
  lemma {:induction false} ClimbExact(c: Counter)
    requires WellFormed(c) && c.count == c.threshold && c.fib <= TOP
    ensures Incremented(c) == Counter(c.fib + 1, 0, Fib32(c.fib + 1))
    ensures WellFormed(Incremented(c)) <==> c.fib < TOP
    ensures Hits(Incremented(c)) == Hits(c) + 1
  {
    FBounds(c.fib);
    ThresholdExact(c.fib + 1);
    assert F(c.fib + 2) == F(c.fib + 1) + F(c.fib);
  }

  /** The counter that stands for LAST hits, above every level below 47. */
  lemma {:induction false} LastCounter(k: Word) returns (top: Counter)
    requires k < TOP
    ensures k < top.fib && Hits(top) == LAST
  {
    FValues();
    top := Counter(47, 2971215073, 2971215073);
  }

  /** Decrement undoes increment, as long as the increment was exact. */
  lemma {:induction false} DecrementUndoesIncrement(c: Counter)
    requires WellFormed(c) && Hits(c) != LAST
    ensures Decremented(Incremented(c)) == c
  {
    FBounds(c.fib);
    ThresholdExact(c.fib);
  }

  /** Decrement leaves the fresh counter alone; on every other well-formed
      counter it takes one hit back, and increment undoes it. */
  lemma {:induction false} DecrementExact(c: Counter)
    requires WellFormed(c)
    ensures c.fib == 0 ==> Decremented(c) == c
    ensures c.fib != 0 ==>
              && WellFormed(Decremented(c))
              && Hits(Decremented(c)) == Hits(c) - 1
              && Incremented(Decremented(c)) == c
  {
    FBounds(c.fib);
    if c.fib != 0 && c.count == 0 {
      DecrementDropsLevel(c);
    }
  }

  lemma {:induction false} DecrementDropsLevel(c: Counter)
    requires WellFormed(c) && c.fib != 0 && c.count == 0
    ensures WellFormed(Decremented(c))
    ensures Hits(Decremented(c)) == Hits(c) - 1
    ensures Incremented(Decremented(c)) == c
  {
    FBounds(c.fib);
    FBounds(c.fib - 1);
    ThresholdExact(c.fib);
    ThresholdExact(c.fib - 1);
    assert F(c.fib + 1) == F(c.fib) + F(c.fib - 1);
  }

  /** The lexicographic comparison is the numeric order of the hits. */
  lemma {:induction false} CompareIsHitOrder(a: Counter, b: Counter)
    requires WellFormed(a) && WellFormed(b)
    ensures Compare(a, b) > 0 <==> Hits(a) > Hits(b)
    ensures Compare(a, b) < 0 <==> Hits(a) < Hits(b)
    ensures Compare(a, b) == 0 <==> a == b
  {
    if a.fib < b.fib {
      LowerLevelFewerHits(a, b);
    } else if b.fib < a.fib {
      LowerLevelFewerHits(b, a);
    }
  }

  /** The counter after n hits. */
  function Run(n: nat): Counter
  {
    if n == 0 then Fresh else Incremented(Run(n - 1))
  }

  /** A counter created fresh counts n hits exactly, with no 32-bit wrap on the
      way, if and only if n is at most F(49) + 46. */
  lemma {:induction false} RunExact(n: nat)
    ensures (forall k: nat | k <= n :: WellFormed(Run(k)) && Hits(Run(k)) == k) <==> n <= LAST
  {
    if n <= LAST {
      forall k: nat | k <= n
        ensures WellFormed(Run(k)) && Hits(Run(k)) == k
      {
        RunExactUpTo(k);
      }
    } else {
      RunFailsAfter(LAST);
    }
  }

  lemma {:induction false} RunFailsAfter(last: nat)
    requires last == LAST
    ensures !WellFormed(Run(last + 1))
  {
    RunExactUpTo(last);
    IncrementExact(Run(last));
  }

  lemma {:induction false} RunExactUpTo(n: nat)
    requires n <= LAST
    ensures WellFormed(Run(n)) && Hits(Run(n)) == n
  {
    if n > 0 {
      RunExactUpTo(n - 1);
      IncrementExact(Run(n - 1));
    }
  }
}
