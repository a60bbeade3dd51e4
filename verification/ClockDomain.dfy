/** Crossing from one clock domain to another: a callback rate of clock1 / clock2 kept with two counters. */
module ClockDomainModel {
  import opened Arithmetic
  import opened Rounding

  /** The least number of whole steps of d that reaches n. */
  function CeilingDiv(n: nat, d: nat): (q: nat)
    requires d > 0
  {
    QuotientIsNatural(n + d - 1, d);
    (n + d - 1) / d
  }

  lemma CeilingIs(n: nat, d: nat, q: nat)
    requires d > 0 && q * d < n + d && n <= q * d
    ensures CeilingDiv(n, d) == q
  {
    Quotient(n + d - 1, d, q, n + d - 1 - q * d);
  }

  lemma NextMultiple(a: nat, m: nat, d: nat)
    requires d > 0 && a < m && a % d == 0 && m % d == 0
    ensures a + d <= m && (a + d) % d == 0
  {
    assert a == d * (a / d) && m == d * (m / d);
    Distributes(d, a / d, 1);
    Ordered(a / d, m / d, d);
    ScalesWeakly(a / d + 1, m / d, d);
    Commute(d, a / d + 1);
    Exact(a / d + 1, d);
  }

  lemma StepIsMultiple(a: nat, d: nat)
    requires d > 0 && a % d == 0
    ensures (a + d) % d == 0
  {
    assert a == d * (a / d);
    Distributes(d, a / d, 1);
    Commute(d, a / d + 1);
    Exact(a / d + 1, d);
  }

  lemma WithinMultiple(counter1: nat, counter2: nat, m: nat, clock1: nat, clock2: nat)
    requires CommonMultiple(m, clock1, clock2) && counter1 < m
    requires counter1 % clock1 == 0 && counter2 % clock2 == 0 && counter2 < counter1 + clock2
    ensures counter1 + clock1 <= m && counter2 <= m
  {
    NextMultiple(counter1, m, clock1);
    if m < counter2 { NextMultiple(m, counter2, clock2); }
  }

  predicate CommonMultiple(m: nat, clock1: nat, clock2: nat) {
    m > 0 && clock1 > 0 && clock2 > 0 && m % clock1 == 0 && m % clock2 == 0
  }

  class ClockDomainCrosser {
    const clock1: nat
    const clock2: nat
    const callback: bool
    var counter1: nat
    var counter2: nat
    /** How often the callback has been called. */
    var calls: nat

    constructor (clock1: nat, clock2: nat, callback: bool)
      requires clock2 > 0
      ensures this.clock1 == clock1 && this.clock2 == clock2 && this.callback == callback
      ensures Valid(0) && counter1 == 0 && calls == 0
    {
      this.clock1, this.clock2, this.callback := clock1, clock2, callback;
      counter1, counter2, calls := 0, 0, 0;
    }

    /**
     * After n updates: the counters are short of what both clocks have counted by the same amount, the one
     * at which they last met, and the second counter is the first multiple of clock2 from the first one on.
     */
    ghost predicate Valid(n: nat)
      reads this
    {
      && clock2 > 0
      && counter1 <= counter2 < counter1 + clock2
      && (callback ==> calls * clock2 - counter2 == n * clock1 - counter1)
      && (!callback ==> calls == 0)
      && (clock1 > 0 ==> counter1 % clock1 == 0) && counter2 % clock2 == 0
    }

    /** The number of callbacks so far is exact, whatever resets of the counters lie behind. */
    lemma CallsAreExact(n: nat)
      requires Valid(n) && callback
      ensures calls == CeilingDiv(n * clock1, clock2)
    {
      CeilingIs(n * clock1, clock2, calls);
    }

    /** One tick of the first clock. The counters stay within every common multiple of the two clocks. */
    method Update(ghost n: nat)
      requires Valid(n)
      modifies this`counter1, this`counter2, this`calls
      ensures Valid(n + 1)
      ensures forall m :: CommonMultiple(m, clock1, clock2) && old(counter1) < m ==> counter1 < m && counter2 <= m
    {
      NextProduct(n, clock1);
      if clock1 == clock2 && callback {
        NextProduct(calls, clock2);
        calls := calls + 1;
        forall m | CommonMultiple(m, clock1, clock2) && counter1 < m ensures counter2 <= m {
          WithinMultiple(counter1, counter2, m, clock1, clock2);
        }
        return;
      }
      Advance(n);
      CatchUp(n + 1);
      Meet(n + 1);
    }

    method Advance(ghost n: nat)
      requires Valid(n)
      modifies this`counter1
      ensures counter2 < counter1 + clock2 && counter1 == old(counter1) + clock1
      ensures clock1 > 0 ==> counter1 % clock1 == 0
      ensures callback ==> calls * clock2 - counter2 == (n + 1) * clock1 - counter1
      ensures forall m :: CommonMultiple(m, clock1, clock2) && old(counter1) < m ==> counter1 <= m && counter2 <= m
    {
      NextProduct(n, clock1);
      if clock1 > 0 { StepIsMultiple(counter1, clock1); }
      forall m | CommonMultiple(m, clock1, clock2) && counter1 < m
        ensures counter1 + clock1 <= m && counter2 <= m
      {
        WithinMultiple(counter1, counter2, m, clock1, clock2);
      }
      counter1 := counter1 + clock1;
    }

    /** When the counters meet, both start over. */
    method Meet(ghost n: nat)
      requires Valid(n)
      modifies this`counter1, this`counter2
      ensures Valid(n) && counter1 <= old(counter1) && counter2 <= old(counter2)
      ensures old(counter1) == old(counter2) ==> counter1 == 0
      ensures counter1 == 0 || counter1 != counter2
    {
      if counter1 == counter2 {
        counter1, counter2 := 0, 0;
      }
    }

    /** The second counter catches up, one callback a step; a positive clock2 makes it end. */
    method CatchUp(ghost n: nat)
      requires clock2 > 0 && counter2 % clock2 == 0 && counter2 < counter1 + clock2
      requires callback ==> calls * clock2 - counter2 == n * clock1 - counter1
      requires !callback ==> calls == 0
      modifies this`counter2, this`calls
      ensures counter1 <= counter2 < counter1 + clock2 && counter2 % clock2 == 0
      ensures callback ==> calls * clock2 - counter2 == n * clock1 - counter1
      ensures !callback ==> calls == 0
      ensures forall m :: CommonMultiple(m, clock1, clock2) && counter1 <= m && old(counter2) <= m ==> counter2 <= m
    {
      while counter2 < counter1
        invariant counter2 < counter1 + clock2 && counter2 % clock2 == 0
        invariant callback ==> calls * clock2 - counter2 == n * clock1 - counter1
        invariant !callback ==> calls == 0
        invariant forall m :: CommonMultiple(m, clock1, clock2) && counter1 <= m && old(counter2) <= m ==> counter2 <= m
        decreases counter1 + clock2 - counter2
      {
        StepIsMultiple(counter2, clock2);
        forall m | CommonMultiple(m, clock1, clock2) && counter1 <= m ensures counter2 + clock2 <= m {
          NextMultiple(counter2, m, clock2);
        }
        counter2 := counter2 + clock2;
        if callback {
          Distributes(clock2, calls, 1);
          calls := calls + 1;
        }
      }
    }
  }

  /** Over any number of updates the callbacks come to the ceiling of n * clock1 / clock2. */
  method Run(crosser: ClockDomainCrosser, n: nat)
    requires crosser.Valid(0) && crosser.callback && crosser.counter1 == 0
    modifies crosser
    ensures crosser.calls == CeilingDiv(n * crosser.clock1, crosser.clock2)
    ensures forall m :: CommonMultiple(m, crosser.clock1, crosser.clock2) ==>
              crosser.counter1 < m && crosser.counter2 <= m
  {
    for i := 0 to n
      invariant crosser.Valid(i)
      invariant forall m :: CommonMultiple(m, crosser.clock1, crosser.clock2) ==> crosser.counter1 < m
      invariant i > 0 ==>
        forall m :: CommonMultiple(m, crosser.clock1, crosser.clock2) ==> crosser.counter2 <= m
      invariant i == 0 ==> crosser.counter2 < crosser.clock2 && crosser.counter1 == 0
    {
      crosser.Update(i);
    }
    crosser.CallsAreExact(n);
  }
}
