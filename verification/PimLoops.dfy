/**
 * Which loops the sequencer can run. A jump with a counter closes a loop that is meant to run once more than
 * its counter says; a jump without one is meant to be passed. There is a single jump counter for the whole
 * program: a loop in a loop is never left, and a jump without a counter takes laps away from the loop around
 * it. It is proved exactly which programs do what they are meant to do all the same.
 */
module PimLoops {
  import opened Arithmetic
  import opened PimSequencerModel

  predicate Counts(op: Op) {
    op.Jump? && op.counter > 0
  }

  predicate Idle(op: Op) {
    op.Jump? && op.counter == 0
  }

  /** Where the jump at `j` leads to. */
  function Head(p: seq<Op>, j: nat): int
    requires j < |p| && p[j].Jump?
  {
    j + 1 - p[j].offset
  }

  predicate InBody(p: seq<Op>, j: nat, k: int)
    requires j < |p| && p[j].Jump?
  {
    Head(p, j) <= k < j
  }

  /** A program up to its first EXIT, whose jumps with a counter all go back within it. */
  ghost predicate Backward(p: seq<Op>, end: nat) {
    && end < |p| && p[end] == Exit
    && forall k :: 0 <= k < end ==>
         && p[k] != Exit && (p[k].Do? ==> p[k].times >= 1)
         && (Counts(p[k]) ==> 1 <= p[k].offset <= k + 1)
  }

  /** Moreover, no loop contains a loop, and every loop has something to execute. */
  ghost predicate Flat(p: seq<Op>, end: nat) {
    && Backward(p, end)
    && forall j :: 0 <= j < end && Counts(p[j]) ==> IsFlat(p, j)
  }

  ghost predicate IsFlat(p: seq<Op>, j: nat)
    requires j < |p| && p[j].Jump?
  {
    && (forall k: nat :: InBody(p, j, k) ==> !Counts(p[k]))
    && exists d: nat :: InBody(p, j, d) && p[d].Do?
  }

  // ----- what a program is meant to do -----

  /** k, n times, and then the rest. */
  function Copies(k: nat, n: nat, rest: seq<int>): seq<int> {
    if n == 0 then rest else [k] + Copies(k, n - 1, rest)
  }

  /** The instruction at k, or nothing for a jump, and then the rest. */
  function Once(p: seq<Op>, k: nat, rest: seq<int>): seq<int>
    requires k < |p|
  {
    if p[k].Do? then Copies(k, p[k].times, rest) else rest
  }

  /** The instructions from k up to but not including stop, one after the other, and then the rest. */
  function Straight(p: seq<Op>, k: nat, stop: nat, rest: seq<int>): seq<int>
    requires stop <= |p|
    decreases stop - k
  {
    if k >= stop then rest else Once(p, k, Straight(p, k + 1, stop, rest))
  }

  /** The body of the loop closed at j, n times over, and then the rest. */
  function Laps(p: seq<Op>, j: nat, n: nat, rest: seq<int>): seq<int>
    requires j < |p| && p[j].Jump? && (n > 0 ==> Head(p, j) >= 0)
  {
    if n == 0 then rest else Straight(p, Head(p, j), j, Laps(p, j, n - 1, rest))
  }

  /** The instructions meant to be executed from k on: reaching a jump adds counter further laps of its loop. */
  function Unrolled(p: seq<Op>, end: nat, k: nat): seq<int>
    requires Backward(p, end)
    decreases end - k
  {
    if k >= end then []
    else if Counts(p[k]) then Laps(p, k, p[k].counter, Unrolled(p, end, k + 1))
    else Once(p, k, Unrolled(p, end, k + 1))
  }

  /** The program comes to its EXIT and has executed what it is meant to execute. */
  ghost predicate Unrolls(p: seq<Op>, end: nat)
    requires Backward(p, end)
  {
    exists n: nat :: Completes(p, RESET, Unrolled(p, end, 0), n)
  }

  lemma {:induction false} StraightSplit(p: seq<Op>, k: nat, mid: nat, stop: nat, rest: seq<int>)
    requires k <= mid <= stop <= |p|
    ensures Straight(p, k, stop, rest) == Straight(p, k, mid, Straight(p, mid, stop, rest))
    decreases mid - k
  {
    hide Once;
    if k < mid { StraightSplit(p, k + 1, mid, stop, rest); }
  }

  lemma {:induction false} StraightThenRest(p: seq<Op>, end: nat, k: nat, stop: nat)
    requires Backward(p, end) && k <= stop <= end && forall i :: k <= i < stop ==> !Counts(p[i])
    ensures Unrolled(p, end, k) == Straight(p, k, stop, Unrolled(p, end, stop))
    decreases stop - k
  {
    hide Once;
    if k < stop { StraightThenRest(p, end, k + 1, stop); }
  }

  /** A loop entered at its head is meant to run counter + 1 times. */
  lemma LoopRunsCounterPlusOneTimes(p: seq<Op>, end: nat, j: nat)
    requires Flat(p, end) && j < end && Counts(p[j])
    ensures Head(p, j) >= 0
    ensures Unrolled(p, end, Head(p, j)) == Laps(p, j, p[j].counter + 1, Unrolled(p, end, j + 1))
  {
    assert IsFlat(p, j);
    StraightThenRest(p, end, Head(p, j), j);
  }

  // ----- from one state to another -----

  /** In `n` rounds the machine gets from `s` to `t`, and of `due` executes all but `left` on the way. */
  ghost predicate Leads(p: seq<Op>, s: Registers, t: Registers, due: seq<int>, left: seq<int>, n: nat)
    decreases n
  {
    if n == 0 then s == t && due == left
    else
      && InCode(p, s)
      && if p[s.pc].Do? then due != [] && due[0] == s.pc && Leads(p, Stepped(p, s), t, due[1..], left, n - 1)
         else Leads(p, Stepped(p, s), t, due, left, n - 1)
  }

  lemma {:induction false} LeadsOn(p: seq<Op>, s: Registers, t: Registers, u: Registers, a: seq<int>, b: seq<int>,
                                   c: seq<int>, n: nat, m: nat)
    requires Leads(p, s, t, a, b, n) && Leads(p, t, u, b, c, m)
    ensures Leads(p, s, u, a, c, n + m)
    decreases n
  {
    if n > 0 {
      LeadsOn(p, Stepped(p, s), t, u, if p[s.pc].Do? then a[1..] else a, b, c, n - 1, m);
    }
  }

  lemma {:induction false} LeadsToExit(p: seq<Op>, s: Registers, t: Registers, due: seq<int>, n: nat)
    requires Leads(p, s, t, due, [], n) && AtExit(p, t)
    ensures Completes(p, s, due, n)
    decreases n
  {
    if n > 0 {
      LeadsToExit(p, Stepped(p, s), t, if p[s.pc].Do? then due[1..] else due, n - 1);
    }
  }

  /** A run that completes goes where it leads. */
  lemma {:induction false} CompletesVia(p: seq<Op>, s: Registers, t: Registers, due: seq<int>, left: seq<int>, n: nat,
                                        m: nat)
    requires Leads(p, s, t, due, left, n) && Completes(p, s, due, m)
    ensures n <= m && Completes(p, t, left, m - n)
    decreases n
  {
    if n > 0 {
      CompletesVia(p, Stepped(p, s), t, if p[s.pc].Do? then due[1..] else due, left, n - 1, m - 1);
    }
  }

  lemma LeadsNowhere(p: seq<Op>, s: Registers, due: seq<int>)
    ensures Leads(p, s, s, due, due, 0)
  {
  }

  lemma JumpLeads(p: seq<Op>, s: Registers, due: seq<int>)
    requires 0 <= s.pc < |p| && p[s.pc].Jump?
    ensures Leads(p, s, Jumped(p, s), due, due, 1)
  {
    LeadsNowhere(p, Stepped(p, s), due);
  }

  /** The registers at a jump: no repeat is in progress. */
  predicate Calm(s: Registers) {
    s.lastRepeat == -1 && s.repeats == 0
  }

  lemma {:induction false} RepeatLeads(p: seq<Op>, s: Registers, left: seq<int>) returns (n: nat)
    requires 0 <= s.pc < |p| && p[s.pc].Do? && s.lastRepeat == s.pc && s.repeats >= 0
    ensures Leads(p, s, s.(pc := s.pc + 1, lastRepeat := -1, repeats := 0), Copies(s.pc, s.repeats + 1, left), left, n)
    decreases s.repeats
  {
    var t, due := Stepped(p, s), Copies(s.pc, s.repeats + 1, left);
    assert due[0] == s.pc && due[1..] == Copies(s.pc, s.repeats, left);
    var m := 0;
    if s.repeats == 0 {
      LeadsNowhere(p, t, left);
    } else {
      m := RepeatLeads(p, t, left);
    }
    n := m + 1;
  }

  /** An instruction is executed as often as it says. */
  lemma DoLeads(p: seq<Op>, s: Registers, left: seq<int>) returns (n: nat)
    requires 0 <= s.pc < |p| && p[s.pc].Do? && p[s.pc].times >= 1 && Calm(s)
    ensures n > 0 && Leads(p, s, s.(pc := s.pc + 1), Once(p, s.pc, left), left, n)
  {
    var t, due := Stepped(p, s), Copies(s.pc, p[s.pc].times, left);
    assert due[0] == s.pc && due[1..] == Copies(s.pc, p[s.pc].times - 1, left);
    var m := 0;
    if p[s.pc].times == 1 {
      LeadsNowhere(p, t, left);
    } else {
      m := RepeatLeads(p, t, left);
    }
    n := m + 1;
  }

  /** A jump is passed, or an instruction executed. */
  lemma OnceLeads(p: seq<Op>, s: Registers, left: seq<int>) returns (n: nat)
    requires 0 <= s.pc < |p| && Calm(s)
    requires (p[s.pc].Do? && p[s.pc].times >= 1) || (Idle(p[s.pc]) && s.jumps <= 0)
    ensures Leads(p, s, s.(pc := s.pc + 1), Once(p, s.pc, left), left, n)
  {
    if p[s.pc].Do? {
      n := DoLeads(p, s, left);
    } else {
      JumpLeads(p, s, left);
      n := 1;
    }
  }

  /** Code without loops is executed straight on, as long as its jumps are passed. */
  lemma {:induction false} Walk(p: seq<Op>, s: Registers, stop: nat, left: seq<int>) returns (n: nat)
    requires 0 <= s.pc <= stop <= |p| && Calm(s)
    requires forall k :: s.pc <= k < stop ==> (p[k].Do? && p[k].times >= 1) || (Idle(p[k]) && s.jumps <= 0)
    ensures Leads(p, s, s.(pc := stop), Straight(p, s.pc, stop, left), left, n)
    decreases stop - s.pc
  {
    hide Leads, Once;
    if s.pc == stop {
      n := 0;
      LeadsNowhere(p, s, left);
    } else {
      var t, later := s.(pc := s.pc + 1), Straight(p, s.pc + 1, stop, left);
      var m := Walk(p, t, stop, left);
      var first := OnceLeads(p, s, later);
      LeadsOn(p, s, t, s.(pc := stop), Once(p, s.pc, later), later, left, first, m);
      n := first + m;
    }
  }

  // ----- loops in loops -----

  /** Behind the inner jump, the outer one is never the one whose laps are counted. */
  ghost predicate Trapped(i: nat, j: nat, s: Registers) {
    s.pc <= j && (s.pc > i ==> s.lastJump != j)
  }

  lemma StaysTrapped(p: seq<Op>, end: nat, i: nat, j: nat, s: Registers)
    requires Backward(p, end) && i < j < end && Counts(p[i]) && Counts(p[j]) && InBody(p, j, i)
    requires InCode(p, s) && Trapped(i, j, s)
    ensures Trapped(i, j, Stepped(p, s))
  {
  }

  /** A loop that contains another one, in whole or in part, is never left. */
  lemma {:induction false} NestedLoopNeverExits(p: seq<Op>, end: nat, i: nat, j: nat, s: Registers, trace: seq<int>,
                                                n: nat)
    requires Backward(p, end) && i < j < end && Counts(p[i]) && Counts(p[j]) && InBody(p, j, i)
    requires Trapped(i, j, s)
    ensures !Completes(p, s, trace, n)
    decreases n
  {
    if n > 0 && InCode(p, s) {
      StaysTrapped(p, end, i, j, s);
      var rest := if p[s.pc].Do? && trace != [] then trace[1..] else trace;
      NestedLoopNeverExits(p, end, i, j, Stepped(p, s), rest, n - 1);
    }
  }

  // ----- loops that run as they are meant to -----

  ghost predicate AllDo(p: seq<Op>, k: int, stop: nat)
    requires stop <= |p|
  {
    forall i: nat :: k <= i < stop ==> p[i].Do?
  }

  ghost predicate AllIdle(p: seq<Op>, k: int, stop: nat)
    requires stop <= |p|
  {
    forall i: nat :: k <= i < stop ==> Idle(p[i])
  }

  /**
   * The jump without a counter at `i` does the work of the one that closes the loop: only such jumps stand
   * between them, and it goes back to the head of the loop as well, or further back over such jumps where
   * the lap that follows is the last one.
   */
  ghost predicate Closes(p: seq<Op>, j: nat, i: nat)
    requires i < j < |p| && p[j].Jump?
  {
    && Head(p, j) < i && AllDo(p, Head(p, j), i) && AllIdle(p, i, j)
    && (Head(p, i) == Head(p, j)
        || (p[j].counter == 2 && 0 <= Head(p, i) < Head(p, j) && AllIdle(p, Head(p, i), Head(p, j))))
  }

  /** Jumps without a counter do not keep this loop from running as often as it is meant to. */
  ghost predicate Turns(p: seq<Op>, j: nat)
    requires j < |p| && p[j].Jump?
  {
    p[j].counter == 1 || AllDo(p, Head(p, j), j) || exists i: nat | i < j :: Closes(p, j, i)
  }

  lemma {:induction false} IdleIsStraight(p: seq<Op>, k: nat, stop: nat, rest: seq<int>)
    requires stop <= |p| && AllIdle(p, k, stop)
    ensures Straight(p, k, stop, rest) == rest
    decreases stop - k
  {
    if k < stop { IdleIsStraight(p, k + 1, stop, rest); }
  }

  /** At the head of the loop of `j`, with `m` more laps to go back. */
  predicate AtHead(p: seq<Op>, j: nat, s: Registers, m: nat)
    requires j < |p| && p[j].Jump?
  {
    Calm(s) && s.pc == Head(p, j) && s.lastJump == j && s.jumps == m < p[j].counter
  }

  lemma OneLap(p: seq<Op>, end: nat, j: nat, s: Registers, m: nat, left: seq<int>) returns (n: nat)
    requires Flat(p, end) && j < end && Counts(p[j]) && Turns(p, j) && AtHead(p, j, s, m) && m > 0
    ensures Leads(p, s, s.(jumps := m - 1), Straight(p, Head(p, j), j, left), left, n)
  {
    if AllDo(p, Head(p, j), j) {
      n := FullLap(p, end, j, s, m, left);
    } else {
      var i: nat :| i < j && Closes(p, j, i);
      n := EarlyLap(p, end, j, i, s, m, left);
    }
  }

  lemma FullLap(p: seq<Op>, end: nat, j: nat, s: Registers, m: nat, left: seq<int>) returns (n: nat)
    requires Flat(p, end) && j < end && Counts(p[j]) && AllDo(p, Head(p, j), j) && AtHead(p, j, s, m) && m > 0
    ensures Leads(p, s, s.(jumps := m - 1), Straight(p, Head(p, j), j, left), left, n)
  {
    var back := s.(pc := j);
    var m0 := Walk(p, s, j, left);
    hide Leads, Straight, Flat, AllDo;
    JumpLeads(p, back, left);
    LeadsOn(p, s, back, s.(jumps := m - 1), Straight(p, s.pc, j, left), left, left, m0, 1);
    n := m0 + 1;
  }

  lemma EarlyLap(p: seq<Op>, end: nat, j: nat, i: nat, s: Registers, m: nat, left: seq<int>) returns (n: nat)
    requires Flat(p, end) && i < j < end && Counts(p[j]) && Closes(p, j, i) && AtHead(p, j, s, m) && m > 0
    ensures Leads(p, s, s.(jumps := m - 1), Straight(p, Head(p, j), j, left), left, n)
  {
    var at := s.(pc := i);
    var m0 := Walk(p, s, i, left);
    var m1 := EarlyJump(p, end, j, i, at, m, left);
    StraightSplit(p, s.pc, i, j, left);
    IdleIsStraight(p, i, j, left);
    hide Leads, Straight, Flat, Closes, AllDo, AllIdle;
    LeadsOn(p, s, at, s.(jumps := m - 1), Straight(p, s.pc, i, left), left, left, m0, m1);
    n := m0 + m1;
  }

  /** The jump without a counter leads back to the head, directly or over more such jumps. */
  lemma EarlyJump(p: seq<Op>, end: nat, j: nat, i: nat, s: Registers, m: nat, left: seq<int>) returns (n: nat)
    requires Flat(p, end) && i < j < end && Counts(p[j]) && Closes(p, j, i) && m > 0
    requires s.pc == i && AtHead(p, j, s.(pc := Head(p, j)), m)
    ensures Leads(p, s, s.(pc := Head(p, j), jumps := m - 1), left, left, n)
  {
    var back := s.(pc := Head(p, i), jumps := m - 1);
    JumpLeads(p, s, left);
    n := 1;
    if Head(p, i) < Head(p, j) {
      var m0 := Walk(p, back, Head(p, j), left);
      IdleIsStraight(p, Head(p, i), Head(p, j), left);
      LeadsOn(p, s, back, s.(pc := Head(p, j), jumps := m - 1), left, left, left, 1, m0);
      n := 1 + m0;
    }
    hide Leads;
  }

  lemma LastLap(p: seq<Op>, end: nat, j: nat, s: Registers, left: seq<int>) returns (n: nat)
    requires Flat(p, end) && j < end && Counts(p[j]) && AtHead(p, j, s, 0)
    ensures Leads(p, s, s.(pc := j + 1), Straight(p, Head(p, j), j, left), left, n)
  {
    assert IsFlat(p, j);
    var m0 := Walk(p, s, j, left);
    hide Leads, Straight, Flat, IsFlat;
    JumpLeads(p, s.(pc := j), left);
    LeadsOn(p, s, s.(pc := j), s.(pc := j + 1), Straight(p, Head(p, j), j, left), left, left, m0, 1);
    n := m0 + 1;
  }

  lemma {:induction false} AllLaps(p: seq<Op>, end: nat, j: nat, s: Registers, m: nat, left: seq<int>) returns (n: nat)
    requires Flat(p, end) && j < end && Counts(p[j]) && Turns(p, j) && AtHead(p, j, s, m)
    ensures Leads(p, s, s.(pc := j + 1, jumps := 0), Laps(p, j, m + 1, left), left, n)
    decreases m
  {
    assert j < |p| && Head(p, j) >= 0;
    hide Leads, Flat, Turns, Straight;
    var later := Laps(p, j, m, left);
    if m == 0 {
      n := LastLap(p, end, j, s, left);
    } else {
      var m0 := OneLap(p, end, j, s, m, later);
      var m1 := AllLaps(p, end, j, s.(jumps := m - 1), m - 1, left);
      LeadsOn(p, s, s.(jumps := m - 1), s.(pc := j + 1, jumps := 0), Laps(p, j, m + 1, left), later, left, m0, m1);
      n := m0 + m1;
    }
  }

  /** Nothing is in progress. */
  predicate Fresh(s: Registers) {
    Calm(s) && s.jumps <= 0 && s.lastJump < s.pc
  }

  lemma PieceLeads(p: seq<Op>, end: nat, s: Registers) returns (t: Registers, n: nat)
    requires Flat(p, end) && 0 <= s.pc < end && (Counts(p[s.pc]) ==> Turns(p, s.pc)) && Fresh(s)
    ensures Fresh(t) && t.pc == s.pc + 1
    ensures Leads(p, s, t, Unrolled(p, end, s.pc), Unrolled(p, end, t.pc), n)
  {
    assert Backward(p, end);
    hide Flat, Turns, Leads, Laps, Once;
    var j, left := s.pc, Unrolled(p, end, s.pc + 1);
    if Counts(p[j]) {
      var u := Jumped(p, s);
      JumpLeads(p, s, Unrolled(p, end, j));
      var m := AllLaps(p, end, j, u, p[j].counter - 1, left);
      t := u.(pc := j + 1, jumps := 0);
      LeadsOn(p, s, u, t, Unrolled(p, end, j), Unrolled(p, end, j), left, 1, m);
      n := 1 + m;
    } else {
      n := OnceLeads(p, s, left);
      t := s.(pc := s.pc + 1);
    }
  }

  /** As long as all loops turn, the machine does what it is meant to do. */
  lemma {:induction false} Goes(p: seq<Op>, end: nat, s: Registers, stop: nat) returns (t: Registers, n: nat)
    requires Flat(p, end) && 0 <= s.pc <= stop <= end && Fresh(s)
    requires forall j :: s.pc <= j < stop && Counts(p[j]) ==> Turns(p, j)
    ensures Fresh(t) && t.pc == stop
    ensures Leads(p, s, t, Unrolled(p, end, s.pc), Unrolled(p, end, stop), n)
    decreases stop - s.pc
  {
    assert Backward(p, end);
    hide Flat, Backward, Leads, Unrolled, Turns;
    if s.pc == stop {
      t, n := s, 0;
      LeadsNowhere(p, s, Unrolled(p, end, stop));
    } else {
      var u, m := PieceLeads(p, end, s);
      var m1;
      t, m1 := Goes(p, end, u, stop);
      LeadsOn(p, s, u, t, Unrolled(p, end, s.pc), Unrolled(p, end, u.pc), Unrolled(p, end, stop), m, m1);
      n := m + m1;
    }
  }

  lemma TurningUnrolls(p: seq<Op>, end: nat)
    requires Flat(p, end) && forall j :: 0 <= j < end && Counts(p[j]) ==> Turns(p, j)
    ensures Unrolls(p, end)
  {
    var t, n := Goes(p, end, RESET, end);
    LeadsToExit(p, RESET, t, Unrolled(p, end, 0), n);
  }

  // ----- loops that do not -----

  /** Before an instruction is passed, it or one before it is executed. */
  lemma {:induction false} NextAtMost(p: seq<Op>, end: nat, s: Registers, b: nat, due: seq<int>, n: nat)
    requires Backward(p, end) && b < end && p[b].Do? && s.pc <= b && Completes(p, s, due, n)
    ensures due != [] && due[0] <= b
    decreases n
  {
    if n > 0 && !p[s.pc].Do? {
      NextAtMost(p, end, Stepped(p, s), b, due, n - 1);
    }
  }

  /** So it is with a jump that closes another loop than the one in progress. */
  lemma {:induction false} NextAtMostLoop(p: seq<Op>, end: nat, s: Registers, j: nat, b: nat, due: seq<int>, n: nat)
    requires Flat(p, end) && b < j && b < end && Counts(p[b]) && s.lastJump == j && s.pc <= b
    requires Completes(p, s, due, n)
    ensures due != [] && due[0] <= b
    decreases n
  {
    if n > 0 && !p[s.pc].Do? {
      if Counts(p[s.pc]) {
        assert IsFlat(p, s.pc);
        var d: nat :| InBody(p, s.pc, d) && p[d].Do?;
        NextAtMost(p, end, Stepped(p, s), d, due, n - 1);
      } else {
        NextAtMostLoop(p, end, Stepped(p, s), j, b, due, n - 1);
      }
    }
  }

  lemma LoopExecutes(p: seq<Op>, end: nat, j: nat, k: nat)
    requires Flat(p, end) && j < k < end && Counts(p[j]) && Counts(p[k])
    ensures exists d: nat :: j < d < k && p[d].Do?
  {
    assert IsFlat(p, k);
    assert !InBody(p, k, j);
  }

  /** With nothing in progress, what comes next lies ahead. */
  lemma {:induction false} NextBeyond(p: seq<Op>, end: nat, j: nat, s: Registers, due: seq<int>, n: nat)
    requires Flat(p, end) && j < end && Counts(p[j]) && j < s.pc <= end && s.jumps <= 0
    requires Completes(p, s, due, n)
    requires s.lastJump < s.pc && forall k: nat :: j < k < s.pc ==> !p[k].Do?
    ensures due != [] ==> due[0] > j
    decreases n
  {
    if n > 0 && !p[s.pc].Do? {
      if Counts(p[s.pc]) {
        LoopExecutes(p, end, j, s.pc);
      } else {
        NextBeyond(p, end, j, Stepped(p, s), due, n - 1);
      }
    }
  }

  function Count(due: seq<int>, d: nat): nat {
    if due == [] then 0 else (if due[0] == d then 1 else 0) + Count(due[1..], d)
  }

  /** What is due begins in the body of the loop and goes on behind it. */
  ghost predicate Leaves(p: seq<Op>, j: nat, due: seq<int>)
    requires j < |p| && p[j].Jump?
  {
    && (forall i :: 0 <= i < |due| ==> Head(p, j) <= due[i] && due[i] != j)
    && (forall i, k :: 0 <= i < k < |due| && due[i] > j ==> due[k] > j)
  }

  predicate Behind(due: seq<int>, d: int) {
    forall i :: 0 <= i < |due| ==> due[i] > d
  }

  lemma {:induction false} BehindIsNotCounted(due: seq<int>, d: nat)
    requires Behind(due, d)
    ensures Count(due, d) == 0
  {
    if due != [] { BehindIsNotCounted(due[1..], d); }
  }

  lemma NothingCounts(p: seq<Op>, j: nat, due: seq<int>, d: nat)
    requires j < |p| && p[j].Jump? && d < j && Leaves(p, j, due) && (due == [] || due[0] > j)
    ensures Count(due, d) == 0
  {
    BehindIsNotCounted(due, d);
  }

  lemma LeavesOn(p: seq<Op>, j: nat, k: nat, due: seq<int>)
    requires j < |p| && p[j].Jump? && Leaves(p, j, due) && Head(p, j) <= k < j
    ensures Leaves(p, j, [k] + due)
  {
  }

  lemma {:induction false} CopiesCount(p: seq<Op>, j: nat, k: nat, n: nat, left: seq<int>, d: nat)
    ensures Count(Copies(k, n, left), d) == (if k == d then n else 0) + Count(left, d)
    ensures j < |p| && p[j].Jump? && Head(p, j) <= k < j && Leaves(p, j, left) ==> Leaves(p, j, Copies(k, n, left))
  {
    if n > 0 {
      var later := Copies(k, n - 1, left);
      CopiesCount(p, j, k, n - 1, left, d);
      assert ([k] + later)[1..] == later;
      if j < |p| && p[j].Jump? && Head(p, j) <= k < j && Leaves(p, j, left) { LeavesOn(p, j, k, later); }
    }
  }

  lemma {:induction false} StraightCount(p: seq<Op>, j: nat, k: nat, stop: nat, left: seq<int>, d: nat)
    requires j < |p| && p[j].Jump? && Head(p, j) <= k && stop <= j && d < |p| && p[d].Do? && Leaves(p, j, left)
    ensures Count(Straight(p, k, stop, left), d) == (if k <= d < stop then p[d].times else 0) + Count(left, d)
    ensures Leaves(p, j, Straight(p, k, stop, left))
    decreases stop - k
  {
    hide Copies, Count, Leaves;
    if k < stop {
      StraightCount(p, j, k + 1, stop, left, d);
      if p[k].Do? { CopiesCount(p, j, k, p[k].times, Straight(p, k + 1, stop, left), d); }
    }
  }

  lemma {:induction false} LapsCount(p: seq<Op>, j: nat, n: nat, left: seq<int>, d: nat)
    requires j < |p| && p[j].Jump? && Head(p, j) >= 0 && InBody(p, j, d) && p[d].Do? && Leaves(p, j, left)
    ensures Count(Laps(p, j, n, left), d) == n * p[d].times + Count(left, d)
    ensures Leaves(p, j, Laps(p, j, n, left))
  {
    hide Straight, Count, Leaves;
    if n > 0 {
      LapsCount(p, j, n - 1, left, d);
      StraightCount(p, j, Head(p, j), j, Laps(p, j, n - 1, left), d);
      NextProduct(n - 1, p[d].times);
    }
  }

  lemma {:induction false} UnrolledBehind(p: seq<Op>, end: nat, j: nat, k: nat)
    requires Flat(p, end) && j < k && j < end && Counts(p[j])
    ensures Behind(Unrolled(p, end, k), j)
    decreases end - k
  {
    if k < end {
      UnrolledBehind(p, end, j, k + 1);
      var rest := Unrolled(p, end, k + 1);
      if Counts(p[k]) {
        assert IsFlat(p, k);
        assert !InBody(p, k, j);
        LapsBehind(p, k, p[k].counter, rest, j);
      } else if p[k].Do? {
        CopiesBehind(k, p[k].times, rest, j);
      }
    }
  }

  lemma {:induction false} CopiesBehind(k: nat, n: nat, rest: seq<int>, j: nat)
    requires k > j && Behind(rest, j)
    ensures Behind(Copies(k, n, rest), j)
  {
    if n > 0 { CopiesBehind(k, n - 1, rest, j); }
  }

  lemma {:induction false} StraightBehind(p: seq<Op>, k: nat, stop: nat, rest: seq<int>, j: nat)
    requires stop <= |p| && k > j && Behind(rest, j)
    ensures Behind(Straight(p, k, stop, rest), j)
    decreases stop - k
  {
    hide Copies;
    if k < stop {
      StraightBehind(p, k + 1, stop, rest, j);
      if p[k].Do? { CopiesBehind(k, p[k].times, Straight(p, k + 1, stop, rest), j); }
    }
  }

  lemma {:induction false} LapsBehind(p: seq<Op>, k: nat, n: nat, rest: seq<int>, j: nat)
    requires k < |p| && p[k].Jump? && Head(p, k) > j && Behind(rest, j)
    ensures Behind(Laps(p, k, n, rest), j)
  {
    hide Straight;
    if n > 0 {
      LapsBehind(p, k, n - 1, rest, j);
      StraightBehind(p, Head(p, k), k, Laps(p, k, n - 1, rest), j);
    }
  }

  /** In the loop of `j`, with `m` more laps to go back. */
  ghost predicate Inside(p: seq<Op>, j: nat, s: Registers, m: nat, due: seq<int>, n: nat)
    requires j < |p| && p[j].Jump?
  {
    Calm(s) && s.lastJump == j && s.jumps == m && s.pc <= j && Completes(p, s, due, n) && Leaves(p, j, due)
  }

  lemma IsRunning(p: seq<Op>, end: nat, s: Registers, due: seq<int>, n: nat)
    requires Backward(p, end) && s.pc < end && Completes(p, s, due, n)
    ensures n > 0 && InCode(p, s) && (p[s.pc].Do? ==> p[s.pc].times >= 1 && due != [] && due[0] == s.pc)
    ensures p[s.pc].Jump? ==> Completes(p, Jumped(p, s), due, n - 1)
  {
  }

  /** With no laps left, the loop is left, and its code is not executed again. */
  lemma LeavesWithNothing(p: seq<Op>, end: nat, j: nat, s: Registers, due: seq<int>, n: nat)
    requires Flat(p, end) && j < end && Counts(p[j]) && s.pc == j && Inside(p, j, s, 0, due, n)
    ensures due == [] || due[0] > j
  {
    IsRunning(p, end, s, due, n);
    hide Completes, Leaves;
    NextBeyond(p, end, j, Jumped(p, s), due, n - 1);
  }

  /** Nor is it by way of another loop. */
  lemma NoOtherLoop(p: seq<Op>, end: nat, j: nat, s: Registers, m: nat, due: seq<int>, n: nat)
    requires Flat(p, end) && j < end && Counts(p[j]) && Inside(p, j, s, m, due, n) && s.pc != j
    ensures 0 <= s.pc < |p| && !Counts(p[s.pc])
  {
    IsRunning(p, end, s, due, n);
    assert IsFlat(p, j);
    hide Completes;
    if Counts(p[s.pc]) {
      NextAtMostLoop(p, end, s, j, s.pc, due, n);
    }
  }

  /** A jump within the loop costs one of the laps left, or is passed. */
  lemma StaysInside(p: seq<Op>, end: nat, j: nat, s: Registers, m: nat, due: seq<int>, n: nat, d: nat)
    requires Flat(p, end) && j < end && Counts(p[j]) && InBody(p, j, d) && p[d].Do? && Inside(p, j, s, m, due, n)
    requires 0 <= s.pc && p[s.pc].Jump? && (s.pc == j ==> m > 0)
    ensures var t, m' := Jumped(p, s), if m > 0 then m - 1 else 0;
            && n > 0 && Inside(p, j, t, m', due, n - 1)
            && m' + (if t.pc <= d then 1 else 0) <= m + (if s.pc <= d then 1 else 0)
  {
    assert Backward(p, end);
    hide Flat, Backward, Completes, Leaves;
    IsRunning(p, end, s, due, n);
    if s.pc != j { NoOtherLoop(p, end, j, s, m, due, n); }
  }

  /** How often the instruction at `d` can still be executed in the loop, from `pc` with `m` laps to go back. */
  function Allowance(p: seq<Op>, d: nat, m: nat, pc: int): int
    requires d < |p| && p[d].Do?
  {
    p[d].times * (m + if pc <= d then 1 else 0)
  }

  lemma LessIsAllowed(p: seq<Op>, d: nat, m: nat, pc: int, m': nat, pc': int)
    requires d < |p| && p[d].Do?
    requires m + (if pc <= d then 1 else 0) <= m' + (if pc' <= d then 1 else 0)
    ensures 0 <= Allowance(p, d, m, pc) <= Allowance(p, d, m', pc')
  {
  }

  lemma DoIsAllowed(p: seq<Op>, d: nat, m: nat, k: nat)
    requires d < |p| && p[d].Do?
    ensures (if k == d then p[d].times else 0) + Allowance(p, d, m, k + 1) <= Allowance(p, d, m, k)
  {
    NextProduct(m, p[d].times);
  }

  lemma {:induction false} CopiesLeave(p: seq<Op>, j: nat, k: nat, n: nat, left: seq<int>)
    requires j < |p| && p[j].Jump? && Leaves(p, j, Copies(k, n, left))
    ensures Leaves(p, j, left)
  {
    if n > 0 {
      var due, later := Copies(k, n, left), Copies(k, n - 1, left);
      assert due[1..] == later;
      assert forall i :: 0 <= i < |later| ==> later[i] == due[i + 1];
      CopiesLeave(p, j, k, n - 1, left);
    }
  }

  lemma {:induction false} RepeatConsumes(p: seq<Op>, s: Registers, due: seq<int>, n: nat)
    returns (left: seq<int>, m: nat)
    requires 0 <= s.pc < |p| && p[s.pc].Do? && s.lastRepeat == s.pc && s.repeats >= 0 && Completes(p, s, due, n)
    ensures m < n && due == Copies(s.pc, s.repeats + 1, left)
    ensures Completes(p, s.(pc := s.pc + 1, lastRepeat := -1, repeats := 0), left, m)
    decreases s.repeats
  {
    if s.repeats == 0 {
      left, m := due[1..], n - 1;
    } else {
      left, m := RepeatConsumes(p, Stepped(p, s), due[1..], n - 1);
    }
    assert due == [s.pc] + due[1..];
  }

  lemma DoConsumes(p: seq<Op>, s: Registers, due: seq<int>, n: nat) returns (left: seq<int>, m: nat)
    requires 0 <= s.pc < |p| && p[s.pc].Do? && p[s.pc].times >= 1 && Calm(s) && Completes(p, s, due, n)
    ensures m < n && due == Copies(s.pc, p[s.pc].times, left) && Completes(p, s.(pc := s.pc + 1), left, m)
  {
    if p[s.pc].times == 1 {
      left, m := due[1..], n - 1;
    } else {
      left, m := RepeatConsumes(p, Stepped(p, s), due[1..], n - 1);
    }
    assert due == [s.pc] + due[1..];
  }

  /** Every lap costs one of the laps left, so no instruction of the body is executed more often. */
  lemma {:induction false} Budget(p: seq<Op>, end: nat, j: nat, s: Registers, m: nat, due: seq<int>, n: nat, d: nat)
    requires Flat(p, end) && j < end && Counts(p[j]) && InBody(p, j, d) && p[d].Do? && Inside(p, j, s, m, due, n)
    ensures Count(due, d) <= Allowance(p, d, m, s.pc)
    decreases n
  {
    assert Backward(p, end);
    hide Flat, Backward, Completes, Count, Leaves, Copies, Jumped, Allowance;
    IsRunning(p, end, s, due, n);
    var k := s.pc;
    if p[k].Do? {
      var left, n' := DoConsumes(p, s, due, n);
      CopiesCount(p, j, k, p[k].times, left, d);
      CopiesLeave(p, j, k, p[k].times, left);
      Budget(p, end, j, s.(pc := k + 1), m, left, n', d);
      DoIsAllowed(p, d, m, k);
    } else if k == j && m == 0 {
      LeavesWithNothing(p, end, j, s, due, n);
      NothingCounts(p, j, due, d);
      LessIsAllowed(p, d, m, k, m, k);
    } else {
      var t, m' := Jumped(p, s), if m > 0 then m - 1 else 0;
      StaysInside(p, end, j, s, m, due, n, d);
      Budget(p, end, j, t, m', due, n - 1, d);
      LessIsAllowed(p, d, m', t.pc, m, k);
    }
  }

  // ----- the programs that unroll -----

  lemma {:induction false} LastDoFrom(p: seq<Op>, j: nat, k: nat) returns (d: nat)
    requires k < j < |p| && p[k].Do?
    ensures k <= d < j && p[d].Do? && forall i: nat :: d < i < j ==> !p[i].Do?
    decreases j - k
  {
    if i: nat :| k < i < j && p[i].Do? {
      d := LastDoFrom(p, j, i);
    } else {
      d := k;
    }
  }

  lemma LastDo(p: seq<Op>, end: nat, j: nat) returns (d: nat)
    requires Flat(p, end) && j < end && Counts(p[j])
    ensures InBody(p, j, d) && p[d].Do? && forall k: nat :: d < k < j ==> !p[k].Do?
  {
    assert IsFlat(p, j);
    d :| InBody(p, j, d) && p[d].Do?;
    d := LastDoFrom(p, j, d);
  }

  lemma {:induction false} FirstIdle(p: seq<Op>, end: nat, j: nat, k: nat) returns (i: nat)
    requires Flat(p, end) && j < end && Counts(p[j]) && InBody(p, j, k) && Idle(p[k])
    ensures InBody(p, j, i) && Idle(p[i]) && AllDo(p, Head(p, j), i)
    decreases k
  {
    if i': nat :| InBody(p, j, i') && i' < k && !p[i'].Do? {
      assert IsFlat(p, j);
      i := FirstIdle(p, end, j, i');
    } else {
      i := k;
    }
  }

  /** The laps of the loop of `j` that are due in its second lap, and what is behind them. */
  function DueLaps(p: seq<Op>, end: nat, j: nat): seq<int>
    requires Backward(p, end) && j < end && Counts(p[j])
  {
    Laps(p, j, p[j].counter - 1, Unrolled(p, end, j + 1))
  }

  /** The registers at the first jump without a counter in the second lap of the loop of `j`. */
  ghost predicate AtFirstIdle(p: seq<Op>, end: nat, j: nat, i: nat, s: Registers, n: nat)
    requires Flat(p, end) && i < j < end && Counts(p[j]) && p[j].counter >= 2
  {
    && InBody(p, j, i) && Idle(p[i]) && AllDo(p, Head(p, j), i)
    && Calm(s) && s.pc == i && s.lastJump == j && s.jumps == p[j].counter - 1
    && Completes(p, s, Straight(p, i, j, DueLaps(p, end, j)), n)
  }

  lemma DueCount(p: seq<Op>, end: nat, j: nat, d: nat)
    requires Flat(p, end) && j < end && Counts(p[j]) && InBody(p, j, d) && p[d].Do?
    ensures Count(DueLaps(p, end, j), d) == (p[j].counter - 1) * p[d].times
    ensures Leaves(p, j, DueLaps(p, end, j))
  {
    var rest := Unrolled(p, end, j + 1);
    UnrolledBehind(p, end, j, j + 1);
    BehindIsNotCounted(rest, d);
    assert Leaves(p, j, rest);
    hide Flat, Leaves, Count, Laps, Unrolled;
    LapsCount(p, j, p[j].counter - 1, rest, d);
  }

  lemma Cancel(times: nat, x: int, y: int)
    requires times >= 1 && x * times <= times * y
    ensures x <= y
  {
  }

  /** Nothing is left to execute in the lap in which a jump without a counter is taken. */
  lemma NoDoBehind(p: seq<Op>, end: nat, j: nat, i: nat, s: Registers, n: nat, d: nat)
    requires Flat(p, end) && i < j < end && Counts(p[j]) && p[j].counter >= 2 && AtFirstIdle(p, end, j, i, s, n)
    requires InBody(p, j, d) && p[d].Do?
    ensures d < i && Head(p, i) <= d
  {
    assert Backward(p, end) && p[d].times >= 1;
    hide Flat, Backward, Completes, Leaves, Count, DueLaps, Straight, AllDo;
    var times, m, due := p[d].times, p[j].counter - 1, Straight(p, i, j, DueLaps(p, end, j));
    DueCount(p, end, j, d);
    StraightCount(p, j, i, j, DueLaps(p, end, j), d);
    IsRunning(p, end, s, due, n);
    Budget(p, end, j, Jumped(p, s), m - 1, due, n - 1, d);
    NextProduct(m, times);
    Cancel(times, if d < i then m else m + 1, m - 1 + if Head(p, i) <= d then 1 else 0);
  }

  /** The jump has been taken, and the next lap is due. */
  ghost predicate Taken(p: seq<Op>, end: nat, j: nat, i: nat, s: Registers, n: nat)
    requires Flat(p, end) && i < j < end && Counts(p[j]) && p[j].counter >= 2 && p[i].Jump?
  {
    && Calm(s) && s.pc == Head(p, i) && s.lastJump == j && s.jumps == p[j].counter - 2
    && Completes(p, s, DueLaps(p, end, j), n)
  }

  lemma IsTaken(p: seq<Op>, end: nat, j: nat, i: nat, s: Registers, n: nat)
    requires Flat(p, end) && i < j < end && Counts(p[j]) && p[j].counter >= 2 && AtFirstIdle(p, end, j, i, s, n)
    requires AllIdle(p, i, j)
    ensures n > 0 && Taken(p, end, j, i, Jumped(p, s), n - 1)
  {
    assert Backward(p, end);
    hide Flat, Backward, Completes, DueLaps, Straight, AllDo, AllIdle;
    IdleIsStraight(p, i, j, DueLaps(p, end, j));
    IsRunning(p, end, s, DueLaps(p, end, j), n);
  }

  lemma LapBegins(p: seq<Op>, end: nat, j: nat)
    requires Flat(p, end) && j < end && Counts(p[j]) && p[j].counter >= 2 && Head(p, j) < j && p[Head(p, j)].Do?
    ensures DueLaps(p, end, j) != [] && DueLaps(p, end, j)[0] == Head(p, j)
  {
    hide Unrolled;
  }

  /** What comes next is the head of the loop, so the jump does not lead past it. */
  lemma HeadIsNext(p: seq<Op>, end: nat, j: nat, i: nat, s: Registers, n: nat, d: nat)
    requires Flat(p, end) && i < j < end && Counts(p[j]) && p[j].counter >= 2 && p[i].Jump?
    requires Taken(p, end, j, i, s, n) && AllDo(p, Head(p, j), i) && Head(p, j) <= d < i && Head(p, i) <= d
    ensures 0 <= Head(p, i) <= Head(p, j)
  {
    LapBegins(p, end, j);
    hide Completes, DueLaps;
    IsRunning(p, end, s, DueLaps(p, end, j), n);
  }

  /** What is jumped over on the way back to the head are jumps without a counter. */
  lemma OnlyIdleBefore(p: seq<Op>, end: nat, j: nat, i: nat, s: Registers, n: nat)
    requires Flat(p, end) && i < j < end && Counts(p[j]) && p[j].counter >= 2 && p[i].Jump?
    requires Taken(p, end, j, i, s, n) && Head(p, j) < j && p[Head(p, j)].Do?
    ensures AllIdle(p, Head(p, i), Head(p, j))
  {
    LapBegins(p, end, j);
    hide Completes, DueLaps, IsFlat;
    forall k: nat | Head(p, i) <= k < Head(p, j)
      ensures Idle(p[k])
    {
      if p[k].Do? {
        NextAtMost(p, end, s, k, DueLaps(p, end, j), n);
      } else if Counts(p[k]) {
        NextAtMostLoop(p, end, s, j, k, DueLaps(p, end, j), n);
      }
    }
  }

  /** Such a jump on the way uses up another lap, which only the last lap can spare. */
  lemma OnlyLastLap(p: seq<Op>, end: nat, j: nat, i: nat, s: Registers, n: nat, d: nat)
    requires Flat(p, end) && i < j < end && Counts(p[j]) && p[j].counter >= 2 && p[i].Jump?
    requires Taken(p, end, j, i, s, n) && InBody(p, j, d) && p[d].Do?
    requires 0 <= Head(p, i) < Head(p, j) && Idle(p[Head(p, i)])
    ensures p[j].counter == 2
  {
    assert Backward(p, end) && p[d].times >= 1;
    hide Flat, Backward, Completes, Leaves, Count, DueLaps;
    if p[j].counter > 2 {
      var m, t, due := p[j].counter - 1, Jumped(p, s), DueLaps(p, end, j);
      DueCount(p, end, j, d);
      IsRunning(p, end, s, due, n);
      Budget(p, end, j, t, m - 2, due, n - 1, d);
      Cancel(p[d].times, m, m - 2 + if t.pc <= d then 1 else 0);
    }
  }

  /** A loop with such a jump that runs as it is meant to is closed by that jump as well. */
  lemma MustClose(p: seq<Op>, end: nat, j: nat, i: nat, s: Registers, n: nat)
    requires Flat(p, end) && i < j < end && Counts(p[j]) && p[j].counter >= 2 && AtFirstIdle(p, end, j, i, s, n)
    ensures Closes(p, j, i)
  {
    hide Taken, Completes, DueLaps, Straight;
    var d := LastDo(p, end, j);
    var t := Jumped(p, s);
    NoDoBehind(p, end, j, i, s, n, d);
    assert AllIdle(p, i, j) by { assert IsFlat(p, j); }
    IsTaken(p, end, j, i, s, n);
    HeadIsNext(p, end, j, i, t, n - 1, d);
    OnlyIdleBefore(p, end, j, i, t, n - 1);
    if Head(p, i) < Head(p, j) {
      OnlyLastLap(p, end, j, i, t, n - 1, d);
    }
  }

  lemma LoopIsDue(p: seq<Op>, end: nat, j: nat, i: nat)
    requires Flat(p, end) && i < j < end && Counts(p[j]) && InBody(p, j, i)
    ensures Head(p, j) >= 0
    ensures Unrolled(p, end, j) == Straight(p, Head(p, j), i, Straight(p, i, j, DueLaps(p, end, j)))
  {
    hide Straight;
    StraightSplit(p, Head(p, j), i, j, DueLaps(p, end, j));
  }

  lemma FirstLap(p: seq<Op>, end: nat, s: Registers, n: nat, i: nat) returns (m: nat)
    requires Flat(p, end) && 0 <= s.pc < end && Counts(p[s.pc]) && p[s.pc].counter >= 2 && Fresh(s)
    requires Completes(p, s, Unrolled(p, end, s.pc), n)
    requires InBody(p, s.pc, i) && Idle(p[i]) && AllDo(p, Head(p, s.pc), i)
    ensures AtFirstIdle(p, end, s.pc, i, Jumped(p, s).(pc := i), m)
  {
    var j, u := s.pc, Jumped(p, s);
    LoopIsDue(p, end, j, i);
    IsRunning(p, end, s, Unrolled(p, end, j), n);
    var left := Straight(p, i, j, DueLaps(p, end, j));
    var m0 := Walk(p, u, i, left);
    hide Flat, Completes, Leads, Straight, DueLaps, Unrolled, AllDo;
    CompletesVia(p, u, u.(pc := i), Straight(p, u.pc, i, left), left, m0, n - 1);
    m := n - 1 - m0;
  }

  /** A loop that is reached with nothing in progress, and from which the rest unrolls, turns. */
  lemma MustTurn(p: seq<Op>, end: nat, s: Registers, n: nat)
    requires Flat(p, end) && 0 <= s.pc < end && Counts(p[s.pc]) && Fresh(s)
    requires Completes(p, s, Unrolled(p, end, s.pc), n)
    ensures Turns(p, s.pc)
  {
    hide Completes, Unrolled, AtFirstIdle, Closes;
    var j := s.pc;
    if p[j].counter >= 2 && !AllDo(p, Head(p, j), j) {
      var k: nat :| Head(p, j) <= k < j && !p[k].Do?;
      assert IsFlat(p, j);
      var i := FirstIdle(p, end, j, k);
      var m := FirstLap(p, end, s, n, i);
      MustClose(p, end, j, i, Jumped(p, s).(pc := i), m);
    }
  }

  lemma {:induction false} AllTurn(p: seq<Op>, end: nat, s: Registers, j: nat, n: nat)
    requires Flat(p, end) && Fresh(s) && 0 <= s.pc <= j < end && Counts(p[j])
    requires Completes(p, s, Unrolled(p, end, s.pc), n)
    ensures Turns(p, j)
    decreases j - s.pc
  {
    assert Backward(p, end);
    hide Flat, Backward, Completes, Leads, Unrolled, Turns;
    if Counts(p[s.pc]) { MustTurn(p, end, s, n); }
    if s.pc < j {
      var t, m := PieceLeads(p, end, s);
      CompletesVia(p, s, t, Unrolled(p, end, s.pc), Unrolled(p, end, t.pc), m, n);
      AllTurn(p, end, t, j, n - m);
    }
  }

  lemma FlatUnrolls(p: seq<Op>, end: nat)
    requires Flat(p, end)
    ensures Unrolls(p, end) <==> forall j :: 0 <= j < end && Counts(p[j]) ==> Turns(p, j)
  {
    if forall j :: 0 <= j < end && Counts(p[j]) ==> Turns(p, j) {
      TurningUnrolls(p, end);
    } else if Unrolls(p, end) {
      var j: nat :| j < end && Counts(p[j]) && !Turns(p, j);
      var n: nat :| Completes(p, RESET, Unrolled(p, end, 0), n);
      AllTurn(p, end, RESET, j, n);
    }
  }

  ghost predicate HasNoLoop(p: seq<Op>, j: nat)
    requires j < |p| && p[j].Jump?
  {
    forall k: nat :: InBody(p, j, k) ==> !Counts(p[k])
  }

  ghost predicate HasInstruction(p: seq<Op>, j: nat)
    requires j < |p| && p[j].Jump?
  {
    exists d: nat :: InBody(p, j, d) && p[d].Do?
  }

  /**
   * A program whose loops have something to execute comes to its EXIT, having executed every loop once more
   * than its counter says and everything else once, if and only if no loop contains a loop and each turns.
   */
  lemma UnrollsExactly(p: seq<Op>, end: nat)
    requires Backward(p, end) && forall j :: 0 <= j < end && Counts(p[j]) ==> HasInstruction(p, j)
    ensures Unrolls(p, end) <==>
            forall j :: 0 <= j < end && Counts(p[j]) ==> HasNoLoop(p, j) && Turns(p, j)
  {
    if j: nat :| j < end && Counts(p[j]) && !HasNoLoop(p, j) {
      var i: nat :| InBody(p, j, i) && Counts(p[i]);
      if Unrolls(p, end) {
        var n: nat :| Completes(p, RESET, Unrolled(p, end, 0), n);
        NestedLoopNeverExits(p, end, i, j, RESET, Unrolled(p, end, 0), n);
      }
    } else {
      forall j | 0 <= j < end && Counts(p[j])
        ensures IsFlat(p, j)
      {
        assert HasNoLoop(p, j) && HasInstruction(p, j);
      }
      FlatUnrolls(p, end);
    }
  }

  // ----- jumps without a counter, taken -----

  predicate IdleTaken(p: seq<Op>, s: Registers)
    requires InCode(p, s)
  {
    Idle(p[s.pc]) && s.jumps > 0
  }

  /** In these rounds, no jump without a counter is taken. */
  ghost predicate PassesAll(p: seq<Op>, s: Registers, n: nat)
    decreases n
  {
    n == 0 || (InCode(p, s) && !IdleTaken(p, s) && PassesAll(p, Stepped(p, s), n - 1))
  }

  /** On the way back to `k`, a jump without a counter in the body of the loop of `j`, there are laps left. */
  ghost predicate Pending(p: seq<Op>, k: nat, j: nat, s: Registers)
    requires j < |p| && p[j].Jump?
  {
    && s.pc <= j && (s.pc > k ==> s.lastJump != j)
    && (0 <= s.pc <= k && s.lastJump == j ==> InBody(p, j, s.pc) && s.jumps > 0)
  }

  lemma StaysPending(p: seq<Op>, end: nat, k: nat, j: nat, s: Registers)
    requires Backward(p, end) && j < end && Counts(p[j]) && p[j].counter >= 2
    requires InBody(p, j, k) && p[k].Jump? && HasNoLoop(p, j)
    requires InCode(p, s) && Pending(p, k, j, s) && !IdleTaken(p, s)
    ensures Pending(p, k, j, Stepped(p, s))
  {
    assert s.pc == k ==> s.lastJump != j;
  }

  /** A loop with more than one lap to go back is only left by taking the jump without a counter in its body. */
  lemma {:induction false} IdleJumpIsTaken(p: seq<Op>, end: nat, k: nat, j: nat, s: Registers, due: seq<int>, n: nat)
    requires Backward(p, end) && j < end && Counts(p[j]) && p[j].counter >= 2
    requires InBody(p, j, k) && p[k].Jump? && HasNoLoop(p, j)
    requires Pending(p, k, j, s) && Completes(p, s, due, n)
    ensures !PassesAll(p, s, n)
    decreases n
  {
    if n > 0 && !IdleTaken(p, s) {
      StaysPending(p, end, k, j, s);
      IdleJumpIsTaken(p, end, k, j, Stepped(p, s), if p[s.pc].Do? then due[1..] else due, n - 1);
    }
  }

  // ----- two programs that differ in an offset -----

  /** Two laps instead of the three that a counter of 2 stands for: the other jump has used one up. */
  lemma ShortLoop()
    ensures var p := [Do(1), Jump(0, 0), Jump(2, 3), Exit];
            && Backward(p, 3) && Unrolled(p, 3, 0) == [0, 0, 0] && Completes(p, RESET, [0, 0], 6) && !Unrolls(p, 3)
  {
    var p := [Do(1), Jump(0, 0), Jump(2, 3), Exit];
    assert InBody(p, 2, 0) && HasInstruction(p, 2);
    UnrollsExactly(p, 3);
    assert !AllDo(p, 0, 2) by { assert !p[1].Do?; }
    forall i: nat | i < 2
      ensures !Closes(p, 2, i)
    {
      assert i == 0 || i == 1;
    }
    MeantThrice(p);
    hide *;
    ShortRun();
  }

  lemma ShortRun()
    ensures Completes([Do(1), Jump(0, 0), Jump(2, 3), Exit], RESET, [0, 0], 6)
  {
    var p := [Do(1), Jump(0, 0), Jump(2, 3), Exit];
    var s1 := Stepped(p, RESET);
    var s2 := Stepped(p, s1);
    var s3 := Stepped(p, s2);
    var s4 := Stepped(p, s3);
    var s5 := Stepped(p, s4);
    assert s3 == Registers(0, 2, 1, -1, 0) && s5 == Registers(2, 2, 0, -1, 0);
    assert Completes(p, Stepped(p, s5), [], 0) && Completes(p, s5, [], 1) && Completes(p, s4, [], 2);
    assert Completes(p, s3, [0], 3) && Completes(p, s2, [0], 4) && Completes(p, s1, [0], 5);
  }

  lemma MeantThrice(p: seq<Op>)
    requires Backward(p, 3) && p[0] == Do(1) && Idle(p[1]) && p[2] == Jump(2, 3)
    ensures Unrolled(p, 3, 0) == [0, 0, 0]
  {
    assert Unrolled(p, 3, 3) == [];
    OneInstruction(p, []);
    OneInstruction(p, [0]);
    OneInstruction(p, [0, 0]);
    assert Laps(p, 2, 1, []) == [0] && Laps(p, 2, 2, []) == [0, 0];
  }

  lemma OneInstruction(p: seq<Op>, rest: seq<int>)
    requires |p| > 2 && p[0] == Do(1) && Idle(p[1])
    ensures Straight(p, 0, 2, rest) == [0] + rest && Once(p, 0, rest) == [0] + rest
  {
    assert Straight(p, 2, 2, rest) == rest && Straight(p, 1, 2, rest) == rest;
    assert Copies(0, 1, rest) == [0] + rest;
  }

  /** With an offset that leads to the head of the loop, the other jump makes up for the lap that it uses. */
  lemma LuckyLoop()
    ensures var p := [Do(1), Jump(0, 2), Jump(2, 3), Exit];
            && Backward(p, 3) && Unrolled(p, 3, 0) == [0, 0, 0] && Unrolls(p, 3)
  {
    var p := [Do(1), Jump(0, 2), Jump(2, 3), Exit];
    assert InBody(p, 2, 0) && HasInstruction(p, 2);
    assert Closes(p, 2, 1);
    UnrollsExactly(p, 3);
    MeantThrice(p);
  }
}
