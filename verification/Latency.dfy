/**
 * How long data takes: in every run, the burst of a READ leaves the data bus of its rank the read latency and
 * a burst after the command has reached the rank, and the burst of a WRITE leaves the bus of the controller the
 * write latency and a burst after the command was issued.
 */
module Latency {
  import opened Dram
  import opened RankModel
  import opened MemoryControllerModel
  import opened MemorySystemModel
  import opened SystemSafety
  import opened Runs
  import opened Spacing

  // ---------- bursts in line for a bus ----------

  /** The countdowns of bursts that follow each other, one a cycle at most. */
  ghost predicate InLine(w: WriteBus, longest: int) {
    && |w.waiting| == |w.countdown|
    && (forall k | 0 <= k < |w.countdown| :: 1 <= w.countdown[k] <= longest)
    && (forall k, l | 0 <= k < l < |w.countdown| :: w.countdown[k] < w.countdown[l])
  }

  /** The burst will have left the bus in so many cycles. */
  ghost predicate Due(c: Config, w: WriteBus, d: BusPacket, left: int) {
    || (w.onBus == Some(d) && w.cyclesLeft == left)
    || (left > c.bl / 2 && InLineAt(w, d, left - c.bl / 2))
  }

  ghost predicate InLineAt(w: WriteBus, d: BusPacket, countdown: int) {
    exists k | 0 <= k < |w.waiting| && k < |w.countdown| :: w.waiting[k] == d && w.countdown[k] == countdown
  }

  lemma LineMoves(c: Config, w: WriteBus, longest: int)
    requires WriteBusTick(c, w).Success? && InLine(w, longest)
    ensures InLine(WriteBusTick(c, w).value, longest - 1)
  {
    var w' := WriteBusTick(c, w).value;
    if |w.countdown| > 0 && w.countdown[0] == 1 {
      forall k | 0 <= k < |w'.countdown|
        ensures w'.countdown[k] == w.countdown[k + 1] - 1 && w.countdown[k + 1] > w.countdown[0]
      {
      }
    } else {
      assert w'.countdown == Decremented(w.countdown);
      forall k | 0 <= k < |w.countdown|
        ensures w.countdown[k] >= 2
      {
        assert k > 0 ==> w.countdown[0] < w.countdown[k];
      }
    }
  }

  lemma BurstMoves(c: Config, w: WriteBus, longest: int, d: BusPacket, left: int)
    requires c.bl / 2 >= 1 && WriteBusTick(c, w).Success? && InLine(w, longest) && Due(c, w, d, left) && left > 1
    ensures Due(c, WriteBusTick(c, w).value, d, left - 1)
  {
    var w' := WriteBusTick(c, w).value;
    if !(w.onBus == Some(d) && w.cyclesLeft == left) {
      var k :| 0 <= k < |w.waiting| && k < |w.countdown| && w.waiting[k] == d && w.countdown[k] == left - c.bl / 2;
      assert k > 0 ==> w.countdown[0] < w.countdown[k];
      if w.countdown[0] == 1 {
        if k > 0 {
          assert w'.waiting[k - 1] == d && w'.countdown[k - 1] == left - 1 - c.bl / 2;
        }
      } else {
        assert w'.waiting[k] == d && w'.countdown[k] == left - 1 - c.bl / 2;
      }
    }
  }

  lemma Joins(c: Config, w: WriteBus, w': WriteBus, longest: int, d: BusPacket)
    requires InLine(w, longest - 1) && longest >= 1 && c.bl / 2 >= 1
    requires w' == w.(waiting := w.waiting + [d], countdown := w.countdown + [longest])
    ensures InLine(w', longest) && Due(c, w', d, longest + c.bl / 2)
    ensures forall e, left :: Due(c, w, e, left) ==> Due(c, w', e, left)
  {
    assert w'.waiting[|w.waiting|] == d && w'.countdown[|w.waiting|] == longest;
    forall e, left | Due(c, w, e, left)
      ensures Due(c, w', e, left)
    {
      if !(w.onBus == Some(e) && w.cyclesLeft == left) {
        var k :| 0 <= k < |w.waiting| && k < |w.countdown| && w.waiting[k] == e && w.countdown[k] == left - c.bl / 2;
        assert w'.waiting[k] == e && w'.countdown[k] == left - c.bl / 2;
      }
    }
  }

  // ---------- write data ----------

  /** The write path over one event. */
  ghost predicate WritesStep(c: Config, e: Event, w: WriteBus, w': WriteBus) {
    if !e.Cycles? then w' == w
    else
      && WriteBusTick(c, w).Success?
      && var ticked := WriteBusTick(c, w).value;
         w' == if e.choice.popped.None? then ticked else WriteAnnounced(c, ticked, e.choice.popped.value)
  }

  lemma CycleOfWrites(c: Config, locate: nat -> Location, s: SystemState, choice: Choice)
    requires Inputs(c, locate) && SystemShape(c, s) && Allowed(c, s, choice) && Cycle(c, locate, s, choice).Success?
    ensures WritesStep(c, Cycles(choice), s.controller.writes, Cycle(c, locate, s, choice).value.controller.writes)
    ensures Cycle(c, locate, s, choice).value.clock == s.clock + 1
  {
    hide WriteBusTick, WriteAnnounced, AfterIssueTable, Receive, TickTable;
    var t := AfterRanks(c, s);
    var before := BeforePop(c, t.controller, t.ranks, s.clock, choice.pimMode).value;
    assert before.0.writes == WriteBusTick(c, s.controller.writes).value;
  }

  lemma StepOfWrites(c: Config, locate: nat -> Location, states: seq<SystemState>, events: seq<Event>, i: nat)
    requires Inputs(c, locate) && IsRun(c, locate, states, events) && i < |events|
    ensures WritesStep(c, events[i], states[i].controller.writes, states[i + 1].controller.writes)
    ensures states[i + 1].clock == states[i].clock + if events[i].Cycles? then 1 else 0
  {
    hide WritesStep, Allowed, Fittingly;
    assert IsStep(c, locate, states[i], events[i], states[i + 1]);
    match events[i] {
      case Cycles(choice) =>
        CycleOfWrites(c, locate, states[i], choice);
      case _ => NoWrites(c, events[i], states[i].controller.writes);
    }
  }

  lemma NoWrites(c: Config, e: Event, w: WriteBus)
    requires !e.Cycles?
    ensures WritesStep(c, e, w, w)
  {
  }

  lemma StepInLine(c: Config, e: Event, w: WriteBus, w': WriteBus)
    requires c.Valid() && InLine(w, c.wl) && WritesStep(c, e, w, w')
    ensures InLine(w', c.wl)
    ensures forall d, left :: Due(c, w, d, left) && left > 1 && e.Cycles? ==> Due(c, w', d, left - 1)
    ensures forall p :: Sends(e, p) && p.busPacketType == WRITE ==>
              Due(c, w', p.(busPacketType := DATA, barrier := false), c.wl + c.bl / 2)
  {
    if e.Cycles? {
      var ticked := WriteBusTick(c, w).value;
      LineMoves(c, w, c.wl);
      forall d, left | Due(c, w, d, left) && left > 1
        ensures Due(c, ticked, d, left - 1)
      {
        BurstMoves(c, w, c.wl, d, left);
      }
      hide Due, WriteBusTick, InLine;
      if e.choice.popped.Some? && e.choice.popped.value.busPacketType == WRITE {
        Joins(c, ticked, w', c.wl, e.choice.popped.value.(busPacketType := DATA, barrier := false));
      } else {
        Longer(ticked, c.wl);
      }
    }
  }

  lemma Longer(w: WriteBus, longest: int)
    requires InLine(w, longest - 1)
    ensures InLine(w, longest)
  {
  }

  lemma {:induction false} AlwaysInLine(c: Config, locate: nat -> Location, states: seq<SystemState>,
                                        events: seq<Event>, n: nat)
    requires Inputs(c, locate) && IsRun(c, locate, states, events) && n <= |events|
    ensures n < |states| && InLine(states[n].controller.writes, c.wl)
  {
    assert |states| == |events| + 1 && states[0] == InitialSystem(c);
    hide IsRun, WritesStep, Due;
    if n > 0 {
      AlwaysInLine(c, locate, states, events, n - 1);
      StepOfWrites(c, locate, states, events, n - 1);
      StepInLine(c, events[n - 1], states[n - 1].controller.writes, states[n].controller.writes);
    }
  }

  /** From the cycle after its issue on, the burst of a WRITE is in line, and then on the bus. */
  lemma {:induction false} WriteIsDue(c: Config, locate: nat -> Location, states: seq<SystemState>, events: seq<Event>,
                                      i: nat, n: nat, p: BusPacket)
    requires Inputs(c, locate) && IsRun(c, locate, states, events) && i < n <= |events|
    requires Sends(events[i], p) && p.busPacketType == WRITE
    requires i < |states| && n < |states| && states[n].clock <= states[i].clock + c.wl + c.bl / 2
    ensures Due(c, states[n].controller.writes, p.(busPacketType := DATA, barrier := false),
                states[i].clock + 1 + c.wl + c.bl / 2 - states[n].clock)
    decreases n
  {
    hide IsRun, WritesStep, Due;
    var d := p.(busPacketType := DATA, barrier := false);
    AlwaysInLine(c, locate, states, events, n - 1);
    StepOfWrites(c, locate, states, events, n - 1);
    var w, w' := states[n - 1].controller.writes, states[n].controller.writes;
    StepInLine(c, events[n - 1], w, w');
    if i < n - 1 {
      WriteIsDue(c, locate, states, events, i, n - 1, p);
      if !events[n - 1].Cycles? { NoWritesMeans(c, events[n - 1], w, w'); }
    }
  }

  lemma NoWritesMeans(c: Config, e: Event, w: WriteBus, w': WriteBus)
    requires WritesStep(c, e, w, w') && !e.Cycles?
    ensures w' == w
  {
  }

  /**
   * The burst of a WRITE that is issued in cycle t is on the data bus in the BL/2 cycles that follow t + WL, and
   * its last cycle there is t + WL + BL/2.
   */
  lemma WriteLatency(c: Config, locate: nat -> Location, states: seq<SystemState>, events: seq<Event>, i: nat, n: nat,
                     p: BusPacket)
    requires Inputs(c, locate) && IsRun(c, locate, states, events) && i < n <= |events| < |states|
    requires Sends(events[i], p) && p.busPacketType == WRITE
    requires states[i].clock + c.wl < states[n].clock <= states[i].clock + c.wl + c.bl / 2
    ensures var w := states[n].controller.writes;
            && w.onBus == Some(p.(busPacketType := DATA, barrier := false))
            && w.cyclesLeft == states[i].clock + c.wl + c.bl / 2 + 1 - states[n].clock
  {
    WriteIsDue(c, locate, states, events, i, n, p);
  }

  // ---------- read data ----------

  /** The return path of a rank, as bursts in line for its bus. */
  ghost function Returns(r: RankState): WriteBus {
    WriteBus(r.returnPackets, r.returnCountdown, r.dataOut, r.dataCyclesLeft)
  }

  lemma RankTicks(c: Config, r: RankState)
    requires !Overwrites(r)
    ensures WriteBusTick(c, Returns(r)) == Success(Returns(Tick(c, r)))
  {
  }

  /** The command on the command bus reaches this rank in the next cycle. */
  ghost predicate Reaches(s: SystemState, r: nat) {
    s.controller.command.Some? && s.controller.command.value.rank == r
  }

  /** The return path of a rank over one event. */
  ghost predicate ReturnsStep(c: Config, e: Event, s: SystemState, s': SystemState, r: nat) {
    && |s.ranks| == |s'.ranks| && r < |s.ranks|
    && if !e.Cycles? then
         s'.ranks == s.ranks && s'.controller.command == s.controller.command && s'.clock == s.clock
       else
         && s'.clock == s.clock + 1 && s'.controller.command == e.choice.popped
         && WriteBusTick(c, Returns(s.ranks[r])).Success?
         && var ticked := WriteBusTick(c, Returns(s.ranks[r])).value;
            Returns(s'.ranks[r]) ==
              if Reaches(s, r) && s.controller.command.value.busPacketType == READ then
                ticked.(waiting := ticked.waiting + [s.controller.command.value.(busPacketType := DATA)],
                        countdown := ticked.countdown + [c.rl])
              else ticked
  }

  lemma CycleOfReturns(c: Config, locate: nat -> Location, s: SystemState, choice: Choice, r: nat)
    requires Inputs(c, locate) && Safe(c, s) && SystemShape(c, s) && Allowed(c, s, choice)
    requires Cycle(c, locate, s, choice).Success? && r < c.numRanks
    ensures ReturnsStep(c, Cycles(choice), s, Cycle(c, locate, s, choice).value, r)
  {
    CycleIsSafe(c, locate, s, choice);
    RankTicks(c, s.ranks[r]);
    TickedRanks(c, s.ranks, s.controller.ledger, 0);
    hide WriteBusTick, WriteAnnounced, AfterIssueTable, TickTable, Tick, UpdateState, ModeAfter, Accepts, Safe,
         Overwrites;
    var t := AfterRanks(c, s);
    assert t.ranks[r] == Tick(c, s.ranks[r]);
    var before := BeforePop(c, t.controller, t.ranks, s.clock, choice.pimMode).value;
    assert before.0.command.None? && before.1[r] == if Reaches(s, r)
        then Receive(c, t.ranks[r], s.controller.command.value, s.clock, choice.pimMode) else t.ranks[r] by {
      CommandArrives(c, s, choice.pimMode);
    }
  }

  lemma CommandArrives(c: Config, s: SystemState, pimMode: DramMode)
    requires c.Valid() && Safe(c, s) && SystemShape(c, s)
    ensures var t := AfterRanks(c, s); var r := BeforePop(c, t.controller, t.ranks, s.clock, pimMode);
            r.Success? ==>
              && r.value.0.command.None?
              && forall k | 0 <= k < c.numRanks ::
                   r.value.1[k] == if Reaches(s, k)
                                   then Receive(c, t.ranks[k], s.controller.command.value, s.clock, pimMode)
                                   else t.ranks[k]
  {
    hide WriteBusTick, TickTable, Receive, Tick, Accepts;
  }

  lemma StepOfReturns(c: Config, locate: nat -> Location, states: seq<SystemState>, events: seq<Event>, i: nat, r: nat)
    requires Inputs(c, locate) && IsRun(c, locate, states, events) && i < |events| && r < c.numRanks
    ensures ReturnsStep(c, events[i], states[i], states[i + 1], r)
  {
    RunIsSafe(c, locate, states, events);
    hide ReturnsStep, Allowed, Fittingly, Safe;
    SafeShape(c, states[i]);
    assert IsStep(c, locate, states[i], events[i], states[i + 1]);
    match events[i] {
      case Cycles(choice) => CycleOfReturns(c, locate, states[i], choice, r);
      case _ => NoReturns(c, events[i], states[i], states[i + 1], r);
    }
  }

  lemma NoReturns(c: Config, e: Event, s: SystemState, s': SystemState, r: nat)
    requires !e.Cycles? && r < |s.ranks| && s'.ranks == s.ranks && s'.clock == s.clock
    requires s'.controller.command == s.controller.command
    ensures ReturnsStep(c, e, s, s', r)
  {
  }

  lemma ReturnsInLine(c: Config, e: Event, s: SystemState, s': SystemState, r: nat)
    requires c.Valid() && ReturnsStep(c, e, s, s', r) && InLine(Returns(s.ranks[r]), c.rl)
    ensures InLine(Returns(s'.ranks[r]), c.rl)
    ensures e.Cycles? ==>
              && (forall d, left :: Due(c, Returns(s.ranks[r]), d, left) && left > 1 ==>
                    Due(c, Returns(s'.ranks[r]), d, left - 1))
              && (Reaches(s, r) && s.controller.command.value.busPacketType == READ ==>
                    Due(c, Returns(s'.ranks[r]), s.controller.command.value.(busPacketType := DATA), c.rl + c.bl / 2))
  {
    if e.Cycles? {
      var w, w' := Returns(s.ranks[r]), Returns(s'.ranks[r]);
      var ticked := WriteBusTick(c, w).value;
      LineMoves(c, w, c.rl);
      forall d, left | Due(c, w, d, left) && left > 1
        ensures Due(c, ticked, d, left - 1)
      {
        BurstMoves(c, w, c.rl, d, left);
      }
      hide Due, WriteBusTick, InLine, Returns;
      if Reaches(s, r) && s.controller.command.value.busPacketType == READ {
        Joins(c, ticked, w', c.rl, s.controller.command.value.(busPacketType := DATA));
      } else {
        Longer(ticked, c.rl);
      }
    }
  }

  lemma {:induction false} ReturnsAlwaysInLine(c: Config, locate: nat -> Location, states: seq<SystemState>,
                                               events: seq<Event>, n: nat, r: nat)
    requires Inputs(c, locate) && IsRun(c, locate, states, events) && n <= |events| && r < c.numRanks
    ensures n < |states| && r < |states[n].ranks| && InLine(Returns(states[n].ranks[r]), c.rl)
  {
    assert |states| == |events| + 1 && states[0] == InitialSystem(c);
    hide IsRun, ReturnsStep, Due;
    if n > 0 {
      ReturnsAlwaysInLine(c, locate, states, events, n - 1, r);
      StepOfReturns(c, locate, states, events, n - 1, r);
      SameRanks(c, events[n - 1], states[n - 1], states[n], r);
      ReturnsInLine(c, events[n - 1], states[n - 1], states[n], r);
    }
  }

  lemma SameRanks(c: Config, e: Event, s: SystemState, s': SystemState, r: nat)
    requires ReturnsStep(c, e, s, s', r)
    ensures r < |s.ranks| == |s'.ranks|
    ensures if e.Cycles? then s'.clock == s.clock + 1 && s'.controller.command == e.choice.popped
            else s'.clock == s.clock && s'.controller.command == s.controller.command && s'.ranks == s.ranks
  {
  }

  /** Where a READ is on its way: on the command bus, or its burst in line or on the bus of its rank. */
  ghost predicate OnItsWay(c: Config, s: SystemState, p: BusPacket, t: int) {
    && p.rank < |s.ranks|
    && if s.clock == t + 1 then s.controller.command == Some(p)
       else Due(c, Returns(s.ranks[p.rank]), p.(busPacketType := DATA), t + 2 + c.rl + c.bl / 2 - s.clock)
  }

  lemma StaysOnItsWay(c: Config, e: Event, s: SystemState, s': SystemState, p: BusPacket, t: int)
    requires c.Valid() && ReturnsStep(c, e, s, s', p.rank) && InLine(Returns(s.ranks[p.rank]), c.rl)
    requires p.busPacketType == READ && OnItsWay(c, s, p, t)
    requires t + 1 <= s.clock && s'.clock <= t + 1 + c.rl + c.bl / 2
    ensures OnItsWay(c, s', p, t)
  {
    ReturnsInLine(c, e, s, s', p.rank);
    SameRanks(c, e, s, s', p.rank);
    hide Due, InLine, Returns, ReturnsStep;
  }

  lemma {:induction false} ReadIsOnItsWay(c: Config, locate: nat -> Location, states: seq<SystemState>,
                                          events: seq<Event>, i: nat, n: nat, p: BusPacket)
    requires Inputs(c, locate) && IsRun(c, locate, states, events) && i < n <= |events| < |states|
    requires Sends(events[i], p) && p.busPacketType == READ && p.rank < c.numRanks
    requires states[n].clock <= states[i].clock + 1 + c.rl + c.bl / 2
    ensures states[i].clock + 1 <= states[n].clock && OnItsWay(c, states[n], p, states[i].clock)
    decreases n
  {
    hide IsRun, ReturnsStep, InLine, OnItsWay, Returns;
    StepOfReturns(c, locate, states, events, n - 1, p.rank);
    SameRanks(c, events[n - 1], states[n - 1], states[n], p.rank);
    if i < n - 1 {
      ReadIsOnItsWay(c, locate, states, events, i, n - 1, p);
      ReturnsAlwaysInLine(c, locate, states, events, n - 1, p.rank);
      StaysOnItsWay(c, events[n - 1], states[n - 1], states[n], p, states[i].clock);
    } else {
      SetsOut(c, states[n], p, states[i].clock);
    }
  }

  lemma SetsOut(c: Config, s: SystemState, p: BusPacket, t: int)
    requires p.rank < |s.ranks| && s.clock == t + 1 && s.controller.command == Some(p)
    ensures OnItsWay(c, s, p, t)
  {
  }

  /**
   * The burst of a READ that is issued in cycle t reaches its rank in the next one, and is on the data bus of the
   * rank in the BL/2 cycles that follow t + 1 + RL; in the last of them the rank hands it to the controller.
   */
  lemma ReadLatency(c: Config, locate: nat -> Location, states: seq<SystemState>, events: seq<Event>, i: nat, n: nat,
                    p: BusPacket)
    requires Inputs(c, locate) && IsRun(c, locate, states, events) && i < n <= |events| < |states|
    requires Sends(events[i], p) && p.busPacketType == READ
    requires states[i].clock + 1 + c.rl < states[n].clock <= states[i].clock + 1 + c.rl + c.bl / 2
    ensures p.rank < |states[n].ranks|
    ensures var r := states[n].ranks[p.rank];
            && r.dataOut == Some(p.(busPacketType := DATA))
            && r.dataCyclesLeft == states[i].clock + 1 + c.rl + c.bl / 2 + 1 - states[n].clock
  {
    StepOfBank(c, locate, states, events, i, 0, 0);
    hide IsRun;
    ReadIsOnItsWay(c, locate, states, events, i, n, p);
  }
}
