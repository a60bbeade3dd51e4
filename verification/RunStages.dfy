/**
 * How to play a run: what a cycle makes of a state that some run has reached, given the outcome of `pop`.
 */
module RunStages {
  import opened Dram
  import opened CommandQueueModel
  import opened RankModel
  import opened MemoryControllerModel
  import opened MemorySystemModel
  import opened SystemSafety
  import opened Runs

  ghost predicate Reached(c: Config, locate: nat -> Location, s: SystemState)
    requires Inputs(c, locate)
  {
    exists states: seq<SystemState>, events: seq<Event> ::
      IsRun(c, locate, states, events) && states[|events|] == s
  }

  lemma ReachedStep(c: Config, locate: nat -> Location, s: SystemState, e: Event, s': SystemState)
    requires Inputs(c, locate) && Reached(c, locate, s) && IsStep(c, locate, s, e, s')
    ensures Reached(c, locate, s')
  {
    var states, events :| IsRun(c, locate, states, events) && states[|events|] == s;
    RunGoesOn(c, locate, states, events, e, s');
    assert (states + [s'])[|events + [e]|] == s';
  }

  lemma RunBegins(c: Config, locate: nat -> Location)
    requires Inputs(c, locate)
    ensures var s := InitialSystem(c);
            Reached(c, locate, s) && SystemShape(c, s) && Ordinary(s.controller, s.ranks)
  {
    var states, events: seq<Event> := [InitialSystem(c)], [];
    assert IsRun(c, locate, states, events) && states[|events|] == InitialSystem(c);
  }

  lemma ReachedIsSafe(c: Config, locate: nat -> Location, s: SystemState)
    requires Inputs(c, locate) && Reached(c, locate, s)
    ensures Safe(c, s) && SystemShape(c, s)
  {
    var states, events :| IsRun(c, locate, states, events) && states[|events|] == s;
    RunIsSafe(c, locate, states, events);
    SafeShape(c, s);
  }

  function AllSb(c: Config): (modes: seq<DramMode>)
    ensures |modes| == c.numRanks
  {
    seq(c.numRanks, _ => SB)
  }

  /** A popped command may come out of the queues as they are, in single-bank mode. */
  ghost predicate Pops(c: Config, s: SystemState, popped: Option<BusPacket>, queues: seq<seq<BusPacket>>)
    requires c.Valid() && SystemShape(c, s)
  {
    |queues| == c.numRanks
    && (popped.Some? ==>
          MayIssue(c, TickTable(s.controller.table), AllSb(c), s.clock, s.controller.queues, popped.value, queues))
  }

  lemma CycleAllowed(c: Config, s: SystemState, popped: Option<BusPacket>, queues: seq<seq<BusPacket>>)
    requires c.Valid() && SystemShape(c, s) && Pops(c, s, popped, queues)
    requires popped.Some? ==> Ordinary(s.controller, s.ranks)
    ensures Allowed(c, s, Choice(popped, queues, HAB))
  {
    var t := AfterRanks(c, s);
    var before := BeforePop(c, t.controller, t.ranks, s.clock, HAB);
    if before.Success? && popped.Some? {
      assert before.value.0.table == TickTable(s.controller.table) && before.value.0.queues == s.controller.queues;
      ModesStaySb(c, s, HAB);
    }
  }

  lemma ModesStaySb(c: Config, s: SystemState, pimMode: DramMode)
    requires c.Valid() && SystemShape(c, s) && Ordinary(s.controller, s.ranks)
    ensures var t := AfterRanks(c, s);
            var before := BeforePop(c, t.controller, t.ranks, s.clock, pimMode);
            before.Success? ==> Modes(before.value.1) == AllSb(c)
  {
    var t := AfterRanks(c, s);
    TickedRanks(c, s.ranks, s.controller.ledger, 0);
    assert Ordinary(t.controller, t.ranks);
    FirstHalfStaysOrdinary(c, t.controller, t.ranks, s.clock, pimMode);
    hide BeforePop, AfterRanks;
  }

  /** A cycle goes through as long as the write path does. */
  lemma CyclePlays(c: Config, locate: nat -> Location, s: SystemState, popped: Option<BusPacket>,
                   queues: seq<seq<BusPacket>>)
    returns (s': SystemState)
    requires Inputs(c, locate) && (forall a :: !IsReservedRow(locate(a).row))
    requires Reached(c, locate, s) && SystemShape(c, s) && Ordinary(s.controller, s.ranks)
    requires Pops(c, s, popped, queues) && (popped.None? ==> queues == s.controller.queues)
    requires WriteBusTick(c, s.controller.writes).Success?
    ensures Reached(c, locate, s') && SystemShape(c, s') && Ordinary(s'.controller, s'.ranks)
    ensures s'.clock == s.clock + 1 && IsStep(c, locate, s, Cycles(Choice(popped, queues, HAB)), s')
    ensures var m := TickTable(s.controller.table); var w := WriteBusTick(c, s.controller.writes).value;
            if popped.None? then s'.controller.table == m && s'.controller.writes == w
            else
              && s'.controller.table == AfterIssueTable(c, popped.value, s.clock, m)
              && s'.controller.writes == WriteAnnounced(c, w, popped.value)
    ensures (s'.controller.ledger.queued, s'.controller.queues)
            == AfterScheduling(c, locate, s.controller.ledger.queued, queues)
  {
    var choice := Choice(popped, queues, HAB);
    hide Safe, Ordinary, Allowed, MayIssue, Scheduled, AfterScheduling, Cycle, Fittingly, IsRun, Reached, Shaped;
    ReachedIsSafe(c, locate, s);
    CycleAllowed(c, s, popped, queues);
    CycleGoesThrough(c, locate, s, choice);
    s' := Cycle(c, locate, s, choice).value;
    OrdinaryFits(c, s, choice);
    assert IsStep(c, locate, s, Cycles(choice), s');
    ReachedStep(c, locate, s, Cycles(choice), s');
    ReachedIsSafe(c, locate, s');
    CycleStaysOrdinary(c, locate, s, choice);
  }

  lemma FirstHalfGoes(c: Config, s: SystemState, pimMode: DramMode)
    requires c.Valid() && Safe(c, s) && SystemShape(c, s)
    ensures var t := AfterRanks(c, s);
            var r := BeforePop(c, t.controller, t.ranks, s.clock, pimMode);
            match WriteBusTick(c, s.controller.writes)
            case Failure(e) => r == Failure(e)
            case Success(w) =>
              && r.Success? && r.value.0.command.None?
              && r.value.0.table == TickTable(s.controller.table) && r.value.0.writes == w
              && r.value.0.queues == s.controller.queues && r.value.0.ledger.queued == s.controller.ledger.queued
  {
    var t := AfterRanks(c, s);
    QueuedKept(c, s.ranks, s.controller.ledger, 0);
    RanksKeepSync(c, s, pimMode);
    TickKeepsSync(c, t.controller, t.ranks, s.clock);
    var ticked := t.controller.(table := TickTable(s.controller.table));
    DeliveryIsLegal(c, ticked, t.ranks, s.clock, pimMode);
    hide InSync, Safe, TickTable, Accepts, Receive;
    var arrived := CommandDelivered(c, ticked, t.ranks, s.clock, pimMode).value.0;
    assert arrived.table == ticked.table && arrived.writes == s.controller.writes;
    assert arrived.queues == s.controller.queues && arrived.ledger == t.controller.ledger;
  }

  lemma SecondHalfGoes(c: Config, locate: nat -> Location, s: ControllerState, clock: int, choice: Choice)
    requires Inputs(c, locate) && |s.queues| == |choice.queues| == c.numRanks
    requires choice.popped.None? ==> choice.queues == s.queues
    ensures var r := AfterPop(c, locate, s, clock, choice);
            && (r.Failure? ==> r.error != DataBusCollision)
            && (r.Success? ==>
                  && (if choice.popped.None? then r.value.table == s.table && r.value.writes == s.writes
                      else
                        && r.value.table == AfterIssueTable(c, choice.popped.value, clock, s.table)
                        && r.value.writes == WriteAnnounced(c, s.writes, choice.popped.value))
                  && (r.value.ledger.queued, r.value.queues)
                     == AfterScheduling(c, locate, s.ledger.queued, choice.queues))
  {
    hide AfterIssueTable, WriteAnnounced;
  }

  lemma CycleGoesThrough(c: Config, locate: nat -> Location, s: SystemState, choice: Choice)
    requires Inputs(c, locate) && Safe(c, s) && SystemShape(c, s) && Allowed(c, s, choice)
    requires WriteBusTick(c, s.controller.writes).Success?
    requires choice.popped.None? ==> choice.queues == s.controller.queues
    ensures var r := Cycle(c, locate, s, choice);
            && r.Success? && r.value.clock == s.clock + 1
            && var m := TickTable(s.controller.table); var w := WriteBusTick(c, s.controller.writes).value;
            && (if choice.popped.None? then r.value.controller.table == m && r.value.controller.writes == w
                else
                  && r.value.controller.table == AfterIssueTable(c, choice.popped.value, s.clock, m)
                  && r.value.controller.writes == WriteAnnounced(c, w, choice.popped.value))
            && (r.value.controller.ledger.queued, r.value.controller.queues)
               == AfterScheduling(c, locate, s.controller.ledger.queued, choice.queues)
  {
    CycleIsSafe(c, locate, s, choice);
    FirstHalfGoes(c, s, choice.pimMode);
    var t := AfterRanks(c, s);
    var before := BeforePop(c, t.controller, t.ranks, s.clock, choice.pimMode).value.0;
    hide Safe, BeforePop, AfterPop, AfterScheduling, AfterIssueTable, WriteAnnounced, WriteBusTick, TickTable;
    SecondHalfGoes(c, locate, before, s.clock, choice);
  }

  // ---------- the write path while nothing is written ----------

  const EMPTY_BUS := WriteBus([], [], None, 0)

  lemma EmptyTicks(c: Config)
    ensures WriteBusTick(c, EMPTY_BUS) == Success(EMPTY_BUS)
  {
    assert Decremented([]) == [];
  }
}
