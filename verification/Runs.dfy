/** Whole runs of the memory system: the three invariants together, and what follows. */
module Runs {
  import opened Dram
  import opened CommandQueueModel
  import opened RankModel
  import opened MemoryControllerModel
  import opened MemorySystemModel
  import opened TimingSafety
  import opened ModeSwitch
  import opened SystemSafety
  import opened BusSafety
  import opened Conservation

  // ---------- the data buses of the system ----------

  /** A read for rank `i` is on the command bus. */
  predicate ReadAhead(s: ControllerState, i: nat) {
    s.command.Some? && s.command.value.rank == i && s.command.value.busPacketType == READ
  }

  predicate ReadBusesClear(c: Config, s: ControllerState, ranks: seq<RankState>, now: int, arrival: int) {
    && |s.table| == |ranks| == c.numRanks
    && (forall i | 0 <= i < c.numRanks :: ReadsApart(c, s.table[i], ranks[i], ReadAhead(s, i), now, arrival))
  }

  /** The write bus is shared by all ranks. */
  predicate WriteBusClear(c: Config, s: ControllerState, now: int, next: int) {
    c.SharedBusFits() ==> WritesApart(c, s.table, s.writes, now, next)
  }

  predicate BusesClear(c: Config, s: SystemState) {
    && ReadBusesClear(c, s.controller, s.ranks, s.clock - 1, s.clock)
    && WriteBusClear(c, s.controller, s.clock - 1, s.clock)
  }

  lemma RanksKeepBuses(c: Config, s: SystemState)
    requires c.Valid() && ReadBusesClear(c, s.controller, s.ranks, s.clock - 1, s.clock)
    ensures forall i | 0 <= i < |s.ranks| :: !Overwrites(s.ranks[i])
    ensures var t := AfterRanks(c, s);
            ReadBusesClear(c, t.controller, t.ranks, s.clock, s.clock)
  {
    var t := AfterRanks(c, s);
    TickedRanks(c, s.ranks, s.controller.ledger, 0);
    forall i | 0 <= i < c.numRanks
      ensures !Overwrites(s.ranks[i])
      ensures ReadsApart(c, t.controller.table[i], t.ranks[i], ReadAhead(t.controller, i), s.clock, s.clock)
    {
      ReadCycle(c, s.controller.table[i], s.ranks[i], ReadAhead(s.controller, i), s.clock - 1);
    }
  }

  lemma TickKeepsReadsApart(c: Config, row: seq<BankState>, r: RankState, ahead: bool, now: int, arrival: int)
    requires ReadsApart(c, row, r, ahead, now, arrival)
    ensures ReadsApart(c, TickRow(row), r, ahead, now, arrival)
  {
  }

  lemma FirstHalfKeepsReadBuses(c: Config, s: ControllerState, ranks: seq<RankState>, clock: int, pimMode: DramMode)
    requires c.Valid() && Shaped(c, s, ranks) && (s.command.Some? ==> s.commandCyclesLeft == 1)
    requires ReadBusesClear(c, s, ranks, clock, clock)
    ensures var r := BeforePop(c, s, ranks, clock, pimMode);
            r.Success? ==> ReadBusesClear(c, r.value.0, r.value.1, clock, clock)
  {
    var r := BeforePop(c, s, ranks, clock, pimMode);
    if r.Success? {
      forall i | 0 <= i < c.numRanks
        ensures ReadsApart(c, r.value.0.table[i], r.value.1[i], ReadAhead(r.value.0, i), clock, clock)
      {
        var row := TickRow(s.table[i]);
        TickKeepsReadsApart(c, s.table[i], ranks[i], ReadAhead(s, i), clock, clock);
        if s.command.Some? && s.command.value.rank == i {
          ArrivalKeepsReadsApart(c, row, ranks[i], s.command.value, clock, pimMode);
        }
      }
    }
  }

  lemma FirstHalfKeepsWriteBus(c: Config, s: ControllerState, ranks: seq<RankState>, clock: int, pimMode: DramMode)
    requires c.Valid() && Shaped(c, s, ranks) && WriteBusClear(c, s, clock - 1, clock)
    ensures var r := BeforePop(c, s, ranks, clock, pimMode);
            && (r.Failure? && r.error == DataBusCollision ==> !c.SharedBusFits())
            && (r.Success? ==> WriteBusClear(c, r.value.0, clock, clock))
  {
    var arrived := CommandDelivered(c, s.(table := TickTable(s.table)), ranks, clock, pimMode);
    if c.SharedBusFits() && arrived.Success? {
      var s1 := arrived.value.0;
      assert s1.writes == s.writes && s1.table == TickTable(s.table);
      TickKeepsWritesApart(c, s.table, s.writes, clock - 1, clock);
      WriteCycle(c, s1.table, s1.writes, clock - 1);
    }
  }

  lemma TickKeepsWritesApart(c: Config, table: seq<seq<BankState>>, w: WriteBus, now: int, next: int)
    requires WritesApart(c, table, w, now, next)
    ensures WritesApart(c, TickTable(table), w, now, next)
  {
    var after := TickTable(table);
    forall i, b | 0 <= i < |after| && 0 <= b < |after[i]| && MindsTheBus(c, after[i][b])
      ensures after[i][b].nextWrite == table[i][b].nextWrite && MindsTheBus(c, table[i][b])
    {
      assert after[i][b] == TickBank(table[i][b]);
    }
  }

  lemma IssueKeepsBuses(c: Config, s: ControllerState, ranks: seq<RankState>, clock: int, choice: Choice)
    requires c.Valid() && Shaped(c, s, ranks) && s.command.None?
    requires ReadBusesClear(c, s, ranks, clock, clock) && WriteBusClear(c, s, clock, clock)
    requires Admissible(c, s, Modes(ranks), clock, choice)
    ensures var s' := PopIssued(c, s, clock, choice).value;
            ReadBusesClear(c, s', ranks, clock, clock + 1) && WriteBusClear(c, s', clock, clock + 1)
  {
    if choice.popped.Some? {
      var p := choice.popped.value;
      var s' := PopIssued(c, s, clock, choice).value;
      forall i | 0 <= i < c.numRanks
        ensures ReadsApart(c, s'.table[i], ranks[i], ReadAhead(s', i), clock, clock + 1)
      {
        IssueKeepsReadsApart(c, s.table[i], ranks[i], p, clock, ranks[i].mode, i);
      }
      if c.SharedBusFits() {
        IssueKeepsWritesApart(c, s.table, s.writes, p, clock, ranks[p.rank].mode);
      }
    } else if c.SharedBusFits() {
      IdleKeepsWritesApart(c, s.table, s.writes, clock);
    }
  }

  lemma ControllerKeepsBuses(c: Config, locate: nat -> Location, s: ControllerState, ranks: seq<RankState>,
                             clock: int, choice: Choice)
    requires c.Valid() && (forall a :: locate(a).rank < c.numRanks)
    requires Shaped(c, s, ranks) && PopsWell(c, s, ranks, clock, choice)
    requires s.command.Some? ==> s.commandCyclesLeft == 1
    requires ReadBusesClear(c, s, ranks, clock, clock) && WriteBusClear(c, s, clock - 1, clock)
    ensures var r := ControllerCycle(c, locate, s, ranks, clock, choice);
            && (r.Failure? && r.error == DataBusCollision ==> !c.SharedBusFits())
            && (r.Success? ==>
                  && ReadBusesClear(c, r.value.0, r.value.1, clock, clock + 1)
                  && WriteBusClear(c, r.value.0, clock, clock + 1))
  {
    hide ReadBusesClear, WriteBusClear;
    FirstHalfKeepsReadBuses(c, s, ranks, clock, choice.pimMode);
    FirstHalfKeepsWriteBus(c, s, ranks, clock, choice.pimMode);
    var before := BeforePop(c, s, ranks, clock, choice.pimMode);
    if before.Success? {
      IssueKeepsBuses(c, before.value.0, before.value.1, clock, choice);
      var r := ControllerCycle(c, locate, s, ranks, clock, choice);
      if r.Success? {
        SameBuses(c, PopIssued(c, before.value.0, clock, choice).value, r.value.0, before.value.1, clock);
      }
    }
  }

  /** Queues and bookkeeping play no part on the buses. */
  lemma SameBuses(c: Config, s: ControllerState, s': ControllerState, ranks: seq<RankState>, clock: int)
    requires s' == s.(queues := s'.queues, ledger := s'.ledger)
    requires ReadBusesClear(c, s, ranks, clock, clock + 1) && WriteBusClear(c, s, clock, clock + 1)
    ensures ReadBusesClear(c, s', ranks, clock, clock + 1) && WriteBusClear(c, s', clock, clock + 1)
  {
  }

  // ---------- banks that close their rows ----------

  /** Every bank that is closing its row will be idle before it may be activated again. */
  predicate Settled(c: Config, s: ControllerState, clock: int) {
    |s.table| == c.numRanks && forall i | 0 <= i < c.numRanks :: RowSettling(s.table[i], clock)
  }

  lemma SettlingTicks(m: seq<BankState>, t: int)
    requires RowSettling(m, t)
    ensures RowSettling(TickRow(m), t + 1)
  {
  }

  lemma SettlingIssued(c: Config, p: BusPacket, clock: int, i: nat, m: seq<BankState>, mode: DramMode)
    requires c.Valid() && RowSettling(m, clock)
    requires i == p.rank ==> p.bank < |m| && Ready(mode, m[p.bank], p, clock)
    ensures RowSettling(AfterIssueRow(c, p, clock, i, m), clock)
  {
  }

  lemma CycleSettles(c: Config, locate: nat -> Location, s: SystemState, choice: Choice)
    requires c.Valid() && (forall a :: locate(a).rank < c.numRanks) && SystemShape(c, s) && Allowed(c, s, choice)
    requires Settled(c, s.controller, s.clock - 1)
    ensures var r := Cycle(c, locate, s, choice); r.Success? ==> Settled(c, r.value.controller, s.clock)
  {
    hide RowSettling;
    var r := Cycle(c, locate, s, choice);
    if r.Success? {
      forall i | 0 <= i < c.numRanks
        ensures RowSettling(r.value.controller.table[i], s.clock)
      {
        var m := TickRow(s.controller.table[i]);
        SettlingTicks(s.controller.table[i], s.clock - 1);
        if choice.popped.Some? {
          var p := choice.popped.value;
          var t := AfterRanks(c, s);
          var before := BeforePop(c, t.controller, t.ranks, s.clock, choice.pimMode).value;
          assert before.0.table == TickTable(s.controller.table) && before.0.table[i] == m;
          assert MayIssue(c, before.0.table, Modes(before.1), s.clock, before.0.queues, p, choice.queues);
          SettlingIssued(c, p, s.clock, i, m, Modes(before.1)[p.rank]);
        }
      }
    }
  }

  // ---------- all invariants ----------

  ghost predicate Safe(c: Config, s: SystemState)
    requires c.Valid()
  {
    && InSync(c, s.controller, s.ranks, s.clock)
    && BusesClear(c, s)
    && Balanced(s.controller, s.ranks)
    && Settled(c, s.controller, s.clock - 1)
  }

  /** The switches between single-bank and all-bank mode in this cycle fit. */
  predicate Fittingly(c: Config, s: SystemState, choice: Choice)
    requires c.Valid() && Shaped(c, s.controller, s.ranks)
  {
    SwitchesFit(c, s.controller, s.ranks, s.clock, choice.pimMode)
  }

  lemma SafeShape(c: Config, s: SystemState)
    requires c.Valid() && Safe(c, s)
    ensures SystemShape(c, s)
  {
    ShapeFromSync(c, s);
  }

  /** One cycle from a safe state. No command is illegal, no read is returned without its
      transaction, no read burst is overwritten; write bursts can only clash where the delays do not
      fit the shared bus; and the next state is safe if the switch of a mode, if any, fits. */
  lemma CycleIsSafe(c: Config, locate: nat -> Location, s: SystemState, choice: Choice)
    requires Inputs(c, locate) && Safe(c, s) && SystemShape(c, s)
    requires Allowed(c, s, choice)
    ensures forall i | 0 <= i < |s.ranks| :: !Overwrites(s.ranks[i])
    ensures var r := Cycle(c, locate, s, choice);
            && (r.Failure? ==> r.error == DataBusCollision && !c.SharedBusFits())
            && (r.Success? && Fittingly(c, s, choice) ==> Safe(c, r.value))
  {
    CycleKeepsSync(c, locate, s, choice);
    RanksKeepBuses(c, s);
    RanksKeepBalance(c, s);
    var t := AfterRanks(c, s);
    ControllerKeepsBuses(c, locate, t.controller, t.ranks, s.clock, choice);
    ControllerKeepsBalance(c, locate, t.controller, t.ranks, s.clock, choice);
    CycleSettles(c, locate, s, choice);
  }

  function WithTransaction(s: SystemState, t: Transaction): SystemState {
    s.(controller := s.controller.(ledger := Added(s.controller.ledger, t)))
  }

  lemma ArrivalIsSafe(c: Config, s: SystemState, t: Transaction)
    requires c.Valid() && Safe(c, s) && t.transactionType != RETURN_DATA
    ensures Safe(c, WithTransaction(s, t))
  {
    var s' := WithTransaction(s, t);
    SyncSeesOnly(c, s.controller, s.ranks, s'.controller, s.ranks, s.clock);
    forall a: nat
      ensures BalancedAt(s'.controller, s.ranks, a)
    {
      assert BalancedAt(s.controller, s.ranks, a);
    }
  }

  function WithBarrier(s: SystemState): SystemState {
    s.(controller := s.controller.(ledger := Marked(s.controller.ledger)))
  }

  /** A late barrier keeps all invariants too. */
  lemma BarrierIsSafe(c: Config, s: SystemState)
    requires c.Valid() && Safe(c, s)
    ensures Safe(c, WithBarrier(s))
  {
    var s' := WithBarrier(s);
    SyncSeesOnly(c, s.controller, s.ranks, s'.controller, s.ranks, s.clock);
    forall a: nat
      ensures BalancedAt(s'.controller, s.ranks, a)
    {
      assert BalancedAt(s.controller, s.ranks, a);
    }
  }

  lemma InitiallySafe(c: Config)
    requires c.Valid()
    ensures Safe(c, InitialSystem(c))
  {
    InitiallyInSync(c);
    InitiallyBalanced(c);
  }

  // ---------- runs ----------

  datatype Event = Arrives(t: Transaction) | Marks | Cycles(choice: Choice)

  predicate IsStep(c: Config, locate: nat -> Location, s: SystemState, e: Event, s': SystemState)
    requires c.Valid() && (forall a :: locate(a).rank < c.numRanks)
  {
    match e
    case Arrives(t) => t.transactionType != RETURN_DATA && s' == WithTransaction(s, t)
    case Marks => s' == WithBarrier(s)
    case Cycles(choice) =>
      && SystemShape(c, s) && Allowed(c, s, choice) && Fittingly(c, s, choice)
      && Cycle(c, locate, s, choice) == Success(s')
  }

  /** `states` is what the system goes through when it starts afresh and `events` happen to it:
      transactions arrive, barriers follow them and cycles pass, with any outcome of `pop` that the queue may
      produce. */
  predicate IsRun(c: Config, locate: nat -> Location, states: seq<SystemState>, events: seq<Event>)
    requires c.Valid() && (forall a :: locate(a).rank < c.numRanks)
  {
    && |states| == |events| + 1 && states[0] == InitialSystem(c)
    && (forall i | 0 <= i < |events| :: IsStep(c, locate, states[i], events[i], states[i + 1]))
  }

  lemma RunGoesOn(c: Config, locate: nat -> Location, states: seq<SystemState>, events: seq<Event>, e: Event,
                  s': SystemState)
    requires c.Valid() && (forall a :: locate(a).rank < c.numRanks) && IsRun(c, locate, states, events)
    requires IsStep(c, locate, states[|events|], e, s')
    ensures IsRun(c, locate, states + [s'], events + [e])
  {
    var states', events' := states + [s'], events + [e];
    forall i | 0 <= i < |events'|
      ensures IsStep(c, locate, states'[i], events'[i], states'[i + 1])
    {
      assert i < |events| ==> IsStep(c, locate, states[i], events[i], states[i + 1]);
    }
  }

  /** Every state of every run is safe. */
  lemma {:induction false} RunIsSafe(c: Config, locate: nat -> Location, states: seq<SystemState>, events: seq<Event>)
    requires Inputs(c, locate) && IsRun(c, locate, states, events)
    ensures forall i | 0 <= i < |states| :: Safe(c, states[i])
  {
    InitiallySafe(c);
    for i := 0 to |events|
      invariant forall k | 0 <= k <= i :: Safe(c, states[k])
    {
      assert IsStep(c, locate, states[i], events[i], states[i + 1]);
      match events[i] {
        case Arrives(t) => ArrivalIsSafe(c, states[i], t);
        case Marks => BarrierIsSafe(c, states[i]);
        case Cycles(choice) => CycleIsSafe(c, locate, states[i], choice);
      }
    }
  }

  /** No run reaches an exit of the simulator, except that write bursts of different ranks may clash
      where the delays do not fit the bus they share. */
  lemma RunNeverExits(c: Config, locate: nat -> Location, states: seq<SystemState>, events: seq<Event>,
                      choice: Choice)
    requires Inputs(c, locate) && IsRun(c, locate, states, events)
    requires var s := states[|events|]; SystemShape(c, s) && Allowed(c, s, choice)
    ensures var s := states[|events|];
            && (Cycle(c, locate, s, choice).Failure? ==>
                  Cycle(c, locate, s, choice).error == DataBusCollision && !c.SharedBusFits())
            && (forall i | 0 <= i < |s.ranks| :: !Overwrites(s.ranks[i]))
  {
    RunIsSafe(c, locate, states, events);
    CycleIsSafe(c, locate, states[|events|], choice);
  }

  /** In single-bank mode, no SBMR row counts as closed. */
  predicate RegistersFollow(r: RankState) {
    r.mode == SB ==> !r.flags.sbmr1 && !r.flags.sbmr2
  }

  predicate AllRegistersFollow(ranks: seq<RankState>) {
    forall i | 0 <= i < |ranks| :: RegistersFollow(ranks[i])
  }

  lemma ReceiveKeepsRegisters(c: Config, r: RankState, p: BusPacket, clock: int, pimMode: DramMode)
    requires c.Valid() && RegistersFollow(r) && pimMode != SB
    ensures RegistersFollow(Receive(c, r, p, clock, pimMode))
  {
  }

  lemma CycleKeepsRegisters(c: Config, locate: nat -> Location, s: SystemState, choice: Choice)
    requires Inputs(c, locate) && SystemShape(c, s) && Allowed(c, s, choice) && AllRegistersFollow(s.ranks)
    ensures var r := Cycle(c, locate, s, choice); r.Success? ==> AllRegistersFollow(r.value.ranks)
  {
    var t := AfterRanks(c, s);
    TickedRanks(c, s.ranks, s.controller.ledger, 0);
    assert AllRegistersFollow(t.ranks);
    var ticked := t.controller.(table := TickTable(t.controller.table));
    hide Receive, Tick, RegistersFollow, TickTable, PopsWell, AfterPop, WriteBusTick, WriteCompleted;
    var arrived := CommandDelivered(c, ticked, t.ranks, s.clock, choice.pimMode);
    if arrived.Success? {
      if ticked.command.Some? {
        var p := ticked.command.value;
        ReceiveKeepsRegisters(c, t.ranks[p.rank], p, s.clock, choice.pimMode);
      }
      assert AllRegistersFollow(arrived.value.1);
    }
  }

  lemma {:induction false} RunKeepsRegisters(c: Config, locate: nat -> Location, states: seq<SystemState>,
                                             events: seq<Event>, n: nat)
    requires Inputs(c, locate) && IsRun(c, locate, states, events) && n < |states|
    ensures AllRegistersFollow(states[n].ranks)
  {
    hide Cycle, Allowed, Fittingly, RegistersFollow;
    if n == 0 {
      InitialRegisters(c);
    } else {
      RunKeepsRegisters(c, locate, states, events, n - 1);
      assert IsStep(c, locate, states[n - 1], events[n - 1], states[n - 1 + 1]);
      if events[n - 1].Cycles? {
        CycleKeepsRegisters(c, locate, states[n - 1], events[n - 1].choice);
      }
    }
  }

  lemma InitialRegisters(c: Config)
    ensures AllRegistersFollow(InitialSystem(c).ranks)
  {
  }

  /** What the controller and the rank of the command on the bus know when it has arrived. */
  function SidesOnArrival(c: Config, s: SystemState, p: BusPacket, pimMode: DramMode): Sides
    requires c.Valid() && Shaped(c, s.controller, s.ranks) && p.rank < c.numRanks
  {
    var r := Receive(c, s.ranks[p.rank], p, s.clock, pimMode);
    Sides(TickRow(s.controller.table[p.rank]), r.banks, r.mode, r.flags, s.clock)
  }

  /** In every state of every run that stays in step, a switch that is about to happen is decided: the rank
      accepts everything that may be popped until the next switch if and only if this one fits. */
  lemma SwitchIsDecided(c: Config, locate: nat -> Location, states: seq<SystemState>, events: seq<Event>,
                        n: nat, pimMode: DramMode)
    requires Inputs(c, locate) && IsRun(c, locate, states, events) && n < |states|
    requires states[n].controller.command.Some? && SystemShape(c, states[n]) && pimMode != SB
    requires var s := states[n]; var p := s.controller.command.value;
             var sides := SidesOnArrival(c, s, p, pimMode);
             (sides.mode == SB) != (s.ranks[p.rank].mode == SB) && ModeFits(c, sides.mode)
    ensures var s := states[n]; var sides := SidesOnArrival(c, s, s.controller.command.value, pimMode);
            && Shape(c, sides)
            && (Survives(c, sides) <==> SwitchesFit(c, s.controller, s.ranks, s.clock, pimMode))
  {
    RunIsSafe(c, locate, states, events);
    RunKeepsRegisters(c, locate, states, events, n);
    var s := states[n];
    var p := s.controller.command.value;
    var r := s.ranks[p.rank];
    var sides := SidesOnArrival(c, s, p, pimMode);
    assert RankInSync(c, s.controller, r, s.clock, p.rank) && RegistersFollow(r);
    SettlingTicks(s.controller.table[p.rank], s.clock - 1);
    TimeKeepsTracking(c, r.mode, s.controller.table[p.rank], sides.r, s.clock, s.clock);
    TickKeepsFit(c, s.controller, s.ranks, s.clock, pimMode);
    SwitchSurvivesExactly(c, r.mode, sides);
  }

  /** In all-bank mode, the banks of one parity move in lockstep, in every state of every run. */
  lemma RanksMoveInLockstep(c: Config, locate: nat -> Location, states: seq<SystemState>, events: seq<Event>,
                            n: nat, i: nat, b: nat, b': nat)
    requires Inputs(c, locate) && IsRun(c, locate, states, events) && n < |states|
    requires i < |states[n].ranks| && states[n].ranks[i].mode != SB
    requires b < c.numBanks && b' < c.numBanks && b % 2 == b' % 2
    ensures var banks := BanksOnArrival(c, states[n], i);
            && |banks| == c.numBanks
            && banks[b].currentBankState == banks[b'].currentBankState
            && (banks[b].currentBankState == RowActive ==> banks[b].openRowAddress == banks[b'].openRowAddress)
  {
    RunIsSafe(c, locate, states, events);
    assert RankInSync(c, states[n].controller, states[n].ranks[i], states[n].clock, i);
    var banks := BanksOnArrival(c, states[n], i);
    assert Tracks(c, states[n].ranks[i].mode, states[n].controller.table[i], banks, states[n].clock);
    assert BankTracks(c, states[n].controller.table[i][b % 2], banks[b], states[n].clock);
    assert BankTracks(c, states[n].controller.table[i][b % 2], banks[b'], states[n].clock);
  }

  /** The banks of rank `i` once the command on the command bus, if it is for them, has arrived. */
  function BanksOnArrival(c: Config, s: SystemState, i: nat): seq<BankState>
    requires c.Valid() && i < |s.ranks|
  {
    var r := s.ranks[i];
    if s.controller.command.Some? && s.controller.command.value.rank == i then
      UpdateState(c, r.mode, r.banks, s.controller.command.value, s.clock)
    else r.banks
  }

  // ---------- single-bank mode, with any rows ----------

  /** Like a step of a run, with nothing said about mode switches. */
  predicate IsAnyStep(c: Config, locate: nat -> Location, s: SystemState, e: Event, s': SystemState)
    requires c.Valid() && (forall a :: locate(a).rank < c.numRanks)
  {
    match e
    case Arrives(t) => t.transactionType != RETURN_DATA && s' == WithTransaction(s, t)
    case Marks => s' == WithBarrier(s)
    case Cycles(choice) =>
      SystemShape(c, s) && Allowed(c, s, choice) && Cycle(c, locate, s, choice) == Success(s')
  }

  predicate InSingleBankMode(s: SystemState) {
    forall i | 0 <= i < |s.ranks| :: s.ranks[i].mode == SB
  }

  /** A cycle that leaves all ranks in single-bank mode has delivered no switch. */
  lemma StayingFits(c: Config, locate: nat -> Location, s: SystemState, choice: Choice)
    requires Inputs(c, locate) && Safe(c, s) && SystemShape(c, s) && Allowed(c, s, choice)
    requires Cycle(c, locate, s, choice).Success?
    requires InSingleBankMode(s) && InSingleBankMode(Cycle(c, locate, s, choice).value)
    ensures Fittingly(c, s, choice)
  {
    var t := AfterRanks(c, s);
    TickedRanks(c, s.ranks, s.controller.ledger, 0);
    var before := BeforePop(c, t.controller, t.ranks, s.clock, choice.pimMode);
    assert Cycle(c, locate, s, choice).value.ranks == before.value.1;
    if s.controller.command.Some? {
      var p := s.controller.command.value;
      assert before.value.1[p.rank].mode == ModeAfter(c, SB, s.ranks[p.rank].flags, p, choice.pimMode).0;
    }
  }

  /** A system whose ranks stay in single-bank mode, with any mix of banks, ranks and rows,
      reserved rows included, is safe in every state, and its next cycle does not exit. */
  lemma {:induction false} SingleBankRunIsSafe(c: Config, locate: nat -> Location, states: seq<SystemState>,
                                               events: seq<Event>, choice: Choice)
    requires Inputs(c, locate) && |states| == |events| + 1 && states[0] == InitialSystem(c)
    requires forall i | 0 <= i < |events| :: IsAnyStep(c, locate, states[i], events[i], states[i + 1])
    requires forall i | 0 <= i < |states| :: InSingleBankMode(states[i])
    requires SystemShape(c, states[|events|]) && Allowed(c, states[|events|], choice)
    ensures forall i | 0 <= i < |states| :: Safe(c, states[i])
    ensures var r := Cycle(c, locate, states[|events|], choice);
            r.Failure? ==> r.error == DataBusCollision && !c.SharedBusFits()
  {
    InitiallySafe(c);
    for i := 0 to |events|
      invariant forall k | 0 <= k <= i :: Safe(c, states[k])
    {
      assert IsAnyStep(c, locate, states[i], events[i], states[i + 1]);
      match events[i] {
        case Arrives(t) => ArrivalIsSafe(c, states[i], t);
        case Marks => BarrierIsSafe(c, states[i]);
        case Cycles(picked) =>
          StayingFits(c, locate, states[i], picked);
          CycleIsSafe(c, locate, states[i], picked);
      }
    }
    CycleIsSafe(c, locate, states[|events|], choice);
  }

  // ---------- traffic without reserved rows ----------

  predicate OrdinaryQueue(q: seq<BusPacket>) {
    forall i | 0 <= i < |q| :: !IsReservedRow(q[i].row)
  }

  /** All ranks are in single-bank mode and no reserved row is in sight. */
  predicate Ordinary(s: ControllerState, ranks: seq<RankState>) {
    && (forall r | 0 <= r < |s.queues| :: OrdinaryQueue(s.queues[r]))
    && (s.command.Some? ==> !IsReservedRow(s.command.value.row))
    && (forall r, b | 0 <= r < |s.table| && 0 <= b < |s.table[r]| :: !IsReservedRow(s.table[r][b].openRowAddress))
    && (forall r | 0 <= r < |ranks| :: ranks[r].mode == SB)
  }

  /** Such a system never leaves single-bank mode. */
  lemma OrdinaryFits(c: Config, s: SystemState, choice: Choice)
    requires c.Valid() && SystemShape(c, s) && Ordinary(s.controller, s.ranks)
    ensures Fittingly(c, s, choice)
  {
  }

  lemma FirstHalfStaysOrdinary(c: Config, s: ControllerState, ranks: seq<RankState>, clock: int, pimMode: DramMode)
    requires c.Valid() && Shaped(c, s, ranks) && Ordinary(s, ranks)
    ensures var r := BeforePop(c, s, ranks, clock, pimMode);
            r.Success? ==> Ordinary(r.value.0, r.value.1)
  {
    hide Accepts, UpdateState, WriteBusTick;
    var ticked := s.(table := TickTable(s.table));
    forall r, b | 0 <= r < |ticked.table| && 0 <= b < |ticked.table[r]|
      ensures !IsReservedRow(ticked.table[r][b].openRowAddress)
    {
      assert !IsReservedRow(s.table[r][b].openRowAddress);
    }
    hide TickTable;
  }

  lemma IssueStaysOrdinary(c: Config, s: ControllerState, ranks: seq<RankState>, clock: int, choice: Choice)
    requires c.Valid() && Shaped(c, s, ranks) && Ordinary(s, ranks)
    requires Admissible(c, s, Modes(ranks), clock, choice)
    ensures var r := PopIssued(c, s, clock, choice);
            r.Success? ==> Ordinary(r.value, ranks)
  {
    if s.command.None? && choice.popped.Some? {
      var p := choice.popped.value;
      var q := s.queues[p.rank];
      assert OrdinaryQueue(q);
      assert !IsReservedRow(p.row);
      var s' := PopIssued(c, s, clock, choice).value;
      forall r | 0 <= r < |s'.queues|
        ensures OrdinaryQueue(s'.queues[r])
      {
        assert OrdinaryQueue(s.queues[r]);
      }
      forall r, b | 0 <= r < |s'.table| && 0 <= b < |s'.table[r]|
        ensures !IsReservedRow(s'.table[r][b].openRowAddress)
      {
        assert !IsReservedRow(s.table[r][b].openRowAddress);
      }
    }
  }

  lemma CycleStaysOrdinary(c: Config, locate: nat -> Location, s: SystemState, choice: Choice)
    requires Inputs(c, locate) && (forall a :: !IsReservedRow(locate(a).row))
    requires SystemShape(c, s) && Ordinary(s.controller, s.ranks) && Allowed(c, s, choice)
    ensures var r := Cycle(c, locate, s, choice);
            r.Success? ==> Ordinary(r.value.controller, r.value.ranks)
  {
    var t := AfterRanks(c, s);
    TickedRanks(c, s.ranks, s.controller.ledger, 0);
    assert Ordinary(t.controller, t.ranks);
    FirstHalfStaysOrdinary(c, t.controller, t.ranks, s.clock, choice.pimMode);
    var before := BeforePop(c, t.controller, t.ranks, s.clock, choice.pimMode);
    if before.Success? {
      IssueStaysOrdinary(c, before.value.0, before.value.1, s.clock, choice);
      var issued := PopIssued(c, before.value.0, s.clock, choice);
      if issued.Success? {
        SchedulingStaysOrdinary(c, locate, issued.value, before.value.1);
      }
    }
  }

  lemma SchedulingStaysOrdinary(c: Config, locate: nat -> Location, s: ControllerState, ranks: seq<RankState>)
    requires Inputs(c, locate) && (forall a :: !IsReservedRow(locate(a).row))
    requires |s.queues| == c.numRanks && Ordinary(s, ranks)
    ensures var (ledger, queues) := Scheduled(c, locate, s.ledger, s.queues);
            Ordinary(s.(ledger := ledger, queues := queues), ranks)
  {
    var (ledger, queues) := Scheduled(c, locate, s.ledger, s.queues);
    forall r | 0 <= r < |queues|
      ensures OrdinaryQueue(queues[r])
    {
      assert OrdinaryQueue(s.queues[r]);
    }
  }

  // ---------- the objects ----------

  /** Whether the switch of a mode that is about to happen, if any, fits. */
  ghost predicate WillFit(system: MemorySystem, pimMode: DramMode)
    requires system.Valid() && Inputs(system.config, system.controller.locate) && Safe(system.config, system.State())
    reads system, system.controller, system.controller.commandQueue, system.ranks
  {
    var s := system.State();
    SwitchesFit(system.config, s.controller, s.ranks, s.clock, pimMode)
  }

  /** The same, from the tables and ranks as they are. */
  method CheckSwitch(system: MemorySystem, pimMode: DramMode) returns (fits: bool)
    requires system.Valid() && Inputs(system.config, system.controller.locate) && Safe(system.config, system.State())
    ensures fits == WillFit(system, pimMode)
  {
    var ranks: seq<RankState> := [];
    for i := 0 to |system.ranks|
      invariant |ranks| == i && forall k | 0 <= k < i :: ranks[k] == system.ranks[k].State()
    {
      ranks := ranks + [system.ranks[i].State()];
    }
    assert ranks == system.State().ranks;
    fits := SwitchesFit(system.config, system.controller.State(), ranks, system.currentClockCycle, pimMode);
  }

  ghost predicate OrdinarySystem(system: MemorySystem)
    requires system.Valid()
    reads system, system.controller, system.controller.commandQueue, system.ranks
  {
    && (forall a :: !IsReservedRow(system.controller.locate(a).row))
    && Ordinary(system.State().controller, system.State().ranks)
  }

  /** What one cycle brings: a transaction, a barrier behind it, and the mode that the PIM unit asks for. */
  datatype Input = Input(arrival: Option<Transaction>, barrier: bool, pimMode: DramMode) {
    predicate Valid() {
      (arrival.Some? ==> arrival.value.transactionType != RETURN_DATA) && pimMode != SB
    }
  }

  /** The system is at the end of this run. */
  ghost predicate HasRun(system: MemorySystem, states: seq<SystemState>, events: seq<Event>)
    requires system.Valid() && Inputs(system.config, system.controller.locate)
    reads system, system.controller, system.controller.commandQueue, system.ranks
  {
    IsRun(system.config, system.controller.locate, states, events) && states[|events|] == system.State()
  }

  lemma RunHas(system: MemorySystem, states: seq<SystemState>, events: seq<Event>, e: Event)
    returns (states': seq<SystemState>, events': seq<Event>)
    requires system.Valid() && Inputs(system.config, system.controller.locate)
    requires IsRun(system.config, system.controller.locate, states, events)
    requires IsStep(system.config, system.controller.locate, states[|events|], e, system.State())
    ensures HasRun(system, states', events')
  {
    RunGoesOn(system.config, system.controller.locate, states, events, e, system.State());
    states', events' := states + [system.State()], events + [e];
  }

  /** A transaction may arrive, and changes nothing but what waits to be scheduled. */
  method AcceptTransaction(system: MemorySystem, t: Transaction, ghost pimMode: DramMode,
                           ghost states: seq<SystemState>, ghost events: seq<Event>)
    returns (ghost states': seq<SystemState>, ghost events': seq<Event>)
    requires system.Valid() && Inputs(system.config, system.controller.locate)
    requires t.transactionType != RETURN_DATA
    requires Safe(system.config, system.State()) && HasRun(system, states, events)
    modifies system.controller`transactionQueue, system.controller`numOnTheFlyTransactions
    ensures system.Valid() && Safe(system.config, system.State()) && HasRun(system, states', events')
    ensures old(WillFit(system, pimMode)) == WillFit(system, pimMode)
    ensures old(OrdinarySystem(system)) == OrdinarySystem(system)
  {
    hide IsRun;
    states', events' := states, events;
    ArrivalIsSafe(system.config, system.State(), t);
    var added := system.AddTransaction(t);
    if added {
      states', events' := RunHas(system, states, events, Arrives(t));
    }
  }

  /** So may a barrier. */
  method AcceptBarrier(system: MemorySystem, ghost pimMode: DramMode, ghost states: seq<SystemState>,
                       ghost events: seq<Event>)
    returns (ghost states': seq<SystemState>, ghost events': seq<Event>)
    requires system.Valid() && Inputs(system.config, system.controller.locate)
    requires Safe(system.config, system.State()) && HasRun(system, states, events)
    modifies system.controller`transactionQueue
    ensures system.Valid() && Safe(system.config, system.State()) && HasRun(system, states', events')
    ensures old(WillFit(system, pimMode)) == WillFit(system, pimMode)
    ensures old(OrdinarySystem(system)) == OrdinarySystem(system)
  {
    hide IsRun;
    states', events' := states, events;
    BarrierIsSafe(system.config, system.State());
    var added := system.AddBarrier();
    if added {
      states', events' := RunHas(system, states, events, Marks);
    }
  }

  /** What a cycle brings before it passes. */
  method Accept(system: MemorySystem, input: Input, ghost states: seq<SystemState>, ghost events: seq<Event>)
    returns (ghost states': seq<SystemState>, ghost events': seq<Event>)
    requires system.Valid() && Inputs(system.config, system.controller.locate) && input.Valid()
    requires Safe(system.config, system.State()) && HasRun(system, states, events)
    modifies system.controller`transactionQueue, system.controller`numOnTheFlyTransactions
    ensures system.Valid() && Safe(system.config, system.State()) && HasRun(system, states', events')
    ensures old(WillFit(system, input.pimMode)) == WillFit(system, input.pimMode)
    ensures old(OrdinarySystem(system)) == OrdinarySystem(system)
  {
    hide Safe, HasRun, WillFit, OrdinarySystem;
    states', events' := states, events;
    if input.arrival.Some? {
      states', events' := AcceptTransaction(system, input.arrival.value, input.pimMode, states', events');
    }
    if input.barrier {
      states', events' := AcceptBarrier(system, input.pimMode, states', events');
    }
  }

  /** One transaction and one barrier may arrive, and one cycle passes. A safe system whose bus fits does not
      exit, and it stays safe if the switch of a mode in this cycle, if any, fits. */
  method Advance(system: MemorySystem, input: Input, ghost states: seq<SystemState>, ghost events: seq<Event>)
    returns (ghost states': seq<SystemState>, ghost events': seq<Event>)
    requires system.Valid() && Inputs(system.config, system.controller.locate) && system.config.SharedBusFits()
    requires Safe(system.config, system.State()) && input.Valid() && HasRun(system, states, events)
    modifies system, system.controller, system.controller.commandQueue, system.ranks
    ensures system.Valid() && system.currentClockCycle == old(system.currentClockCycle) + 1
    ensures old(WillFit(system, input.pimMode)) ==>
              Safe(system.config, system.State()) && HasRun(system, states', events')
    ensures old(OrdinarySystem(system)) ==> old(WillFit(system, input.pimMode)) && OrdinarySystem(system)
  {
    states', events' := Accept(system, input, states, events);
    OrdinaryWillFit(system, input.pimMode);
    ghost var s := system.State();
    SafeShape(system.config, s);
    hide Safe, Ordinary, SwitchesFit, Allowed, SystemShape;
    var ok, choice := system.Update(input.pimMode);
    CycleIsSafe(system.config, system.controller.locate, s, choice);
    if old(OrdinarySystem(system)) {
      CycleStaysOrdinary(system.config, system.controller.locate, s, choice);
    }
    if SwitchesFit(system.config, s.controller, s.ranks, s.clock, input.pimMode) {
      states', events' := RunHas(system, states', events', Cycles(choice));
    }
  }

  /** A simulation, whatever its cycles bring: it never exits, and goes on as long as switches fit, which
      without reserved rows is for ever. */
  method Simulate(config: Config, locate: nat -> Location, inputs: seq<Input>)
    returns (system: MemorySystem, n: nat, ghost states: seq<SystemState>, ghost events: seq<Event>)
    requires Inputs(config, locate) && config.SharedBusFits()
    requires forall input | input in inputs :: input.Valid()
    ensures system.Valid() && system.config == config && system.controller.locate == locate
    ensures system.currentClockCycle == n <= |inputs|
    ensures Safe(config, system.State()) && HasRun(system, states, events)
    ensures n < |inputs| ==> !WillFit(system, inputs[n].pimMode)
    ensures (forall a :: !IsReservedRow(locate(a).row)) ==> n == |inputs|
  {
    hide Safe, WillFit, OrdinarySystem, IsRun;
    system := new MemorySystem(config, locate);
    InitiallySafe(config);
    FreshIsOrdinary(system);
    n := 0;
    states, events := FreshHasRun(system);
    ghost var ordinary := forall a :: !IsReservedRow(locate(a).row);
    while n < |inputs|
      invariant system.Valid() && system.config == config && system.controller.locate == locate
      invariant fresh(system) && fresh(system.controller) && fresh(system.controller.commandQueue)
      invariant fresh(system.ranks)
      invariant Safe(config, system.State()) && HasRun(system, states, events)
      invariant ordinary ==> OrdinarySystem(system)
      invariant system.currentClockCycle == n <= |inputs|
    {
      assert inputs[n] in inputs;
      var fits := CheckSwitch(system, inputs[n].pimMode);
      if !fits {
        OrdinaryWillFit(system, inputs[n].pimMode);
        return;
      }
      states, events := Advance(system, inputs[n], states, events);
      n := n + 1;
    }
  }

  lemma FreshHasRun(system: MemorySystem) returns (states: seq<SystemState>, events: seq<Event>)
    requires system.Valid() && Inputs(system.config, system.controller.locate)
    requires system.State() == InitialSystem(system.config)
    ensures HasRun(system, states, events)
  {
    states, events := [InitialSystem(system.config)], [];
  }

  lemma FreshIsOrdinary(system: MemorySystem)
    requires system.Valid() && system.State() == InitialSystem(system.config)
    ensures (forall a :: !IsReservedRow(system.controller.locate(a).row)) ==> OrdinarySystem(system)
  {
  }

  lemma OrdinaryWillFit(system: MemorySystem, pimMode: DramMode)
    requires system.Valid() && Inputs(system.config, system.controller.locate) && Safe(system.config, system.State())
    ensures OrdinarySystem(system) ==> WillFit(system, pimMode)
  {
    if OrdinarySystem(system) {
      var s := system.State();
      SafeShape(system.config, s);
      OrdinaryFits(system.config, s, Choice(None, s.controller.queues, pimMode));
    }
  }
}
