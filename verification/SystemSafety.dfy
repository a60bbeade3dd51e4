/** Safety of whole runs, I: no command is ever illegal when it reaches its rank. */
module SystemSafety {
  import opened Dram
  import opened CommandQueueModel
  import opened RankModel
  import opened MemoryControllerModel
  import opened MemorySystemModel
  import opened TimingSafety

  /** The relation between the controller and rank `i` at the start of cycle `clock`. A command
      on the command bus has been entered in the controller's table already; its rank is going
      to accept it in this cycle, and will then be up to date. */
  predicate RankInSync(c: Config, s: ControllerState, r: RankState, clock: int, i: nat)
    requires c.Valid() && |s.table| == c.numRanks && i < c.numRanks
  {
    && ModeFits(c, r.mode)
    && |s.table[i]| == |r.banks| == c.numBanks && Counting(s.table[i])
    && if s.command.Some? && s.command.value.rank == i then
         && Accepts(r.mode, r.banks, s.command.value, clock)
         && Tracks(c, r.mode, s.table[i], UpdateState(c, r.mode, r.banks, s.command.value, clock), clock)
       else Tracks(c, r.mode, s.table[i], r.banks, clock)
  }

  predicate InSync(c: Config, s: ControllerState, ranks: seq<RankState>, clock: int)
    requires c.Valid()
  {
    && Shaped(c, s, ranks)
    && (s.command.Some? ==> s.commandCyclesLeft == 1)
    && (forall i | 0 <= i < c.numRanks :: RankInSync(c, s, ranks[i], clock, i))
  }

  /** When the command that arrives in this cycle switches its rank between single-bank and all-bank
      mode, the switch fits, and banks 0 and 1 are in one bank group if all-bank mode begins. */
  predicate SwitchesFit(c: Config, s: ControllerState, ranks: seq<RankState>, clock: int, pimMode: DramMode)
    requires c.Valid() && Shaped(c, s, ranks)
  {
    s.command.Some? ==>
      var p := s.command.value;
      var r := ranks[p.rank];
      var mode := ModeAfter(c, r.mode, r.flags, p, pimMode).0;
      (mode == SB) != (r.mode == SB) ==>
        && |s.table[p.rank]| == |r.banks| == c.numBanks
        && SwitchFits(c, mode, s.table[p.rank], UpdateState(c, r.mode, r.banks, p, clock), clock)
        && ModeFits(c, mode)
  }

  /** The relation only looks at tables, banks, modes and the command bus. */
  lemma SyncSeesOnly(c: Config, s: ControllerState, ranks: seq<RankState>, s': ControllerState,
                     ranks': seq<RankState>, clock: int)
    requires c.Valid() && InSync(c, s, ranks, clock) && |ranks'| == |ranks| && |s'.queues| == c.numRanks
    requires s'.table == s.table && s'.command == s.command && s'.commandCyclesLeft == s.commandCyclesLeft
    requires forall i | 0 <= i < |ranks| :: ranks'[i].mode == ranks[i].mode && ranks'[i].banks == ranks[i].banks
    ensures InSync(c, s', ranks', clock)
  {
    forall i | 0 <= i < c.numRanks
      ensures RankInSync(c, s', ranks'[i], clock, i)
    {
      assert RankInSync(c, s, ranks[i], clock, i);
    }
  }

  /** A cycle of the ranks' data buses leaves banks, modes and registers alone. */
  lemma TickedRanks(c: Config, ranks: seq<RankState>, l: Ledger, i: nat)
    requires i <= |ranks|
    ensures var rs := RanksTicked(c, ranks, l, i).0;
            forall k | 0 <= k < |ranks| ::
              rs[k] == if k < i then ranks[k] else Tick(c, ranks[k])
    decreases |ranks| - i
  {
    if i < |ranks| {
      TickedRanks(c, ranks[i := Tick(c, ranks[i])], Acknowledged(l, Delivered(ranks[i])), i + 1);
    }
  }

  lemma ArrivalKeepsRank(c: Config, s: ControllerState, r: RankState, clock: int, pimMode: DramMode, i: nat)
    requires c.Valid() && |s.table| == c.numRanks && i < c.numRanks && RankInSync(c, s, r, clock, i)
    requires s.command.Some? && s.command.value.rank == i && pimMode != SB
    requires var p := s.command.value;
             var mode := ModeAfter(c, r.mode, r.flags, p, pimMode).0;
             (mode == SB) != (r.mode == SB) ==>
               && SwitchFits(c, mode, s.table[i], UpdateState(c, r.mode, r.banks, p, clock), clock)
               && ModeFits(c, mode)
    ensures var r' := Receive(c, r, s.command.value, clock, pimMode);
            RankInSync(c, s.(command := None), r', clock, i)
  {
    var p := s.command.value;
    var banks := UpdateState(c, r.mode, r.banks, p, clock);
    var mode := ModeAfter(c, r.mode, r.flags, p, pimMode).0;
    if (mode == SB) != (r.mode == SB) {
      SwitchIsExact(c, r.mode, mode, s.table[i], banks, clock);
    } else {
      forall b | 0 <= b < c.numBanks
        ensures BankTracks(c, s.table[i][Peer(mode, b)], banks[b], clock)
      {
        assert Peer(mode, b) == Peer(r.mode, b);
      }
    }
  }

  /** The command on the bus is accepted, whether or not it switches the mode of its rank. */
  lemma DeliveryIsLegal(c: Config, s: ControllerState, ranks: seq<RankState>, clock: int, pimMode: DramMode)
    requires c.Valid() && InSync(c, s, ranks, clock)
    ensures var r := CommandDelivered(c, s, ranks, clock, pimMode);
            r.Success? && r.value.0.command.None?
  {
    if s.command.Some? {
      assert RankInSync(c, s, ranks[s.command.value.rank], clock, s.command.value.rank);
    }
  }

  /** The rank of the command on the bus is up to date afterwards. */
  lemma DeliveryKeepsSync(c: Config, s: ControllerState, ranks: seq<RankState>, clock: int, pimMode: DramMode)
    requires c.Valid() && InSync(c, s, ranks, clock) && pimMode != SB
    requires SwitchesFit(c, s, ranks, clock, pimMode)
    ensures var r := CommandDelivered(c, s, ranks, clock, pimMode);
            r.Success? && InSync(c, r.value.0, r.value.1, clock)
  {
    DeliveryIsLegal(c, s, ranks, clock, pimMode);
    if s.command.Some? {
      var p := s.command.value;
      var r := CommandDelivered(c, s, ranks, clock, pimMode);
      forall i | 0 <= i < c.numRanks
        ensures RankInSync(c, r.value.0, r.value.1[i], clock, i)
      {
        assert RankInSync(c, s, ranks[i], clock, i);
        if i == p.rank {
          ArrivalKeepsRank(c, s, ranks[i], clock, pimMode, i);
        }
      }
    }
  }

  lemma TickKeepsSync(c: Config, s: ControllerState, ranks: seq<RankState>, clock: int)
    requires c.Valid() && InSync(c, s, ranks, clock)
    ensures InSync(c, s.(table := TickTable(s.table)), ranks, clock)
  {
    var s' := s.(table := TickTable(s.table));
    forall i | 0 <= i < c.numRanks
      ensures RankInSync(c, s', ranks[i], clock, i)
    {
      assert RankInSync(c, s, ranks[i], clock, i);
      var r := ranks[i];
      if s.command.Some? && s.command.value.rank == i {
        TimeKeepsTracking(c, r.mode, s.table[i], UpdateState(c, r.mode, r.banks, s.command.value, clock), clock, clock);
      } else {
        TimeKeepsTracking(c, r.mode, s.table[i], r.banks, clock, clock);
      }
    }
    assert TableShape(c, s'.table);
  }

  /** The countdowns have no say in whether a switch fits. */
  lemma TickKeepsFit(c: Config, s: ControllerState, ranks: seq<RankState>, clock: int, pimMode: DramMode)
    requires c.Valid() && InSync(c, s, ranks, clock)
    ensures SwitchesFit(c, s.(table := TickTable(s.table)), ranks, clock, pimMode)
            <==> SwitchesFit(c, s, ranks, clock, pimMode)
  {
    if s.command.Some? {
      var i := s.command.value.rank;
      assert RankInSync(c, s, ranks[i], clock, i);
      var m := s.table[i];
      assert TickTable(s.table)[i] == TickRow(m);
      forall b | 0 <= b < c.numBanks
        ensures OrdinaryOpen(TickRow(m)[b]) == OrdinaryOpen(m[b])
        ensures SoonestActivate(c, TickRow(m)[b], clock) == SoonestActivate(c, m[b], clock)
      {
      }
    }
  }

  /** Popping a command keeps every rank in step for the next cycle. */
  lemma IssueKeepsSync(c: Config, s: ControllerState, ranks: seq<RankState>, clock: int, choice: Choice)
    requires c.Valid() && InSync(c, s, ranks, clock) && s.command.None?
    requires Admissible(c, s, Modes(ranks), clock, choice)
    ensures var r := PopIssued(c, s, clock, choice);
            r.Success? && InSync(c, r.value, ranks, clock + 1)
  {
    var s' := PopIssued(c, s, clock, choice).value;
    forall i | 0 <= i < c.numRanks
      ensures RankInSync(c, s', ranks[i], clock + 1, i)
    {
      var r := ranks[i];
      assert RankInSync(c, s, r, clock, i);
      if choice.popped.None? {
        LaterTracks(c, r.mode, s.table[i], r.banks, clock);
      } else {
        var p := choice.popped.value;
        CountingKept(c, p, clock, i, s.table[i]);
        assert s'.table[i] == AfterIssueRow(c, p, clock, i, s.table[i]);
        if i == p.rank {
          assert Poppable(c, r.mode, s.table[i], p, clock);
          PoppedPasses(c, r.mode, s.table[i], r.banks, p, clock);
          IssueKeepsTracking(c, r.mode, s.table[i], r.banks, p, clock);
          LaterTracks(c, r.mode, s'.table[i], UpdateState(c, r.mode, r.banks, p, clock + 1), clock);
        } else {
          IssueKeepsOthers(c, r.mode, s.table[i], r.banks, p, clock, i);
          LaterTracks(c, r.mode, s'.table[i], r.banks, clock);
        }
      }
    }
  }

  lemma LaterTracks(c: Config, mode: DramMode, m: seq<BankState>, r: seq<BankState>, t: int)
    requires Tracks(c, mode, m, r, t)
    ensures Tracks(c, mode, m, r, t + 1)
  {
    forall b | 0 <= b < c.numBanks
      ensures BankTracks(c, m[Peer(mode, b)], r[b], t + 1)
    {
      assert BankTracks(c, m[Peer(mode, b)], r[b], t);
    }
  }

  lemma InitiallyInSync(c: Config)
    requires c.Valid()
    ensures var s := InitialSystem(c); InSync(c, s.controller, s.ranks, s.clock)
  {
  }

  lemma FirstHalfKeepsSync(c: Config, s: ControllerState, ranks: seq<RankState>, clock: int, pimMode: DramMode)
    requires c.Valid() && InSync(c, s, ranks, clock) && pimMode != SB
    ensures var r := BeforePop(c, s, ranks, clock, pimMode);
            && (r.Failure? ==> r.error == DataBusCollision)
            && (r.Success? ==> r.value.0.command.None?)
            && (r.Success? && SwitchesFit(c, s, ranks, clock, pimMode) ==>
                  InSync(c, r.value.0, r.value.1, clock))
  {
    var ticked := s.(table := TickTable(s.table));
    TickKeepsSync(c, s, ranks, clock);
    DeliveryIsLegal(c, ticked, ranks, clock, pimMode);
    var arrived := CommandDelivered(c, ticked, ranks, clock, pimMode).value;
    var r := BeforePop(c, s, ranks, clock, pimMode);
    if r.Success? && SwitchesFit(c, s, ranks, clock, pimMode) {
      TickKeepsFit(c, s, ranks, clock, pimMode);
      DeliveryKeepsSync(c, ticked, ranks, clock, pimMode);
      SyncSeesOnly(c, arrived.0, arrived.1, r.value.0, r.value.1, clock);
    }
  }

  lemma SecondHalfKeepsSync(c: Config, locate: nat -> Location, s: ControllerState, ranks: seq<RankState>,
                            clock: int, choice: Choice)
    requires c.Valid() && (forall a :: locate(a).rank < c.numRanks)
    requires Shaped(c, s, ranks) && s.command.None?
    requires Admissible(c, s, Modes(ranks), clock, choice)
    ensures var r := AfterPop(c, locate, s, clock, choice);
            && (r.Failure? ==> r.error == NoMatchingTransaction)
            && (r.Success? && InSync(c, s, ranks, clock) ==> InSync(c, r.value, ranks, clock + 1))
  {
    var r := AfterPop(c, locate, s, clock, choice);
    if r.Success? && InSync(c, s, ranks, clock) {
      IssueKeepsSync(c, s, ranks, clock, choice);
      var issued := PopIssued(c, s, clock, choice).value;
      SyncSeesOnly(c, issued, ranks, r.value, ranks, clock + 1);
    }
  }

  lemma ControllerKeepsSync(c: Config, locate: nat -> Location, s: ControllerState, ranks: seq<RankState>,
                            clock: int, choice: Choice)
    requires c.Valid() && (forall a :: locate(a).rank < c.numRanks) && choice.pimMode != SB
    requires InSync(c, s, ranks, clock) && PopsWell(c, s, ranks, clock, choice)
    ensures var r := ControllerCycle(c, locate, s, ranks, clock, choice);
            && (r.Failure? ==> r.error == DataBusCollision || r.error == NoMatchingTransaction)
            && (r.Success? && SwitchesFit(c, s, ranks, clock, choice.pimMode) ==>
                  InSync(c, r.value.0, r.value.1, clock + 1))
  {
    FirstHalfKeepsSync(c, s, ranks, clock, choice.pimMode);
    var before := BeforePop(c, s, ranks, clock, choice.pimMode);
    if before.Success? {
      SecondHalfKeepsSync(c, locate, before.value.0, before.value.1, clock, choice);
    }
  }

  /** The data buses of the ranks have no say in the relation or in a mode switch. */
  lemma RanksKeepSync(c: Config, s: SystemState, pimMode: DramMode)
    requires c.Valid() && InSync(c, s.controller, s.ranks, s.clock)
    ensures var t := AfterRanks(c, s);
            && InSync(c, t.controller, t.ranks, s.clock)
            && (SwitchesFit(c, t.controller, t.ranks, s.clock, pimMode)
                <==> SwitchesFit(c, s.controller, s.ranks, s.clock, pimMode))
  {
    var t := AfterRanks(c, s);
    TickedRanks(c, s.ranks, s.controller.ledger, 0);
    SyncSeesOnly(c, s.controller, s.ranks, t.controller, t.ranks, s.clock);
  }

  /** Safety of one cycle: in step before, no illegal command and no clash on the command bus,
      and in step afterwards if the switch of its mode, if any, fits. */
  lemma CycleKeepsSync(c: Config, locate: nat -> Location, s: SystemState, choice: Choice)
    requires c.Valid() && (forall a :: locate(a).rank < c.numRanks)
    requires SystemShape(c, s) && InSync(c, s.controller, s.ranks, s.clock)
    requires Allowed(c, s, choice)
    ensures var r := Cycle(c, locate, s, choice);
            && (r.Failure? ==> r.error == DataBusCollision || r.error == NoMatchingTransaction)
            && (r.Success? && SwitchesFit(c, s.controller, s.ranks, s.clock, choice.pimMode) ==>
                  SystemShape(c, r.value) && InSync(c, r.value.controller, r.value.ranks, r.value.clock))
  {
    var t := AfterRanks(c, s);
    RanksKeepSync(c, s, choice.pimMode);
    ControllerKeepsSync(c, locate, t.controller, t.ranks, s.clock, choice);
    var r := Cycle(c, locate, s, choice);
    if r.Success? && SwitchesFit(c, s.controller, s.ranks, s.clock, choice.pimMode) {
      ShapeFromSync(c, r.value);
    }
  }

  lemma ShapeFromSync(c: Config, s: SystemState)
    requires c.Valid() && InSync(c, s.controller, s.ranks, s.clock)
    ensures SystemShape(c, s)
  {
    forall i | 0 <= i < |s.ranks|
      ensures |s.ranks[i].banks| == c.numBanks
    {
      assert RankInSync(c, s.controller, s.ranks[i], s.clock, i);
    }
  }
}
