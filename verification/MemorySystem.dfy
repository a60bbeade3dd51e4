/** The whole memory system of one channel, cycle by cycle. */
module MemorySystemModel {
  import opened Dram
  import opened RankModel
  import opened MemoryControllerModel

  datatype SystemState = SystemState(clock: int, controller: ControllerState, ranks: seq<RankState>)

  function InitialSystem(c: Config): SystemState {
    SystemState(0, InitialController(c), seq(c.numRanks, _ => InitialRank(c)))
  }

  function Acknowledged(l: Ledger, delivered: Option<BusPacket>): Ledger {
    if delivered.Some? then Received(l, delivered.value) else l
  }

  /** The ranks from `i` on move one cycle, and hand their read data to the controller. */
  function RanksTicked(c: Config, ranks: seq<RankState>, l: Ledger, i: nat): (r: (seq<RankState>, Ledger))
    requires i <= |ranks|
    ensures |r.0| == |ranks|
    decreases |ranks| - i
  {
    if i == |ranks| then (ranks, l)
    else RanksTicked(c, ranks[i := Tick(c, ranks[i])], Acknowledged(l, Delivered(ranks[i])), i + 1)
  }

  function AfterRanks(c: Config, s: SystemState): SystemState {
    var (ranks, ledger) := RanksTicked(c, s.ranks, s.controller.ledger, 0);
    s.(ranks := ranks, controller := s.controller.(ledger := ledger))
  }

  /** The ranks leave the transactions that wait to be scheduled alone. */
  lemma QueuedKept(c: Config, ranks: seq<RankState>, l: Ledger, i: nat)
    requires i <= |ranks|
    ensures RanksTicked(c, ranks, l, i).1.queued == l.queued
    decreases |ranks| - i
  {
    if i < |ranks| {
      QueuedKept(c, ranks[i := Tick(c, ranks[i])], Acknowledged(l, Delivered(ranks[i])), i + 1);
    }
  }

  predicate SystemShape(c: Config, s: SystemState) {
    Shaped(c, s.controller, s.ranks) && forall i | 0 <= i < |s.ranks| :: |s.ranks[i].banks| == c.numBanks
  }

  /** One cycle of the whole system; a failure is an exit of the simulator. */
  function Cycle(c: Config, locate: nat -> Location, s: SystemState, choice: Choice)
    : Result<SystemState, Exit>
    requires c.Valid() && (forall a :: locate(a).rank < c.numRanks)
    requires SystemShape(c, s) && |choice.queues| == c.numRanks
  {
    var t := AfterRanks(c, s);
    var (controller, ranks) :- ControllerCycle(c, locate, t.controller, t.ranks, s.clock, choice);
    Success(SystemState(s.clock + 1, controller, ranks))
  }

  /** The choices that one cycle leaves open: the outcome of `pop`, and a mode other than SB
      when the PIM unit changes the mode. */
  predicate Allowed(c: Config, s: SystemState, choice: Choice)
    requires c.Valid() && SystemShape(c, s)
  {
    var t := AfterRanks(c, s);
    choice.pimMode != SB && PopsWell(c, t.controller, t.ranks, s.clock, choice)
  }

  class MemorySystem {
    const config: Config
    const controller: MemoryController
    const ranks: seq<Rank>
    var currentClockCycle: int

    ghost function State(): SystemState
      reads this, controller, controller.commandQueue, ranks
    {
      SystemState(currentClockCycle, controller.State(), StatesOf(ranks))
    }

    ghost predicate Valid()
      reads this, controller, controller.commandQueue, ranks
    {
      && controller.config == config && controller.ranks == ranks
      && controller.Valid() && controller.Attached()
      && controller.commandQueue.currentClockCycle == controller.currentClockCycle == currentClockCycle
    }

    constructor (config: Config, locate: nat -> Location)
      requires Inputs(config, locate)
      ensures Valid() && this.config == config && controller.locate == locate
      ensures fresh(controller) && fresh(controller.commandQueue) && fresh(ranks)
      ensures State() == InitialSystem(config)
    {
      this.config := config;
      currentClockCycle := 0;
      var mc := new MemoryController(config, locate);
      var rs: seq<Rank> := [];
      for i := 0 to config.numRanks
        invariant |rs| == i && fresh(rs) && fresh(mc) && fresh(mc.commandQueue)
        invariant mc.Valid() && mc.config == config && mc.locate == locate
        invariant mc.currentClockCycle == mc.commandQueue.currentClockCycle == 0
        invariant mc.State() == InitialController(config)
        invariant forall k | 0 <= k < i ::
            rs[k].Valid() && rs[k].config == config && rs[k].currentClockCycle == 0
            && rs[k].State() == InitialRank(config)
        invariant forall j, k | 0 <= j < k < i :: rs[j] != rs[k]
      {
        var r := new Rank(config);
        rs := rs + [r];
      }
      mc.ranks := rs;
      controller := mc;
      ranks := rs;
      new;
      assert StatesOf(ranks) == seq(config.numRanks, _ => InitialRank(config));
    }

    method AddTransaction(t: Transaction) returns (added: bool)
      requires Valid() && t.transactionType != RETURN_DATA
      modifies controller`transactionQueue, controller`numOnTheFlyTransactions
      ensures Valid() && added == old(controller.WillAcceptTransaction())
      ensures var before := old(State());
              State() == if added then
                           before.(controller := before.controller.(ledger := Added(before.controller.ledger, t)))
                         else before
    {
      added := controller.AddTransaction(t);
    }

    /** A barrier behind the transaction that is queued last, if the controller takes one now. */
    method AddBarrier() returns (added: bool)
      requires Valid()
      modifies controller`transactionQueue
      ensures Valid() && added == old(controller.WillAcceptTransaction() && controller.transactionQueue != [])
      ensures var before := old(State());
              State() == if added then
                           before.(controller := before.controller.(ledger := Marked(before.controller.ledger)))
                         else before
    {
      added := false;
      if controller.WillAcceptTransaction() {
        added := controller.AddBarrier();
      }
    }

    /** Every rank moves one cycle. */
    method UpdateRanks()
      requires Valid()
      modifies controller`returnTransaction, ranks
      ensures Valid() && State() == AfterRanks(config, old(State()))
    {
      hide Tick, Delivered, Acknowledged;
      for i := 0 to config.numRanks
        invariant Valid()
        invariant controller.State() == old(controller.State()).(ledger := controller.LedgerOf())
        invariant RanksTicked(config, StatesOf(ranks), controller.LedgerOf(), i)
               == RanksTicked(config, old(StatesOf(ranks)), old(controller.LedgerOf()), 0)
        modifies controller`returnTransaction, ranks
      {
        UpdateRank(i);
      }
    }

    method UpdateRank(i: nat)
      requires Valid() && i < config.numRanks
      modifies controller`returnTransaction, ranks
      ensures Valid() && currentClockCycle == old(currentClockCycle)
      ensures StatesOf(ranks) == old(StatesOf(ranks))[i := Tick(config, old(StatesOf(ranks))[i])]
      ensures controller.State() == old(controller.State()).(ledger := controller.LedgerOf())
      ensures controller.LedgerOf() == Acknowledged(old(controller.LedgerOf()), Delivered(old(StatesOf(ranks))[i]))
    {
      ghost var before := StatesOf(ranks);
      var delivered := ranks[i].Update();
      assert StatesOf(ranks) == before[i := Tick(config, before[i])];
      if delivered.Some? {
        controller.ReceiveFromBus(delivered.value);
      }
    }

    method StepRanks()
      requires controller.config == config && controller.ranks == ranks
      requires controller.Valid() && controller.Attached()
      requires forall k | 0 <= k < config.numRanks :: ranks[k].currentClockCycle == currentClockCycle
      modifies ranks
      ensures StatesOf(ranks) == old(StatesOf(ranks))
      ensures forall k | 0 <= k < config.numRanks ::
                ranks[k].Valid() && ranks[k].currentClockCycle == currentClockCycle + 1
    {
      for i := 0 to config.numRanks
        invariant StatesOf(ranks) == old(StatesOf(ranks))
        invariant forall k | 0 <= k < config.numRanks ::
            ranks[k].Valid() && ranks[k].currentClockCycle == currentClockCycle + if k < i then 1 else 0
        modifies ranks
      {
        ghost var before := StatesOf(ranks);
        ranks[i].Step();
        assert StatesOf(ranks) == before;
      }
    }

    /** Every clock moves on. */
    method StepClocks()
      requires controller.config == config && controller.ranks == ranks
      requires controller.Valid() && controller.Attached()
      requires controller.commandQueue.currentClockCycle == currentClockCycle + 1
      requires controller.currentClockCycle == currentClockCycle
      modifies this`currentClockCycle, controller`currentClockCycle, ranks
      ensures Valid() && State() == old(State()).(clock := old(currentClockCycle) + 1)
    {
      StepRanks();
      controller.Step();
      currentClockCycle := currentClockCycle + 1;
    }

    /** One cycle of the simulation; `ok` is false when the simulator would exit. */
    method Update(pimMode: DramMode) returns (ok: bool, ghost choice: Choice)
      requires Valid() && pimMode != SB
      modifies this, controller, controller.commandQueue, ranks
      ensures SystemShape(config, old(State())) && Allowed(config, old(State()), choice)
      ensures choice.pimMode == pimMode
      ensures ok <==> Cycle(config, controller.locate, old(State()), choice).Success?
      ensures ok ==> Valid() && Cycle(config, controller.locate, old(State()), choice).value == State()
    {
      UpdateRanks();
      ok, choice := controller.Update(pimMode);
      if !ok {
        return;
      }
      StepClocks();
    }
  }
}
