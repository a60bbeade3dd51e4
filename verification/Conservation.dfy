/** Safety of whole runs, III: no transaction is lost or made up. */
module Conservation {
  import opened Dram
  import opened CommandQueueModel
  import opened RankModel
  import opened MemoryControllerModel
  import opened MemorySystemModel

  // ---------- sums over sequences ----------

  function Sum<T>(xs: seq<T>, f: T -> int): int {
    if |xs| == 0 then 0 else f(xs[0]) + Sum(xs[1..], f)
  }

  lemma {:induction false} SumOfConcat<T>(xs: seq<T>, ys: seq<T>, f: T -> int)
    ensures Sum(xs + ys, f) == Sum(xs, f) + Sum(ys, f)
  {
    if |xs| == 0 {
      assert xs + ys == ys;
    } else {
      assert (xs + ys)[1..] == xs[1..] + ys;
      SumOfConcat(xs[1..], ys, f);
    }
  }

  lemma SumOfAppend<T>(xs: seq<T>, x: T, f: T -> int)
    ensures Sum(xs + [x], f) == Sum(xs, f) + f(x)
  {
    SumOfConcat(xs, [x], f);
  }

  lemma SumSplit<T>(xs: seq<T>, i: nat, f: T -> int)
    requires i < |xs|
    ensures Sum(xs, f) == Sum(xs[..i], f) + f(xs[i]) + Sum(xs[i + 1..], f)
  {
    assert xs == xs[..i] + ([xs[i]] + xs[i + 1..]);
    SumOfConcat(xs[..i], [xs[i]] + xs[i + 1..], f);
    SumOfConcat([xs[i]], xs[i + 1..], f);
  }

  lemma SumOfRemoval<T>(xs: seq<T>, i: nat, f: T -> int)
    requires i < |xs|
    ensures Sum(xs[..i] + xs[i + 1..], f) == Sum(xs, f) - f(xs[i])
  {
    SumSplit(xs, i, f);
    SumOfConcat(xs[..i], xs[i + 1..], f);
  }

  lemma SumOfUpdate<T>(xs: seq<T>, i: nat, x: T, f: T -> int)
    requires i < |xs|
    ensures Sum(xs[i := x], f) == Sum(xs, f) - f(xs[i]) + f(x)
  {
    SumSplit(xs, i, f);
    var ys := xs[i := x];
    SumSplit(ys, i, f);
    assert ys[..i] == xs[..i] && ys[i + 1..] == xs[i + 1..];
  }

  lemma {:induction false} SumIsCount<T>(xs: seq<T>, f: T -> int)
    requires forall x :: f(x) >= 0
    ensures Sum(xs, f) >= 0
    ensures Sum(xs, f) > 0 <==> exists i | 0 <= i < |xs| :: f(xs[i]) > 0
  {
    if |xs| > 0 {
      SumIsCount(xs[1..], f);
      if i :| 0 <= i < |xs| && f(xs[i]) > 0 {
        assert i > 0 ==> xs[1..][i - 1] == xs[i];
      }
    }
  }

  lemma {:induction false} SumOfZeros<T>(xs: seq<T>, f: T -> int)
    requires forall i | 0 <= i < |xs| :: f(xs[i]) == 0
    ensures Sum(xs, f) == 0
  {
    if |xs| > 0 {
      SumOfZeros(xs[1..], f);
    }
  }

  // ---------- where reads and writes are ----------

  function Is(a: nat): Transaction -> int {
    (t: Transaction) => if t.address == a then 1 else 0
  }

  function DataFor(a: nat): BusPacket -> int {
    (p: BusPacket) => if p.physicalAddress == a then 1 else 0
  }

  function ReadOf(a: nat): BusPacket -> int {
    (p: BusPacket) => if p.busPacketType == READ && p.physicalAddress == a then 1 else 0
  }

  function WriteCommand(p: BusPacket): int {
    if p.busPacketType == WRITE then 1 else 0
  }

  function OnBus(p: Option<BusPacket>, f: BusPacket -> int): int {
    if p.None? then 0 else f(p.value)
  }

  function QueuedReads(a: nat): seq<BusPacket> -> int {
    (q: seq<BusPacket>) => Sum(q, ReadOf(a))
  }

  function QueuedWrites(q: seq<BusPacket>): int {
    Sum(q, WriteCommand)
  }

  function RankReads(a: nat): RankState -> int {
    (r: RankState) => Sum(r.returnPackets, DataFor(a)) + OnBus(r.dataOut, DataFor(a))
  }

  /** The number of reads of address `a` between the command queues and the processor. */
  function ReadsUnderway(s: ControllerState, ranks: seq<RankState>, a: nat): int {
    Sum(s.queues, QueuedReads(a)) + OnBus(s.command, ReadOf(a)) + Sum(ranks, RankReads(a))
    + Sum(s.ledger.returned, Is(a))
  }

  /** The number of writes between the command queues and the end of their burst. */
  function WritesUnderway(s: ControllerState): int {
    Sum(s.queues, QueuedWrites) + |s.writes.waiting| + if s.writes.onBus.Some? then 1 else 0
  }

  predicate BalancedAt(s: ControllerState, ranks: seq<RankState>, a: nat) {
    Sum(s.ledger.pendingReads, Is(a)) == ReadsUnderway(s, ranks, a)
  }

  /** The number of transactions in flight is the number of those that are queued, pending or
      being written. */
  predicate Counted(s: ControllerState) {
    && s.ledger.onTheFly == |s.ledger.queued| + |s.ledger.pendingReads| + WritesUnderway(s)
    && (forall t | t in s.ledger.queued :: t.transactionType != RETURN_DATA)
  }

  /** The pending reads are, as a multiset of addresses, those that are on their way. */
  ghost predicate Balanced(s: ControllerState, ranks: seq<RankState>) {
    Counted(s) && forall a: nat :: BalancedAt(s, ranks, a)
  }

  // ---------- one step at a time ----------

  /** A rank hands over what it delivers, and nothing else goes missing. */
  lemma RankKeepsReads(c: Config, r: RankState, a: nat)
    requires !Overwrites(r)
    ensures RankReads(a)(r) == RankReads(a)(Tick(c, r)) + OnBus(Delivered(r), DataFor(a))
  {
    if ReturnReady(r) {
      SumSplit(r.returnPackets, 0, DataFor(a));
      assert r.returnPackets[..0] == [];
    }
  }

  lemma {:induction false} RanksKeepReads(c: Config, ranks: seq<RankState>, l: Ledger, i: nat, a: nat)
    requires i <= |ranks| && forall k | i <= k < |ranks| :: !Overwrites(ranks[k])
    ensures var (ranks', l') := RanksTicked(c, ranks, l, i);
            && Sum(ranks', RankReads(a)) + Sum(l'.returned, Is(a))
               == Sum(ranks, RankReads(a)) + Sum(l.returned, Is(a))
            && l' == l.(returned := l'.returned)
    decreases |ranks| - i
  {
    if i < |ranks| {
      var ticked := Tick(c, ranks[i]);
      var delivered := Delivered(ranks[i]);
      RankKeepsReads(c, ranks[i], a);
      SumOfUpdate(ranks, i, ticked, RankReads(a));
      if delivered.Some? {
        var p := delivered.value;
        SumOfAppend(l.returned, Transaction(RETURN_DATA, p.physicalAddress, p.data, false), Is(a));
      }
      RanksKeepReads(c, ranks[i := ticked], Acknowledged(l, delivered), i + 1, a);
    }
  }

  /** The data buses of the ranks. */
  lemma RanksKeepBalance(c: Config, s: SystemState)
    requires Balanced(s.controller, s.ranks) && forall k | 0 <= k < |s.ranks| :: !Overwrites(s.ranks[k])
    ensures var t := AfterRanks(c, s); Balanced(t.controller, t.ranks)
  {
    var t := AfterRanks(c, s);
    RanksKeepReads(c, s.ranks, s.controller.ledger, 0, 0);
    forall a: nat
      ensures BalancedAt(t.controller, t.ranks, a)
    {
      assert BalancedAt(s.controller, s.ranks, a);
      RanksKeepReads(c, s.ranks, s.controller.ledger, 0, a);
    }
  }

  lemma ReceptionAddsRead(c: Config, r: RankState, p: BusPacket, clock: int, pimMode: DramMode, a: nat)
    requires c.Valid()
    ensures RankReads(a)(Receive(c, r, p, clock, pimMode)) == RankReads(a)(r) + ReadOf(a)(p)
  {
    if p.busPacketType == READ {
      SumOfAppend(r.returnPackets, p.(busPacketType := DATA), DataFor(a));
    }
  }

  lemma DeliveryKeepsBalance(c: Config, s: ControllerState, ranks: seq<RankState>, clock: int, pimMode: DramMode)
    requires c.Valid() && Shaped(c, s, ranks) && Balanced(s, ranks)
    ensures var r := CommandDelivered(c, s, ranks, clock, pimMode);
            r.Success? ==> Balanced(r.value.0, r.value.1)
  {
    var r := CommandDelivered(c, s, ranks, clock, pimMode);
    if r.Success? {
      forall a: nat
        ensures BalancedAt(r.value.0, r.value.1, a)
      {
        assert BalancedAt(s, ranks, a);
        if s.command.Some? && s.commandCyclesLeft == 1 {
          var p := s.command.value;
          ReceptionAddsRead(c, ranks[p.rank], p, clock, pimMode, a);
          SumOfUpdate(ranks, p.rank, Receive(c, ranks[p.rank], p, clock, pimMode), RankReads(a));
        }
      }
    }
  }

  /** Balance only looks at queues, buses and books. */
  lemma BalanceSeesOnly(s: ControllerState, s': ControllerState, ranks: seq<RankState>)
    requires Balanced(s, ranks)
    requires s'.queues == s.queues && s'.command == s.command
    requires s'.ledger == s.ledger.(onTheFly := s'.ledger.onTheFly)
    requires s'.ledger.onTheFly - WritesUnderway(s') == s.ledger.onTheFly - WritesUnderway(s)
    ensures Balanced(s', ranks)
  {
    forall a: nat
      ensures BalancedAt(s', ranks, a)
    {
      assert BalancedAt(s, ranks, a);
    }
  }

  /** A finished write leaves the books; a waiting one moves on to the bus. */
  lemma WritesKeepBalance(c: Config, s: ControllerState, ranks: seq<RankState>)
    requires Balanced(s, ranks)
    ensures var r := WriteBusTick(c, s.writes);
            r.Success? ==> Balanced(WriteCompleted(s).(writes := r.value), ranks)
  {
    var r := WriteBusTick(c, s.writes);
    if r.Success? {
      BalanceSeesOnly(s, WriteCompleted(s).(writes := r.value), ranks);
    }
  }

  lemma RemovalFromQueue(queues: seq<seq<BusPacket>>, r: nat, i: nat, a: nat)
    requires r < |queues| && i < |queues[r]|
    ensures var queues' := queues[r := Without(queues[r], i)];
            && Sum(queues', QueuedReads(a)) == Sum(queues, QueuedReads(a)) - ReadOf(a)(queues[r][i])
            && Sum(queues', QueuedWrites) == Sum(queues, QueuedWrites) - WriteCommand(queues[r][i])
  {
    SumOfRemoval(queues[r], i, ReadOf(a));
    SumOfRemoval(queues[r], i, WriteCommand);
    SumOfUpdate(queues, r, Without(queues[r], i), QueuedReads(a));
    SumOfUpdate(queues, r, Without(queues[r], i), QueuedWrites);
  }

  lemma AdditionToQueue(queues: seq<seq<BusPacket>>, r: nat, p: BusPacket, a: nat)
    requires r < |queues|
    ensures var queues' := queues[r := queues[r] + [p]];
            && Sum(queues', QueuedReads(a)) == Sum(queues, QueuedReads(a)) + ReadOf(a)(p)
            && Sum(queues', QueuedWrites) == Sum(queues, QueuedWrites) + WriteCommand(p)
  {
    SumOfAppend(queues[r], p, ReadOf(a));
    SumOfAppend(queues[r], p, WriteCommand);
    SumOfUpdate(queues, r, queues[r] + [p], QueuedReads(a));
    SumOfUpdate(queues, r, queues[r] + [p], QueuedWrites);
  }

  /** A column access leaves its queue for the command bus, and a write for the data path. */
  lemma IssueKeepsBalance(c: Config, s: ControllerState, ranks: seq<RankState>, clock: int, choice: Choice)
    requires c.Valid() && Shaped(c, s, ranks) && Balanced(s, ranks)
    requires Admissible(c, s, Modes(ranks), clock, choice)
    ensures var r := PopIssued(c, s, clock, choice);
            r.Success? ==> Balanced(r.value, ranks)
  {
    if s.command.None? && choice.popped.Some? {
      var s' := PopIssued(c, s, clock, choice).value;
      var p := choice.popped.value;
      if p.busPacketType == READ || p.busPacketType == WRITE {
        var i :| 0 <= i < |s.queues[p.rank]| && TakenAt(s.queues, p, i, choice.queues);
        RemovalFromQueue(s.queues, p.rank, i, 0);
        forall a: nat
          ensures BalancedAt(s', ranks, a)
        {
          assert BalancedAt(s, ranks, a);
          RemovalFromQueue(s.queues, p.rank, i, a);
        }
      } else {
        forall a: nat
          ensures BalancedAt(s', ranks, a)
        {
          assert BalancedAt(s, ranks, a);
        }
      }
    }
  }

  /** A transaction becomes a command. */
  lemma SchedulingKeepsBalance(c: Config, locate: nat -> Location, s: ControllerState, ranks: seq<RankState>)
    requires |s.queues| == c.numRanks && (forall a :: locate(a).rank < c.numRanks) && Balanced(s, ranks)
    ensures var (ledger, queues) := Scheduled(c, locate, s.ledger, s.queues);
            Balanced(s.(ledger := ledger, queues := queues), ranks)
  {
    var i := FirstWithRoom(c, locate, s.ledger.queued, s.queues, 0);
    if i < |s.ledger.queued| {
      var t := s.ledger.queued[i];
      var p := CommandFor(locate, t);
      var (ledger, queues) := Scheduled(c, locate, s.ledger, s.queues);
      var s' := s.(ledger := ledger, queues := queues);
      assert t in s.ledger.queued;
      AdditionToQueue(s.queues, p.rank, p, 0);
      forall a: nat
        ensures BalancedAt(s', ranks, a)
      {
        assert BalancedAt(s, ranks, a);
        AdditionToQueue(s.queues, p.rank, p, a);
        SumOfAppend(s.ledger.pendingReads, t, Is(a));
      }
    }
  }

  /** Returned data always finds its transaction. */
  lemma ReturnKeepsBalance(s: ControllerState, ranks: seq<RankState>)
    requires Balanced(s, ranks)
    ensures var r := ReadReturned(s.ledger);
            r.Success? && Balanced(s.(ledger := r.value), ranks)
  {
    var l := s.ledger;
    if |l.returned| > 0 {
      var a0 := l.returned[0].address;
      ReadIsPending(s, ranks);
      var i := FirstAt(l.pendingReads, a0, 0);
      var l' := ReadReturned(l).value;
      forall a: nat
        ensures BalancedAt(s.(ledger := l'), ranks, a)
      {
        assert BalancedAt(s, ranks, a);
        SumOfRemoval(l.pendingReads, i, Is(a));
      }
    }
  }

  lemma ReadIsPending(s: ControllerState, ranks: seq<RankState>)
    requires Balanced(s, ranks) && |s.ledger.returned| > 0
    ensures FirstAt(s.ledger.pendingReads, s.ledger.returned[0].address, 0) < |s.ledger.pendingReads|
  {
    var a := s.ledger.returned[0].address;
    assert BalancedAt(s, ranks, a);
    SumIsCount(s.queues, QueuedReads(a)) by {
      forall q: seq<BusPacket>
        ensures QueuedReads(a)(q) >= 0
      {
        SumIsCount(q, ReadOf(a));
      }
    }
    SumIsCount(ranks, RankReads(a)) by {
      forall r: RankState
        ensures RankReads(a)(r) >= 0
      {
        SumIsCount(r.returnPackets, DataFor(a));
      }
    }
    SumIsCount(s.ledger.returned, Is(a));
    SumIsCount(s.ledger.pendingReads, Is(a));
  }

  lemma FirstHalfKeepsBalance(c: Config, s: ControllerState, ranks: seq<RankState>, clock: int, pimMode: DramMode)
    requires c.Valid() && Shaped(c, s, ranks) && Balanced(s, ranks)
    ensures var r := BeforePop(c, s, ranks, clock, pimMode);
            && (r.Failure? ==> r.error != NoMatchingTransaction)
            && (r.Success? ==> Balanced(r.value.0, r.value.1))
  {
    var ticked := s.(table := TickTable(s.table));
    BalanceSeesOnly(s, ticked, ranks);
    DeliveryKeepsBalance(c, ticked, ranks, clock, pimMode);
    var arrived := CommandDelivered(c, ticked, ranks, clock, pimMode);
    if arrived.Success? {
      WritesKeepBalance(c, arrived.value.0, arrived.value.1);
    }
  }

  lemma SecondHalfKeepsBalance(c: Config, locate: nat -> Location, s: ControllerState, ranks: seq<RankState>,
                               clock: int, choice: Choice)
    requires c.Valid() && (forall a :: locate(a).rank < c.numRanks)
    requires Shaped(c, s, ranks) && Balanced(s, ranks) && Admissible(c, s, Modes(ranks), clock, choice)
    ensures var r := AfterPop(c, locate, s, clock, choice);
            && (r.Failure? ==> r.error != NoMatchingTransaction)
            && (r.Success? ==> Balanced(r.value, ranks))
  {
    IssueKeepsBalance(c, s, ranks, clock, choice);
    var issued := PopIssued(c, s, clock, choice);
    if issued.Success? {
      SchedulingKeepsBalance(c, locate, issued.value, ranks);
      var (ledger, queues) := Scheduled(c, locate, issued.value.ledger, issued.value.queues);
      ReturnKeepsBalance(issued.value.(ledger := ledger, queues := queues), ranks);
    }
  }

  /** Conservation over one cycle of the controller, and no abort. */
  lemma ControllerKeepsBalance(c: Config, locate: nat -> Location, s: ControllerState, ranks: seq<RankState>,
                               clock: int, choice: Choice)
    requires c.Valid() && (forall a :: locate(a).rank < c.numRanks)
    requires Shaped(c, s, ranks) && Balanced(s, ranks) && PopsWell(c, s, ranks, clock, choice)
    ensures var r := ControllerCycle(c, locate, s, ranks, clock, choice);
            && (r.Failure? ==> r.error != NoMatchingTransaction)
            && (r.Success? ==> Balanced(r.value.0, r.value.1))
  {
    FirstHalfKeepsBalance(c, s, ranks, clock, choice.pimMode);
    var before := BeforePop(c, s, ranks, clock, choice.pimMode);
    if before.Success? {
      SecondHalfKeepsBalance(c, locate, before.value.0, before.value.1, clock, choice);
    }
  }

  lemma InitiallyBalanced(c: Config)
    ensures var s := InitialSystem(c); Balanced(s.controller, s.ranks)
  {
    var s := InitialSystem(c);
    SumOfZeros(s.controller.queues, QueuedWrites);
    forall a: nat
      ensures BalancedAt(s.controller, s.ranks, a)
    {
      SumOfZeros(s.controller.queues, QueuedReads(a));
      SumOfZeros(s.ranks, RankReads(a));
    }
  }
}
