/** A run that ends with a queue that a fence blocks: `pop` has nothing to issue, whatever time passes. */
module BlockedRun {
  import opened Dram
  import opened CommandQueueModel
  import opened MemoryControllerModel
  import opened MemorySystemModel
  import opened Runs
  import opened RunStages
  import opened Progress
  import QueueHistory

  /** What `pop` sees in the next cycle: the table ticked, no row activation or access held against it. */
  function NextView(c: Config, s: SystemState): View {
    View(c, TickTable(s.controller.table), Modes(s.ranks), seq(c.numRanks, _ => []),
         seq(c.numRanks, _ => seq(c.numBanks, _ => 0)), s.clock)
  }

  /** No refresh waits, all deadlines have passed, something waits in a queue, and `pop` finds nothing to issue. */
  ghost predicate IsBlocked(c: Config, s: SystemState)
    requires c.Valid()
  {
    var v := NextView(c, s);
    && SystemShape(c, s) && v.Shaped() && AllClear(v) && AllQueued(c, s.controller.queues)
    && Stuck(v, s.controller.queues, false, 0) && exists r | 0 <= r < c.numRanks :: s.controller.queues[r] != []
  }

  /** Some run gets there. */
  ghost predicate CanBlock(c: Config)
    requires c.Valid()
  {
    exists locate: nat -> Location, s: SystemState ::
      Inputs(c, locate) && Reached(c, locate, s) && IsBlocked(c, s)
  }

  // ---------- the run ----------

  /** Two rows of one bank. */
  function Spot(address: nat): Location {
    Location(0, 0, if address == 1 then 1 else 0, 0)
  }

  function Load(address: nat): Transaction {
    Transaction(DATA_READ, address, 0, false)
  }

  function LoadOf(address: nat): BusPacket {
    CommandFor(Spot, Load(address))
  }

  const FENCE := CommandFor(Spot, Load(2).(barrier := true))

  function Queues(c: Config, q: seq<BusPacket>): seq<seq<BusPacket>> {
    seq(c.numRanks, r => if r == 0 then q else [])
  }

  predicate AtEase(table: seq<seq<BankState>>) {
    forall r, b | 0 <= r < |table| && 0 <= b < |table[r]| :: table[r][b].stateChangeCountdown == 0
  }

  lemma NothingTicks(table: seq<seq<BankState>>)
    requires AtEase(table)
    ensures TickTable(table) == table
  {
    forall r | 0 <= r < |table|
      ensures TickRow(table[r]) == table[r]
    {
    }
  }

  ghost predicate Stage(c: Config, s: SystemState, clock: int, table: seq<seq<BankState>>, q: seq<BusPacket>,
                        queued: seq<Transaction>)
    requires Inputs(c, Spot)
  {
    && Reached(c, Spot, s) && SystemShape(c, s) && Ordinary(s.controller, s.ranks) && AtEase(table)
    && s.clock == clock && s.controller.table == table && s.controller.writes == EMPTY_BUS
    && s.controller.queues == Queues(c, q) && s.controller.ledger.queued == queued
  }

  /** The first transaction that waits joins the queue if that has room. */
  function Joined(c: Config, q: seq<BusPacket>, queued: seq<Transaction>): (seq<BusPacket>, seq<Transaction>) {
    if queued == [] || |q| >= c.queueDepth then (q, queued) else (q + [CommandFor(Spot, queued[0])], queued[1..])
  }

  lemma SchedulingJoins(c: Config, q: seq<BusPacket>, queued: seq<Transaction>)
    requires Inputs(c, Spot) && (queued == [] || |q| < c.queueDepth)
    ensures var (q', queued') := Joined(c, q, queued);
            AfterScheduling(c, Spot, queued, Queues(c, q)) == (queued', Queues(c, q'))
  {
    if queued != [] {
      assert FirstWithRoom(c, Spot, queued, Queues(c, q), 0) == 0;
      assert queued[..0] + queued[1..] == queued[1..];
      assert Queues(c, q)[0 := q + [CommandFor(Spot, queued[0])]] == Queues(c, q + [CommandFor(Spot, queued[0])]);
    }
  }

  lemma Idles(c: Config, s: SystemState, clock: int, table: seq<seq<BankState>>, q: seq<BusPacket>,
              queued: seq<Transaction>)
    returns (s': SystemState)
    requires Inputs(c, Spot) && Stage(c, s, clock, table, q, queued) && (queued == [] || |q| < c.queueDepth)
    ensures var (q', queued') := Joined(c, q, queued); Stage(c, s', clock + 1, table, q', queued')
  {
    NothingTicks(table);
    EmptyTicks(c);
    SchedulingJoins(c, q, queued);
    hide Reached, Ordinary, TickTable, WriteBusTick, AfterScheduling, Queues, Joined;
    s' := CyclePlays(c, Spot, s, None, s.controller.queues);
  }

  lemma {:induction false} Waits(c: Config, s: SystemState, clock: int, table: seq<seq<BankState>>, q: seq<BusPacket>,
                                 n: nat)
    returns (s': SystemState)
    requires Inputs(c, Spot) && Stage(c, s, clock, table, q, [])
    ensures Stage(c, s', clock + n, table, q, [])
    decreases n
  {
    hide Stage;
    s' := s;
    if n > 0 {
      s' := Idles(c, s, clock, table, q, []);
      s' := Waits(c, s', clock + 1, table, q, n - 1);
    }
  }

  /** A command is popped while no transaction waits. */
  lemma PopsCommand(c: Config, s: SystemState, clock: int, table: seq<seq<BankState>>, q: seq<BusPacket>,
                    p: BusPacket, q': seq<BusPacket>)
    returns (s': SystemState)
    requires Inputs(c, Spot) && Stage(c, s, clock, table, q, []) && p.rank == 0 && p.bank == 0 && clock >= 0
    requires p.busPacketType == ACTIVATE || p.busPacketType == READ
    requires TableShape(c, table) && Ready(SB, table[0][0], p, clock)
    requires if p.busPacketType == READ then q == [p] && q' == [] else q' == q && |q| > 0 && p == ActivateFor(q[0])
    ensures Stage(c, s', clock + 1, AfterIssueTable(c, p, clock, table), q', [])
  {
    hide Reached, Ordinary, TickTable, WriteBusTick, AfterScheduling, Queues, Pops, AfterIssueTable, AtEase, Ready;
    NothingTicks(table);
    EmptyTicks(c);
    SchedulingJoins(c, q', []);
    IssueStaysAtEase(c, p, clock, table);
    MayPop(c, s, clock, table, q, p, q');
    s' := CyclePlays(c, Spot, s, Some(p), Queues(c, q'));
  }

  lemma IssueStaysAtEase(c: Config, p: BusPacket, clock: int, table: seq<seq<BankState>>)
    requires c.Valid() && AtEase(table) && (p.busPacketType == ACTIVATE || p.busPacketType == READ)
    ensures AtEase(AfterIssueTable(c, p, clock, table))
  {
  }

  lemma MayPop(c: Config, s: SystemState, clock: int, table: seq<seq<BankState>>, q: seq<BusPacket>, p: BusPacket,
               q': seq<BusPacket>)
    requires Inputs(c, Spot) && Stage(c, s, clock, table, q, []) && p.rank == 0 && p.bank == 0 && clock >= 0
    requires p.busPacketType == ACTIVATE || p.busPacketType == READ
    requires TableShape(c, table) && Ready(SB, table[0][0], p, clock)
    requires if p.busPacketType == READ then q == [p] && q' == [] else q' == q && |q| > 0 && p == ActivateFor(q[0])
    ensures Pops(c, s, Some(p), Queues(c, q'))
  {
    hide Reached, Ordinary;
    NothingTicks(table);
    var queues := Queues(c, q);
    assert queues[0] == q;
    if p.busPacketType == READ {
      assert Without(q, 0) == [] && Free(q, 0);
      assert queues[0 := []] == Queues(c, []);
      assert TakenAt(queues, p, 0, Queues(c, q'));
    }
  }

  lemma Asks(c: Config, s: SystemState, clock: int, table: seq<seq<BankState>>, q: seq<BusPacket>,
             queued: seq<Transaction>, t: Transaction)
    returns (s': SystemState)
    requires Inputs(c, Spot) && Stage(c, s, clock, table, q, queued) && t.transactionType != RETURN_DATA
    ensures Stage(c, s', clock, table, q, queued + [t])
  {
    s' := WithTransaction(s, t);
    assert IsStep(c, Spot, s, Arrives(t), s');
    ReachedStep(c, Spot, s, Arrives(t), s');
  }

  lemma Fences(c: Config, s: SystemState, clock: int, table: seq<seq<BankState>>, q: seq<BusPacket>,
               queued: seq<Transaction>, t: Transaction)
    returns (s': SystemState)
    requires Inputs(c, Spot) && Stage(c, s, clock, table, q, queued + [t])
    ensures Stage(c, s', clock, table, q, queued + [t.(barrier := true)])
  {
    s' := WithBarrier(s);
    assert IsStep(c, Spot, s, Marks, s');
    ReachedStep(c, Spot, s, Marks, s');
    assert (queued + [t])[|queued| := t.(barrier := true)] == queued + [t.(barrier := true)];
  }

  // ---------- its states ----------

  function Fresh(c: Config): seq<seq<BankState>> {
    seq(c.numRanks, _ => seq(c.numBanks, _ => INITIAL_BANK))
  }

  function Opened(c: Config): seq<seq<BankState>>
    requires c.Valid()
  {
    AfterIssueTable(c, ActivateFor(LoadOf(0)), 1, Fresh(c))
  }

  function Read(c: Config): seq<seq<BankState>>
    requires c.Valid()
  {
    AfterIssueTable(c, LoadOf(0), 2 + c.tRCDRD, Opened(c))
  }

  /** The row of address 0 is opened and read; then a READ of the other row waits, and a fence behind it wants
      the row that is open. */
  lemma Play(c: Config, n: nat) returns (s: SystemState)
    requires Inputs(c, Spot) && c.queueDepth >= 2
    ensures Stage(c, s, 5 + c.tRCDRD + n, Read(c), [LoadOf(1), FENCE], [])
  {
    hide Stage, AfterIssueTable, TableShape, Fresh;
    var shut, open, read := Fresh(c), Opened(c), Read(c);
    RowOpens(c);
    Begins(c);
    s := Asks(c, InitialSystem(c), 0, shut, [], [], Load(0));
    assert [] + [Load(0)] == [Load(0)];
    assert [] + [LoadOf(0)] == [LoadOf(0)] && [Load(0)][1..] == [];
    s := Idles(c, s, 0, shut, [], [Load(0)]);
    s := PopsCommand(c, s, 1, shut, [LoadOf(0)], ActivateFor(LoadOf(0)), [LoadOf(0)]);
    s := Waits(c, s, 2, open, [LoadOf(0)], c.tRCDRD);
    s := PopsCommand(c, s, 2 + c.tRCDRD, open, [LoadOf(0)], LoadOf(0), []);
    s := ThenBlocks(c, s, 3 + c.tRCDRD, read);
    s := Waits(c, s, 5 + c.tRCDRD, read, [LoadOf(1), FENCE], n);
  }

  lemma ThenBlocks(c: Config, s: SystemState, clock: int, table: seq<seq<BankState>>) returns (s': SystemState)
    requires Inputs(c, Spot) && c.queueDepth >= 2 && Stage(c, s, clock, table, [], [])
    ensures Stage(c, s', clock + 2, table, [LoadOf(1), FENCE], [])
  {
    hide Stage;
    var t1, t2 := Load(1), Load(2);
    s' := Asks(c, s, clock, table, [], [], t1);
    assert [] + [t1] == [t1];
    s' := Asks(c, s', clock, table, [], [t1], t2);
    s' := Fences(c, s', clock, table, [], [t1], t2);
    var fence := t2.(barrier := true);
    assert [t1] + [fence] == [t1, fence];
    assert [] + [LoadOf(1)] == [LoadOf(1)] && [t1, fence][1..] == [fence];
    s' := Idles(c, s', clock, table, [], [t1, fence]);
    assert [LoadOf(1)] + [FENCE] == [LoadOf(1), FENCE] && [fence][1..] == [];
    s' := Idles(c, s', clock + 1, table, [LoadOf(1)], [fence]);
  }

  lemma Begins(c: Config)
    requires Inputs(c, Spot)
    ensures Stage(c, InitialSystem(c), 0, Fresh(c), [], [])
  {
    RunBegins(c, Spot);
    assert Queues(c, []) == InitialSystem(c).controller.queues;
  }

  lemma RowOpens(c: Config)
    requires c.Valid()
    ensures TableShape(c, Fresh(c)) && Ready(SB, Fresh(c)[0][0], ActivateFor(LoadOf(0)), 1)
    ensures TableShape(c, Opened(c)) && Ready(SB, Opened(c)[0][0], LoadOf(0), 2 + c.tRCDRD)
  {
  }

  // ---------- its end ----------

  lemma AllPassed(c: Config, r: nat, b: nat)
    requires c.Valid() && r < c.numRanks && b < c.numBanks
    ensures |Read(c)| == c.numRanks && |Read(c)[r]| == c.numBanks
    ensures BankClear(Read(c)[r][b], 5 + c.tRCDRD + c.LongWait())
    ensures if r == 0 && b == 0 then Read(c)[r][b].currentBankState == RowActive && Read(c)[r][b].openRowAddress == 0
            else Read(c)[r][b].currentBankState == Idle
  {
  }

  lemma EndIsClear(c: Config, s: SystemState)
    requires Inputs(c, Spot) && c.xaw > 0 && c.totalRowAccesses > 0
    requires Stage(c, s, 5 + c.tRCDRD + c.LongWait(), Read(c), [LoadOf(1), FENCE], [])
    ensures var v := NextView(c, s);
            && v.Shaped() && AllClear(v) && v.table == Read(c) && Hits(v, FENCE)
            && forall b | 0 < b < c.numBanks :: v.table[0][b].currentBankState != RowActive
  {
    hide Reached;
    NothingTicks(Read(c));
    var v := NextView(c, s);
    forall r, b | 0 <= r < c.numRanks && 0 <= b < c.numBanks
      ensures BankClear(v.table[r][b], v.clock)
      ensures v.table[r][b].currentBankState == RowActive <==> r == 0 && b == 0
    {
      AllPassed(c, r, b);
    }
    AllPassed(c, 0, 0);
    hide Read, BankClear, Config.LongWait;
  }

  lemma OthersRest(c: Config, s: SystemState, r: nat)
    requires Inputs(c, Spot) && Stage(c, s, 5 + c.tRCDRD + c.LongWait(), Read(c), [LoadOf(1), FENCE], [])
    requires 0 < r < c.numRanks && NextView(c, s).Shaped()
    ensures s.controller.queues[r] == [] && !NextView(c, s).AnyOpen(r)
  {
    hide Reached;
    NothingTicks(Read(c));
    forall b | 0 <= b < c.numBanks
      ensures NextView(c, s).table[r][b].currentBankState == Idle
    {
      AllPassed(c, r, b);
    }
  }

  lemma FenceBlocks(v: View, queues: seq<seq<BusPacket>>)
    requires v.Shaped() && AllClear(v) && AllQueued(v.c, queues) && queues[0] == [LoadOf(1), FENCE] && Hits(v, FENCE)
    requires forall b | 0 < b < v.c.numBanks :: v.table[0][b].currentBankState != RowActive
    requires forall r | 0 < r < v.c.numRanks :: queues[r] == [] && !v.AnyOpen(r)
    ensures Stuck(v, queues, false, 0)
  {
    StuckExactly(v, queues, false, 0);
    hide Stuck, AllClear, View.AnyOpen;
    assert Unfenced(queues[0], 1);
    assert Blocks(v, queues[0], 0, 1);
  }

  lemma EndQueues(c: Config, s: SystemState)
    requires Inputs(c, Spot) && NextView(c, s).Shaped()
    requires Stage(c, s, 5 + c.tRCDRD + c.LongWait(), Read(c), [LoadOf(1), FENCE], [])
    ensures var queues := s.controller.queues;
            && SystemShape(c, s) && AllQueued(c, queues) && queues[0] == [LoadOf(1), FENCE]
            && forall r | 0 < r < c.numRanks :: queues[r] == [] && !NextView(c, s).AnyOpen(r)
  {
    forall r | 0 < r < c.numRanks
      ensures s.controller.queues[r] == [] && !NextView(c, s).AnyOpen(r)
    {
      OthersRest(c, s, r);
    }
    hide Read, Reached, TickTable, View.AnyOpen, Ordinary, AtEase;
  }

  lemma EndIsBlocked(c: Config, s: SystemState)
    requires Inputs(c, Spot) && c.xaw > 0 && c.totalRowAccesses > 0
    requires Stage(c, s, 5 + c.tRCDRD + c.LongWait(), Read(c), [LoadOf(1), FENCE], [])
    ensures IsBlocked(c, s)
  {
    hide Stage, Read, Config.LongWait, AllClear, TickTable, Stuck, View.AnyOpen, Hits, AllQueued, SystemShape;
    EndIsClear(c, s);
    EndQueues(c, s);
    FenceBlocks(NextView(c, s), s.controller.queues);
  }

  // ---------- where it cannot be reached ----------

  /** No queue outgrows its depth. */
  predicate Bounded(c: Config, queues: seq<seq<BusPacket>>) {
    |queues| == c.numRanks && forall r | 0 <= r < c.numRanks :: |queues[r]| <= c.queueDepth
  }

  lemma SchedulingStaysBounded(c: Config, locate: nat -> Location, queued: seq<Transaction>,
                               queues: seq<seq<BusPacket>>)
    requires Inputs(c, locate) && Bounded(c, queues)
    ensures Bounded(c, AfterScheduling(c, locate, queued, queues).1)
  {
    QueueHistory.RoomWhereFound(c, locate, queued, queues, 0);
  }

  lemma CycleStaysBounded(c: Config, locate: nat -> Location, s: SystemState, choice: Choice)
    requires Inputs(c, locate) && SystemShape(c, s) && Allowed(c, s, choice) && Cycle(c, locate, s, choice).Success?
    requires Bounded(c, s.controller.queues)
    ensures Bounded(c, Cycle(c, locate, s, choice).value.controller.queues)
  {
    QueueHistory.CycleQueues(c, locate, s, choice);
    hide Cycle, MayIssue, AfterScheduling, Allowed;
    var queues := QueueHistory.Popped(s, choice);
    if choice.popped.Some? {
      var p := choice.popped.value;
      var table, modes :| TableShape(c, table) && |modes| == c.numRanks
                          && MayIssue(c, table, modes, s.clock, s.controller.queues, p, choice.queues);
      PopStaysBounded(c, table, modes, s.clock, s.controller.queues, p, choice.queues);
    }
    SchedulingStaysBounded(c, locate, s.controller.ledger.queued, queues);
  }

  lemma PopStaysBounded(c: Config, table: seq<seq<BankState>>, modes: seq<DramMode>, clock: int,
                        queues: seq<seq<BusPacket>>, p: BusPacket, queues': seq<seq<BusPacket>>)
    requires TableShape(c, table) && |modes| == |queues| == |queues'| == c.numRanks
    requires MayIssue(c, table, modes, clock, queues, p, queues') && Bounded(c, queues)
    ensures Bounded(c, queues')
  {
  }

  lemma {:induction false} RunStaysBounded(c: Config, locate: nat -> Location, states: seq<SystemState>,
                                           events: seq<Event>, n: nat)
    requires Inputs(c, locate) && IsRun(c, locate, states, events) && n < |states|
    ensures Bounded(c, states[n].controller.queues)
  {
    hide Cycle, Allowed, Fittingly;
    if n > 0 {
      RunStaysBounded(c, locate, states, events, n - 1);
      assert IsStep(c, locate, states[n - 1], events[n - 1], states[n - 1 + 1]);
      if events[n - 1].Cycles? {
        CycleStaysBounded(c, locate, states[n - 1], events[n - 1].choice);
      }
    }
  }

  /** A fence can block a queue for good if and only if the queue has room for a packet behind its head. */
  lemma BlocksExactly(c: Config)
    requires c.Valid() && c.xaw > 0 && c.totalRowAccesses > 0
    ensures CanBlock(c) <==> c.queueDepth >= 2
  {
    if c.queueDepth >= 2 {
      var s := Play(c, c.LongWait());
      EndIsBlocked(c, s);
    }
    if CanBlock(c) {
      var locate, s :| Inputs(c, locate) && Reached(c, locate, s) && IsBlocked(c, s);
      var states, events :| IsRun(c, locate, states, events) && states[|events|] == s;
      RunStaysBounded(c, locate, states, events, |events|);
      StuckExactly(NextView(c, s), s.controller.queues, false, 0);
      var r :| 0 <= r < c.numRanks && s.controller.queues[r] != [];
      assert Resting(NextView(c, s), s.controller.queues[r], r);
    }
  }
}
