/**
 * The data bus that all ranks share for writes. Runs are free of clashes on it whenever the delays fit; here
 * is the run that clashes when they do not: a second rank opens its row right after the write of the first.
 */
module SharedBus {
  import opened Arithmetic
  import opened Dram
  import opened CommandQueueModel
  import opened RankModel
  import opened MemoryControllerModel
  import opened MemorySystemModel
  import opened RunStages
  import opened Runs

  /** Some run of the system ends with its write bursts clashing. */
  ghost predicate CanClash(c: Config)
    requires c.Valid()
  {
    exists locate: nat -> Location, states: seq<SystemState>, events: seq<Event>, choice: Choice ::
      Clashes(c, locate, states, events, choice)
  }

  ghost predicate Clashes(c: Config, locate: nat -> Location, states: seq<SystemState>, events: seq<Event>,
                          choice: Choice)
    requires c.Valid()
  {
    && Inputs(c, locate) && IsRun(c, locate, states, events)
    && var s := states[|events|];
       && SystemShape(c, s) && Allowed(c, s, choice)
       && Cycle(c, locate, s, choice) == Failure(DataBusCollision)
  }

  // ---------- the run ----------

  /** One place in each of the first two ranks. */
  function Place(address: nat): Location {
    Location(if address == 1 then 1 else 0, 0, 0, 0)
  }

  function Store(rank: nat): Transaction {
    Transaction(DATA_WRITE, rank, 0, false)
  }

  function StoreTo(rank: nat): BusPacket {
    BusPacket(WRITE, rank, 0, 0, rank, 0, 0, false)
  }

  function Payload(rank: nat): BusPacket {
    StoreTo(rank).(busPacketType := DATA)
  }

  /** What matters of a reached state: the write path, the first banks of two ranks and their queues. */
  ghost predicate Stage(c: Config, s: SystemState, clock: int, w: WriteBus, b0: BankState, b1: BankState,
                        q0: seq<BusPacket>, q1: seq<BusPacket>, queued: seq<Transaction>)
    requires c.Valid() && c.numRanks >= 2
  {
    && Reached(c, Place, s) && SystemShape(c, s) && Ordinary(s.controller, s.ranks)
    && s.clock == clock && s.controller.writes == w && s.controller.ledger.queued == queued
    && s.controller.table[0][0] == b0 && s.controller.table[1][0] == b1
    && s.controller.queues[0] == q0 && s.controller.queues[1] == q1
  }

  /** The clash: the burst at the head is due while another one is still on the bus. */
  lemma CycleClashes(c: Config, s: SystemState) returns (choice: Choice)
    requires c.Valid() && c.numRanks >= 2 && Reached(c, Place, s)
    requires WriteBusTick(c, s.controller.writes) == Failure(DataBusCollision)
    ensures CanClash(c)
  {
    ReachedIsSafe(c, Place, s);
    choice := Choice(None, s.controller.queues, HAB);
    CycleAllowed(c, s, None, s.controller.queues);
    FirstHalfGoes(c, s, HAB);
    var states, events :| IsRun(c, Place, states, events) && states[|events|] == s;
    assert Clashes(c, Place, states, events, choice);
  }

  // ---------- its stages ----------

  /** The queue of a rank after the scheduling of at most one transaction. */
  function Joined(q: seq<BusPacket>, queued: seq<Transaction>, rank: nat): seq<BusPacket> {
    if queued == [Store(rank)] then q + [StoreTo(rank)] else q
  }

  lemma SchedulingJoins(c: Config, queued: seq<Transaction>, queues: seq<seq<BusPacket>>)
    requires c.Valid() && c.numRanks >= 2 && |queues| == c.numRanks && Inputs(c, Place)
    requires queued == [] || exists r: nat :: r < 2 && queued == [Store(r)] && |queues[r]| < c.queueDepth
    ensures var (queued', queues') := AfterScheduling(c, Place, queued, queues);
            && queued' == [] && |queues'| == c.numRanks
            && queues'[0] == Joined(queues[0], queued, 0) && queues'[1] == Joined(queues[1], queued, 1)
  {
    if queued != [] {
      var r: nat :| r < 2 && queued == [Store(r)] && |queues[r]| < c.queueDepth;
      assert FirstWithRoom(c, Place, queued, queues, 0) == 0;
      assert CommandFor(Place, Store(r)) == StoreTo(r);
      assert queued[..0] + queued[1..] == [];
    }
  }

  lemma NoneJoins(c: Config, q: seq<BusPacket>)
    ensures Joined(q, [], 0) == Joined(q, [], 1) == q
  {
  }

  function BankAfter(c: Config, b: BankState, popped: Option<BusPacket>, clock: int, rank: nat): BankState
    requires c.Valid()
  {
    if popped.None? then TickBank(b) else AfterIssue(c, popped.value, clock, rank, 0, TickBank(b))
  }

  function WritesAfter(c: Config, w: WriteBus, popped: Option<BusPacket>): WriteBus {
    if popped.None? then w else WriteAnnounced(c, w, popped.value)
  }

  lemma StageCycle(c: Config, s: SystemState, clock: int, w: WriteBus, b0: BankState, b1: BankState,
                   q0: seq<BusPacket>, q1: seq<BusPacket>, queued: seq<Transaction>,
                   popped: Option<BusPacket>, queues: seq<seq<BusPacket>>)
    returns (s': SystemState)
    requires c.Valid() && c.numRanks >= 2 && Stage(c, s, clock, w, b0, b1, q0, q1, queued)
    requires Pops(c, s, popped, queues) && (popped.None? ==> queues == s.controller.queues)
    requires WriteBusTick(c, w).Success?
    requires queued == [] || exists r: nat :: r < 2 && queued == [Store(r)] && |queues[r]| < c.queueDepth
    ensures Stage(c, s', clock + 1, WritesAfter(c, WriteBusTick(c, w).value, popped),
                  BankAfter(c, b0, popped, clock, 0), BankAfter(c, b1, popped, clock, 1),
                  Joined(queues[0], queued, 0), Joined(queues[1], queued, 1), [])
  {
    hide Ordinary, MayIssue, WriteBusTick, WriteAnnounced, AfterIssueTable, TickTable;
    s' := CyclePlays(c, Place, s, popped, queues);
    SchedulingJoins(c, queued, queues);
    hide Reached, Ordinary, AfterScheduling, Joined, MayIssue, WriteBusTick, WriteAnnounced, AfterIssue, TickBank, Pops,
         Place, TickTable, AfterIssueTable, BankAfter;
    FirstBanks(c, s, popped, s'.controller.table, clock);
  }

  lemma FirstBanks(c: Config, s: SystemState, popped: Option<BusPacket>, table: seq<seq<BankState>>, clock: int)
    requires c.Valid() && c.numRanks >= 2 && SystemShape(c, s)
    requires var m := TickTable(s.controller.table);
             table == if popped.None? then m else AfterIssueTable(c, popped.value, clock, m)
    ensures table[0][0] == BankAfter(c, s.controller.table[0][0], popped, clock, 0)
    ensures table[1][0] == BankAfter(c, s.controller.table[1][0], popped, clock, 1)
  {
    hide AfterIssue, TickBank;
  }

  lemma StageIdle(c: Config, s: SystemState, clock: int, w: WriteBus, b0: BankState, b1: BankState,
                  q0: seq<BusPacket>, q1: seq<BusPacket>, queued: seq<Transaction>)
    returns (s': SystemState)
    requires c.Valid() && c.numRanks >= 2 && Stage(c, s, clock, w, b0, b1, q0, q1, queued)
    requires WriteBusTick(c, w).Success?
    requires queued == [] || (queued == [Store(0)] && q0 == [] && c.queueDepth >= 1)
    ensures Stage(c, s', clock + 1, WriteBusTick(c, w).value, TickBank(b0), TickBank(b1),
                  Joined(q0, queued, 0), Joined(q1, queued, 1), [])
  {
    if queued != [] {
      assert 0 < 2 && queued == [Store(0)] && |s.controller.queues[0]| < c.queueDepth;
    }
    s' := StageCycle(c, s, clock, w, b0, b1, q0, q1, queued, None, s.controller.queues);
  }

  /** A row is active for the packet that waits in the queue of a rank. */
  lemma StageOpen(c: Config, s: SystemState, clock: int, w: WriteBus, b0: BankState, b1: BankState,
                  q0: seq<BusPacket>, q1: seq<BusPacket>, rank: nat)
    returns (s': SystemState)
    requires c.Valid() && c.numRanks >= 2 && Stage(c, s, clock, w, b0, b1, q0, q1, []) && rank < 2
    requires WriteBusTick(c, w).Success?
    requires (if rank == 0 then q0 else q1) == [StoreTo(rank)]
    requires (if rank == 0 then b0 else b1) == INITIAL_BANK && clock >= 0
    ensures Stage(c, s', clock + 1, WriteBusTick(c, w).value,
                  BankAfter(c, b0, Some(ActivateFor(StoreTo(rank))), clock, 0),
                  BankAfter(c, b1, Some(ActivateFor(StoreTo(rank))), clock, 1), q0, q1, [])
  {
    var p := ActivateFor(StoreTo(rank));
    var queues := s.controller.queues;
    assert queues[rank][0] == StoreTo(rank);
    assert TickTable(s.controller.table)[rank][0] == INITIAL_BANK;
    assert Pops(c, s, Some(p), queues);
    s' := StageCycle(c, s, clock, w, b0, b1, q0, q1, [], Some(p), queues);
  }

  /** The packet that waits in the queue of a rank leaves it; a transaction may be scheduled in the same cycle. */
  lemma StageWrite(c: Config, s: SystemState, clock: int, w: WriteBus, b0: BankState, b1: BankState,
                   q0: seq<BusPacket>, q1: seq<BusPacket>, queued: seq<Transaction>, rank: nat)
    returns (s': SystemState)
    requires c.Valid() && c.numRanks >= 2 && Stage(c, s, clock, w, b0, b1, q0, q1, queued) && rank < 2
    requires WriteBusTick(c, w).Success? && c.queueDepth >= 1
    requires queued == [] || (rank == 0 && queued == [Store(1)] && q1 == [])
    requires (if rank == 0 then q0 else q1) == [StoreTo(rank)]
    requires var b := if rank == 0 then b0 else b1;
             && b.stateChangeCountdown == 0 && b.currentBankState == RowActive && b.openRowAddress == 0
             && b.nextWrite <= clock
    ensures Stage(c, s', clock + 1, WriteAnnounced(c, WriteBusTick(c, w).value, StoreTo(rank)),
                  BankAfter(c, b0, Some(StoreTo(rank)), clock, 0), BankAfter(c, b1, Some(StoreTo(rank)), clock, 1),
                  if rank == 0 then [] else q0, if rank == 1 then [] else Joined(q1, queued, 1), [])
  {
    var p := StoreTo(rank);
    WritePops(c, s, rank, if rank == 0 then b0 else b1, clock);
    var queues := s.controller.queues[rank := []];
    if queued != [] {
      assert 1 < 2 && queued == [Store(1)] && |queues[1]| < c.queueDepth;
    }
    hide Pops, Reached, Ordinary, WriteBusTick, WriteAnnounced, BankAfter, Shaped;
    s' := StageCycle(c, s, clock, w, b0, b1, q0, q1, queued, Some(p), queues);
  }

  lemma WritePops(c: Config, s: SystemState, rank: nat, b: BankState, clock: int)
    requires c.Valid() && c.numRanks >= 2 && SystemShape(c, s) && rank < 2 && s.clock == clock
    requires s.controller.queues[rank] == [StoreTo(rank)] && s.controller.table[rank][0] == b
    requires b.stateChangeCountdown == 0 && b.currentBankState == RowActive && b.openRowAddress == 0
    requires b.nextWrite <= clock
    ensures Pops(c, s, Some(StoreTo(rank)), s.controller.queues[rank := []])
  {
    var q := s.controller.queues[rank];
    assert Without(q, 0) == [];
    assert TakenAt(s.controller.queues, StoreTo(rank), 0, s.controller.queues[rank := []]);
    assert TickTable(s.controller.table)[rank][0] == b;
  }

  lemma StageArrival(c: Config, s: SystemState, clock: int, w: WriteBus, b0: BankState, b1: BankState,
                     q0: seq<BusPacket>, q1: seq<BusPacket>, rank: nat)
    returns (s': SystemState)
    requires c.Valid() && c.numRanks >= 2 && Stage(c, s, clock, w, b0, b1, q0, q1, []) && rank < 2
    ensures Stage(c, s', clock, w, b0, b1, q0, q1, [Store(rank)])
  {
    s' := WithTransaction(s, Store(rank));
    assert IsStep(c, Place, s, Arrives(Store(rank)), s');
    ReachedStep(c, Place, s, Arrives(Store(rank)), s');
    assert [] + [Store(rank)] == [Store(rank)];
  }

  // ---------- the write path meanwhile ----------

  /** The write path `k` cycles after the first write, the second one following `d` + 1 cycles after it. */
  function Pipe(c: Config, d: nat, k: nat): WriteBus {
    var first := k < c.wl;
    var second := k >= d + 1;
    WriteBus((if first then [Payload(0)] else []) + (if second then [Payload(1)] else []),
             (if first then [c.wl - k] else []) + (if second then [c.wl - (k - d - 1)] else []),
             if first then None else Some(Payload(0)), if first then 0 else c.Burst() - (k - c.wl))
  }

  lemma PipeTicks(c: Config, d: nat, k: nat)
    requires c.Valid() && d >= 1 && d + 1 < c.Burst() && k < d + c.wl
    ensures var r := WriteBusTick(c, Pipe(c, d, k));
            && r.Success?
            && (if k == d then WriteAnnounced(c, r.value, StoreTo(1)) else r.value) == Pipe(c, d, k + 1)
  {
    if k < c.wl {
      BeforeBus(c, d, k);
    } else {
      OnBus(c, d, k);
    }
  }

  /** The first burst still waits. */
  lemma BeforeBus(c: Config, d: nat, k: nat)
    requires c.Valid() && d >= 1 && d + 1 < c.Burst() && k < c.wl
    ensures var r := WriteBusTick(c, Pipe(c, d, k));
            && r.Success?
            && (if k == d then WriteAnnounced(c, r.value, StoreTo(1)) else r.value) == Pipe(c, d, k + 1)
  {
    var w := Pipe(c, d, k);
    var left := Decremented(w.countdown);
    if k < d + 1 {
      assert w.countdown == [c.wl - k] && left == [c.wl - k - 1];
    } else {
      assert w.countdown == [c.wl - k, c.wl - (k - d - 1)] && left == [c.wl - k - 1, c.wl - (k - d - 1) - 1];
    }
    if k + 1 == c.wl {
      assert left[1..] == if k < d + 1 then [] else [c.wl - (k - d - 1) - 1];
      assert w.waiting[1..] == if k < d + 1 then [] else [Payload(1)];
    }
  }

  /** It is on the bus, and will be for the rest of the run. */
  lemma OnBus(c: Config, d: nat, k: nat)
    requires c.Valid() && d >= 1 && d + 1 < c.Burst() && c.wl <= k < d + c.wl
    ensures var r := WriteBusTick(c, Pipe(c, d, k));
            && r.Success?
            && (if k == d then WriteAnnounced(c, r.value, StoreTo(1)) else r.value) == Pipe(c, d, k + 1)
  {
    var w := Pipe(c, d, k);
    var left := Decremented(w.countdown);
    if k < d + 1 {
      assert w.countdown == [] && left == [];
    } else {
      assert w.countdown == [c.wl - (k - d - 1)] && left == [c.wl - (k - d - 1) - 1];
    }
  }

  lemma PipeClashes(c: Config, d: nat)
    requires c.Valid() && d >= 1 && d + 1 < c.Burst()
    ensures WriteBusTick(c, Pipe(c, d, d + c.wl)) == Failure(DataBusCollision)
  {
  }

  // ---------- the clash ----------

  lemma {:induction false} EmptyIdles(c: Config, s: SystemState, clock: int, b0: BankState, q0: seq<BusPacket>, n: nat)
    returns (s': SystemState)
    requires c.Valid() && c.numRanks >= 2 && Stage(c, s, clock, EMPTY_BUS, b0, INITIAL_BANK, q0, [], [])
    requires b0.stateChangeCountdown == 0
    ensures Stage(c, s', clock + n, EMPTY_BUS, b0, INITIAL_BANK, q0, [], [])
    decreases n
  {
    hide Stage, WriteBusTick, Joined;
    NoneJoins(c, []);
    NoneJoins(c, q0);
    if n == 0 {
      s' := s;
    } else {
      EmptyTicks(c);
      var next := StageIdle(c, s, clock, EMPTY_BUS, b0, INITIAL_BANK, q0, [], []);
      s' := EmptyIdles(c, next, clock + 1, b0, q0, n - 1);
    }
  }

  /** Cycles of the pipe in which the second write is not popped. */
  lemma {:induction false} PipeIdles(c: Config, s: SystemState, clock: int, d: nat, k: nat, n: nat,
                                     b0: BankState, b1: BankState, q1: seq<BusPacket>)
    returns (s': SystemState)
    requires c.Valid() && c.numRanks >= 2 && d >= 1 && d + 1 < c.Burst()
    requires k + n <= d + c.wl && (k > d || k + n <= d)
    requires Stage(c, s, clock, Pipe(c, d, k), b0, b1, [], q1, [])
    requires b0.stateChangeCountdown == 0 && b1.stateChangeCountdown == 0
    ensures Stage(c, s', clock + n, Pipe(c, d, k + n), b0, b1, [], q1, [])
    decreases n
  {
    hide Pipe, Stage, WriteBusTick, WriteAnnounced, Joined;
    NoneJoins(c, []);
    NoneJoins(c, q1);
    if n == 0 {
      s' := s;
    } else {
      PipeTicks(c, d, k);
      var next := StageIdle(c, s, clock, Pipe(c, d, k), b0, b1, [], q1, []);
      s' := PipeIdles(c, next, clock + 1, d, k + 1, n - 1, b0, b1, q1);
    }
  }

  /** The first write: it waits for its row, and the second transaction arrives as it leaves. */
  lemma FirstWrite(c: Config, d: nat) returns (s: SystemState, b0: BankState)
    requires c.Valid() && c.numRanks >= 2 && c.queueDepth >= 1
    requires d == Max(1, c.tRCDWR - c.al) && d + 1 < c.Burst()
    ensures b0.stateChangeCountdown == 0
    ensures Stage(c, s, d + 2, Pipe(c, d, 0), b0, INITIAL_BANK, [], [StoreTo(1)], [])
  {
    hide Stage, WriteBusTick, WriteAnnounced, Pipe, AfterIssue, InitialSystem;
    var s0 := InitialSystem(c);
    Begins(c);
    EmptyTicks(c);
    FirstRowOpened(c);
    assert Joined([], [Store(0)], 0) == [StoreTo(0)] && Joined([], [Store(0)], 1) == [];
    assert Joined([], [Store(1)], 1) == [StoreTo(1)];
    var s1 := StageArrival(c, s0, 0, EMPTY_BUS, INITIAL_BANK, INITIAL_BANK, [], [], 0);
    var s2 := StageIdle(c, s1, 0, EMPTY_BUS, INITIAL_BANK, INITIAL_BANK, [], [], [Store(0)]);
    var active := BankAfter(c, INITIAL_BANK, Some(ActivateFor(StoreTo(0))), 1, 0);
    var s3 := StageOpen(c, s2, 1, EMPTY_BUS, INITIAL_BANK, INITIAL_BANK, [StoreTo(0)], [], 0);
    var s4 := EmptyIdles(c, s3, 2, active, [StoreTo(0)], d - 1);
    var s5 := StageArrival(c, s4, d + 1, EMPTY_BUS, active, INITIAL_BANK, [StoreTo(0)], [], 1);
    s := StageWrite(c, s5, d + 1, EMPTY_BUS, active, INITIAL_BANK, [StoreTo(0)], [], [Store(1)], 0);
    b0 := BankAfter(c, active, Some(StoreTo(0)), d + 1, 0);
    FirstAnnounced(c, d);
  }

  lemma FirstRowOpened(c: Config)
    requires c.Valid()
    ensures var b := BankAfter(c, INITIAL_BANK, Some(ActivateFor(StoreTo(0))), 1, 0);
            && b.currentBankState == RowActive && b.openRowAddress == 0 && b.stateChangeCountdown == 0
            && b.nextWrite <= 1 + Max(1, c.tRCDWR - c.al)
    ensures BankAfter(c, INITIAL_BANK, Some(ActivateFor(StoreTo(0))), 1, 1) == INITIAL_BANK
    ensures forall b: BankState, clock :: b.stateChangeCountdown == 0 ==>
              BankAfter(c, b, Some(StoreTo(0)), clock, 0).stateChangeCountdown == 0
    ensures forall clock :: BankAfter(c, INITIAL_BANK, Some(StoreTo(0)), clock, 1) == INITIAL_BANK
  {
  }

  lemma FirstAnnounced(c: Config, d: nat)
    requires c.Valid() && d >= 1
    ensures WriteAnnounced(c, EMPTY_BUS, StoreTo(0)) == Pipe(c, d, 0)
  {
  }

  lemma Begins(c: Config)
    requires c.Valid() && c.numRanks >= 2
    ensures Stage(c, InitialSystem(c), 0, EMPTY_BUS, INITIAL_BANK, INITIAL_BANK, [], [], [])
  {
    RunBegins(c, Place);
  }

  /** The second write follows as soon as its own row lets it, and is due on the bus before the first is done. */
  lemma SecondWriteClashes(c: Config, d: nat, s: SystemState, b0: BankState)
    requires c.Valid() && c.numRanks >= 2 && c.queueDepth >= 1
    requires d == Max(1, c.tRCDWR - c.al) && d + 1 < c.Burst()
    requires b0.stateChangeCountdown == 0
    requires Stage(c, s, d + 2, Pipe(c, d, 0), b0, INITIAL_BANK, [], [StoreTo(1)], [])
    ensures CanClash(c)
  {
    hide BankAfter, Pipe, WriteBusTick, WriteAnnounced, Stage, AfterIssue, CanClash;
    var open, write := Some(ActivateFor(StoreTo(1))), Some(StoreTo(1));
    var active := BankAfter(c, INITIAL_BANK, open, d + 2, 1);
    RowOpened(c, d + 2);
    PipeTicks(c, d, 0);
    var s1 := StageOpen(c, s, d + 2, Pipe(c, d, 0), b0, INITIAL_BANK, [], [StoreTo(1)], 1);
    var b1 := BankAfter(c, b0, open, d + 2, 0);
    NoCountdown(c, b0, open, d + 2, 0);
    var s2 := PipeIdles(c, s1, d + 3, d, 1, d - 1, b1, active, [StoreTo(1)]);
    PipeTicks(c, d, d);
    var s3 := StageWrite(c, s2, 2 * d + 2, Pipe(c, d, d), b1, active, [], [StoreTo(1)], [], 1);
    var b2, last := BankAfter(c, b1, write, 2 * d + 2, 0), BankAfter(c, active, write, 2 * d + 2, 1);
    NoCountdown(c, b1, write, 2 * d + 2, 0);
    NoCountdown(c, active, write, 2 * d + 2, 1);
    var s4 := PipeIdles(c, s3, 2 * d + 3, d, d + 1, c.wl - 1, b2, last, []);
    StageClashes(c, s4, d, 2 * d + 2 + c.wl, b2, last);
  }

  lemma StageClashes(c: Config, s: SystemState, d: nat, clock: int, b0: BankState, b1: BankState)
    requires c.Valid() && c.numRanks >= 2 && d >= 1 && d + 1 < c.Burst()
    requires Stage(c, s, clock, Pipe(c, d, d + c.wl), b0, b1, [], [], [])
    ensures CanClash(c)
  {
    hide CanClash, Pipe, WriteBusTick;
    PipeClashes(c, d);
    var choice := CycleClashes(c, s);
  }

  lemma RowOpened(c: Config, clock: int)
    requires c.Valid() && clock >= 0
    ensures var b := BankAfter(c, INITIAL_BANK, Some(ActivateFor(StoreTo(1))), clock, 1);
            && b.currentBankState == RowActive && b.openRowAddress == 0 && b.stateChangeCountdown == 0
            && b.nextWrite <= clock + Max(1, c.tRCDWR - c.al)
  {
  }

  lemma NoCountdown(c: Config, b: BankState, popped: Option<BusPacket>, clock: int, rank: nat)
    requires c.Valid() && b.stateChangeCountdown == 0
    requires popped.Some? && (popped.value.busPacketType == ACTIVATE || popped.value.busPacketType == WRITE)
    ensures BankAfter(c, b, popped, clock, rank).stateChangeCountdown == 0
  {
  }

  /** Write bursts can clash on the shared bus if and only if the delays do not fit it. */
  lemma ClashesExactly(c: Config)
    requires c.Valid() && c.queueDepth >= 1
    ensures CanClash(c) <==> !c.SharedBusFits()
  {
    if CanClash(c) {
      var locate, states, events, choice :| Clashes(c, locate, states, events, choice);
      RunNeverExits(c, locate, states, events, choice);
    }
    if !c.SharedBusFits() {
      var d: nat := Max(1, c.tRCDWR - c.al);
      var s, b0 := FirstWrite(c, d);
      SecondWriteClashes(c, d, s, b0);
    }
  }
}
