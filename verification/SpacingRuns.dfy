/**
 * Runs in which two commands are as close as they can be where a bound on their distance is missed: a row
 * closed, refreshed and opened again, and a rank that opens its row right after the access to another one.
 */
module SpacingRuns {
  import opened Dram
  import opened CommandQueueModel
  import opened MemoryControllerModel
  import opened MemorySystemModel
  import opened SystemSafety
  import opened Runs
  import opened RunStages
  import opened Spacing

  // ---------- a run that remembers one of its commands ----------

  /** Some run ends in this state and issued the command in that cycle. */
  ghost predicate Issued(c: Config, locate: nat -> Location, s: SystemState, p: BusPacket, t: int)
    requires Inputs(c, locate)
  {
    exists states: seq<SystemState>, events: seq<Event>, i: nat :: IssuedAt(c, locate, states, events, i, s, p, t)
  }

  ghost predicate IssuedAt(c: Config, locate: nat -> Location, states: seq<SystemState>, events: seq<Event>, i: nat,
                           s: SystemState, p: BusPacket, t: int)
    requires Inputs(c, locate)
  {
    && IsRun(c, locate, states, events) && states[|events|] == s && i < |events|
    && Sends(events[i], p) && states[i].clock == t
  }

  lemma StillIssued(c: Config, locate: nat -> Location, s: SystemState, e: Event, s': SystemState, p: BusPacket,
                    t: int)
    requires Inputs(c, locate) && Issued(c, locate, s, p, t) && IsStep(c, locate, s, e, s')
    ensures Issued(c, locate, s', p, t)
  {
    var states, events, i: nat :| IssuedAt(c, locate, states, events, i, s, p, t);
    RunGoesOn(c, locate, states, events, e, s');
    hide IsStep;
    assert IssuedAt(c, locate, states + [s'], events + [e], i, s', p, t);
  }

  lemma NewlyIssued(c: Config, locate: nat -> Location, s: SystemState, e: Event, s': SystemState, p: BusPacket)
    requires Inputs(c, locate) && Reached(c, locate, s) && IsStep(c, locate, s, e, s') && Sends(e, p)
    ensures Issued(c, locate, s', p, s.clock)
  {
    var states, events :| IsRun(c, locate, states, events) && states[|events|] == s;
    RunGoesOn(c, locate, states, events, e, s');
    hide IsStep;
    assert IssuedAt(c, locate, states + [s'], events + [e], |events|, s', p, s.clock);
  }

  lemma BothIssued(c: Config, locate: nat -> Location, s: SystemState, e: Event, s': SystemState, p: BusPacket, t: int,
                   q: BusPacket)
    requires Inputs(c, locate) && Issued(c, locate, s, p, t) && IsStep(c, locate, s, e, s') && Sends(e, q)
    ensures Happens(c, p, t, q, s.clock)
  {
    var states, events, i: nat :| IssuedAt(c, locate, states, events, i, s, p, t);
    RunGoesOn(c, locate, states, events, e, s');
    hide IsStep;
    assert Follow(c, locate, states + [s'], events + [e], i, p, t, |events|, q, s.clock);
  }

  // ---------- playing on ----------

  /** At most one write burst is under way. */
  ghost predicate LightBus(w: WriteBus) {
    |w.waiting| == |w.countdown| && |w.waiting| + (if w.onBus.Some? then 1 else 0) <= 1
  }

  ghost predicate IdleBus(w: WriteBus) {
    w.waiting == [] && w.countdown == [] && w.onBus.None?
  }

  lemma LightBusTicks(c: Config, w: WriteBus)
    requires LightBus(w)
    ensures WriteBusTick(c, w).Success? && LightBus(WriteBusTick(c, w).value)
    ensures IdleBus(w) ==> IdleBus(WriteBusTick(c, w).value)
  {
  }

  lemma BusAnnounced(c: Config, w: WriteBus, p: BusPacket)
    requires LightBus(w)
    ensures p.busPacketType != WRITE ==> WriteAnnounced(c, w, p) == w
    ensures IdleBus(w) ==> LightBus(WriteAnnounced(c, w, p))
  {
  }

  /** A state to go on from: nothing waits to be scheduled, every row address in sight is 0. */
  ghost predicate Playing(c: Config, locate: nat -> Location, s: SystemState)
    requires Inputs(c, locate)
  {
    && Reached(c, locate, s) && SystemShape(c, s) && Ordinary(s.controller, s.ranks)
    && LightBus(s.controller.writes) && s.controller.ledger.queued == []
  }

  ghost predicate Flat(locate: nat -> Location) {
    forall a :: locate(a).row == locate(a).column == 0
  }

  lemma NothingScheduled(c: Config, locate: nat -> Location, queues: seq<seq<BusPacket>>)
    requires Inputs(c, locate) && |queues| == c.numRanks
    ensures AfterScheduling(c, locate, [], queues) == ([], queues)
  {
  }

  /** One more command. Whatever was issued before is now followed by it. */
  lemma Plays(c: Config, locate: nat -> Location, s: SystemState, p: BusPacket, queues: seq<seq<BusPacket>>)
    returns (s': SystemState)
    requires Inputs(c, locate) && Flat(locate) && Playing(c, locate, s) && Pops(c, s, Some(p), queues)
    ensures (p.busPacketType == WRITE ==> IdleBus(s.controller.writes)) ==> Playing(c, locate, s')
    ensures s'.clock == s.clock + 1 && s'.controller.queues == queues
    ensures s'.controller.table == AfterIssueTable(c, p, s.clock, TickTable(s.controller.table))
    ensures p.busPacketType != WRITE && IdleBus(s.controller.writes) ==> IdleBus(s'.controller.writes)
    ensures Issued(c, locate, s', p, s.clock)
    ensures forall p', t | Issued(c, locate, s, p', t) ::
              Issued(c, locate, s', p', t) && Happens(c, p', t, p, s.clock)
  {
    LightBusTicks(c, s.controller.writes);
    BusAnnounced(c, WriteBusTick(c, s.controller.writes).value, p);
    NothingScheduled(c, locate, queues);
    hide Issued, Happens, Pops, IsStep, AfterScheduling, LightBus, IdleBus, WriteBusTick, WriteAnnounced,
         AfterIssueTable, TickTable, Reached, Ordinary, SystemShape;
    s' := CyclePlays(c, locate, s, Some(p), queues);
    var e := Cycles(Choice(Some(p), queues, HAB));
    NewlyIssued(c, locate, s, e, s', p);
    forall p', t | Issued(c, locate, s, p', t)
      ensures Issued(c, locate, s', p', t) && Happens(c, p', t, p, s.clock)
    {
      StillIssued(c, locate, s, e, s', p', t);
      BothIssued(c, locate, s, e, s', p', t, p);
    }
  }

  // ---------- cycles in which nothing is issued ----------

  /** Waiting changes no deadline, and opens no row. */
  ghost predicate Rested(x: BankState, x': BankState) {
    && x' == x.(currentBankState := x'.currentBankState, stateChangeCountdown := x'.stateChangeCountdown)
    && (x'.currentBankState == RowActive <==> x.currentBankState == RowActive)
    && (x.currentBankState == Idle || x.currentBankState == Refreshing ==>
          x'.currentBankState == Idle || x'.currentBankState == Refreshing)
  }

  ghost predicate AllRested(c: Config, table: seq<seq<BankState>>, table': seq<seq<BankState>>) {
    && TableShape(c, table) && TableShape(c, table')
    && forall r, b | 0 <= r < c.numRanks && 0 <= b < c.numBanks :: Rested(table[r][b], table'[r][b])
  }

  lemma TickRests(c: Config, locate: nat -> Location, s: SystemState)
    requires Inputs(c, locate) && Playing(c, locate, s)
    ensures AllRested(c, s.controller.table, TickTable(s.controller.table))
  {
    ReachedIsSafe(c, locate, s);
    var table := s.controller.table;
    forall r, b | 0 <= r < c.numRanks && 0 <= b < c.numBanks
      ensures Rested(table[r][b], TickTable(table)[r][b])
    {
      assert RankInSync(c, s.controller, s.ranks[r], s.clock, r);
    }
  }

  lemma RestedAgain(c: Config, table: seq<seq<BankState>>, table': seq<seq<BankState>>, table'': seq<seq<BankState>>)
    requires AllRested(c, table, table') && AllRested(c, table', table'')
    ensures AllRested(c, table, table'')
  {
    forall r, b | 0 <= r < c.numRanks && 0 <= b < c.numBanks
      ensures Rested(table[r][b], table''[r][b])
    {
      assert Rested(table[r][b], table'[r][b]) && Rested(table'[r][b], table''[r][b]);
    }
  }

  /** Whatever was issued in a run that got to `s` was issued in one that gets to `s'`. */
  ghost predicate Remembers(c: Config, locate: nat -> Location, s: SystemState, s': SystemState)
    requires Inputs(c, locate)
  {
    forall p, t | Issued(c, locate, s, p, t) :: Issued(c, locate, s', p, t)
  }

  lemma StepRemembers(c: Config, locate: nat -> Location, s: SystemState, e: Event, s': SystemState)
    requires Inputs(c, locate) && IsStep(c, locate, s, e, s')
    ensures Remembers(c, locate, s, s')
  {
    hide Issued, IsStep;
    forall p, t | Issued(c, locate, s, p, t)
      ensures Issued(c, locate, s', p, t)
    {
      StillIssued(c, locate, s, e, s', p, t);
    }
  }

  lemma Waits(c: Config, locate: nat -> Location, s: SystemState) returns (s': SystemState)
    requires Inputs(c, locate) && Flat(locate) && Playing(c, locate, s)
    ensures Playing(c, locate, s') && s'.clock == s.clock + 1 && s'.controller.queues == s.controller.queues
    ensures AllRested(c, s.controller.table, s'.controller.table) && Remembers(c, locate, s, s')
    ensures IdleBus(s.controller.writes) ==> IdleBus(s'.controller.writes)
  {
    LightBusTicks(c, s.controller.writes);
    NothingScheduled(c, locate, s.controller.queues);
    TickRests(c, locate, s);
    assert Pops(c, s, None, s.controller.queues);
    hide Pops, IsStep, AfterScheduling, LightBus, IdleBus, WriteBusTick, TickTable, Reached, Ordinary, AllRested,
         Remembers;
    s' := CyclePlays(c, locate, s, None, s.controller.queues);
    StepRemembers(c, locate, s, Cycles(Choice(None, s.controller.queues, HAB)), s');
  }

  lemma {:induction false} WaitsFor(c: Config, locate: nat -> Location, s: SystemState, n: nat)
    returns (s': SystemState)
    requires Inputs(c, locate) && Flat(locate) && Playing(c, locate, s)
    ensures Playing(c, locate, s') && s'.clock == s.clock + n && s'.controller.queues == s.controller.queues
    ensures AllRested(c, s.controller.table, s'.controller.table) && Remembers(c, locate, s, s')
    ensures IdleBus(s.controller.writes) ==> IdleBus(s'.controller.writes)
    decreases n
  {
    s' := s;
    hide Playing, IdleBus, Remembers, Flat;
    if n == 0 {
      NoWait(c, locate, s);
    } else {
      var next := Waits(c, locate, s);
      s' := WaitsFor(c, locate, next, n - 1);
      hide AllRested, Rested;
      RestedAgain(c, s.controller.table, next.controller.table, s'.controller.table);
      RemembersAgain(c, locate, s, next, s');
    }
  }

  lemma NoWait(c: Config, locate: nat -> Location, s: SystemState)
    requires Inputs(c, locate) && Playing(c, locate, s)
    ensures AllRested(c, s.controller.table, s.controller.table) && Remembers(c, locate, s, s)
  {
  }

  lemma RemembersAgain(c: Config, locate: nat -> Location, s: SystemState, s': SystemState, s'': SystemState)
    requires Inputs(c, locate) && Remembers(c, locate, s, s') && Remembers(c, locate, s', s'')
    ensures Remembers(c, locate, s, s'')
  {
    hide Issued;
  }

  // ---------- a transaction enters its queue ----------

  function Visit(kind: BusPacketType, address: nat): Transaction {
    Transaction(if kind == READ then DATA_READ else DATA_WRITE, address, 0, false)
  }

  function VisitTo(locate: nat -> Location, kind: BusPacketType, address: nat): BusPacket {
    CommandFor(locate, Visit(kind, address))
  }

  lemma OneScheduled(c: Config, locate: nat -> Location, t: Transaction, queues: seq<seq<BusPacket>>)
    requires Inputs(c, locate) && |queues| == c.numRanks
    requires |queues[locate(t.address).rank]| < c.queueDepth
    ensures var p := CommandFor(locate, t);
            AfterScheduling(c, locate, [t], queues) == ([], queues[p.rank := queues[p.rank] + [p]])
  {
    assert FirstWithRoom(c, locate, [t], queues, 0) == 0;
    assert [t][..0] + [t][1..] == [];
  }

  lemma Enters(c: Config, locate: nat -> Location, s: SystemState, kind: BusPacketType, address: nat)
    returns (s': SystemState)
    requires Inputs(c, locate) && Flat(locate) && Playing(c, locate, s) && IdleBus(s.controller.writes)
    requires |s.controller.queues| == c.numRanks
    requires |s.controller.queues[locate(address).rank]| < c.queueDepth
    ensures Playing(c, locate, s') && IdleBus(s'.controller.writes) && s'.clock == s.clock + 1
    ensures var p := VisitTo(locate, kind, address); var queues := s.controller.queues;
            s'.controller.queues == queues[p.rank := queues[p.rank] + [p]]
    ensures AllRested(c, s.controller.table, s'.controller.table)
  {
    var t := Visit(kind, address);
    var asked := WithTransaction(s, t);
    assert IsStep(c, locate, s, Arrives(t), asked);
    ReachedStep(c, locate, s, Arrives(t), asked);
    assert [] + [t] == [t];
    LightBusTicks(c, s.controller.writes);
    OneScheduled(c, locate, t, s.controller.queues);
    TickRests(c, locate, s);
    assert Pops(c, asked, None, s.controller.queues);
    hide Pops, IsStep, AfterScheduling, LightBus, IdleBus, WriteBusTick, TickTable, Reached, AllRested;
    s' := CyclePlays(c, locate, asked, None, s.controller.queues);
  }

  // ---------- opening a row ----------

  /** A bank that nothing has happened to. */
  ghost predicate Untouched(x: BankState) {
    && (x.currentBankState == Idle || x.currentBankState == Refreshing)
    && x.nextRead == 0 && x.nextWrite == 0 && x.nextActivate == 0 && x.nextPrecharge == 0
  }

  ghost predicate AllUntouched(c: Config, table: seq<seq<BankState>>) {
    TableShape(c, table) && forall r, b | 0 <= r < c.numRanks && 0 <= b < c.numBanks :: Untouched(table[r][b])
  }

  lemma UntouchedRests(c: Config, table: seq<seq<BankState>>, table': seq<seq<BankState>>)
    requires AllUntouched(c, table) && AllRested(c, table, table')
    ensures AllUntouched(c, table')
  {
    forall r, b | 0 <= r < c.numRanks && 0 <= b < c.numBanks
      ensures Untouched(table'[r][b])
    {
      assert Rested(table[r][b], table'[r][b]);
    }
  }

  /** Row 0 of this bank was opened at `t`. */
  ghost predicate OpenSince(c: Config, x: BankState, t: int) {
    && x.currentBankState == RowActive && x.openRowAddress == 0
    && x.nextRead <= t + Opening(c, READ) && x.nextWrite <= t + Opening(c, WRITE)
    && x.nextPrecharge <= t + Closing(c)
  }

  /** Cycles until it may be closed. */
  ghost function Closing(c: Config): int {
    if c.tRAS < 1 then 1 else c.tRAS
  }

  lemma Begins(c: Config, locate: nat -> Location) returns (s: SystemState)
    requires Inputs(c, locate)
    ensures Playing(c, locate, s) && IdleBus(s.controller.writes) && s.clock == 0
    ensures AllUntouched(c, s.controller.table) && s.controller.queues == seq(c.numRanks, _ => [])
  {
    s := InitialSystem(c);
    RunBegins(c, locate);
  }

  /** The row of a queued access is opened; the other banks stay as they are. */
  lemma OpensRow(c: Config, locate: nat -> Location, s: SystemState, r: nat, i: nat, bank: nat)
    returns (s': SystemState)
    requires Inputs(c, locate) && Flat(locate) && Playing(c, locate, s)
    requires r < c.numRanks == |s.controller.queues| && i < |s.controller.queues[r]| && bank < c.numBanks
    requires var p := s.controller.queues[r][i]; p.row == 0 && p.rank == r && p.bank == bank
    requires TableShape(c, s.controller.table) && s.clock >= 0
    requires var x := s.controller.table[r][bank];
             (x.currentBankState == Idle || x.currentBankState == Refreshing) && x.nextActivate <= s.clock
    ensures var p := ActivateFor(s.controller.queues[r][i]);
            && Playing(c, locate, s') && s'.clock == s.clock + 1 && s'.controller.queues == s.controller.queues
            && (IdleBus(s.controller.writes) ==> IdleBus(s'.controller.writes))
            && Issued(c, locate, s', p, s.clock)
            && (forall p', t | Issued(c, locate, s, p', t) ::
                  Issued(c, locate, s', p', t) && Happens(c, p', t, p, s.clock))
    ensures TableShape(c, s'.controller.table)
    ensures Untouched(s.controller.table[r][bank]) ==> OpenSince(c, s'.controller.table[r][bank], s.clock)
    ensures forall k, b | 0 <= k < c.numRanks && 0 <= b < c.numBanks && (k, b) != (r, bank) ::
              var x, x' := s.controller.table[k][b], s'.controller.table[k][b];
              && (x.currentBankState != RowActive ==> x'.currentBankState != RowActive)
              && (k != r && Untouched(x) ==> Untouched(x'))
              && (k != r && OpenSince(c, x, s.clock) ==> OpenSince(c, x', s.clock))
  {
    TickRests(c, locate, s);
    var p, queues := ActivateFor(s.controller.queues[r][i]), s.controller.queues;
    var ticked := TickTable(s.controller.table);
    assert Rested(s.controller.table[r][bank], ticked[r][bank]);
    assert p == ActivateFor(queues[p.rank][i]);
    assert Pops(c, s, Some(p), queues);
    hide Pops, Playing, Issued, IdleBus, Happens, Inputs, AfterIssueTable, Flat;
    s' := Plays(c, locate, s, p, queues);
  }

  // ---------- a row is closed, refreshed and opened again ----------

  function PrechargeOf(bank: nat): BusPacket {
    BusPacket(PRECHARGE, 0, 0, 0, 0, bank, 0, false)
  }

  /** No row of the first rank is open. */
  ghost predicate FirstRankClosed(c: Config, table: seq<seq<BankState>>) {
    && TableShape(c, table)
    && forall b | 0 <= b < c.numBanks :: c.numRanks > 0 ==> table[0][b].currentBankState != RowActive
  }

  /** Only this bank of the first rank is open, and since when. */
  ghost predicate OnlyOpen(c: Config, table: seq<seq<BankState>>, bank: nat, t: int) {
    && TableShape(c, table) && c.numRanks > 0 && bank < c.numBanks && OpenSince(c, table[0][bank], t)
    && forall b | 0 <= b < c.numBanks && b != bank :: table[0][b].currentBankState != RowActive
  }

  /** The first rank may be activated again from this cycle on. */
  ghost predicate FirstRankFree(c: Config, table: seq<seq<BankState>>, deadline: int) {
    && TableShape(c, table) && c.numRanks > 0
    && forall b | 0 <= b < c.numBanks ::
         && (table[0][b].currentBankState == Idle || table[0][b].currentBankState == Refreshing)
         && table[0][b].nextActivate <= deadline
  }

  lemma RowsRest(c: Config, table: seq<seq<BankState>>, table': seq<seq<BankState>>, bank: nat, t: int)
    requires AllRested(c, table, table') && c.numRanks > 0
    ensures OnlyOpen(c, table, bank, t) ==> OnlyOpen(c, table', bank, t)
    ensures FirstRankClosed(c, table) ==> FirstRankClosed(c, table')
    ensures FirstRankFree(c, table, t) ==> FirstRankFree(c, table', t)
  {
    forall b | 0 <= b < c.numBanks
      ensures Rested(table[0][b], table'[0][b])
    {
    }
  }

  lemma ClosesRow(c: Config, locate: nat -> Location, s: SystemState, bank: nat, t: int) returns (s': SystemState)
    requires Inputs(c, locate) && Flat(locate) && Playing(c, locate, s)
    requires OnlyOpen(c, s.controller.table, bank, t) && t + Closing(c) <= s.clock
    ensures Playing(c, locate, s') && s'.clock == s.clock + 1 && s'.controller.queues == s.controller.queues
    ensures Issued(c, locate, s', PrechargeOf(bank), s.clock) && Remembers(c, locate, s, s')
    ensures FirstRankClosed(c, s'.controller.table)
  {
    TickRests(c, locate, s);
    var ticked := TickTable(s.controller.table);
    RowsRest(c, s.controller.table, ticked, bank, t);
    assert Pops(c, s, Some(PrechargeOf(bank)), s.controller.queues);
    hide Pops, Playing, Issued, IdleBus, Happens, Inputs, Flat;
    s' := Plays(c, locate, s, PrechargeOf(bank), s.controller.queues);
  }

  lemma RefreshesRank(c: Config, locate: nat -> Location, s: SystemState) returns (s': SystemState)
    requires Inputs(c, locate) && Flat(locate) && Playing(c, locate, s) && FirstRankClosed(c, s.controller.table)
    ensures Playing(c, locate, s') && s'.clock == s.clock + 1 && s'.controller.queues == s.controller.queues
    ensures Remembers(c, locate, s, s')
    ensures forall p, t | Issued(c, locate, s, p, t) :: Happens(c, p, t, RefreshOf(0), s.clock)
    ensures FirstRankFree(c, s'.controller.table, s.clock + c.tRFC)
  {
    TickRests(c, locate, s);
    var ticked := TickTable(s.controller.table);
    RowsRest(c, s.controller.table, ticked, 0, 0);
    assert Pops(c, s, Some(RefreshOf(0)), s.controller.queues);
    hide Pops, Playing, Issued, IdleBus, Happens, Inputs, Flat;
    s' := Plays(c, locate, s, RefreshOf(0), s.controller.queues);
  }

  /** Address 1 lies in the second of two banks of the first rank, any other in the first. */
  function Lane(bank: nat, other: nat): nat -> Location {
    a => Location(0, if a == 1 then other else bank, 0, 0)
  }

  lemma LaneIsFlat(c: Config, bank: nat, other: nat)
    requires c.Valid() && bank < c.numBanks && other < c.numBanks
    ensures Inputs(c, Lane(bank, other)) && Flat(Lane(bank, other))
  {
  }

  /** An access to each of the two banks, or one to both if they are one bank, waits in the queue of the first rank. */
  lemma TwoWait(c: Config, bank: nat, other: nat) returns (s: SystemState, i: nat)
    requires c.Valid() && bank < c.numBanks && other < c.numBanks && c.queueDepth >= if other == bank then 1 else 2
    ensures Inputs(c, Lane(bank, other)) && Flat(Lane(bank, other)) && Playing(c, Lane(bank, other), s) && s.clock >= 0
    ensures AllUntouched(c, s.controller.table) && |s.controller.queues| == c.numRanks
    ensures var q := s.controller.queues[0];
            0 < |q| && i < |q| && q[0] == VisitTo(Lane(bank, other), READ, 0)
            && q[i] == VisitTo(Lane(bank, other), READ, if other == bank then 0 else 1)
  {
    var locate := Lane(bank, other);
    LaneIsFlat(c, bank, other);
    var s0 := Begins(c, locate);
    assert s0.controller.queues[0] == [];
    var s1 := Enters(c, locate, s0, READ, 0);
    UntouchedRests(c, s0.controller.table, s1.controller.table);
    assert s1.controller.queues[0] == [VisitTo(locate, READ, 0)];
    s, i := s1, 0;
    if other != bank {
      s := Enters(c, locate, s1, READ, 1);
      UntouchedRests(c, s1.controller.table, s.controller.table);
      i := 1;
    }
  }

  /** Row 0 of the first bank is opened, closed as soon as it may be and the rank refreshed at once. */
  lemma OpensClosesRefreshes(c: Config, bank: nat, other: nat)
    returns (s: SystemState, i: nat, t: int)
    requires c.Valid() && bank < c.numBanks && other < c.numBanks && c.queueDepth >= if other == bank then 1 else 2
    ensures Inputs(c, Lane(bank, other)) && Flat(Lane(bank, other)) && Playing(c, Lane(bank, other), s)
    ensures |s.controller.queues| == c.numRanks && i < |s.controller.queues[0]|
    ensures s.controller.queues[0][i] == VisitTo(Lane(bank, other), READ, if other == bank then 0 else 1)
    ensures Issued(c, Lane(bank, other), s, ActivateFor(VisitTo(Lane(bank, other), READ, 0)), t)
    ensures Issued(c, Lane(bank, other), s, PrechargeOf(bank), t + Closing(c))
    ensures Happens(c, PrechargeOf(bank), t + Closing(c), RefreshOf(0), t + Closing(c) + 1)
    ensures t >= 0 && s.clock == t + Closing(c) + 2
    ensures FirstRankFree(c, s.controller.table, t + Closing(c) + 1 + c.tRFC)
  {
    var locate := Lane(bank, other);
    hide Playing, Issued, Happens, Inputs, Flat, VisitTo, IdleBus;
    var s1;
    s1, i := TwoWait(c, bank, other);
    assert c.numRanks > 0 by { LaneIsFlat(c, bank, other); }
    t := s1.clock;
    FirstVisit(bank, other);
    assert Untouched(s1.controller.table[0][bank]);
    var s2 := OpensRow(c, locate, s1, 0, 0, bank);
    assert OnlyOpen(c, s2.controller.table, bank, t);
    var s3 := WaitsFor(c, locate, s2, Closing(c) - 1);
    RowsRest(c, s2.controller.table, s3.controller.table, bank, t);
    hide OnlyOpen, OpenSince, AllRested, Remembers, FirstRankClosed, FirstRankFree;
    Remembered(c, locate, s2, s3, ActivateFor(VisitTo(locate, READ, 0)), t);
    var s4 := ClosesRow(c, locate, s3, bank, t);
    Remembered(c, locate, s3, s4, ActivateFor(VisitTo(locate, READ, 0)), t);
    s := RefreshesRank(c, locate, s4);
    Remembered(c, locate, s4, s, ActivateFor(VisitTo(locate, READ, 0)), t);
    Remembered(c, locate, s4, s, PrechargeOf(bank), t + Closing(c));
  }

  lemma Remembered(c: Config, locate: nat -> Location, s: SystemState, s': SystemState, p: BusPacket, t: int)
    requires Inputs(c, locate) && Remembers(c, locate, s, s') && Issued(c, locate, s, p, t)
    ensures Issued(c, locate, s', p, t)
  {
  }

  lemma FirstVisit(bank: nat, other: nat)
    ensures var p := VisitTo(Lane(bank, other), READ, 0); p.row == 0 && p.rank == 0 && p.bank == bank
    ensures var p := VisitTo(Lane(bank, other), READ, 1); p.row == 0 && p.rank == 0 && p.bank == other
  {
  }

  /** With the refresh over, the row of the second bank is opened. */
  lemma OpensAfterRefresh(c: Config, bank: nat, other: nat)
    returns (t: int, p: BusPacket, q: BusPacket)
    requires c.Valid() && bank < c.numBanks && other < c.numBanks && c.queueDepth >= if other == bank then 1 else 2
    ensures p.busPacketType == q.busPacketType == ACTIVATE && p.rank == q.rank == 0 && p.bank == bank && q.bank == other
    ensures Happens(c, p, t, q, t + Closing(c) + 1 + c.tRFC)
    ensures Happens(c, PrechargeOf(bank), t + Closing(c), q, t + Closing(c) + 1 + c.tRFC)
    ensures Happens(c, PrechargeOf(bank), t + Closing(c), RefreshOf(0), t + Closing(c) + 1)
  {
    var locate := Lane(bank, other);
    hide Playing, Issued, Happens, Inputs, Flat, IdleBus;
    var s1, i;
    s1, i, t := OpensClosesRefreshes(c, bank, other);
    p, q := ActivateFor(VisitTo(locate, READ, 0)), ActivateFor(s1.controller.queues[0][i]);
    FirstVisit(bank, other);
    hide VisitTo;
    var s2 := WaitsFor(c, locate, s1, c.tRFC - 1);
    RowsRest(c, s1.controller.table, s2.controller.table, bank, t + Closing(c) + 1 + c.tRFC);
    Remembered(c, locate, s1, s2, p, t);
    Remembered(c, locate, s1, s2, PrechargeOf(bank), t + Closing(c));
    var s3 := OpensRow(c, locate, s2, 0, i, other);
  }

  // ---------- one rank opens its row right after the access to another ----------

  /** Address 1 lies in the second rank, any other in the first. */
  function Across(address: nat): Location {
    Location(if address == 1 then 1 else 0, 0, 0, 0)
  }

  lemma AcrossIsFlat(c: Config)
    requires c.Valid() && c.numRanks >= 2
    ensures Inputs(c, Across) && Flat(Across)
  {
  }

  lemma VisitsAcross(kind: BusPacketType, r: nat)
    requires r < 2
    ensures var p := VisitTo(Across, kind, r); p.row == 0 && p.rank == r && p.bank == 0 && !p.barrier
    ensures kind == READ || kind == WRITE ==> VisitTo(Across, kind, r).busPacketType == kind
  {
  }

  /** An access waits in the queue of each of the two ranks. */
  lemma OneWaitsEach(c: Config, kind: BusPacketType, kind': BusPacketType) returns (s: SystemState)
    requires c.Valid() && c.numRanks >= 2 && c.queueDepth >= 1
    ensures Inputs(c, Across) && Flat(Across) && Playing(c, Across, s) && s.clock >= 0 && IdleBus(s.controller.writes)
    ensures AllUntouched(c, s.controller.table) && |s.controller.queues| == c.numRanks
    ensures s.controller.queues[0] == [VisitTo(Across, kind, 0)]
    ensures s.controller.queues[1] == [VisitTo(Across, kind', 1)]
  {
    AcrossIsFlat(c);
    var s0 := Begins(c, Across);
    var s1 := Enters(c, Across, s0, kind, 0);
    UntouchedRests(c, s0.controller.table, s1.controller.table);
    s := Enters(c, Across, s1, kind', 1);
    UntouchedRests(c, s1.controller.table, s.controller.table);
  }

  /** The access that waits in the queue of a rank is served. */
  lemma ServesRank(c: Config, s: SystemState, r: nat, kind: BusPacketType, t: int) returns (s': SystemState)
    requires Inputs(c, Across) && Flat(Across) && Playing(c, Across, s) && c.numRanks >= 2 && r < 2
    requires kind == READ || kind == WRITE
    requires |s.controller.queues| == c.numRanks && s.controller.queues[r] == [VisitTo(Across, kind, r)]
    requires TableShape(c, s.controller.table) && OpenSince(c, s.controller.table[r][0], t)
    requires t + Opening(c, kind) <= s.clock
    ensures var p := VisitTo(Across, kind, r);
            forall p', u | Issued(c, Across, s, p', u) :: Happens(c, p', u, p, s.clock)
    ensures IdleBus(s.controller.writes) ==>
              && Playing(c, Across, s') && s'.clock == s.clock + 1
              && Issued(c, Across, s', VisitTo(Across, kind, r), s.clock)
    ensures s'.controller.queues == s.controller.queues[r := []] && TableShape(c, s'.controller.table)
    ensures Untouched(s.controller.table[1 - r][0]) ==> Untouched(s'.controller.table[1 - r][0])
  {
    VisitsAcross(kind, r);
    TickRests(c, Across, s);
    var p, queues := VisitTo(Across, kind, r), s.controller.queues;
    var ticked := TickTable(s.controller.table);
    assert Rested(s.controller.table[r][0], ticked[r][0]);
    assert Rested(s.controller.table[1 - r][0], ticked[1 - r][0]);
    assert Without(queues[r], 0) == [];
    assert TakenAt(queues, p, 0, queues[r := []]);
    assert Pops(c, s, Some(p), queues[r := []]);
    hide Pops, Playing, Issued, IdleBus, Happens, Inputs, Flat, VisitTo;
    s' := Plays(c, Across, s, p, queues[r := []]);
  }

  /** The row of the first rank is opened, and the rank is left until it may be accessed. */
  lemma OpensAndWaits(c: Config, kind: BusPacketType, kind': BusPacketType) returns (s: SystemState, since: int)
    requires c.Valid() && c.numRanks >= 2 && c.queueDepth >= 1
    requires (kind == READ || kind == WRITE) && (kind' == READ || kind' == WRITE)
    ensures Inputs(c, Across) && Flat(Across) && Playing(c, Across, s) && s.clock == since + Opening(c, kind)
    ensures IdleBus(s.controller.writes) && since >= 0 && TableShape(c, s.controller.table)
    ensures OpenSince(c, s.controller.table[0][0], since) && Untouched(s.controller.table[1][0])
    ensures |s.controller.queues| == c.numRanks
    ensures s.controller.queues[0] == [VisitTo(Across, kind, 0)]
    ensures s.controller.queues[1] == [VisitTo(Across, kind', 1)]
  {
    VisitsAcross(kind, 0);
    OpeningIsPositive(c, kind);
    hide Playing, Issued, Happens, Inputs, Flat, VisitTo, IdleBus, OpenSince, Opening, Across;
    var s1 := OneWaitsEach(c, kind, kind');
    assert Untouched(s1.controller.table[0][0]) && Untouched(s1.controller.table[1][0]);
    hide AllUntouched, Untouched, AllRested, Remembers;
    since := s1.clock;
    var s2 := OpensRow(c, Across, s1, 0, 0, 0);
    s := WaitsFor(c, Across, s2, Opening(c, kind) - 1);
    OpenRests(c, s2.controller.table, s.controller.table, 0, since);
    OpenRests(c, s2.controller.table, s.controller.table, 1, since);
  }

  /** The first rank is accessed, and the row of the second one opened in the next cycle. */
  lemma AccessesThenOpens(c: Config, kind: BusPacketType, kind': BusPacketType)
    returns (s: SystemState, t: int)
    requires c.Valid() && c.numRanks >= 2 && c.queueDepth >= 1
    requires (kind == READ || kind == WRITE) && (kind' == READ || kind' == WRITE)
    ensures Inputs(c, Across) && Flat(Across) && Playing(c, Across, s) && s.clock == t + 2
    ensures |s.controller.queues| == c.numRanks && s.controller.queues[1] == [VisitTo(Across, kind', 1)]
    ensures TableShape(c, s.controller.table) && OpenSince(c, s.controller.table[1][0], t + 1)
    ensures Issued(c, Across, s, VisitTo(Across, kind, 0), t)
  {
    VisitsAcross(kind', 1);
    hide Playing, Issued, Happens, Inputs, Flat, VisitTo, IdleBus, OpenSince, Opening, Across;
    var s1, since := OpensAndWaits(c, kind, kind');
    t := s1.clock;
    OpeningIsPositive(c, kind);
    var s2 := ServesRank(c, s1, 0, kind, since);
    assert Untouched(s2.controller.table[1][0]);
    s := OpensRow(c, Across, s2, 1, 0, 0);
  }

  lemma OpeningIsPositive(c: Config, kind: BusPacketType)
    ensures Opening(c, kind) >= 1
  {
  }

  lemma OpenRests(c: Config, table: seq<seq<BankState>>, table': seq<seq<BankState>>, r: nat, t: int)
    requires AllRested(c, table, table') && r < c.numRanks && c.numBanks > 0
    ensures OpenSince(c, table[r][0], t) ==> OpenSince(c, table'[r][0], t)
    ensures Untouched(table[r][0]) ==> Untouched(table'[r][0])
  {
    assert Rested(table[r][0], table'[r][0]);
  }

  /** The second rank is accessed as soon as its row lets it. */
  lemma AccessesBoth(c: Config, kind: BusPacketType, kind': BusPacketType)
    returns (t: int, p: BusPacket, q: BusPacket)
    requires c.Valid() && c.numRanks >= 2 && c.queueDepth >= 1
    requires (kind == READ || kind == WRITE) && (kind' == READ || kind' == WRITE)
    ensures p.busPacketType == kind && q.busPacketType == kind' && p.rank == 0 && q.rank == 1
    ensures Happens(c, p, t, q, t + 1 + Opening(c, kind'))
  {
    VisitsAcross(kind, 0);
    VisitsAcross(kind', 1);
    hide Playing, Issued, Happens, Inputs, Flat, VisitTo, IdleBus, OpenSince, Opening, Across;
    var s;
    s, t := AccessesThenOpens(c, kind, kind');
    p, q := VisitTo(Across, kind, 0), VisitTo(Across, kind', 1);
    OpeningIsPositive(c, kind');
    var s2 := WaitsFor(c, Across, s, Opening(c, kind') - 1);
    OpenRests(c, s.controller.table, s2.controller.table, 1, t + 1);
    Remembered(c, Across, s, s2, p, t);
    var s3 := ServesRank(c, s2, 1, kind', t + 1);
  }

  // ---------- the exact conditions ----------

  /**
   * A row is opened no sooner than the precharge time after its bank was closed, if and only if a refresh in
   * between takes at least that long.
   */
  lemma PrechargeTimeExactly(c: Config)
    requires c.Valid() && c.queueDepth >= 1
    ensures (forall p, t, q, u | Happens(c, p, t, q, u) && p.busPacketType == PRECHARGE &&
                                 q.busPacketType == ACTIVATE && p.rank == q.rank && p.bank == q.bank ::
               u - t >= c.tRP)
            <==> 1 + c.tRFC >= c.tRP
  {
    hide Happens;
    if 1 + c.tRFC >= c.tRP {
      forall p, t, q, u | Happens(c, p, t, q, u) && p.busPacketType == PRECHARGE && q.busPacketType == ACTIVATE
                          && p.rank == q.rank && p.bank == q.bank
        ensures u - t >= c.tRP
      {
        ActivateAfterRefresh(c, p, t, q, u);
      }
    } else {
      var t, p, q := OpensAfterRefresh(c, 0, 0);
    }
  }

  /** A refresh does not wait for the precharge time: it may follow a PRECHARGE of its rank in the next cycle. */
  lemma RefreshTimeExactly(c: Config)
    requires c.Valid() && c.queueDepth >= 1
    ensures (forall p, t, q, u | Happens(c, p, t, q, u) && p.busPacketType == PRECHARGE &&
                                 q.busPacketType == REF && p.rank == q.rank ::
               u - t >= c.tRP)
            <==> c.tRP == 1
  {
    hide Happens;
    if c.tRP == 1 {
      forall p, t, q, u | Happens(c, p, t, q, u)
        ensures u - t >= 1
      {
        InOrder(c, p, t, q, u);
      }
    } else {
      var t, p, q := OpensAfterRefresh(c, 0, 0);
    }
  }

  lemma InOrder(c: Config, p: BusPacket, t: int, q: BusPacket, u: int)
    requires c.Valid() && Happens(c, p, t, q, u)
    ensures u > t
  {
    var locate, states, events, i: nat, j: nat :| Follow(c, locate, states, events, i, p, t, j, q, u);
    var x, y, mode := Between(c, locate, states, events, i, p, t, j, q, u);
  }

  /** The same of the row cycle time, whose row is open for tRAS, or one cycle, before it may be refreshed. */
  lemma RowCycleExactly(c: Config)
    requires c.Valid() && c.queueDepth >= 1
    ensures (forall p, t, q, u | Happens(c, p, t, q, u) && p.busPacketType == ACTIVATE &&
                                 q.busPacketType == ACTIVATE && p.rank == q.rank && p.bank == q.bank ::
               u - t >= c.tRC)
            <==> (if c.tRAS < 1 then 1 else c.tRAS) + 1 + c.tRFC >= c.tRC
  {
    hide Happens;
    if (if c.tRAS < 1 then 1 else c.tRAS) + 1 + c.tRFC >= c.tRC {
      forall p, t, q, u | Happens(c, p, t, q, u) && p.busPacketType == ACTIVATE && q.busPacketType == ACTIVATE
                          && p.rank == q.rank && p.bank == q.bank
        ensures u - t >= c.tRC
      {
        ActivateAfterActivate(c, p, t, q, u);
      }
    } else {
      var t, p, q := OpensAfterRefresh(c, 0, 0);
    }
  }

  /** And of the row-to-row time of any two banks of a rank. */
  lemma RowToRowExactly(c: Config, bank: nat, other: nat)
    requires c.Valid() && c.queueDepth >= 2 && bank < c.numBanks && other < c.numBanks && bank != other
    ensures var gap := if bank / c.banksPerGroup == other / c.banksPerGroup then c.tRRDL else c.tRRDS;
            (forall p, t, q, u | Happens(c, p, t, q, u) && p.busPacketType == ACTIVATE &&
                                 q.busPacketType == ACTIVATE && p.rank == q.rank && p.bank == bank &&
                                 q.bank == other ::
               u - t >= gap)
            <==> (if c.tRAS < 1 then 1 else c.tRAS) + 1 + c.tRFC >= gap
  {
    hide Happens;
    var gap := if bank / c.banksPerGroup == other / c.banksPerGroup then c.tRRDL else c.tRRDS;
    if (if c.tRAS < 1 then 1 else c.tRAS) + 1 + c.tRFC >= gap {
      forall p, t, q, u | Happens(c, p, t, q, u) && p.busPacketType == ACTIVATE && q.busPacketType == ACTIVATE
                          && p.rank == q.rank && p.bank == bank && q.bank == other
        ensures u - t >= gap
      {
        ActivateAfterActivate(c, p, t, q, u);
      }
    } else {
      var t, p, q := OpensAfterRefresh(c, bank, other);
    }
  }

  /**
   * Accesses of these kinds to different ranks are as far apart as the data bus asks, if and only if there is
   * one rank, or a row that is opened right after the first access lets the second one wait that long.
   */
  lemma RankGapExactly(c: Config, kind: BusPacketType, kind': BusPacketType)
    requires c.Valid() && c.queueDepth >= 1 && kind in {READ, WRITE} && kind' in {READ, WRITE}
    ensures var gap := if kind == kind' then c.bl / 2 + c.tRTRS
                       else if kind == READ then c.rl + c.bl / 2 + c.tRTRS - c.wl
                       else c.wl + c.bl / 2 + c.tRTRS - c.rl;
            var wait := (if kind' == READ then c.tRCDRD else c.tRCDWR) - c.al;
            (forall p, t, q, u | Happens(c, p, t, q, u) && p.busPacketType == kind && q.busPacketType == kind' &&
                                 p.rank != q.rank ::
               u - t >= gap)
            <==> c.numRanks == 1 || 1 + (if wait < 1 then 1 else wait) >= gap
  {
    var gap := RankGap(c, kind, kind');
    hide Happens;
    if c.numRanks == 1 {
      forall p, t, q, u | Happens(c, p, t, q, u) && p.rank != q.rank
        ensures false
      {
        OneRankOnly(c, p, t, q, u);
      }
    } else if 1 + Opening(c, kind') >= gap {
      forall p, t, q, u | Happens(c, p, t, q, u) && p.busPacketType == kind && q.busPacketType == kind'
                          && p.rank != q.rank
        ensures u - t >= gap
      {
        ColumnOfOtherRank(c, p, t, q, u);
      }
    } else {
      var t, p, q := AccessesBoth(c, kind, kind');
    }
  }

  lemma OneRankOnly(c: Config, p: BusPacket, t: int, q: BusPacket, u: int)
    requires c.Valid() && c.numRanks == 1 && c.numBanks >= 1 && Happens(c, p, t, q, u)
    ensures p.rank == q.rank
  {
    var locate, states, events, i: nat, j: nat :| Follow(c, locate, states, events, i, p, t, j, q, u);
    StepOfBank(c, locate, states, events, i, 0, 0);
    StepOfBank(c, locate, states, events, j, 0, 0);
  }
}
