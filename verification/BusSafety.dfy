/** Safety of whole runs, II: bursts never clash on a data bus. */
module BusSafety {
  import opened Arithmetic
  import opened Dram
  import opened CommandQueueModel
  import opened RankModel
  import opened MemoryControllerModel

  // ---------- a pipeline of bursts ----------

  /** Bursts of length `burst` wait for a bus with the given countdowns; the one that is on it
      has `left` cycles to go. They are far enough apart never to meet. */
  predicate Staggered(countdown: seq<int>, onBus: bool, left: int, burst: nat) {
    && (forall i | 0 <= i < |countdown| :: countdown[i] >= 1)
    && (forall i | 0 <= i < |countdown| - 1 :: countdown[i] + burst <= countdown[i + 1])
    && (onBus ==> left >= 1 && (|countdown| > 0 ==> left <= countdown[0]))
  }

  /** For how long the bus is taken by the bursts that are known of. */
  function Occupied(countdown: seq<int>, onBus: bool, left: int, burst: nat): int {
    if |countdown| > 0 then countdown[|countdown| - 1] + burst
    else if onBus then left
    else 0
  }

  /** One cycle of the pipeline: when the first countdown runs out, the bus is free. */
  lemma StaggeredCycle(countdown: seq<int>, onBus: bool, left: int, burst: nat)
    requires Staggered(countdown, onBus, left, burst) && burst >= 1
    ensures var waited := Decremented(countdown);
            var stillOn := onBus && left != 1;
            if |countdown| > 0 && countdown[0] == 1 then
              && !stillOn && Staggered(waited[1..], true, burst, burst)
              && Occupied(waited[1..], true, burst, burst) == Occupied(countdown, onBus, left, burst) - 1
            else
              && Staggered(waited, stillOn, left - 1, burst)
              && (Occupied(waited, stillOn, left - 1, burst) > 0 ==>
                    Occupied(waited, stillOn, left - 1, burst) == Occupied(countdown, onBus, left, burst) - 1)
  {
    var waited := Decremented(countdown);
    forall i | 0 < i < |countdown|
      ensures countdown[i] >= 2
    {
      assert countdown[i - 1] + burst <= countdown[i - 1 + 1];
    }
    if |countdown| > 0 && countdown[0] == 1 {
      var rest := waited[1..];
      assert forall i | 0 <= i < |rest| :: rest[i] == countdown[i + 1] - 1;
    }
  }

  /** A new burst joins the pipeline at its end. */
  lemma StaggeredJoin(countdown: seq<int>, onBus: bool, left: int, burst: nat, delay: int)
    requires Staggered(countdown, onBus, left, burst) && delay >= 1
    requires Occupied(countdown, onBus, left, burst) <= delay
    ensures Staggered(countdown + [delay], onBus, left, burst)
    ensures Occupied(countdown + [delay], onBus, left, burst) == delay + burst
  {
  }

  // ---------- the write data bus ----------

  /** The banks whose writes have to wait for what is on the bus: with several ranks, a bank of another
      rank learns of a write only while it has a row open. */
  predicate MindsTheBus(c: Config, b: BankState) {
    c.numRanks == 1 || b.currentBankState == RowActive
  }

  /** The write bus is staggered, and the table lets no write out that would reach the bus while
      it is taken. `now` is the cycle whose data phase came last, `next` the one that pops next. */
  predicate WritesApart(c: Config, table: seq<seq<BankState>>, w: WriteBus, now: int, next: int) {
    && |w.waiting| == |w.countdown|
    && Staggered(w.countdown, w.onBus.Some?, w.cyclesLeft, c.Burst())
    && var taken := Occupied(w.countdown, w.onBus.Some?, w.cyclesLeft, c.Burst());
       taken > 0 ==>
         && taken <= c.wl + c.Burst() - 1 + (next - now)
         && forall i, b | 0 <= i < |table| && 0 <= b < |table[i]| && MindsTheBus(c, table[i][b]) ::
              Max(table[i][b].nextWrite, next) + c.wl >= now + taken
  }

  /** No clash on the write data bus. */
  lemma WriteCycle(c: Config, table: seq<seq<BankState>>, w: WriteBus, now: int)
    requires c.Valid() && WritesApart(c, table, w, now, now + 1)
    ensures var r := WriteBusTick(c, w);
            r.Success? && WritesApart(c, table, r.value, now + 1, now + 1)
  {
    StaggeredCycle(w.countdown, w.onBus.Some?, w.cyclesLeft, c.Burst());
  }

  /** Deadlines for column accesses never move back. */
  lemma ColumnsOnlyLater(c: Config, p: BusPacket, clock: int, i: nat, row: seq<BankState>, b: nat)
    requires c.Valid() && b < |row|
    ensures var after := AfterIssueRow(c, p, clock, i, row)[b];
            && after.nextWrite >= row[b].nextWrite && after.nextRead >= row[b].nextRead
            && (p.busPacketType == WRITE && i == p.rank ==> after.nextWrite >= clock + c.Burst())
            && (p.busPacketType == READ && i == p.rank ==> after.nextRead >= clock + c.Burst())
  {
  }

  /** A popped command: a write joins the pipeline behind everything that is in it. */
  lemma IssueKeepsWritesApart(c: Config, table: seq<seq<BankState>>, w: WriteBus, p: BusPacket, clock: int,
                              mode: DramMode)
    requires c.Valid() && c.SharedBusFits() && TableShape(c, table) && WritesApart(c, table, w, clock, clock)
    requires p.rank < c.numRanks && p.bank < c.numBanks && Ready(mode, table[p.rank][p.bank], p, clock)
    ensures WritesApart(c, AfterIssueTable(c, p, clock, table), WriteAnnounced(c, w, p), clock, clock + 1)
  {
    if p.busPacketType == WRITE {
      StaggeredJoin(w.countdown, w.onBus.Some?, w.cyclesLeft, c.Burst(), c.wl);
    }
    var after, w' := AfterIssueTable(c, p, clock, table), WriteAnnounced(c, w, p);
    var taken := Occupied(w'.countdown, w'.onBus.Some?, w'.cyclesLeft, c.Burst());
    forall i, b | taken > 0 && 0 <= i < |after| && 0 <= b < |after[i]| && MindsTheBus(c, after[i][b])
      ensures Max(after[i][b].nextWrite, clock + 1) + c.wl >= clock + taken
    {
      assert after[i][b] == AfterIssue(c, p, clock, i, b, table[i][b]);
      if p.busPacketType == WRITE {
        WriteDelaysWrites(c, p, clock, i, b, table[i][b]);
      } else {
        BankMindsTheBus(c, p, clock, i, b, table[i][b], taken);
      }
    }
  }

  lemma WriteDelaysWrites(c: Config, p: BusPacket, clock: int, i: nat, b: nat, bank: BankState)
    requires c.Valid() && p.busPacketType == WRITE && MindsTheBus(c, bank) && p.rank < c.numRanks && i < c.numRanks
    ensures AfterIssue(c, p, clock, i, b, bank).nextWrite >= clock + c.Burst()
    ensures AfterIssue(c, p, clock, i, b, bank).currentBankState == bank.currentBankState
  {
  }

  /** Other commands leave the bus alone; a bank whose row they open takes long enough to get there. */
  lemma BankMindsTheBus(c: Config, p: BusPacket, clock: int, i: nat, b: nat, bank: BankState, taken: int)
    requires c.Valid() && c.SharedBusFits() && p.busPacketType != WRITE
    requires taken <= c.wl + c.Burst() - 1
    requires MindsTheBus(c, bank) ==> Max(bank.nextWrite, clock) + c.wl >= clock + taken
    requires MindsTheBus(c, AfterIssue(c, p, clock, i, b, bank))
    ensures Max(AfterIssue(c, p, clock, i, b, bank).nextWrite, clock + 1) + c.wl >= clock + taken
  {
  }

  /** A cycle in which nothing is popped. */
  lemma IdleKeepsWritesApart(c: Config, table: seq<seq<BankState>>, w: WriteBus, clock: int)
    requires WritesApart(c, table, w, clock, clock)
    ensures WritesApart(c, table, w, clock, clock + 1)
  {
  }

  // ---------- the data bus of a rank ----------

  /** The same for the read data of one rank. A read that is still on the command bus will join
      the pipeline at the end of cycle `arrival`. */
  predicate ReadsApart(c: Config, row: seq<BankState>, r: RankState, onCommandBus: bool, now: int, arrival: int) {
    && |r.returnPackets| == |r.returnCountdown|
    && Staggered(r.returnCountdown, r.dataOut.Some?, r.dataCyclesLeft, c.Burst())
    && var taken := Occupied(r.returnCountdown, r.dataOut.Some?, r.dataCyclesLeft, c.Burst());
       && (taken > 0 ==> forall b | 0 <= b < |row| :: row[b].nextRead + 1 + c.rl >= now + taken)
       && (onCommandBus ==>
             && now + taken <= arrival + c.rl
             && forall b | 0 <= b < |row| :: row[b].nextRead + 1 >= arrival + c.Burst())
  }

  /** A cycle of the rank overwrites nothing on its data bus. */
  lemma ReadCycle(c: Config, row: seq<BankState>, r: RankState, onCommandBus: bool, now: int)
    requires c.Valid() && ReadsApart(c, row, r, onCommandBus, now, now + 1)
    ensures !Overwrites(r)
    ensures ReadsApart(c, row, Tick(c, r), onCommandBus, now + 1, now + 1)
  {
    StaggeredCycle(r.returnCountdown, r.dataOut.Some?, r.dataCyclesLeft, c.Burst());
  }

  /** The command on the command bus arrives. */
  lemma ArrivalKeepsReadsApart(c: Config, row: seq<BankState>, r: RankState, p: BusPacket, now: int,
                               pimMode: DramMode)
    requires c.Valid() && ReadsApart(c, row, r, p.busPacketType == READ, now, now)
    ensures ReadsApart(c, row, Receive(c, r, p, now, pimMode), false, now, now)
  {
    if p.busPacketType == READ {
      StaggeredJoin(r.returnCountdown, r.dataOut.Some?, r.dataCyclesLeft, c.Burst(), c.rl);
    }
  }

  /** A command is popped for rank `i` or for another one. */
  lemma IssueKeepsReadsApart(c: Config, row: seq<BankState>, r: RankState, p: BusPacket, clock: int,
                             mode: DramMode, i: nat)
    requires c.Valid() && ReadsApart(c, row, r, false, clock, clock)
    requires i == p.rank ==> p.bank < |row| && Ready(mode, row[p.bank], p, clock)
    ensures ReadsApart(c, AfterIssueRow(c, p, clock, i, row), r, p.busPacketType == READ && i == p.rank,
                       clock, clock + 1)
  {
    forall b | 0 <= b < |row|
      ensures var after := AfterIssueRow(c, p, clock, i, row)[b];
              after.nextRead >= row[b].nextRead
              && (p.busPacketType == READ && i == p.rank ==> after.nextRead >= clock + c.Burst())
    {
      ColumnsOnlyLater(c, p, clock, i, row, b);
    }
  }
}
