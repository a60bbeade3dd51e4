/**
 * Queues without barriers drain: with no refresh waiting and nothing new arriving, every command that `pop`
 * issues brings the queues closer to being empty, and it cannot stay silent for longer than the delays last.
 */
module Drain {
  import opened Arithmetic
  import opened Dram
  import opened CommandQueueModel
  import opened MemoryControllerModel
  import opened Progress
  import opened RankModel
  import opened MemorySystemModel
  import opened Runs

  // ---------- what `pop` does while no refresh waits ----------

  /** An entry is served, a row opened for an entry, a row closed that no entry wants, or nothing can be done. */
  predicate Handles(v: View, queues: seq<seq<BusPacket>>, r: Option<BusPacket>, queues': seq<seq<BusPacket>>)
    requires v.Shaped() && AllQueued(v.c, queues)
  {
    match r
    case None => queues' == queues && Stuck(v, queues, false, 0)
    case Some(p) =>
      && v.InRange(p) && Ready(v.modes[p.rank], v.table[p.rank][p.bank], p, v.clock)
      && match p.busPacketType {
           case READ => TakenFrom(queues, p, queues')
           case WRITE => TakenFrom(queues, p, queues')
           case ACTIVATE => queues' == queues && OpensFor(v, queues[p.rank], p)
           case PRECHARGE => queues' == queues && MayClose(v, queues, p.rank, p.bank, p)
           case _ => false
         }
  }

  predicate OpensFor(v: View, q: seq<BusPacket>, p: BusPacket)
    requires v.Shaped() && v.InRange(p)
  {
    && v.table[p.rank][p.bank].currentBankState == Idle
    && exists i | 0 <= i < |q| :: p == ActivateFor(q[i])
  }

  lemma PopHandles(v: View, queues: seq<seq<BusPacket>>, r: Option<BusPacket>, queues': seq<seq<BusPacket>>,
                   start: nat, rank: nat, rankPre: nat, bankPre: nat)
    requires v.Shaped() && AllQueued(v.c, queues) && AllQueued(v.c, queues')
    requires r.Some? ==> MayIssue(v.c, v.table, v.modes, v.clock, queues, r.value, queues')
    requires r.None? ==> queues' == queues && Stuck(v, queues, false, 0)
    requires !v.AllSilent(queues) ==> r.Some? && FirstToSpeak(v, queues, start, rank, r)
    requires v.AllSilent(queues) && r.Some? ==> MayClose(v, queues', rankPre, bankPre, r.value)
    ensures Handles(v, queues, r, queues')
  {
    if !v.AllSilent(queues) {
      assert WellQueued(v.c, queues[rank], rank);
      var served: int :| v.Yields(queues[rank], r, served);
      if served < 0 {
        var i :| 0 <= i < |queues[rank]| && r.value == ActivateFor(queues[rank][i]) && v.OpensFirst(queues[rank], i);
      }
    }
  }

  /** `pop` of the queue object. */
  method Pop(queue: CommandQueue, table: seq<seq<BankState>>, modes: seq<DramMode>) returns (r: Option<BusPacket>)
    requires queue.Valid() && queue.Seen(table, modes).Shaped() && !queue.refreshWaiting
    modifies queue
    ensures queue.Valid() && queue.Seen(table, modes).Shaped()
    ensures AllQueued(queue.config, old(queue.queues)) && queue.Seen(table, modes).c == queue.config
    ensures Handles(queue.Seen(table, modes), old(queue.queues), r, queue.queues)
  {
    ghost var before, start := queue.queues, queue.nextRank;
    r := queue.Pop(table, modes);
    ghost var v := queue.Seen(table, modes);
    PopHandles(v, before, r, queue.queues, start, queue.nextRank, queue.nextRankPRE, queue.nextBankPRE);
  }

  // ---------- how much there is to do ----------

  predicate IsUseful(q: seq<BusPacket>, bank: nat, row: nat) {
    exists i | 0 <= i < |q| :: q[i].bank == bank && q[i].row == row
  }

  /** A useful open row costs nothing more, a closed one may be opened once, any other row has to be closed. */
  function BankWork(b: BankState, q: seq<BusPacket>, bank: nat): nat {
    if b.currentBankState != RowActive then 1 else if IsUseful(q, bank, b.openRowAddress) then 0 else 2
  }

  function RowWork(row: seq<BankState>, q: seq<BusPacket>, n: nat): nat
    requires n <= |row|
  {
    if n == 0 then 0 else RowWork(row, q, n - 1) + BankWork(row[n - 1], q, n - 1)
  }

  function RankWork(row: seq<BankState>, q: seq<BusPacket>): nat {
    3 * |q| + RowWork(row, q, |row|)
  }

  /** At most so many commands bring the first `n` ranks to rest. */
  function Work(table: seq<seq<BankState>>, queues: seq<seq<BusPacket>>, n: nat): nat
    requires n <= |table| == |queues|
  {
    if n == 0 then 0 else Work(table, queues, n - 1) + RankWork(table[n - 1], queues[n - 1])
  }

  lemma {:induction false} RowWorkChange(row: seq<BankState>, q: seq<BusPacket>, row': seq<BankState>,
                                         q': seq<BusPacket>, n: nat, bank: nat, d: int)
    requires n <= |row| == |row'|
    requires forall b | 0 <= b < n && b != bank :: BankWork(row'[b], q', b) <= BankWork(row[b], q, b)
    requires bank < n ==> BankWork(row'[bank], q', bank) <= BankWork(row[bank], q, bank) + d
    ensures RowWork(row', q', n) <= RowWork(row, q, n) + if bank < n then d else 0
  {
    hide BankWork;
    if n > 0 { RowWorkChange(row, q, row', q', n - 1, bank, d); }
  }

  lemma {:induction false} WorkChange(table: seq<seq<BankState>>, queues: seq<seq<BusPacket>>,
                                      table': seq<seq<BankState>>, queues': seq<seq<BusPacket>>, n: nat, rank: nat,
                                      d: int)
    requires n <= |table| == |queues| == |table'| == |queues'|
    requires forall r | 0 <= r < n && r != rank :: RankWork(table'[r], queues'[r]) <= RankWork(table[r], queues[r])
    requires rank < n ==> RankWork(table'[rank], queues'[rank]) <= RankWork(table[rank], queues[rank]) + d
    ensures Work(table', queues', n) <= Work(table, queues, n) + if rank < n then d else 0
  {
    hide RankWork;
    if n > 0 { WorkChange(table, queues, table', queues', n - 1, rank, d); }
  }

  /** Whether a row is open, and which, is all that counts. */
  predicate SameRows(row: seq<BankState>, row': seq<BankState>) {
    && |row| == |row'|
    && forall b | 0 <= b < |row| ::
         && (row[b].currentBankState == RowActive <==> row'[b].currentBankState == RowActive)
         && row[b].openRowAddress == row'[b].openRowAddress
  }

  lemma SameRowsSameWork(row: seq<BankState>, row': seq<BankState>, q: seq<BusPacket>)
    requires SameRows(row, row')
    ensures RankWork(row', q) == RankWork(row, q)
  {
    RowWorkChange(row, q, row', q, |row|, |row|, 0);
    RowWorkChange(row', q, row, q, |row|, |row|, 0);
  }

  /** Serving an entry takes it out of the queue; at worst its row is of no more use. */
  lemma ServingWorks(row: seq<BankState>, row': seq<BankState>, q: seq<BusPacket>, i: nat)
    requires SameRows(row, row') && i < |q|
    ensures RankWork(row', Without(q, i)) < RankWork(row, q)
  {
    var q', bank := Without(q, i), q[i].bank;
    forall b | 0 <= b < |row| && b != bank
      ensures BankWork(row'[b], q', b) <= BankWork(row[b], q, b)
    {
      if k :| 0 <= k < |q| && q[k].bank == b && q[k].row == row[b].openRowAddress {
        assert q'[if k < i then k else k - 1] == q[k];
      }
    }
    RowWorkChange(row, q, row', q', |row|, bank, 2);
  }

  lemma OneBankWorks(row: seq<BankState>, row': seq<BankState>, q: seq<BusPacket>, bank: nat)
    requires |row| == |row'| && bank < |row|
    requires forall b | 0 <= b < |row| && b != bank ::
               && (row[b].currentBankState == RowActive <==> row'[b].currentBankState == RowActive)
               && row[b].openRowAddress == row'[b].openRowAddress
    requires BankWork(row'[bank], q, bank) < BankWork(row[bank], q, bank)
    ensures RankWork(row', q) < RankWork(row, q)
  {
    RowWorkChange(row, q, row', q, |row|, bank, -1);
  }

  // ---------- cycles without arrivals and refreshes ----------

  datatype Flow = Flow(table: seq<seq<BankState>>, queues: seq<seq<BusPacket>>, t: int)

  /** What `pop` sees in the cycle, with nothing held against activations and accesses. */
  function Sight(c: Config, f: Flow): View {
    View(c, TickTable(f.table), seq(c.numRanks, _ => SB), seq(c.numRanks, _ => []),
         seq(c.numRanks, _ => seq(c.numBanks, _ => 0)), f.t)
  }

  predicate NoBarriers(queues: seq<seq<BusPacket>>) {
    forall r, i | 0 <= r < |queues| && 0 <= i < |queues[r]| :: !queues[r][i].barrier
  }

  predicate Proper(c: Config, f: Flow) {
    c.Valid() && TableShape(c, f.table) && AllQueued(c, f.queues) && NoBarriers(f.queues)
  }

  function Issue(c: Config, f: Flow, r: Option<BusPacket>): seq<seq<BankState>>
    requires c.Valid()
  {
    if r.None? then TickTable(f.table) else AfterIssueTable(c, r.value, f.t, TickTable(f.table))
  }

  /** One cycle in which `pop` comes out as `r`. */
  predicate Flows(c: Config, f: Flow, r: Option<BusPacket>, f': Flow)
    requires Proper(c, f)
  {
    Handles(Sight(c, f), f.queues, r, f'.queues) && f'.table == Issue(c, f, r) && f'.t == f.t + 1
  }

  /** By then all deadlines of the bank have passed, and it is idle or has a row open. */
  predicate BankClearBy(b: BankState, t: int, limit: int) {
    && b.nextRead <= limit && b.nextWrite <= limit && b.nextActivate <= limit && b.nextPrecharge <= limit
    && (b.currentBankState == RowActive ==> b.lastCommand != REF && b.lastCommand != PRECHARGE)
    && (b.currentBankState == Precharging || b.currentBankState == Refreshing ==>
          && (b.lastCommand == REF || b.lastCommand == PRECHARGE)
          && b.stateChangeCountdown >= 1 && t + b.stateChangeCountdown <= limit)
  }

  predicate TableClearBy(c: Config, table: seq<seq<BankState>>, t: int, limit: int)
    requires TableShape(c, table)
  {
    forall r, b | 0 <= r < c.numRanks && 0 <= b < c.numBanks :: BankClearBy(table[r][b], t, limit)
  }

  predicate ClearBy(c: Config, f: Flow, limit: int)
    requires TableShape(c, f.table)
  {
    TableClearBy(c, f.table, f.t, limit)
  }

  lemma BankTicks(b: BankState, t: int, limit: int)
    requires BankClearBy(b, t, limit)
    ensures BankClearBy(TickBank(b), t + 1, limit)
    ensures TickBank(b).currentBankState == RowActive <==> b.currentBankState == RowActive
    ensures TickBank(b).openRowAddress == b.openRowAddress
    ensures t >= limit ==> BankClear(TickBank(b), t)
  {
  }

  lemma BankIssues(c: Config, p: BusPacket, t: int, r: nat, j: nat, b: BankState, limit: int)
    requires c.Valid() && BankClearBy(b, t + 1, limit) && limit <= t + c.LongWait()
    requires r == p.rank && j == p.bank ==> Ready(SB, b, p, t)
    ensures BankClearBy(AfterIssue(c, p, t, r, j, b), t + 1, t + 1 + c.LongWait())
  {
  }

  lemma StaysClear(c: Config, f: Flow, r: Option<BusPacket>, f': Flow, limit: int)
    requires Proper(c, f) && Flows(c, f, r, f') && ClearBy(c, f, limit) && limit <= f.t + c.LongWait()
    ensures TableShape(c, f'.table) && ClearBy(c, f', if r.None? then limit else f'.t + c.LongWait())
  {
    hide Config.LongWait, AfterIssue, BankClearBy, TickBank;
    forall i, b | 0 <= i < c.numRanks && 0 <= b < c.numBanks
      ensures BankClearBy(f'.table[i][b], f'.t, if r.None? then limit else f'.t + c.LongWait())
    {
      BankTicks(f.table[i][b], f.t, limit);
      if r.Some? {
        BankIssues(c, r.value, f.t, i, b, TickBank(f.table[i][b]), limit);
      }
    }
  }

  /** Nothing joins a queue. */
  lemma StaysProper(c: Config, f: Flow, r: Option<BusPacket>, f': Flow)
    requires Proper(c, f) && Flows(c, f, r, f')
    ensures Proper(c, f')
  {
    hide AfterIssue, TickBank, Stuck, OpensFor, MayClose;
    if r.Some? && (r.value.busPacketType == READ || r.value.busPacketType == WRITE) {
      var p := r.value;
      var i :| 0 <= i < |f.queues[p.rank]| && TakenAt(f.queues, p, i, f'.queues);
      assert WellQueued(c, f.queues[p.rank], p.rank);
      forall k | 0 <= k < c.numRanks
        ensures WellQueued(c, f'.queues[k], k)
      {
        assert WellQueued(c, f.queues[k], k);
      }
    }
  }

  // ---------- every command is progress ----------

  lemma TicksKeepRows(c: Config, f: Flow, limit: int, r: nat)
    requires Proper(c, f) && ClearBy(c, f, limit) && r < c.numRanks
    ensures SameRows(f.table[r], TickRow(f.table[r]))
  {
    hide TickBank, BankClearBy;
    forall b | 0 <= b < c.numBanks
      ensures TickBank(f.table[r][b]).currentBankState == RowActive <==> f.table[r][b].currentBankState == RowActive
      ensures TickBank(f.table[r][b]).openRowAddress == f.table[r][b].openRowAddress
    {
      BankTicks(f.table[r][b], f.t, limit);
    }
  }

  /** What the command does to a rank, given its row of the table after the tick. */
  lemma RankWorks(c: Config, v: View, queues: seq<seq<BusPacket>>, p: BusPacket, queues': seq<seq<BusPacket>>)
    requires v.Shaped() && v.c == c && AllQueued(c, queues) && NoBarriers(queues)
    requires Handles(v, queues, Some(p), queues')
    ensures RankWork(AfterIssueRow(c, p, v.clock, p.rank, v.table[p.rank]), queues'[p.rank])
          < RankWork(v.table[p.rank], queues[p.rank])
    ensures |queues'| == |queues| && forall r | 0 <= r < |queues| && r != p.rank :: queues'[r] == queues[r]
  {
    var row, q := v.table[p.rank], queues[p.rank];
    var row' := AfterIssueRow(c, p, v.clock, p.rank, row);
    assert WellQueued(c, q, p.rank);
    if p.busPacketType == READ || p.busPacketType == WRITE {
      var i :| 0 <= i < |q| && TakenAt(queues, p, i, queues');
      ServingWorks(row, row', q, i);
    } else {
      if p.busPacketType == ACTIVATE {
        var i :| 0 <= i < |q| && p == ActivateFor(q[i]);
        assert IsUseful(q, p.bank, p.row);
      } else {
        Unwanted(v, q, p.rank, p.bank);
      }
      OneBankWorks(row, row', q, p.bank);
    }
  }

  /** Without barriers, a row that nothing waits for is of no use to any entry. */
  lemma Unwanted(v: View, q: seq<BusPacket>, rank: nat, bank: nat)
    requires v.Shaped() && rank < v.c.numRanks && bank < v.c.numBanks && WellQueued(v.c, q, rank)
    requires forall i | 0 <= i < |q| :: !q[i].barrier
    requires v.table[rank][bank].currentBankState == RowActive && !v.Wanted(q, rank, bank)
    ensures !IsUseful(q, bank, v.table[rank][bank].openRowAddress)
  {
    if i :| 0 <= i < |q| && q[i].bank == bank && q[i].row == v.table[rank][bank].openRowAddress {
      assert v.WantedBy(q, rank, bank, i);
    }
  }

  lemma OtherRanks(c: Config, p: BusPacket, t: int, r: nat, row: seq<BankState>)
    requires c.Valid() && r != p.rank
    ensures SameRows(row, AfterIssueRow(c, p, t, r, row))
  {
  }

  /** A command leaves less to do; without one, nothing changes. */
  lemma CommandsWork(c: Config, f: Flow, r: Option<BusPacket>, f': Flow, limit: int)
    requires Proper(c, f) && Flows(c, f, r, f') && ClearBy(c, f, limit) && Proper(c, f')
    ensures Work(f'.table, f'.queues, c.numRanks) <= Work(f.table, f.queues, c.numRanks) - if r.None? then 0 else 1
  {
    var v := Sight(c, f);
    hide RankWork, SameRows, TickRow, AfterIssueRow, Handles;
    forall k | 0 <= k < c.numRanks
      ensures RankWork(v.table[k], f.queues[k]) == RankWork(f.table[k], f.queues[k])
    {
      TicksKeepRows(c, f, limit, k);
      SameRowsSameWork(f.table[k], v.table[k], f.queues[k]);
    }
    if r.None? {
      assert f'.queues == f.queues by { NoneKeeps(v, f.queues, f'.queues); }
      WorkChange(f.table, f.queues, f'.table, f'.queues, c.numRanks, c.numRanks, 0);
    } else {
      var p := r.value;
      RankWorks(c, v, f.queues, p, f'.queues);
      forall k | 0 <= k < c.numRanks && k != p.rank
        ensures RankWork(f'.table[k], f'.queues[k]) == RankWork(f.table[k], f.queues[k])
      {
        OtherRanks(c, p, f.t, k, v.table[k]);
        SameRowsSameWork(v.table[k], f'.table[k], f.queues[k]);
      }
      assert p.rank < c.numRanks by { SomeInRange(v, f.queues, p, f'.queues); }
      WorkChange(f.table, f.queues, f'.table, f'.queues, c.numRanks, p.rank, -1);
    }
  }

  lemma NoneKeeps(v: View, queues: seq<seq<BusPacket>>, queues': seq<seq<BusPacket>>)
    requires v.Shaped() && AllQueued(v.c, queues) && Handles(v, queues, None, queues')
    ensures queues' == queues
  {
  }

  lemma SomeInRange(v: View, queues: seq<seq<BusPacket>>, p: BusPacket, queues': seq<seq<BusPacket>>)
    requires v.Shaped() && AllQueued(v.c, queues) && Handles(v, queues, Some(p), queues')
    ensures p.rank < v.c.numRanks
  {
  }

  // ---------- nothing stays silent for long ----------

  predicate Drained(queues: seq<seq<BusPacket>>) {
    forall r | 0 <= r < |queues| :: queues[r] == []
  }

  /** Once the deadlines have passed, only empty queues leave `pop` without a command. */
  lemma SilentIsDrained(c: Config, f: Flow, f': Flow, limit: int)
    requires Proper(c, f) && Flows(c, f, None, f') && ClearBy(c, f, limit) && limit <= f.t
    requires c.xaw > 0 && c.totalRowAccesses > 0
    ensures Drained(f.queues)
  {
    var v := Sight(c, f);
    forall r, b | 0 <= r < c.numRanks && 0 <= b < c.numBanks
      ensures BankClear(v.table[r][b], v.clock)
    {
      BankTicks(f.table[r][b], f.t, limit);
    }
    hide BankClearBy, TickTable, Stuck;
    StuckExactly(v, f.queues, false, 0);
    forall r | 0 <= r < c.numRanks
      ensures f.queues[r] == []
    {
      assert Resting(v, f.queues[r], r);
    }
  }

  /** A sequence of such cycles; that every state is proper follows from the first one (StaysProper). */
  predicate IsFlow(c: Config, flow: seq<Flow>, popped: seq<Option<BusPacket>>) {
    && |flow| == |popped| + 1 && (forall k | 0 <= k < |flow| :: Proper(c, flow[k]))
    && forall k | 0 <= k < |popped| :: Flows(c, flow[k], popped[k], flow[k + 1])
  }

  /** From the start on, all deadlines pass within a delay of the current cycle. */
  lemma {:induction false} AlwaysClears(c: Config, flow: seq<Flow>, popped: seq<Option<BusPacket>>, k: nat)
    requires IsFlow(c, flow, popped) && k < |flow| && ClearBy(c, flow[0], flow[0].t + c.LongWait())
    ensures ClearBy(c, flow[k], flow[k].t + c.LongWait())
  {
    hide ClearBy, Flows, Config.LongWait;
    if k > 0 {
      AlwaysClears(c, flow, popped, k - 1);
      var f, f', limit := flow[k - 1], flow[k - 1 + 1], flow[k - 1].t + c.LongWait();
      StaysClear(c, f, popped[k - 1], f', limit);
      TimePasses(c, f, popped[k - 1], f', limit);
    }
  }

  lemma TimePasses(c: Config, f: Flow, r: Option<BusPacket>, f': Flow, limit: int)
    requires Proper(c, f) && Flows(c, f, r, f') && TableShape(c, f'.table)
    ensures f'.t == f.t + 1
    ensures ClearBy(c, f', limit) ==> ClearBy(c, f', limit + 1)
  {
  }

  /** Within `n` cycles of silence, the deadlines come `n` cycles closer. */
  lemma {:induction false} SilenceClears(c: Config, flow: seq<Flow>, popped: seq<Option<BusPacket>>, k: nat, n: nat)
    requires IsFlow(c, flow, popped) && k + n < |flow| && n <= c.LongWait()
    requires ClearBy(c, flow[k], flow[k].t + c.LongWait())
    requires forall i | k <= i < k + n :: popped[i].None?
    ensures flow[k + n].t == flow[k].t + n && ClearBy(c, flow[k + n], flow[k].t + c.LongWait())
    decreases n
  {
    hide ClearBy, Flows, Config.LongWait;
    if n > 0 {
      SilenceClears(c, flow, popped, k, n - 1);
      var f, f', limit := flow[k + n - 1], flow[k + n - 1 + 1], flow[k].t + c.LongWait();
      StaysClear(c, f, None, f', limit);
      TimePasses(c, f, None, f', limit);
    }
  }

  lemma {:induction false} WorkNeverGrows(c: Config, flow: seq<Flow>, popped: seq<Option<BusPacket>>, k: nat, m: nat)
    requires IsFlow(c, flow, popped) && k <= m < |flow| && ClearBy(c, flow[0], flow[0].t + c.LongWait())
    ensures WorkAt(c, flow, m) <= WorkAt(c, flow, k)
    ensures Drained(flow[k].queues) ==> Drained(flow[m].queues)
    decreases m - k
  {
    hide ClearBy, Flows, Config.LongWait, Work;
    if k < m {
      WorkNeverGrows(c, flow, popped, k, m - 1);
      var f, f' := flow[m - 1], flow[m - 1 + 1];
      AlwaysClears(c, flow, popped, m - 1);
      CommandsWork(c, f, popped[m - 1], f', f.t + c.LongWait());
      if Drained(f.queues) { StaysDrained(c, f, popped[m - 1], f'); }
    }
  }

  function WorkAt(c: Config, flow: seq<Flow>, k: nat): nat
    requires k < |flow| && Proper(c, flow[k])
  {
    Work(flow[k].table, flow[k].queues, c.numRanks)
  }

  lemma StaysDrained(c: Config, f: Flow, r: Option<BusPacket>, f': Flow)
    requires Proper(c, f) && Flows(c, f, r, f') && Drained(f.queues)
    ensures Drained(f'.queues)
  {
    hide Stuck, OpensFor, MayClose, AfterIssueTable, TickTable;
  }

  /** In any stretch of cycles longer than the delays, something is issued or everything is drained. */
  lemma StretchWorks(c: Config, flow: seq<Flow>, popped: seq<Option<BusPacket>>, k: nat)
    requires IsFlow(c, flow, popped) && ClearBy(c, flow[0], flow[0].t + c.LongWait()) && k + c.LongWait() + 1 < |flow|
    requires c.xaw > 0 && c.totalRowAccesses > 0
    ensures var m := k + c.LongWait() + 1; Drained(flow[m].queues) || WorkAt(c, flow, m) < WorkAt(c, flow, k)
  {
    var d, m := c.LongWait(), k + c.LongWait() + 1;
    hide ClearBy, Flows, Config.LongWait, Work, Drained;
    if i :| k <= i < m && popped[i].Some? {
      AlwaysClears(c, flow, popped, i);
      CommandsWork(c, flow[i], popped[i], flow[i + 1], flow[i].t + d);
      WorkNeverGrows(c, flow, popped, k, i);
      WorkNeverGrows(c, flow, popped, i + 1, m);
    } else {
      AlwaysClears(c, flow, popped, k);
      SilenceClears(c, flow, popped, k, d);
      SilentIsDrained(c, flow[k + d], flow[k + d + 1], flow[k].t + d);
      WorkNeverGrows(c, flow, popped, k + d, m);
    }
  }

  lemma {:induction false} ManyStretches(c: Config, flow: seq<Flow>, popped: seq<Option<BusPacket>>, n: nat)
    requires IsFlow(c, flow, popped) && ClearBy(c, flow[0], flow[0].t + c.LongWait()) && n * (c.LongWait() + 1) < |flow|
    requires c.xaw > 0 && c.totalRowAccesses > 0
    ensures var m := n * (c.LongWait() + 1); Drained(flow[m].queues) || WorkAt(c, flow, m) + n <= WorkAt(c, flow, 0)
    decreases n
  {
    var d := c.LongWait();
    hide ClearBy, Flows, Config.LongWait, Work, Drained;
    if n > 0 {
      NextProduct(n - 1, d + 1);
      var k := (n - 1) * (d + 1);
      ManyStretches(c, flow, popped, n - 1);
      StretchWorks(c, flow, popped, k);
      WorkNeverGrows(c, flow, popped, k, k + d + 1);
    }
  }

  /**
   * Queues without barriers drain: once as many stretches of delays have passed as there are commands to
   * issue, with no refresh waiting and nothing new arriving, no packet waits any more.
   */
  lemma QueuesDrain(c: Config, flow: seq<Flow>, popped: seq<Option<BusPacket>>)
    requires IsFlow(c, flow, popped) && ClearBy(c, flow[0], flow[0].t + c.LongWait())
    requires c.xaw > 0 && c.totalRowAccesses > 0
    requires (WorkAt(c, flow, 0) + 1) * (c.LongWait() + 1) <= |popped|
    ensures Drained(flow[|popped|].queues)
  {
    var n, d := WorkAt(c, flow, 0) + 1, c.LongWait();
    hide ClearBy, Flows, Config.LongWait, Work, Drained;
    ManyStretches(c, flow, popped, n);
    WorkNeverGrows(c, flow, popped, n * (d + 1), |popped|);
  }

  // ---------- where the deadlines of a run stand ----------

  lemma TableStaysClear(c: Config, table: seq<seq<BankState>>, modes: seq<DramMode>, t: int,
                        queues: seq<seq<BusPacket>>, popped: Option<BusPacket>, queues': seq<seq<BusPacket>>)
    requires c.Valid() && TableShape(c, table) && |modes| == |queues| == c.numRanks
    requires TableClearBy(c, table, t, t + c.LongWait())
    requires popped.Some? ==> MayIssue(c, TickTable(table), modes, t, queues, popped.value, queues')
    ensures var m := TickTable(table);
            var table' := if popped.None? then m else AfterIssueTable(c, popped.value, t, m);
            TableShape(c, table') && TableClearBy(c, table', t + 1, t + 1 + c.LongWait())
  {
    hide Config.LongWait, AfterIssue, BankClearBy, TickBank, TakenFrom;
    var m := TickTable(table);
    var table' := if popped.None? then m else AfterIssueTable(c, popped.value, t, m);
    forall r, b | 0 <= r < c.numRanks && 0 <= b < c.numBanks
      ensures BankClearBy(table'[r][b], t + 1, t + 1 + c.LongWait())
    {
      BankTicks(table[r][b], t, t + c.LongWait());
      if popped.Some? {
        BankIssues(c, popped.value, t, r, b, TickBank(table[r][b]), t + c.LongWait());
      } else {
        LaterIsClear(TickBank(table[r][b]), t + 1, t + c.LongWait());
      }
    }
  }

  lemma LaterIsClear(b: BankState, t: int, limit: int)
    requires BankClearBy(b, t, limit)
    ensures BankClearBy(b, t, limit + 1)
  {
  }

  lemma CycleStaysClear(c: Config, locate: nat -> Location, s: SystemState, choice: Choice)
    requires Inputs(c, locate) && SystemShape(c, s) && Allowed(c, s, choice) && Cycle(c, locate, s, choice).Success?
    requires TableClearBy(c, s.controller.table, s.clock, s.clock + c.LongWait())
    ensures var s' := Cycle(c, locate, s, choice).value;
            TableShape(c, s'.controller.table)
            && TableClearBy(c, s'.controller.table, s'.clock, s'.clock + c.LongWait())
  {
    hide Config.LongWait, BankClearBy, AfterIssueTable, TickTable, MayIssue, Receive, Accepts, Scheduled;
    var t := AfterRanks(c, s);
    var before := BeforePop(c, t.controller, t.ranks, s.clock, choice.pimMode).value;
    assert before.0.table == TickTable(s.controller.table) && before.0.queues == s.controller.queues;
    if choice.popped.Some? {
      assert Admissible(c, before.0, Modes(before.1), s.clock, choice);
    }
    TableStaysClear(c, s.controller.table, Modes(before.1), s.clock, s.controller.queues, choice.popped, choice.queues);
  }

  /** In every state of every run, all deadlines pass within a delay, so its queues drain from there. */
  lemma {:induction false} RunIsClear(c: Config, locate: nat -> Location, states: seq<SystemState>,
                                      events: seq<Event>, n: nat)
    requires Inputs(c, locate) && IsRun(c, locate, states, events) && n < |states|
    ensures TableShape(c, states[n].controller.table)
    ensures TableClearBy(c, states[n].controller.table, states[n].clock, states[n].clock + c.LongWait())
  {
    hide Cycle, Allowed, Fittingly, Config.LongWait, BankClearBy;
    if n == 0 {
      StartsClear(c);
    } else {
      RunIsClear(c, locate, states, events, n - 1);
      assert IsStep(c, locate, states[n - 1], events[n - 1], states[n - 1 + 1]);
      if events[n - 1].Cycles? {
        CycleStaysClear(c, locate, states[n - 1], events[n - 1].choice);
      }
    }
  }

  lemma StartsClear(c: Config)
    requires c.Valid()
    ensures var s := InitialSystem(c);
            TableShape(c, s.controller.table) && TableClearBy(c, s.controller.table, s.clock, s.clock + c.LongWait())
  {
  }
}
