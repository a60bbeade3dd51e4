/** The memory controller: its table of bank states, its buses and its transaction queues. */
module MemoryControllerModel {
  import opened Arithmetic
  import opened Dram
  import opened CommandQueueModel
  import opened RankModel

  /** Why the simulator gives up. */
  datatype Exit = IllegalCommand | CommandBusCollision | DataBusCollision | NoMatchingTransaction

  // ---------- the effect of an issued command on one bank ----------

  function DelayColumns(b: BankState, clock: int, read: int, write: int): BankState {
    b.(nextRead := Max(b.nextRead, clock + read), nextWrite := Max(b.nextWrite, clock + write))
  }

  /** How a read or write `p` delays the column accesses of bank `j` of rank `i`. */
  function ColumnDelays(c: Config, p: BusPacket, clock: int, i: nat, j: nat, b: BankState): BankState
    requires c.Valid()
  {
    if i == p.rank then
      if p.busPacketType == READ then
        DelayColumns(b, clock, c.ColumnGap(j, p.bank), c.ReadToWrite())
      else
        DelayColumns(b, clock, c.WriteToReadLong(), c.ColumnGap(j, p.bank))
    else if b.currentBankState != RowActive then b
    else if p.busPacketType == READ then
      DelayColumns(b, clock, c.Burst() + c.tRTRS, c.ReadToWrite())
    else
      DelayColumns(b, clock, c.WriteToReadOtherRank(), c.Burst() + c.tRTRS)
  }

  /** Bank `j` of rank `i` after the controller has issued `p`. */
  function AfterIssue(c: Config, p: BusPacket, clock: int, i: nat, j: nat, b: BankState): BankState
    requires c.Valid()
  {
    var target := i == p.rank && j == p.bank;
    match p.busPacketType
    case READ =>
      ColumnDelays(c, p, clock, i, j,
                   if target then
                     b.(nextPrecharge := Max(clock + c.ReadToPre(), b.nextPrecharge), lastCommand := READ)
                   else b)
    case WRITE =>
      ColumnDelays(c, p, clock, i, j,
                   if target then
                     b.(nextPrecharge := Max(clock + c.WriteToPre(), b.nextPrecharge), lastCommand := WRITE)
                   else b)
    case ACTIVATE =>
      if target then
        DelayColumns(
          b.(currentBankState := RowActive, lastCommand := ACTIVATE, openRowAddress := p.row,
             nextActivate := Max(clock + c.tRC, b.nextActivate),
             nextPrecharge := Max(clock + c.tRAS, b.nextPrecharge)),
          clock, c.tRCDRD - c.al, c.tRCDWR - c.al)
      else if i == p.rank then
        b.(nextActivate := Max(clock + c.ActivateGap(j, p.bank), b.nextActivate))
      else b
    case PRECHARGE =>
      if target then
        b.(currentBankState := Precharging, lastCommand := PRECHARGE,
           stateChangeCountdown := c.tRP, nextActivate := Max(clock + c.tRP, b.nextActivate))
      else b
    case REF =>
      if i == p.rank then
        b.(currentBankState := Refreshing, lastCommand := REF,
           stateChangeCountdown := c.tRFC, nextActivate := clock + c.tRFC)
      else b
    case DATA => b
  }

  function AfterIssueRow(c: Config, p: BusPacket, clock: int, i: nat, row: seq<BankState>)
    : (r: seq<BankState>)
    requires c.Valid()
    ensures |r| == |row|
  {
    seq(|row|, j requires 0 <= j < |row| => AfterIssue(c, p, clock, i, j, row[j]))
  }

  function AfterIssueTable(c: Config, p: BusPacket, clock: int, table: seq<seq<BankState>>)
    : (r: seq<seq<BankState>>)
    requires c.Valid()
    ensures |r| == |table|
  {
    seq(|table|, i requires 0 <= i < |table| => AfterIssueRow(c, p, clock, i, table[i]))
  }

  // ---------- one cycle of the bank states ----------

  /** A bank leaves Precharging or Refreshing when its countdown runs out. */
  function TickBank(b: BankState): BankState {
    if b.stateChangeCountdown == 0 then b
    else
      var left := b.stateChangeCountdown - 1;
      b.(stateChangeCountdown := left,
         currentBankState := if left == 0 && (b.lastCommand == REF || b.lastCommand == PRECHARGE)
                             then Idle else b.currentBankState)
  }

  function TickRow(row: seq<BankState>): (r: seq<BankState>)
    ensures |r| == |row|
  {
    seq(|row|, j requires 0 <= j < |row| => TickBank(row[j]))
  }

  function TickTable(table: seq<seq<BankState>>): (r: seq<seq<BankState>>)
    ensures |r| == |table|
  {
    seq(|table|, i requires 0 <= i < |table| => TickRow(table[i]))
  }

  // ---------- the controller's other state ----------

  /** The write bursts on their way to the data bus, and the one that is on it. */
  datatype WriteBus = WriteBus(
    waiting: seq<BusPacket>, countdown: seq<int>, onBus: Option<BusPacket>, cyclesLeft: int)

  /** The transactions the controller is responsible for. */
  datatype Ledger = Ledger(
    queued: seq<Transaction>, pendingReads: seq<Transaction>, returned: seq<Transaction>,
    onTheFly: int)

  datatype ControllerState = ControllerState(
    table: seq<seq<BankState>>, queues: seq<seq<BusPacket>>, command: Option<BusPacket>,
    commandCyclesLeft: int, writes: WriteBus, ledger: Ledger)

  /** A write burst leaves the data bus in this cycle. */
  predicate WriteDone(w: WriteBus) {
    w.onBus.Some? && w.cyclesLeft == 1
  }

  function WriteBusReleased(w: WriteBus): WriteBus {
    if w.onBus.None? then w
    else w.(cyclesLeft := w.cyclesLeft - 1, onBus := if w.cyclesLeft == 1 then None else w.onBus)
  }

  /** One cycle of the write data path. */
  function WriteBusTick(c: Config, w: WriteBus): Result<WriteBus, Exit> {
    var released := WriteBusReleased(w);
    var waited := released.(countdown := Decremented(w.countdown));
    if |w.countdown| > 0 && |w.waiting| > 0 && w.countdown[0] == 1 then
      if released.onBus.Some? then Failure(DataBusCollision)
      else Success(waited.(onBus := Some(w.waiting[0]), cyclesLeft := c.Burst(),
                           waiting := w.waiting[1..], countdown := waited.countdown[1..]))
    else Success(waited)
  }

  /** A write command announces its data. */
  function WriteAnnounced(c: Config, w: WriteBus, p: BusPacket): WriteBus {
    if p.busPacketType == WRITE then
      w.(waiting := w.waiting + [p.(busPacketType := DATA, barrier := false)], countdown := w.countdown + [c.wl])
    else w
  }

  /** The first queued transaction whose rank has room, from `i` on; the queue's length if none. */
  function FirstWithRoom(c: Config, locate: nat -> Location, queued: seq<Transaction>,
                         queues: seq<seq<BusPacket>>, i: nat): (r: nat)
    requires |queues| == c.numRanks && (forall a :: locate(a).rank < c.numRanks) && i <= |queued|
    ensures i <= r <= |queued|
    decreases |queued| - i
  {
    if i == |queued| || c.queueDepth - |queues[locate(queued[i].address).rank]| >= 1 then i
    else FirstWithRoom(c, locate, queued, queues, i + 1)
  }

  function CommandFor(locate: nat -> Location, t: Transaction): BusPacket {
    var l := locate(t.address);
    BusPacket(if t.transactionType == DATA_READ then READ else WRITE, t.address, l.column, l.row,
              l.rank, l.bank, t.data, t.barrier)
  }

  /** At most one queued transaction becomes a command in a cycle. */
  function Scheduled(c: Config, locate: nat -> Location, l: Ledger, queues: seq<seq<BusPacket>>)
    : (Ledger, seq<seq<BusPacket>>)
    requires |queues| == c.numRanks && forall a :: locate(a).rank < c.numRanks
  {
    var i := FirstWithRoom(c, locate, l.queued, queues, 0);
    if i == |l.queued| then (l, queues)
    else
      var t := l.queued[i];
      var p := CommandFor(locate, t);
      (l.(queued := l.queued[..i] + l.queued[i + 1..],
          pendingReads := if t.transactionType == DATA_READ then l.pendingReads + [t]
                          else l.pendingReads),
       queues[p.rank := queues[p.rank] + [p]])
  }

  /** What that makes of the transactions that wait and of the queues. */
  function AfterScheduling(c: Config, locate: nat -> Location, queued: seq<Transaction>, queues: seq<seq<BusPacket>>)
    : (seq<Transaction>, seq<seq<BusPacket>>)
    requires |queues| == c.numRanks && forall a :: locate(a).rank < c.numRanks
  {
    var (ledger, queues') := Scheduled(c, locate, Ledger(queued, [], [], 0), queues);
    (ledger.queued, queues')
  }

  /** The place of the first transaction with the given address, from `i` on. */
  function FirstAt(ts: seq<Transaction>, address: nat, i: nat): (r: nat)
    requires i <= |ts|
    ensures i <= r <= |ts| && (r < |ts| ==> ts[r].address == address)
    ensures forall k | i <= k < r :: ts[k].address != address
    decreases |ts| - i
  {
    if i == |ts| || ts[i].address == address then i else FirstAt(ts, address, i + 1)
  }

  /** At most one burst of read data goes back to the processor in a cycle. */
  function ReadReturned(l: Ledger): Result<Ledger, Exit> {
    if |l.returned| == 0 then Success(l)
    else
      var i := FirstAt(l.pendingReads, l.returned[0].address, 0);
      if i == |l.pendingReads| then Failure(NoMatchingTransaction)
      else Success(l.(pendingReads := l.pendingReads[..i] + l.pendingReads[i + 1..],
                      returned := l.returned[1..], onTheFly := l.onTheFly - 1))
  }

  function Received(l: Ledger, p: BusPacket): Ledger {
    l.(returned := l.returned + [Transaction(RETURN_DATA, p.physicalAddress, p.data, false)])
  }

  // ---------- the controller's cycle ----------

  /** What is left open in a cycle: the command `pop` hands out, the queues after it, and the
      mode the PIM unit asks for. */
  datatype Choice = Choice(popped: Option<BusPacket>, queues: seq<seq<BusPacket>>, pimMode: DramMode)

  ghost predicate Inputs(c: Config, locate: nat -> Location) {
    c.Valid() && forall a :: locate(a).rank < c.numRanks && locate(a).bank < c.numBanks
  }

  predicate Shaped(c: Config, s: ControllerState, ranks: seq<RankState>) {
    && TableShape(c, s.table) && |s.queues| == |ranks| == c.numRanks
    && (s.command.Some? ==> s.command.value.rank < c.numRanks)
  }

  function Modes(ranks: seq<RankState>): (r: seq<DramMode>)
    ensures |r| == |ranks|
  {
    seq(|ranks|, i requires 0 <= i < |ranks| => ranks[i].mode)
  }

  /** The command on the command bus reaches its rank. */
  function CommandDelivered(c: Config, s: ControllerState, ranks: seq<RankState>, clock: int,
                            pimMode: DramMode)
    : (r: Result<(ControllerState, seq<RankState>), Exit>)
    requires c.Valid() && Shaped(c, s, ranks)
    ensures r.Success? ==> Shaped(c, r.value.0, r.value.1)
  {
    if s.command.None? then Success((s, ranks))
    else
      var left := s.commandCyclesLeft - 1;
      if left != 0 then Success((s.(commandCyclesLeft := left), ranks))
      else
        var p := s.command.value;
        if !Accepts(ranks[p.rank].mode, ranks[p.rank].banks, p, clock) then Failure(IllegalCommand)
        else Success((s.(command := None, commandCyclesLeft := 0),
                      ranks[p.rank := Receive(c, ranks[p.rank], p, clock, pimMode)]))
  }

  /** The popped command updates the table and goes out on the command bus. */
  function Issued(c: Config, s: ControllerState, p: BusPacket, clock: int): Result<ControllerState, Exit>
    requires c.Valid()
  {
    if s.command.Some? then Failure(CommandBusCollision)
    else Success(s.(table := AfterIssueTable(c, p, clock, s.table), command := Some(p),
                    commandCyclesLeft := c.tCMD, writes := WriteAnnounced(c, s.writes, p)))
  }

  function WriteCompleted(s: ControllerState): ControllerState {
    if WriteDone(s.writes) then s.(ledger := s.ledger.(onTheFly := s.ledger.onTheFly - 1)) else s
  }

  /** The table is ticked, the command delivered and the write bus moved on. */
  function BeforePop(c: Config, s: ControllerState, ranks: seq<RankState>, clock: int, pimMode: DramMode)
    : (r: Result<(ControllerState, seq<RankState>), Exit>)
    requires c.Valid() && Shaped(c, s, ranks)
    ensures r.Success? ==> Shaped(c, r.value.0, r.value.1)
  {
    var (s1, ranks1) :- CommandDelivered(c, s.(table := TickTable(s.table)), ranks, clock, pimMode);
    var s2 := WriteCompleted(s1);
    var writes :- WriteBusTick(c, s2.writes);
    Success((s2.(writes := writes), ranks1))
  }

  function PopIssued(c: Config, s: ControllerState, clock: int, choice: Choice)
    : (r: Result<ControllerState, Exit>)
    requires c.Valid()
    ensures r.Success? ==> |r.value.queues| == if choice.popped.None? then |s.queues| else |choice.queues|
  {
    if choice.popped.None? then Success(s)
    else Issued(c, s.(queues := choice.queues), choice.popped.value, clock)
  }

  function AfterPop(c: Config, locate: nat -> Location, s: ControllerState, clock: int,
                    choice: Choice): Result<ControllerState, Exit>
    requires c.Valid() && (forall a :: locate(a).rank < c.numRanks)
    requires |s.queues| == |choice.queues| == c.numRanks
  {
    var s1 :- PopIssued(c, s, clock, choice);
    var (ledger, queues) := Scheduled(c, locate, s1.ledger, s1.queues);
    var ledger :- ReadReturned(ledger);
    Success(s1.(queues := queues, ledger := ledger))
  }

  /** `pop` may come out as `choice` says in a state reached by `BeforePop`. */
  predicate Admissible(c: Config, s: ControllerState, modes: seq<DramMode>, clock: int, choice: Choice)
    requires TableShape(c, s.table) && |s.queues| == |modes| == c.numRanks
  {
    && |choice.queues| == c.numRanks
    && (choice.popped.Some? ==>
          MayIssue(c, s.table, modes, clock, s.queues, choice.popped.value, choice.queues))
  }

  /** `pop` comes out as `choice` says at its place in the cycle. */
  predicate PopsWell(c: Config, s: ControllerState, ranks: seq<RankState>, clock: int, choice: Choice)
    requires c.Valid() && Shaped(c, s, ranks)
  {
    var r := BeforePop(c, s, ranks, clock, choice.pimMode);
    |choice.queues| == c.numRanks
    && (r.Success? ==> Admissible(c, r.value.0, Modes(r.value.1), clock, choice))
  }

  /** One whole cycle of the controller. */
  function ControllerCycle(c: Config, locate: nat -> Location, s: ControllerState,
                           ranks: seq<RankState>, clock: int, choice: Choice)
    : Result<(ControllerState, seq<RankState>), Exit>
    requires c.Valid() && (forall a :: locate(a).rank < c.numRanks)
    requires Shaped(c, s, ranks) && |choice.queues| == c.numRanks
  {
    var (s1, ranks1) :- BeforePop(c, s, ranks, clock, choice.pimMode);
    var s2 :- AfterPop(c, locate, s1, clock, choice);
    Success((s2, ranks1))
  }

  // ---------- the controller as the simulator keeps it ----------

  class MemoryController {
    const config: Config
    const locate: nat -> Location
    const commandQueue: CommandQueue
    var ranks: seq<Rank>
    var currentClockCycle: int
    var bankStates: seq<seq<BankState>>
    var transactionQueue: seq<Transaction>
    var pendingReadTransactions: seq<Transaction>
    var returnTransaction: seq<Transaction>
    var numOnTheFlyTransactions: int
    var outgoingCmdPacket: Option<BusPacket>
    var cmdCyclesLeft: int
    var outgoingDataPacket: Option<BusPacket>
    var dataCyclesLeft: int
    var writeDataToSend: seq<BusPacket>
    var writeDataCountdown: seq<int>
    var refreshCountdown: seq<int>
    var refreshRank: nat

    function Writes(): WriteBus
      reads this
    {
      WriteBus(writeDataToSend, writeDataCountdown, outgoingDataPacket, dataCyclesLeft)
    }

    function LedgerOf(): Ledger
      reads this
    {
      Ledger(transactionQueue, pendingReadTransactions, returnTransaction, numOnTheFlyTransactions)
    }

    function State(): ControllerState
      reads this, commandQueue
    {
      ControllerState(bankStates, commandQueue.queues, outgoingCmdPacket, cmdCyclesLeft, Writes(),
                      LedgerOf())
    }

    ghost predicate Valid()
      reads this, commandQueue
    {
      && Inputs(config, locate)
      && commandQueue.config == config && commandQueue.Valid()
      && TableShape(config, bankStates)
      && |refreshCountdown| == config.numRanks && refreshRank < config.numRanks
      && |writeDataToSend| == |writeDataCountdown|
      && (outgoingCmdPacket.Some? ==>
            outgoingCmdPacket.value.rank < config.numRanks && outgoingCmdPacket.value.bank < config.numBanks)
      && (forall t | t in transactionQueue :: t.transactionType != RETURN_DATA)
    }

    constructor (config: Config, locate: nat -> Location)
      requires Inputs(config, locate)
      ensures Valid() && fresh(commandQueue) && currentClockCycle == commandQueue.currentClockCycle == 0
      ensures this.config == config && this.locate == locate && ranks == []
      ensures State() == InitialController(config)
    {
      this.config := config;
      this.locate := locate;
      var queue := new CommandQueue(config);
      commandQueue := queue;
      ranks := [];
      currentClockCycle := 0;
      bankStates := seq(config.numRanks, _ => seq(config.numBanks, _ => INITIAL_BANK));
      transactionQueue, pendingReadTransactions, returnTransaction := [], [], [];
      numOnTheFlyTransactions := 0;
      outgoingCmdPacket, cmdCyclesLeft, outgoingDataPacket, dataCyclesLeft := None, 0, None, 0;
      writeDataToSend, writeDataCountdown := [], [];
      refreshCountdown := seq(config.numRanks, i => config.refreshPeriod / config.numRanks * (i + 1));
      refreshRank := 0;
    }

    /** A DATA packet from a rank becomes a transaction to return. */
    method ReceiveFromBus(packet: BusPacket)
      requires Valid()
      modifies this`returnTransaction
      ensures Valid() && LedgerOf() == Received(old(LedgerOf()), packet)
    {
      returnTransaction := returnTransaction
                         + [Transaction(RETURN_DATA, packet.physicalAddress, packet.data, false)];
    }

    predicate WillAcceptTransaction()
      reads this
    {
      |transactionQueue| < config.transactionDepth
    }

    method AddTransaction(t: Transaction) returns (added: bool)
      requires Valid() && t.transactionType != RETURN_DATA
      modifies this`transactionQueue, this`numOnTheFlyTransactions
      ensures Valid() && added == old(WillAcceptTransaction())
      ensures LedgerOf() == if added then Added(old(LedgerOf()), t) else old(LedgerOf())
    {
      if WillAcceptTransaction() {
        numOnTheFlyTransactions := numOnTheFlyTransactions + 1;
        transactionQueue := transactionQueue + [t];
        return true;
      }
      return false;
    }

    /** The transaction queued last becomes a barrier; false when there is none. */
    method AddBarrier() returns (added: bool)
      requires Valid()
      modifies this`transactionQueue
      ensures Valid() && added == (old(transactionQueue) != [])
      ensures LedgerOf() == Marked(old(LedgerOf()))
    {
      if |transactionQueue| > 0 {
        var last := |transactionQueue| - 1;
        transactionQueue := transactionQueue[last := transactionQueue[last].(barrier := true)];
        return true;
      }
      return false;
    }

    method UpdateBankState()
      requires Valid()
      modifies this`bankStates
      ensures Valid() && bankStates == TickTable(old(bankStates))
    {
      for i := 0 to config.numRanks
        invariant TableShape(config, bankStates)
        invariant forall r | 0 <= r < i :: bankStates[r] == TickRow(old(bankStates)[r])
        invariant forall r | i <= r < config.numRanks :: bankStates[r] == old(bankStates)[r]
      {
        var row := bankStates[i];
        for j := 0 to config.numBanks
          invariant |row| == config.numBanks
          invariant forall b | 0 <= b < j :: row[b] == TickBank(bankStates[i][b])
          invariant forall b | j <= b < config.numBanks :: row[b] == bankStates[i][b]
        {
          var b := row[j];
          if b.stateChangeCountdown > 0 {
            b := b.(stateChangeCountdown := b.stateChangeCountdown - 1);
            if b.stateChangeCountdown == 0 {
              match b.lastCommand {
                case REF => b := b.(currentBankState := Idle);
                case PRECHARGE => b := b.(currentBankState := Idle);
                case _ =>
              }
            }
          }
          row := row[j := b];
        }
        bankStates := bankStates[i := row];
      }
    }

    method SetBank(rank: nat, bank: nat, b: BankState)
      requires TableShape(config, bankStates) && rank < config.numRanks && bank < config.numBanks
      modifies this`bankStates
      ensures bankStates == old(bankStates)[rank := old(bankStates)[rank][bank := b]]
    {
      bankStates := bankStates[rank := bankStates[rank][bank := b]];
    }

    method SetBankStatesRW(rank: nat, bank: nat, readCycle: int, writeCycle: int)
      requires TableShape(config, bankStates) && rank < config.numRanks && bank < config.numBanks
      modifies this`bankStates
      ensures bankStates == old(bankStates)[rank := old(bankStates)[rank][bank :=
                DelayColumns(old(bankStates)[rank][bank], currentClockCycle, readCycle, writeCycle)]]
    {
      var b := bankStates[rank][bank];
      SetBank(rank, bank, b.(nextRead := Max(b.nextRead, currentClockCycle + readCycle),
                             nextWrite := Max(b.nextWrite, currentClockCycle + writeCycle)));
    }

    method SetBankStates(rank: nat, bank: nat, state: CurrentBankState, lastCommand: BusPacketType,
                         stateChangeCountdown: nat, nextActivate: int)
      requires TableShape(config, bankStates) && rank < config.numRanks && bank < config.numBanks
      modifies this`bankStates
      ensures var b := old(bankStates)[rank][bank];
              bankStates == old(bankStates)[rank := old(bankStates)[rank][bank :=
                b.(currentBankState := state, lastCommand := lastCommand, nextActivate := nextActivate,
                   stateChangeCountdown := if stateChangeCountdown != 0 then stateChangeCountdown
                                           else b.stateChangeCountdown)]]
    {
      var b := bankStates[rank][bank].(currentBankState := state, lastCommand := lastCommand);
      if stateChangeCountdown != 0 {
        b := b.(stateChangeCountdown := stateChangeCountdown);
      }
      SetBank(rank, bank, b.(nextActivate := nextActivate));
    }

    /** The loop of the READ and WRITE cases over all banks of all ranks. */
    method DelayAllColumns(p: BusPacket)
      requires Valid() && (p.busPacketType == READ || p.busPacketType == WRITE)
      modifies this`bankStates
      ensures Valid()
      ensures forall r, b | 0 <= r < config.numRanks && 0 <= b < config.numBanks ::
                bankStates[r][b] == ColumnDelays(config, p, currentClockCycle, r, b, old(bankStates)[r][b])
    {
      for i := 0 to config.numRanks
        invariant TableShape(config, bankStates)
        invariant forall r, b | 0 <= r < i && 0 <= b < config.numBanks ::
            bankStates[r][b] == ColumnDelays(config, p, currentClockCycle, r, b, old(bankStates)[r][b])
        invariant forall r | i <= r < config.numRanks :: bankStates[r] == old(bankStates)[r]
      {
        DelayRankColumns(p, i);
      }
    }

    method DelayRankColumns(p: BusPacket, i: nat)
      requires Valid() && (p.busPacketType == READ || p.busPacketType == WRITE) && i < config.numRanks
      modifies this`bankStates
      ensures Valid() && (forall r | 0 <= r < config.numRanks && r != i :: bankStates[r] == old(bankStates)[r])
      ensures forall b | 0 <= b < config.numBanks ::
                bankStates[i][b] == ColumnDelays(config, p, currentClockCycle, i, b, old(bankStates)[i][b])
    {
      for j := 0 to config.numBanks
        invariant TableShape(config, bankStates)
        invariant forall r | 0 <= r < config.numRanks && r != i :: bankStates[r] == old(bankStates)[r]
        invariant forall b | 0 <= b < j ::
            bankStates[i][b] == ColumnDelays(config, p, currentClockCycle, i, b, old(bankStates)[i][b])
        invariant forall b | j <= b < config.numBanks :: bankStates[i][b] == old(bankStates)[i][b]
      {
        if i != p.rank {
          if bankStates[i][j].currentBankState == RowActive {
            if p.busPacketType == READ {
              SetBankStatesRW(i, j, config.bl / 2 + config.tRTRS, config.ReadToWrite());
            } else {
              SetBankStatesRW(i, j, config.WriteToReadOtherRank(), config.bl / 2 + config.tRTRS);
            }
          }
        } else {
          var cycle := Max(if config.SameBankgroup(j, p.bank) then config.tCCDL else config.tCCDS,
                           config.bl / 2);
          if p.busPacketType == READ {
            SetBankStatesRW(i, j, cycle, config.ReadToWrite());
          } else {
            SetBankStatesRW(i, j, config.WriteToReadLong(), cycle);
          }
        }
      }
    }

    /** The loop of the ACTIVATE case over the other banks of the rank. */
    method DelayActivates(p: BusPacket)
      requires Valid() && p.rank < config.numRanks
      modifies this`bankStates
      ensures Valid()
      ensures forall r | 0 <= r < config.numRanks && r != p.rank :: bankStates[r] == old(bankStates)[r]
      ensures forall b | 0 <= b < config.numBanks ::
                bankStates[p.rank][b] ==
                  var o := old(bankStates)[p.rank][b];
                  if b == p.bank then o
                  else o.(nextActivate := Max(currentClockCycle + config.ActivateGap(b, p.bank), o.nextActivate))
    {
      for i := 0 to config.numBanks
        invariant TableShape(config, bankStates)
        invariant forall r | 0 <= r < config.numRanks && r != p.rank :: bankStates[r] == old(bankStates)[r]
        invariant forall b | 0 <= b < config.numBanks ::
            bankStates[p.rank][b] ==
              var o := old(bankStates)[p.rank][b];
              if b == p.bank || b >= i then o
              else o.(nextActivate := Max(currentClockCycle + config.ActivateGap(b, p.bank), o.nextActivate))
      {
        if i != p.bank {
          var b := bankStates[p.rank][i];
          SetBank(p.rank, i, b.(nextActivate :=
            Max(currentClockCycle + if config.SameBankgroup(i, p.bank) then config.tRRDL else config.tRRDS,
                b.nextActivate)));
        }
      }
    }

    /** The REF case. */
    method RefreshRank(rank: nat)
      requires Valid() && rank < config.numRanks
      modifies this`bankStates
      ensures Valid()
      ensures forall r | 0 <= r < config.numRanks && r != rank :: bankStates[r] == old(bankStates)[r]
      ensures forall b | 0 <= b < config.numBanks ::
                bankStates[rank][b] == old(bankStates)[rank][b].(
                  currentBankState := Refreshing, lastCommand := REF, stateChangeCountdown := config.tRFC,
                  nextActivate := currentClockCycle + config.tRFC)
    {
      for i := 0 to config.numBanks
        invariant TableShape(config, bankStates)
        invariant forall r | 0 <= r < config.numRanks && r != rank :: bankStates[r] == old(bankStates)[r]
        invariant forall b | i <= b < config.numBanks :: bankStates[rank][b] == old(bankStates)[rank][b]
        invariant forall b | 0 <= b < i ::
            bankStates[rank][b] == old(bankStates)[rank][b].(
              currentBankState := Refreshing, lastCommand := REF, stateChangeCountdown := config.tRFC,
              nextActivate := currentClockCycle + config.tRFC)
      {
        SetBankStates(rank, i, Refreshing, REF, config.tRFC, currentClockCycle + config.tRFC);
      }
    }

    /** The switch of `updateCommandQueue` over the kinds of command. */
    method UpdateTable(p: BusPacket)
      requires Valid() && p.rank < config.numRanks && p.bank < config.numBanks
      requires p.busPacketType != DATA
      modifies this`bankStates
      ensures Valid() && bankStates == AfterIssueTable(config, p, currentClockCycle, old(bankStates))
    {
      var b := bankStates[p.rank][p.bank];
      match p.busPacketType {
        case READ =>
          SetBank(p.rank, p.bank, b.(nextPrecharge := Max(currentClockCycle + config.ReadToPre(), b.nextPrecharge),
                                     lastCommand := READ));
          DelayAllColumns(p);
        case WRITE =>
          SetBank(p.rank, p.bank, b.(nextPrecharge := Max(currentClockCycle + config.WriteToPre(), b.nextPrecharge),
                                     lastCommand := WRITE));
          DelayAllColumns(p);
        case ACTIVATE =>
          SetBankStates(p.rank, p.bank, RowActive, ACTIVATE, 0, Max(currentClockCycle + config.tRC, b.nextActivate));
          b := bankStates[p.rank][p.bank];
          SetBank(p.rank, p.bank, b.(openRowAddress := p.row,
                                     nextPrecharge := Max(currentClockCycle + config.tRAS, b.nextPrecharge)));
          SetBankStatesRW(p.rank, p.bank, config.tRCDRD - config.al, config.tRCDWR - config.al);
          DelayActivates(p);
        case PRECHARGE =>
          SetBankStates(p.rank, p.bank, Precharging, PRECHARGE, config.tRP,
                        Max(currentClockCycle + config.tRP, b.nextActivate));
        case REF =>
          RefreshRank(p.rank);
      }
      SameTable(p, old(bankStates));
    }

    lemma SameTable(p: BusPacket, before: seq<seq<BankState>>)
      requires Valid() && TableShape(config, before)
      requires forall r, b | 0 <= r < config.numRanks && 0 <= b < config.numBanks ::
                 bankStates[r][b] == AfterIssue(config, p, currentClockCycle, r, b, before[r][b])
      ensures bankStates == AfterIssueTable(config, p, currentClockCycle, before)
    {
      forall r | 0 <= r < config.numRanks
        ensures bankStates[r] == AfterIssueRow(config, p, currentClockCycle, r, before[r])
      {
      }
    }

    /** `ok` is false when the simulator would exit. */
    method UpdateCommandQueue(p: BusPacket) returns (ok: bool)
      requires Valid() && p.rank < config.numRanks && p.bank < config.numBanks
      requires p.busPacketType != DATA
      modifies this`bankStates, this`writeDataToSend, this`writeDataCountdown,
               this`outgoingCmdPacket, this`cmdCyclesLeft
      ensures ok <==> Issued(config, old(State()), p, currentClockCycle).Success?
      ensures ok ==> Valid() && Issued(config, old(State()), p, currentClockCycle) == Success(State())
    {
      if p.busPacketType == WRITE {
        writeDataToSend := writeDataToSend + [p.(busPacketType := DATA, barrier := false)];
        writeDataCountdown := writeDataCountdown + [config.wl];
      }
      UpdateTable(p);
      if outgoingCmdPacket.Some? {
        return false;
      }
      outgoingCmdPacket := Some(p);
      cmdCyclesLeft := config.tCMD;
      ok := true;
    }

    method UpdateTransactionQueue()
      requires Valid()
      modifies this`transactionQueue, this`pendingReadTransactions, commandQueue`queues
      ensures Valid()
      ensures (LedgerOf(), commandQueue.queues)
              == Scheduled(config, locate, old(LedgerOf()), old(commandQueue.queues))
    {
      for i := 0 to |transactionQueue|
        invariant transactionQueue == old(transactionQueue)
        invariant pendingReadTransactions == old(pendingReadTransactions)
        invariant commandQueue.queues == old(commandQueue.queues) && commandQueue.Valid()
        invariant FirstWithRoom(config, locate, transactionQueue, commandQueue.queues, 0)
               == FirstWithRoom(config, locate, transactionQueue, commandQueue.queues, i)
      {
        var transaction := transactionQueue[i];
        var l := locate(transaction.address);
        if commandQueue.HasRoomFor(1, l.rank) {
          transactionQueue := transactionQueue[..i] + transactionQueue[i + 1..];
          commandQueue.Enqueue(CommandFor(locate, transaction));
          if transaction.transactionType == DATA_READ {
            pendingReadTransactions := pendingReadTransactions + [transaction];
          }
          break;
        }
      }
    }

    /** Hands one burst of read data back; `ok` is false when the simulator would abort. */
    method ReturnOne() returns (ok: bool)
      requires Valid()
      modifies this`pendingReadTransactions, this`returnTransaction, this`numOnTheFlyTransactions
      ensures Valid()
      ensures ok <==> ReadReturned(old(LedgerOf())).Success?
      ensures ok ==> ReadReturned(old(LedgerOf())) == Success(LedgerOf())
    {
      if |returnTransaction| > 0 {
        var foundMatch := false;
        for i := 0 to |pendingReadTransactions|
          invariant !foundMatch
          invariant pendingReadTransactions == old(pendingReadTransactions)
          invariant returnTransaction == old(returnTransaction)
          invariant numOnTheFlyTransactions == old(numOnTheFlyTransactions)
          invariant FirstAt(pendingReadTransactions, returnTransaction[0].address, 0)
                 == FirstAt(pendingReadTransactions, returnTransaction[0].address, i)
        {
          if pendingReadTransactions[i].address == returnTransaction[0].address {
            numOnTheFlyTransactions := numOnTheFlyTransactions - 1;
            pendingReadTransactions := pendingReadTransactions[..i] + pendingReadTransactions[i + 1..];
            foundMatch := true;
            break;
          }
        }
        if !foundMatch {
          return false;
        }
        returnTransaction := returnTransaction[1..];
      }
      ok := true;
    }

    /** A write burst that has been on the data bus long enough is done. */
    method ReleaseDataBus()
      requires Valid()
      modifies this`outgoingDataPacket, this`dataCyclesLeft, this`numOnTheFlyTransactions
      ensures Valid() && Writes() == WriteBusReleased(old(Writes()))
      ensures numOnTheFlyTransactions
              == old(numOnTheFlyTransactions) - if WriteDone(old(Writes())) then 1 else 0
    {
      if outgoingDataPacket.Some? {
        dataCyclesLeft := dataCyclesLeft - 1;
        if dataCyclesLeft == 0 {
          numOnTheFlyTransactions := numOnTheFlyTransactions - 1;
          outgoingDataPacket := None;
        }
      }
    }

    method CountDownWrites()
      modifies this`writeDataCountdown
      ensures writeDataCountdown == Decremented(old(writeDataCountdown))
    {
      for i := 0 to |writeDataCountdown|
        invariant |writeDataCountdown| == |old(writeDataCountdown)|
        invariant forall k | 0 <= k < i :: writeDataCountdown[k] == old(writeDataCountdown)[k] - 1
        invariant forall k | i <= k < |writeDataCountdown| ::
            writeDataCountdown[k] == old(writeDataCountdown)[k]
      {
        writeDataCountdown := writeDataCountdown[i := writeDataCountdown[i] - 1];
      }
    }

    /** One cycle of the write data path; `ok` is false when the simulator would exit. */
    method UpdateDataBus() returns (ok: bool)
      requires Valid()
      modifies this`outgoingDataPacket, this`dataCyclesLeft, this`writeDataToSend,
               this`writeDataCountdown, this`numOnTheFlyTransactions
      ensures ok <==> WriteBusTick(config, old(Writes())).Success?
      ensures ok ==> Valid() && WriteBusTick(config, old(Writes())) == Success(Writes())
      ensures ok ==> State() == WriteCompleted(old(State())).(writes := Writes())
    {
      hide Inputs, TableShape;
      ReleaseDataBus();
      if |writeDataCountdown| > 0 {
        CountDownWrites();
        if writeDataCountdown[0] == 0 {
          if outgoingDataPacket.Some? {
            return false;
          }
          outgoingDataPacket := Some(writeDataToSend[0]);
          dataCyclesLeft := config.bl / 2;
          writeDataCountdown := writeDataCountdown[1..];
          writeDataToSend := writeDataToSend[1..];
        }
      }
      ok := true;
    }

    method UpdateRefresh()
      requires Valid()
      modifies this`refreshCountdown, this`refreshRank, commandQueue`refreshWaiting,
               commandQueue`refreshRank
      ensures Valid()
      ensures if old(refreshCountdown[refreshRank]) == 0 then
                && commandQueue.refreshWaiting && commandQueue.refreshRank == old(refreshRank)
                && refreshCountdown == old(refreshCountdown)[old(refreshRank) := config.refreshPeriod]
                && refreshRank == (old(refreshRank) + 1) % config.numRanks
              else
                && unchanged(this`refreshCountdown, this`refreshRank)
                && unchanged(commandQueue`refreshWaiting, commandQueue`refreshRank)
    {
      WrapAround(refreshRank, config.numRanks);
      if refreshCountdown[refreshRank] == 0 {
        commandQueue.NeedRefresh(refreshRank);
        refreshCountdown := refreshCountdown[refreshRank := config.refreshPeriod];
        refreshRank := refreshRank + 1;
        if refreshRank == config.numRanks {
          refreshRank := 0;
        }
      }
    }

    /** The ranks are distinct objects with this controller's configuration and clock. */
    ghost predicate Attached()
      reads this`ranks, this`currentClockCycle, ranks
    {
      && |ranks| == config.numRanks
      && (forall i | 0 <= i < |ranks| ::
            && ranks[i].Valid() && ranks[i].config == config
            && ranks[i].currentClockCycle == currentClockCycle)
      && (forall i, j | 0 <= i < j < |ranks| :: ranks[i] != ranks[j])
    }

    ghost function RankStates(): (r: seq<RankState>)
      reads this`ranks, ranks
      ensures |r| == |ranks|
    {
      StatesOf(ranks)
    }

    /** The command on the command bus; `ok` is false when the simulator would exit. */
    method DeliverCommand(pimMode: DramMode) returns (ok: bool)
      requires Valid() && Attached()
      modifies this`outgoingCmdPacket, this`cmdCyclesLeft, ranks
      ensures Valid() && Attached()
      ensures var r := CommandDelivered(config, old(State()), old(RankStates()), currentClockCycle, pimMode);
              && (ok <==> r.Success?)
              && (ok ==> r.value == (State(), RankStates()))
    {
      hide Inputs, AllQueued, TableShape, Check, Accepts, Receive;
      if outgoingCmdPacket.Some? {
        cmdCyclesLeft := cmdCyclesLeft - 1;
        if cmdCyclesLeft == 0 {
          var p := outgoingCmdPacket.value;
          ok := ranks[p.rank].ReceiveFromBus(p, pimMode);
          if !ok {
            return;
          }
          outgoingCmdPacket := None;
          assert RankStates() == old(RankStates())[p.rank :=
              Receive(config, old(RankStates())[p.rank], p, currentClockCycle, pimMode)];
          return;
        }
      }
      ok := true;
    }

    /** The first half of a cycle: bank states, command bus and data bus. */
    method BeginCycle(pimMode: DramMode) returns (ok: bool)
      requires Valid() && Attached()
      modifies this`bankStates, this`outgoingCmdPacket, this`cmdCyclesLeft, this`outgoingDataPacket,
               this`dataCyclesLeft, this`writeDataToSend, this`writeDataCountdown,
               this`numOnTheFlyTransactions, ranks
      ensures var r := BeforePop(config, old(State()), old(RankStates()), currentClockCycle, pimMode);
              && (ok <==> r.Success?)
              && (ok ==> r.value == (State(), RankStates()))
      ensures ok ==> Valid() && Attached()
    {
      hide Inputs, AllQueued, CommandDelivered, WriteBusTick, TickTable;
      UpdateBankState();
      ghost var ticked := State();
      assert ticked == old(State()).(table := TickTable(old(bankStates)));
      ok := DeliverCommand(pimMode);
      if !ok {
        return;
      }
      ghost var s1, ranks1 := State(), RankStates();
      assert CommandDelivered(config, ticked, old(RankStates()), currentClockCycle, pimMode) == Success((s1, ranks1));
      ok := UpdateDataBus();
      assert RankStates() == ranks1 && Attached();
    }

    /** A refresh may fall due; then at most one command is popped and issued. */
    method PopAndIssue(pimMode: DramMode, modes: seq<DramMode>) returns (ok: bool, ghost choice: Choice)
      requires Valid() && |modes| == config.numRanks && commandQueue.currentClockCycle == currentClockCycle
      modifies this`bankStates, this`writeDataToSend, this`writeDataCountdown, this`outgoingCmdPacket,
               this`cmdCyclesLeft, this`refreshCountdown, this`refreshRank, commandQueue
      ensures choice.pimMode == pimMode
      ensures Admissible(config, old(State()), modes, currentClockCycle, choice)
      ensures var r := PopIssued(config, old(State()), currentClockCycle, choice);
              && (ok <==> r.Success?)
              && (ok ==> r.value == State())
      ensures ok ==> Valid() && commandQueue.currentClockCycle == currentClockCycle
    {
      var popped;
      popped, choice := PopCommand(pimMode, modes);
      ok := true;
      if popped.Some? {
        ok := UpdateCommandQueue(popped.value);
      }
    }

    /** Refresh and `pop`. */
    method PopCommand(pimMode: DramMode, modes: seq<DramMode>) returns (popped: Option<BusPacket>, ghost choice: Choice)
      requires Valid() && |modes| == config.numRanks && commandQueue.currentClockCycle == currentClockCycle
      modifies this`refreshCountdown, this`refreshRank, commandQueue
      ensures Valid() && commandQueue.currentClockCycle == currentClockCycle
      ensures choice == Choice(popped, commandQueue.queues, pimMode)
      ensures Admissible(config, old(State()), modes, currentClockCycle, choice)
      ensures State() == old(State()).(queues := choice.queues)
      ensures popped.None? ==> State() == old(State())
      ensures popped.Some? ==> popped.value.rank < config.numRanks && popped.value.bank < config.numBanks
                               && popped.value.busPacketType != DATA
    {
      UpdateRefresh();
      popped := commandQueue.Pop(bankStates, modes);
      choice := Choice(popped, commandQueue.queues, pimMode);
    }

    /** The second half: `pop`, the transaction queue and the return of read data. */
    method FinishCycle(pimMode: DramMode, modes: seq<DramMode>) returns (ok: bool, ghost choice: Choice)
      requires Valid() && |modes| == config.numRanks && commandQueue.currentClockCycle == currentClockCycle
      modifies this`bankStates, this`writeDataToSend, this`writeDataCountdown, this`outgoingCmdPacket,
               this`cmdCyclesLeft, this`transactionQueue, this`pendingReadTransactions,
               this`returnTransaction, this`numOnTheFlyTransactions, this`refreshCountdown,
               this`refreshRank, commandQueue
      ensures choice.pimMode == pimMode
      ensures Admissible(config, old(State()), modes, currentClockCycle, choice)
      ensures var r := AfterPop(config, locate, old(State()), currentClockCycle, choice);
              && (ok <==> r.Success?)
              && (ok ==> r.value == State())
      ensures ok ==> Valid() && commandQueue.currentClockCycle == currentClockCycle + 1
    {
      ok, choice := PopAndIssue(pimMode, modes);
      if !ok {
        return;
      }
      ok := Settle();
    }

    /** The transaction queue, the return of read data and the refresh countdowns. */
    method Settle() returns (ok: bool)
      requires Valid() && commandQueue.currentClockCycle == currentClockCycle
      modifies this`transactionQueue, this`pendingReadTransactions, this`returnTransaction,
               this`numOnTheFlyTransactions, this`refreshCountdown, commandQueue`queues,
               commandQueue`currentClockCycle
      ensures var (ledger, queues) := Scheduled(config, locate, old(LedgerOf()), old(commandQueue.queues));
              && (ok <==> ReadReturned(ledger).Success?)
              && (ok ==> LedgerOf() == ReadReturned(ledger).value && commandQueue.queues == queues)
      ensures ok ==> Valid() && commandQueue.currentClockCycle == currentClockCycle + 1
      ensures ok ==> refreshCountdown == Decremented(old(refreshCountdown))
    {
      UpdateTransactionQueue();
      ok := ReturnOne();
      if !ok {
        return;
      }
      for i := 0 to config.numRanks
        invariant |refreshCountdown| == config.numRanks
        invariant forall k | 0 <= k < i :: refreshCountdown[k] == old(refreshCountdown)[k] - 1
        invariant forall k | i <= k < config.numRanks :: refreshCountdown[k] == old(refreshCountdown)[k]
        modifies this`refreshCountdown
      {
        refreshCountdown := refreshCountdown[i := refreshCountdown[i] - 1];
      }
      commandQueue.Step();
    }

    /** One cycle of the controller; `ok` is false when the simulator would exit. */
    method Update(pimMode: DramMode) returns (ok: bool, ghost choice: Choice)
      requires Valid() && Attached() && commandQueue.currentClockCycle == currentClockCycle
      modifies this, commandQueue, ranks
      ensures currentClockCycle == old(currentClockCycle) && ranks == old(ranks)
      ensures choice.pimMode == pimMode
      ensures PopsWell(config, old(State()), old(RankStates()), currentClockCycle, choice)
      ensures var r := ControllerCycle(config, locate, old(State()), old(RankStates()), currentClockCycle, choice);
              && (ok <==> r.Success?)
              && (ok ==> r.value == (State(), RankStates()))
      ensures ok ==> Valid() && Attached() && commandQueue.currentClockCycle == currentClockCycle + 1
    {
      hide BeforePop, AfterPop, Admissible;
      choice := Choice(None, commandQueue.queues, pimMode);
      ok := BeginCycle(pimMode);
      if !ok {
        return;
      }
      var modes := RankModes();
      ok, choice := FinishCycle(pimMode, modes);
    }

    method RankModes() returns (modes: seq<DramMode>)
      requires Attached()
      ensures modes == Modes(RankStates())
    {
      modes := [];
      for i := 0 to config.numRanks
        invariant |modes| == i && forall k | 0 <= k < i :: modes[k] == ranks[k].mode
      {
        modes := modes + [ranks[i].mode];
      }
    }

    method Step()
      modifies this`currentClockCycle
      ensures currentClockCycle == old(currentClockCycle) + 1
    {
      currentClockCycle := currentClockCycle + 1;
    }
  }

  function InitialController(c: Config): ControllerState {
    ControllerState(seq(c.numRanks, _ => seq(c.numBanks, _ => INITIAL_BANK)),
                    seq(c.numRanks, _ => []), None, 0, WriteBus([], [], None, 0), Ledger([], [], [], 0))
  }

  /** What a barrier makes of the transaction queued last. */
  function Marked(l: Ledger): Ledger {
    if l.queued == [] then l
    else
      var last := |l.queued| - 1;
      l.(queued := l.queued[last := l.queued[last].(barrier := true)])
  }

  function Added(l: Ledger, t: Transaction): Ledger {
    l.(queued := l.queued + [t], onTheFly := l.onTheFly + 1)
  }
}
