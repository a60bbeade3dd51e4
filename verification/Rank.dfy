/** One rank: its own copy of the bank states, the check of every command it receives, the
    PIM mode registers, and the return path of read data. */
module RankModel {
  import opened Arithmetic
  import opened Dram

  /** The sticky registers of the two mode-change sequences. */
  datatype ModeFlags = ModeFlags(
    abmr1Even: bool, abmr1Odd: bool, abmr2Even: bool, abmr2Odd: bool, sbmr1: bool, sbmr2: bool)

  datatype RankState = RankState(
    mode: DramMode, flags: ModeFlags, banks: seq<BankState>, returnPackets: seq<BusPacket>,
    returnCountdown: seq<int>, dataOut: Option<BusPacket>, dataCyclesLeft: int)

  const CLEAR_FLAGS := ModeFlags(false, false, false, false, false, false)

  function InitialRank(c: Config): RankState {
    RankState(SB, CLEAR_FLAGS, seq(c.numBanks, _ => INITIAL_BANK), [], [], None, 0)
  }

  // ---------- checking a command ----------

  predicate CheckBank(kind: BusPacketType, b: BankState, row: nat, clock: int) {
    match kind
    case READ => b.currentBankState == RowActive && clock >= b.nextRead && row == b.openRowAddress
    case WRITE => b.currentBankState == RowActive && clock >= b.nextWrite && row == b.openRowAddress
    case ACTIVATE => b.currentBankState == Idle && clock >= b.nextActivate
    case PRECHARGE => b.currentBankState == RowActive && clock >= b.nextPrecharge
    case DATA => true
    case REF => false
  }

  /** The banks a command addresses: one bank in SB mode, one parity class otherwise. */
  predicate Addressed(mode: DramMode, p: BusPacket, bank: nat) {
    if mode == SB then bank == p.bank else bank % 2 == p.bank % 2
  }

  predicate Check(mode: DramMode, banks: seq<BankState>, p: BusPacket, clock: int) {
    if p.busPacketType == REF then
      forall b | 0 <= b < |banks| :: banks[b].currentBankState == Idle
    else
      forall b | 0 <= b < |banks| && Addressed(mode, p, b) ::
        CheckBank(p.busPacketType, banks[b], p.row, clock)
  }

  /** Whether the simulator survives the delivery of `p`; reserved rows are never checked. */
  predicate Accepts(mode: DramMode, banks: seq<BankState>, p: BusPacket, clock: int) {
    IsReservedRow(p.row) || Check(mode, banks, p, clock)
  }

  // ---------- updating the bank states ----------

  function UpdateBank(c: Config, kind: BusPacketType, b: BankState, row: nat, targetBank: bool,
                      targetBankgroup: bool, clock: int): BankState
  {
    match kind
    case READ =>
      b.(nextPrecharge := if targetBank then Max(b.nextPrecharge, clock + c.ReadToPre())
                          else b.nextPrecharge,
         nextRead := Max(b.nextRead,
                         clock + Max(if targetBankgroup then c.tCCDL else c.tCCDS, c.bl / 2)),
         nextWrite := Max(b.nextWrite, clock + c.ReadToWrite()))
    case WRITE =>
      b.(nextPrecharge := if targetBank then Max(b.nextPrecharge, clock + c.WriteToPre())
                          else b.nextPrecharge,
         nextRead := Max(b.nextRead, clock + if targetBankgroup then c.WriteToReadLong()
                                             else c.WriteToReadShort()),
         nextWrite := Max(b.nextWrite,
                          clock + Max(c.bl / 2, if targetBankgroup then c.tCCDL else c.tCCDS)))
    case ACTIVATE =>
      if targetBank then
        b.(currentBankState := RowActive, nextActivate := clock + c.tRC, openRowAddress := row,
           nextWrite := clock + c.tRCDWR - c.al, nextRead := clock + c.tRCDRD - c.al,
           nextPrecharge := clock + c.tRAS)
      else
        b.(nextActivate := Max(b.nextActivate,
                               clock + if targetBankgroup then c.tRRDL else c.tRRDS))
    case PRECHARGE =>
      if targetBank then
        b.(currentBankState := Idle, nextActivate := Max(b.nextActivate, clock + c.tRP))
      else b
    case DATA => b
    case REF => b
  }

  /** The new state of bank `bank` after command `p`, for either mode. */
  function UpdatedBank(c: Config, mode: DramMode, p: BusPacket, clock: int, bank: nat,
                       b: BankState): BankState
    requires c.banksPerGroup >= 1
  {
    if p.busPacketType == REF then b.(nextActivate := clock + c.tRFC)
    else if mode == SB then
      UpdateBank(c, p.busPacketType, b, p.row, bank == p.bank, c.SameBankgroup(bank, p.bank), clock)
    else
      UpdateBank(c, p.busPacketType, b, p.row, bank % 2 == p.bank, true, clock)
  }

  function UpdateState(c: Config, mode: DramMode, banks: seq<BankState>, p: BusPacket,
                       clock: int): (r: seq<BankState>)
    requires c.banksPerGroup >= 1
    ensures |r| == |banks|
  {
    if IsReservedRow(p.row) then banks
    else seq(|banks|, j requires 0 <= j < |banks| => UpdatedBank(c, mode, p, clock, j, banks[j]))
  }

  /**
   * After a command to an ordinary row the rank rejects the next one until the time between them has passed:
   * recovery before a row is closed, the row time before a column, the gaps and turnarounds between columns,
   * and the times before another row is opened. In all-bank mode commands go to banks 0 and 1 for all banks of
   * their parity, at the long gaps.
   */
  lemma RankWaits(c: Config, mode: DramMode, banks: seq<BankState>, p: BusPacket, t: int, q: BusPacket, u: int)
    requires c.Valid() && p.bank < |banks| && q.bank < |banks| && (mode != SB ==> p.bank < 2 && q.bank < 2)
    requires p.row / 0x2000 % 2 == 0 && q.row / 0x2000 % 2 == 0
    requires Accepts(mode, UpdateState(c, mode, banks, p, t), q, u)
    ensures q.busPacketType == PRECHARGE && p.bank == q.bank ==>
              && (p.busPacketType == WRITE ==> u - t >= c.wl + c.bl / 2 + c.tWR)
              && (p.busPacketType == READ ==> u - t >= c.al + c.bl / 2 && u - t >= c.al + c.bl / 2 + c.tRTPL - c.tCCDL)
              && (p.busPacketType == ACTIVATE ==> u - t >= c.tRAS)
    ensures q.busPacketType == READ || q.busPacketType == WRITE ==>
              var long := mode != SB || p.bank / c.banksPerGroup == q.bank / c.banksPerGroup;
              && (p.busPacketType == ACTIVATE && p.bank == q.bank ==>
                    u - t >= (if q.busPacketType == READ then c.tRCDRD else c.tRCDWR) - c.al)
              && (p.busPacketType == q.busPacketType ==>
                    u - t >= c.bl / 2 && u - t >= if long then c.tCCDL else c.tCCDS)
              && (p.busPacketType == READ && q.busPacketType == WRITE ==> u - t >= c.rl + c.bl / 2 + c.tRTRS - c.wl)
              && (p.busPacketType == WRITE && q.busPacketType == READ ==>
                    u - t >= c.wl + c.bl / 2 + if long then c.tWTRL else c.tWTRS)
    ensures q.busPacketType == ACTIVATE ==>
              var long := mode != SB || p.bank / c.banksPerGroup == q.bank / c.banksPerGroup;
              && (p.busPacketType == PRECHARGE && p.bank == q.bank ==> u - t >= c.tRP)
              && (p.busPacketType == REF ==> u - t >= c.tRFC)
              && (p.busPacketType == ACTIVATE ==> p.bank != q.bank && u - t >= if long then c.tRRDL else c.tRRDS)
  {
    assert Addressed(mode, q, q.bank);
    if q.busPacketType != REF && q.busPacketType != DATA {
      assert CheckBank(q.busPacketType, UpdateState(c, mode, banks, p, t)[q.bank], q.row, u);
    }
  }

  // ---------- mode changes ----------

  /** Opening the ABMR row on banks 0, 1, 8 and 9 (0 and 1 when there are only two) turns
      all-bank mode on. */
  function AfterAbmr(c: Config, f: ModeFlags, bank: nat): (DramMode, ModeFlags) {
    var g := f.(abmr1Even := bank == 0 || f.abmr1Even, abmr1Odd := bank == 1 || f.abmr1Odd,
                abmr2Even := bank == 8 || f.abmr2Even, abmr2Odd := bank == 9 || f.abmr2Odd);
    if g.abmr1Even && g.abmr1Odd && (c.numBanks <= 2 || (g.abmr2Even && g.abmr2Odd)) then
      (HAB, g.(abmr1Even := false, abmr1Odd := false, abmr2Even := false, abmr2Odd := false))
    else (SB, g)
  }

  /** Closing the SBMR row on banks 0 and 1 turns all-bank mode off. */
  function AfterSbmr(f: ModeFlags, bank: nat): (DramMode, ModeFlags) {
    var g := f.(sbmr1 := bank == 0 || f.sbmr1, sbmr2 := bank == 1 || f.sbmr2);
    if g.sbmr1 && g.sbmr2 then (SB, g.(sbmr1 := false, sbmr2 := false)) else (HAB, g)
  }

  /** The mode and its registers after a command is executed. `pimMode` is the mode the PIM
      unit asks for when a write reaches it outside SB mode. */
  function ModeAfter(c: Config, mode: DramMode, f: ModeFlags, p: BusPacket, pimMode: DramMode)
    : (DramMode, ModeFlags)
  {
    if p.busPacketType == WRITE && mode != SB then
      (pimMode, f)
    else if p.busPacketType == ACTIVATE && mode == SB && p.row == PIM_ABMR_RA && p.column == 0x1f then
      AfterAbmr(c, f, p.bank)
    else if p.busPacketType == PRECHARGE && mode == HAB && p.row == PIM_SBMR_RA then
      AfterSbmr(f, p.bank)
    else (mode, f)
  }

  // ---------- a whole delivery and a whole cycle ----------

  /** `receiveFromBus` for a command the rank accepts. */
  function Receive(c: Config, r: RankState, p: BusPacket, clock: int, pimMode: DramMode): RankState
    requires c.banksPerGroup >= 1
  {
    var (mode, flags) := ModeAfter(c, r.mode, r.flags, p, pimMode);
    var isRead := p.busPacketType == READ;
    r.(mode := mode, flags := flags, banks := UpdateState(c, r.mode, r.banks, p, clock),
       returnPackets := if isRead then r.returnPackets + [p.(busPacketType := DATA)]
                        else r.returnPackets,
       returnCountdown := if isRead then r.returnCountdown + [c.rl] else r.returnCountdown)
  }

  function Decremented(xs: seq<int>): (r: seq<int>)
    ensures |r| == |xs|
  {
    seq(|xs|, i requires 0 <= i < |xs| => xs[i] - 1)
  }

  /** The packet that leaves the data bus of the rank in this cycle. */
  function Delivered(r: RankState): Option<BusPacket> {
    if r.dataOut.Some? && r.dataCyclesLeft == 1 then r.dataOut else None
  }

  /** Whether the head of the return queue has waited out the read latency. */
  predicate ReturnReady(r: RankState) {
    |r.returnCountdown| > 0 && |r.returnPackets| > 0 && r.returnCountdown[0] == 1
  }

  /** A packet would be put on the data bus on top of one that is still there. */
  predicate Overwrites(r: RankState) {
    ReturnReady(r) && r.dataOut.Some? && Delivered(r).None?
  }

  /** `update`: one cycle of the rank's data bus and of its return queue. */
  function Tick(c: Config, r: RankState): RankState {
    var after := if r.dataOut.Some? then
                   r.(dataCyclesLeft := r.dataCyclesLeft - 1,
                      dataOut := if r.dataCyclesLeft == 1 then None else r.dataOut)
                 else r;
    var waited := after.(returnCountdown := Decremented(r.returnCountdown));
    if ReturnReady(r) then
      waited.(dataOut := Some(r.returnPackets[0]), dataCyclesLeft := c.Burst(),
              returnPackets := r.returnPackets[1..],
              returnCountdown := waited.returnCountdown[1..])
    else waited
  }

  ghost function StatesOf(ranks: seq<Rank>): (r: seq<RankState>)
    reads ranks
    ensures |r| == |ranks|
  {
    seq(|ranks|, i requires 0 <= i < |ranks| reads ranks => ranks[i].State())
  }

  /** The rank as the simulator keeps it. */
  class Rank {
    const config: Config
    var currentClockCycle: int
    var mode: DramMode
    var abmr1Even: bool
    var abmr1Odd: bool
    var abmr2Even: bool
    var abmr2Odd: bool
    var sbmr1: bool
    var sbmr2: bool
    var bankStates: seq<BankState>
    var readReturnPacket: seq<BusPacket>
    var readReturnCountdown: seq<int>
    var outgoingDataPacket: Option<BusPacket>
    var dataCyclesLeft: int

    function Flags(): ModeFlags
      reads this
    {
      ModeFlags(abmr1Even, abmr1Odd, abmr2Even, abmr2Odd, sbmr1, sbmr2)
    }

    function State(): RankState
      reads this
    {
      RankState(mode, Flags(), bankStates, readReturnPacket, readReturnCountdown,
                outgoingDataPacket, dataCyclesLeft)
    }

    ghost predicate Valid()
      reads this
    {
      config.Valid() && |bankStates| == config.numBanks && |readReturnPacket| == |readReturnCountdown|
    }

    constructor (config: Config)
      requires config.Valid()
      ensures Valid() && this.config == config && currentClockCycle == 0
      ensures State() == InitialRank(config)
    {
      this.config := config;
      currentClockCycle := 0;
      mode := SB;
      abmr1Even, abmr1Odd, abmr2Even, abmr2Odd, sbmr1, sbmr2 := false, false, false, false, false, false;
      bankStates := seq(config.numBanks, _ => INITIAL_BANK);
      readReturnPacket, readReturnCountdown := [], [];
      outgoingDataPacket, dataCyclesLeft := None, 0;
    }

    /** Tells whether the command is legal; the simulator exits when it is not. */
    method CheckPacket(packet: BusPacket) returns (ok: bool)
      requires Valid() && packet.bank < config.numBanks
      ensures ok == Check(mode, bankStates, packet, currentClockCycle)
    {
      if packet.busPacketType == REF {
        for i := 0 to config.numBanks
          invariant forall b | 0 <= b < i :: bankStates[b].currentBankState == Idle
        {
          if bankStates[i].currentBankState != Idle {
            return false;
          }
        }
        ok := true;
      } else if mode == SB {
        ok := CheckBank(packet.busPacketType, bankStates[packet.bank], packet.row, currentClockCycle);
      } else {
        var bank := packet.bank % 2;
        while bank < config.numBanks
          invariant bank % 2 == packet.bank % 2
          invariant forall b | 0 <= b < bank && b < config.numBanks && b % 2 == packet.bank % 2 ::
              CheckBank(packet.busPacketType, bankStates[b], packet.row, currentClockCycle)
        {
          if !CheckBank(packet.busPacketType, bankStates[bank], packet.row, currentClockCycle) {
            assert Addressed(mode, packet, bank);
            return false;
          }
          bank := bank + 2;
        }
        ok := true;
      }
    }

    method UpdateBankStates(packet: BusPacket)
      requires Valid() && !IsReservedRow(packet.row)
      modifies this`bankStates
      ensures Valid()
      ensures bankStates == UpdateState(config, mode, old(bankStates), packet, currentClockCycle)
    {
      for bank := 0 to config.numBanks
        invariant |bankStates| == config.numBanks
        invariant forall b | 0 <= b < bank ::
            bankStates[b] == UpdatedBank(config, mode, packet, currentClockCycle, b, old(bankStates)[b])
        invariant forall b | bank <= b < config.numBanks :: bankStates[b] == old(bankStates)[b]
      {
        var b := bankStates[bank];
        if packet.busPacketType == REF {
          b := b.(nextActivate := currentClockCycle + config.tRFC);
        } else if mode == SB {
          b := UpdateBank(config, packet.busPacketType, b, packet.row, bank == packet.bank,
                          config.SameBankgroup(bank, packet.bank), currentClockCycle);
        } else {
          b := UpdateBank(config, packet.busPacketType, b, packet.row, bank % 2 == packet.bank,
                          true, currentClockCycle);
        }
        bankStates := bankStates[bank := b];
      }
    }

    method WriteAbmr(bank: nat)
      requires mode == SB
      modifies this`mode, this`abmr1Even, this`abmr1Odd, this`abmr2Even, this`abmr2Odd
      ensures (mode, Flags()) == AfterAbmr(config, old(Flags()), bank)
    {
      abmr1Even := if bank == 0 then true else abmr1Even;
      abmr1Odd := if bank == 1 then true else abmr1Odd;
      abmr2Even := if bank == 8 then true else abmr2Even;
      abmr2Odd := if bank == 9 then true else abmr2Odd;
      if (config.numBanks <= 2 && abmr1Even && abmr1Odd)
         || (config.numBanks > 2 && abmr1Even && abmr1Odd && abmr2Even && abmr2Odd) {
        abmr1Even, abmr1Odd, abmr2Even, abmr2Odd := false, false, false, false;
        mode := HAB;
      }
    }

    method WriteSbmr(bank: nat)
      requires mode == HAB
      modifies this`mode, this`sbmr1, this`sbmr2
      ensures (mode, Flags()) == AfterSbmr(old(Flags()), bank)
    {
      sbmr1 := if bank == 0 then true else sbmr1;
      sbmr2 := if bank == 1 then true else sbmr2;
      if sbmr1 && sbmr2 {
        sbmr1, sbmr2 := false, false;
        mode := SB;
      }
    }

    method SendToBank(packet: BusPacket, pimMode: DramMode)
      requires Valid()
      modifies this
      ensures Valid() && currentClockCycle == old(currentClockCycle)
      ensures State() == Receive(config, old(State()), packet, currentClockCycle, pimMode)
                         .(banks := old(bankStates))
    {
      match packet.busPacketType {
        case READ =>
          readReturnPacket := readReturnPacket + [packet.(busPacketType := DATA)];
          readReturnCountdown := readReturnCountdown + [config.rl];
        case WRITE =>
          if mode != SB {
            mode := pimMode;
          }
        case ACTIVATE =>
          if mode == SB && packet.row == PIM_ABMR_RA && packet.column == 0x1f {
            WriteAbmr(packet.bank);
          }
        case PRECHARGE =>
          if mode == HAB && packet.row == PIM_SBMR_RA {
            WriteSbmr(packet.bank);
          }
        case _ =>
      }
    }

    /** `ok` is false when the simulator would exit. */
    method ReceiveFromBus(packet: BusPacket, pimMode: DramMode) returns (ok: bool)
      requires Valid() && packet.bank < config.numBanks
      modifies this
      ensures Valid() && currentClockCycle == old(currentClockCycle)
      ensures ok == Accepts(old(mode), old(bankStates), packet, currentClockCycle)
      ensures ok ==> State() == Receive(config, old(State()), packet, currentClockCycle, pimMode)
    {
      if !IsReservedRow(packet.row) {
        ok := CheckPacket(packet);
        if !ok {
          return;
        }
        UpdateBankStates(packet);
      }
      SendToBank(packet, pimMode);
      ok := true;
    }

    /** Returns the packet handed to the memory controller in this cycle, if any. */
    method Update() returns (delivered: Option<BusPacket>)
      requires Valid()
      modifies this
      ensures Valid() && currentClockCycle == old(currentClockCycle)
      ensures delivered == Delivered(old(State()))
      ensures State() == Tick(config, old(State()))
    {
      delivered := None;
      if outgoingDataPacket.Some? {
        dataCyclesLeft := dataCyclesLeft - 1;
        if dataCyclesLeft == 0 {
          delivered := outgoingDataPacket;
          outgoingDataPacket := None;
        }
      }
      for i := 0 to |readReturnCountdown|
        invariant |readReturnCountdown| == |old(readReturnCountdown)|
        invariant forall k | 0 <= k < i :: readReturnCountdown[k] == old(readReturnCountdown)[k] - 1
        invariant forall k | i <= k < |readReturnCountdown| ::
            readReturnCountdown[k] == old(readReturnCountdown)[k]
        modifies this`readReturnCountdown
      {
        readReturnCountdown := readReturnCountdown[i := readReturnCountdown[i] - 1];
      }
      assert readReturnCountdown == Decremented(old(readReturnCountdown));
      if |readReturnCountdown| > 0 && readReturnCountdown[0] == 0 {
        outgoingDataPacket := Some(readReturnPacket[0]);
        dataCyclesLeft := config.bl / 2;
        readReturnPacket := readReturnPacket[1..];
        readReturnCountdown := readReturnCountdown[1..];
      }
    }

    method Step()
      modifies this`currentClockCycle
      ensures currentClockCycle == old(currentClockCycle) + 1
    {
      currentClockCycle := currentClockCycle + 1;
    }
  }
}
