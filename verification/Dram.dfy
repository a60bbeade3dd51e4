/** The data shared by the HBM2 memory controller and its ranks: the configuration with
    its derived delays, bus packets, bank states and transactions. */
module Dram {
  import opened Arithmetic

  datatype Option<+T> = None | Some(value: T)

  datatype Result<+T, +E> = Success(value: T) | Failure(error: E) {
    predicate IsFailure() {
      Failure?
    }

    function PropagateFailure<U>(): Result<U, E>
      requires Failure?
    {
      Failure(error)
    }

    function Extract(): T
      requires Success?
    {
      value
    }
  }

  /** Geometry and timing parameters, in cycles. `refreshPeriod` is tREFI / tCK. */
  datatype Config = Config(
    numRanks: nat, numBanks: nat, banksPerGroup: nat, queueDepth: nat, transactionDepth: nat,
    xaw: nat, totalRowAccesses: nat, bankThenRank: bool, refreshPeriod: nat,
    al: nat, bl: nat, rl: nat, wl: nat, tCCDL: nat, tCCDS: nat, tCMD: nat, tRAS: nat, tRC: nat,
    tRCDRD: nat, tRCDWR: nat, tRFC: nat, tRP: nat, tRRDL: nat, tRRDS: nat, tRTPL: nat,
    tRTRS: nat, tWR: nat, tWTRL: nat, tWTRS: nat)
  {
    /** What the simulator needs of its configuration files: a command bus that is free
        again after one cycle, latencies that a countdown can count, and derived delays
        that do not wrap below zero in unsigned arithmetic. */
    predicate Valid() {
      && numRanks >= 1 && numBanks >= 1 && banksPerGroup >= 1
      && tCMD == 1 && tRP >= 1 && tRFC >= 1 && rl >= 1 && wl >= 1 && bl / 2 >= 1
      && tWTRL >= tWTRS && tRCDRD >= al && tRCDWR >= al
      && rl + bl / 2 + tRTRS >= wl
    }

    function Burst(): nat {
      bl / 2
    }

    function ReadToPre(): nat {
      al + bl / 2 + Max(tRTPL, tCCDL) - tCCDL
    }

    function WriteToPre(): nat {
      wl + bl / 2 + tWR
    }

    function ReadToWrite(): int {
      rl + bl / 2 + tRTRS - wl
    }

    function WriteToReadLong(): nat {
      wl + bl / 2 + tWTRL
    }

    function WriteToReadShort(): nat {
      wl + bl / 2 + tWTRS
    }

    function WriteToReadOtherRank(): int {
      Max(wl + bl / 2 + tRTRS - rl, 0)
    }

    /** Writes of different ranks keep apart on the data bus that they share: a rank whose row is opened
        right after the write of another one has its own write out no sooner than a burst later. */
    predicate SharedBusFits() {
      numRanks == 1 || Max(1, tRCDWR - al) + 1 >= Burst()
    }

    /** Longer than any delay that a command causes. */
    function LongWait(): nat {
      tRP + tRFC + tRC + tRAS + tRCDRD + tRCDWR + tRRDL + tRRDS + tCCDL + tCCDS + bl + bl + rl + wl + tRTRS + tWTRL
      + tWTRS + tWR + tRTPL + al + 1
    }

    predicate SameBankgroup(b0: nat, b1: nat)
      requires banksPerGroup >= 1
    {
      b0 / banksPerGroup == b1 / banksPerGroup
    }

    /** Cycles between two column accesses of one kind to banks `b0` and `b1` of a rank. */
    function ColumnGap(b0: nat, b1: nat): int
      requires banksPerGroup >= 1
    {
      Max(if SameBankgroup(b0, b1) then tCCDL else tCCDS, bl / 2)
    }

    function ActivateGap(b0: nat, b1: nat): int
      requires banksPerGroup >= 1
    {
      if SameBankgroup(b0, b1) then tRRDL else tRRDS
    }
  }

  datatype BusPacketType = READ | WRITE | ACTIVATE | PRECHARGE | REF | DATA

  /** The payload of a burst; what its bits are plays no part in scheduling. */
  type Burst = int

  /** `barrier` says that the packet's tag contains "BAR". */
  datatype BusPacket = BusPacket(
    busPacketType: BusPacketType, physicalAddress: nat, column: nat, row: nat, rank: nat,
    bank: nat, data: Burst, barrier: bool)

  datatype TransactionType = DATA_READ | DATA_WRITE | RETURN_DATA

  datatype Transaction = Transaction(
    transactionType: TransactionType, address: nat, data: Burst, barrier: bool)

  /** The place in the device that an address maps to. */
  datatype Location = Location(rank: nat, bank: nat, row: nat, column: nat)

  datatype CurrentBankState = Idle | RowActive | Precharging | Refreshing

  datatype BankState = BankState(
    currentBankState: CurrentBankState, openRowAddress: nat, nextRead: int, nextWrite: int,
    nextActivate: int, nextPrecharge: int, lastCommand: BusPacketType,
    stateChangeCountdown: nat)

  const INITIAL_BANK := BankState(Idle, 0, 0, 0, 0, 0, READ, 0)

  datatype DramMode = SB | HAB | HAB_PIM

  const PIM_REG_RA := 0x3fff
  const PIM_ABMR_RA := 0x27ff
  const PIM_SBMR_RA := 0x2fff

  /** Bit 13 of the row address marks the rows that configure the PIM units. */
  predicate IsReservedRow(row: nat) {
    row / 0x2000 % 2 == 1
  }

  /** An open row that a rank keeps track of. */
  predicate OrdinaryOpen(b: BankState) {
    b.currentBankState == RowActive && !IsReservedRow(b.openRowAddress)
  }
}
