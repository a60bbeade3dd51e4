/** Why no rank ever rejects a command: the controller's table of bank states, one cycle ahead,
    dominates what the rank believes about its banks, in every mode. */
module TimingSafety {
  import opened Arithmetic
  import opened Dram
  import opened CommandQueueModel
  import opened RankModel
  import opened MemoryControllerModel

  /** A rank's deadline `x` is at most one cycle behind the controller's deadline `y`, or will
      have passed when a command popped at `t` arrives. */
  predicate Late(x: int, y: int, t: int) {
    x <= Max(y, t) + 1
  }

  /** The soonest that an ACTIVATE can be popped for a bank, counted from cycle `t`: an open row has
      to be closed first. */
  function SoonestActivate(c: Config, m: BankState, t: int): int {
    if m.currentBankState == RowActive then Max(m.nextActivate, Max(m.nextPrecharge, t) + c.tRP)
    else Max(m.nextActivate, t)
  }

  /** What a rank believes about a bank, against the controller's entry `m`: the rank keeps no
      record of reserved rows, so it takes a bank with a reserved row open to be idle. */
  predicate BankTracks(c: Config, m: BankState, r: BankState, t: int) {
    && r.nextActivate <= SoonestActivate(c, m, t) + 1
    && if OrdinaryOpen(m) then
         && r.currentBankState == RowActive && r.openRowAddress == m.openRowAddress
         && Late(r.nextRead, m.nextRead, t) && Late(r.nextWrite, m.nextWrite, t)
         && Late(r.nextPrecharge, m.nextPrecharge, t)
       else r.currentBankState == Idle
  }

  /** The controller's bank that stands for bank `b` of a rank: in all-bank mode, commands go
      to banks 0 and 1, and every bank follows the one of its parity. */
  function Peer(mode: DramMode, b: nat): nat {
    if mode == SB then b else b % 2
  }

  predicate Tracks(c: Config, mode: DramMode, m: seq<BankState>, r: seq<BankState>, t: int) {
    && |m| == |r| == c.numBanks
    && (forall b {:trigger r[b]} | 0 <= b < c.numBanks :: BankTracks(c, m[Peer(mode, b)], r[b], t))
    && (mode != SB ==> forall b | 2 <= b < c.numBanks :: !OrdinaryOpen(m[b]))
  }

  /** In all-bank mode the rank charges every bank the delays of one bank group. */
  predicate ModeFits(c: Config, mode: DramMode)
    requires c.Valid()
  {
    mode != SB ==> c.SameBankgroup(0, 1)
  }

  /** A packet of the kind that `pop` hands out, as far as the table row of its rank goes. */
  predicate Poppable(c: Config, mode: DramMode, m: seq<BankState>, p: BusPacket, t: int)
    requires |m| == c.numBanks
  {
    && p.bank < c.numBanks && p.busPacketType != DATA
    && Ready(mode, m[p.bank], p, t)
    && (p.busPacketType == PRECHARGE ==> p.row == m[p.bank].openRowAddress)
    && (p.busPacketType == REF ==> p.row == 0 && forall b | 0 <= b < |m| :: m[b].currentBankState != RowActive)
  }

  /** An ordinary row in a command of all-bank mode means that the command is for bank 0 or 1. */
  lemma OrdinaryTarget(c: Config, mode: DramMode, m: seq<BankState>, r: seq<BankState>, p: BusPacket, t: int)
    requires c.Valid() && Tracks(c, mode, m, r, t) && Poppable(c, mode, m, p, t)
    requires mode != SB && !IsReservedRow(p.row) && p.busPacketType != REF
    ensures p.bank < 2
  {
  }

  lemma BankPasses(c: Config, mode: DramMode, m: seq<BankState>, r: seq<BankState>, p: BusPacket, t: int, b: nat)
    requires c.Valid() && Tracks(c, mode, m, r, t) && Poppable(c, mode, m, p, t)
    requires !IsReservedRow(p.row) && p.busPacketType != REF && b < c.numBanks && Addressed(mode, p, b)
    ensures CheckBank(p.busPacketType, r[b], p.row, t + 1)
  {
    if mode != SB {
      OrdinaryTarget(c, mode, m, r, p, t);
    }
    assert Peer(mode, b) == p.bank;
  }

  /** A command that is ready in the controller's table at `t` passes the rank's check one
      cycle later. */
  lemma PoppedPasses(c: Config, mode: DramMode, m: seq<BankState>, r: seq<BankState>, p: BusPacket, t: int)
    requires c.Valid() && Tracks(c, mode, m, r, t) && Poppable(c, mode, m, p, t)
    ensures Accepts(mode, r, p, t + 1)
  {
    if !IsReservedRow(p.row) && p.busPacketType != REF {
      forall b | 0 <= b < |r| && Addressed(mode, p, b)
        ensures CheckBank(p.busPacketType, r[b], p.row, t + 1)
      {
        BankPasses(c, mode, m, r, p, t, b);
      }
    } else if !IsReservedRow(p.row) {
      forall b | 0 <= b < |r|
        ensures r[b].currentBankState == Idle
      {
        assert BankTracks(c, m[Peer(mode, b)], r[b], t);
      }
    }
  }

  /** Both copies of one bank after a command, the rank's one cycle later. */
  lemma BankStillTracks(c: Config, mode: DramMode, m: seq<BankState>, r: seq<BankState>, p: BusPacket,
                        t: int, b: nat)
    requires c.Valid() && ModeFits(c, mode) && Tracks(c, mode, m, r, t) && Poppable(c, mode, m, p, t)
    requires b < c.numBanks
    ensures BankTracks(c, AfterIssue(c, p, t, p.rank, Peer(mode, b), m[Peer(mode, b)]),
                       UpdateState(c, mode, r, p, t + 1)[b], t)
  {
    var q := Peer(mode, b);
    assert BankTracks(c, m[q], r[b], t);
    assert q == p.bank ==> Ready(mode, m[q], p, t);
    if p.busPacketType == REF {
      RefreshStillTracks(c, m[q], r[b], p, t, q);
    } else if IsReservedRow(p.row) {
      ReservedStillTracks(c, mode, m[q], r[b], p, t, q);
    } else {
      if mode != SB {
        OrdinaryTarget(c, mode, m, r, p, t);
        HabGroups(c, b, p.bank);
      }
      var target, group := q == p.bank, c.SameBankgroup(q, p.bank);
      hide BankTracks, AfterIssue;
      match p.busPacketType {
        case READ => ReadStillTracks(c, m[q], r[b], p, t, q, target, group);
        case WRITE => WriteStillTracks(c, m[q], r[b], p, t, q, target, group);
        case ACTIVATE => ActivateStillTracks(c, mode, m[q], r[b], p, t, q, target, group);
        case PRECHARGE => PrechargeStillTracks(c, mode, m[q], r[b], p, t, q, target, group);
      }
    }
  }

  /** Commands to ordinary rows stay within one bank group in all-bank mode. */
  lemma HabGroups(c: Config, b: nat, bank: nat)
    requires c.Valid() && c.SameBankgroup(0, 1) && bank < 2
    ensures c.SameBankgroup(b % 2, bank)
  {
    assert b % 2 == 0 || b % 2 == 1;
  }

  lemma RefreshStillTracks(c: Config, m: BankState, r: BankState, p: BusPacket, t: int, q: nat)
    requires c.Valid() && BankTracks(c, m, r, t) && p.busPacketType == REF && m.currentBankState != RowActive
    ensures BankTracks(c, AfterIssue(c, p, t, p.rank, q, m), r.(nextActivate := t + 1 + c.tRFC), t)
  {
  }

  /** A command to a reserved row: the rank keeps no record of it. */
  lemma ReservedStillTracks(c: Config, mode: DramMode, m: BankState, r: BankState, p: BusPacket, t: int, q: nat)
    requires c.Valid() && BankTracks(c, m, r, t) && p.busPacketType != DATA && p.busPacketType != REF
    requires IsReservedRow(p.row)
    requires q == p.bank ==> Ready(mode, m, p, t)
    requires q == p.bank && p.busPacketType == PRECHARGE ==> p.row == m.openRowAddress
    ensures BankTracks(c, AfterIssue(c, p, t, p.rank, q, m), r, t)
  {
  }

  lemma ReadStillTracks(c: Config, m: BankState, r: BankState, p: BusPacket, t: int, q: nat, target: bool, group: bool)
    requires c.Valid() && BankTracks(c, m, r, t) && p.busPacketType == READ
    requires target == (q == p.bank) && group == c.SameBankgroup(q, p.bank)
    ensures BankTracks(c, AfterIssue(c, p, t, p.rank, q, m), UpdateBank(c, READ, r, p.row, target, group, t + 1), t)
  {
  }

  lemma WriteStillTracks(c: Config, m: BankState, r: BankState, p: BusPacket, t: int, q: nat, target: bool, group: bool)
    requires c.Valid() && BankTracks(c, m, r, t) && p.busPacketType == WRITE
    requires target == (q == p.bank) && group == c.SameBankgroup(q, p.bank)
    ensures BankTracks(c, AfterIssue(c, p, t, p.rank, q, m), UpdateBank(c, WRITE, r, p.row, target, group, t + 1), t)
  {
  }

  lemma ActivateStillTracks(c: Config, mode: DramMode, m: BankState, r: BankState, p: BusPacket, t: int, q: nat,
                            target: bool, group: bool)
    requires c.Valid() && BankTracks(c, m, r, t) && p.busPacketType == ACTIVATE && !IsReservedRow(p.row)
    requires target == (q == p.bank) && group == c.SameBankgroup(q, p.bank) && (target ==> Ready(mode, m, p, t))
    ensures BankTracks(c, AfterIssue(c, p, t, p.rank, q, m), UpdateBank(c, ACTIVATE, r, p.row, target, group, t + 1), t)
  {
  }

  lemma PrechargeStillTracks(c: Config, mode: DramMode, m: BankState, r: BankState, p: BusPacket, t: int, q: nat,
                             target: bool, group: bool)
    requires c.Valid() && BankTracks(c, m, r, t) && p.busPacketType == PRECHARGE && !IsReservedRow(p.row)
    requires target == (q == p.bank) && (target ==> Ready(mode, m, p, t) && p.row == m.openRowAddress)
    ensures BankTracks(c, AfterIssue(c, p, t, p.rank, q, m),
                       UpdateBank(c, PRECHARGE, r, p.row, target, group, t + 1), t)
  {
  }

  /** Issuing a command keeps the relation for its own rank, in every mode. */
  lemma IssueKeepsTracking(c: Config, mode: DramMode, m: seq<BankState>, r: seq<BankState>, p: BusPacket, t: int)
    requires c.Valid() && ModeFits(c, mode) && Tracks(c, mode, m, r, t) && Poppable(c, mode, m, p, t)
    ensures Tracks(c, mode, AfterIssueRow(c, p, t, p.rank, m), UpdateState(c, mode, r, p, t + 1), t)
  {
    UpperBanksStayClosed(c, mode, m, r, p, t);
    hide BankTracks, AfterIssue, UpdateState, Poppable, OrdinaryOpen;
    forall b | 0 <= b < c.numBanks
      ensures BankTracks(c, AfterIssueRow(c, p, t, p.rank, m)[Peer(mode, b)], UpdateState(c, mode, r, p, t + 1)[b], t)
    {
      BankStillTracks(c, mode, m, r, p, t, b);
    }
  }

  /** In all-bank mode no ordinary row is opened in a bank that stands for none. */
  lemma UpperBanksStayClosed(c: Config, mode: DramMode, m: seq<BankState>, r: seq<BankState>, p: BusPacket, t: int)
    requires c.Valid() && Tracks(c, mode, m, r, t) && Poppable(c, mode, m, p, t)
    ensures mode != SB ==>
              forall b | 2 <= b < c.numBanks :: !OrdinaryOpen(AfterIssueRow(c, p, t, p.rank, m)[b])
  {
    hide BankTracks;
  }

  /** A command to another rank only adds to the controller's deadlines. */
  lemma OtherBankTracks(c: Config, p: BusPacket, t: int, rank: nat, q: nat, m: BankState, r: BankState)
    requires c.Valid() && BankTracks(c, m, r, t) && rank != p.rank
    ensures BankTracks(c, AfterIssue(c, p, t, rank, q, m), r, t)
  {
  }

  lemma IssueKeepsOthers(c: Config, mode: DramMode, m: seq<BankState>, r: seq<BankState>, p: BusPacket,
                         t: int, rank: nat)
    requires c.Valid() && Tracks(c, mode, m, r, t) && rank != p.rank
    ensures Tracks(c, mode, AfterIssueRow(c, p, t, rank, m), r, t)
  {
    hide BankTracks, AfterIssue, OrdinaryOpen;
    forall b | 0 <= b < c.numBanks
      ensures BankTracks(c, AfterIssueRow(c, p, t, rank, m)[Peer(mode, b)], r[b], t)
    {
      OtherBankTracks(c, p, t, rank, Peer(mode, b), m[Peer(mode, b)], r[b]);
    }
    forall b | mode != SB && 2 <= b < c.numBanks
      ensures !OrdinaryOpen(AfterIssueRow(c, p, t, rank, m)[b])
    {
      UntouchedRow(c, p, t, rank, b, m[b]);
    }
  }

  lemma UntouchedRow(c: Config, p: BusPacket, t: int, rank: nat, q: nat, m: BankState)
    requires c.Valid() && rank != p.rank
    ensures OrdinaryOpen(AfterIssue(c, p, t, rank, q, m)) == OrdinaryOpen(m)
  {
  }

  /** Time only helps, and the countdowns of the controller never open or close a row. */
  lemma TimeKeepsTracking(c: Config, mode: DramMode, m: seq<BankState>, r: seq<BankState>, t: int, t': int)
    requires Tracks(c, mode, m, r, t) && t <= t' && Counting(m)
    ensures Tracks(c, mode, TickRow(m), r, t')
  {
    forall b | 0 <= b < c.numBanks
      ensures BankTracks(c, TickRow(m)[Peer(mode, b)], r[b], t')
    {
      assert BankTracks(c, m[Peer(mode, b)], r[b], t);
    }
  }

  /** A countdown runs only while a bank is between two states. */
  predicate Counting(m: seq<BankState>) {
    forall b | 0 <= b < |m| ::
      m[b].currentBankState == RowActive ==> m[b].lastCommand != REF && m[b].lastCommand != PRECHARGE
  }

  lemma CountingKept(c: Config, p: BusPacket, t: int, rank: nat, m: seq<BankState>)
    requires c.Valid() && Counting(m)
    ensures Counting(AfterIssueRow(c, p, t, rank, m))
  {
  }

  /** What a switch of the mode asks of the banks that change their peer: no ordinary row is open in the
      table for such a bank or for the bank of its parity, and the rank's deadline for activating it is not
      beyond that of the bank that will stand for it. Systems of two banks may switch at any time. */
  predicate SwitchFits(c: Config, mode': DramMode, m: seq<BankState>, r: seq<BankState>, t: int)
    requires |m| == |r| == c.numBanks
  {
    forall b | 2 <= b < c.numBanks ::
      && !OrdinaryOpen(m[b]) && !OrdinaryOpen(m[b % 2])
      && r[b].nextActivate <= SoonestActivate(c, m[Peer(mode', b)], t) + 1
  }

  /** Between single-bank and all-bank mode, in either direction, the relation survives a switch if and
      only if the switch fits. */
  lemma SwitchIsExact(c: Config, mode: DramMode, mode': DramMode, m: seq<BankState>, r: seq<BankState>, t: int)
    requires c.Valid() && Tracks(c, mode, m, r, t) && (mode == SB) != (mode' == SB)
    ensures Tracks(c, mode', m, r, t) <==> SwitchFits(c, mode', m, r, t)
  {
    if SwitchFits(c, mode', m, r, t) {
      forall b | 0 <= b < c.numBanks
        ensures BankTracks(c, m[Peer(mode', b)], r[b], t)
      {
        assert BankTracks(c, m[Peer(mode, b)], r[b], t);
      }
    }
    if Tracks(c, mode', m, r, t) {
      forall b | 2 <= b < c.numBanks
        ensures !OrdinaryOpen(m[b]) && !OrdinaryOpen(m[b % 2])
        ensures r[b].nextActivate <= SoonestActivate(c, m[Peer(mode', b)], t) + 1
      {
        assert BankTracks(c, m[Peer(mode, b)], r[b], t);
        assert BankTracks(c, m[Peer(mode', b)], r[b], t);
      }
    }
  }

  /** All banks of the rank are idle and all their deadlines have passed. */
  predicate Quiet(r: seq<BankState>, t: int) {
    forall b | 0 <= b < |r| ::
      && r[b].currentBankState == Idle
      && r[b].nextRead <= t && r[b].nextWrite <= t && r[b].nextActivate <= t && r[b].nextPrecharge <= t
  }

  /** A quiet rank may switch. */
  lemma QuietSwitch(c: Config, mode: DramMode, mode': DramMode, m: seq<BankState>, r: seq<BankState>, t: int)
    requires c.Valid() && Tracks(c, mode, m, r, t) && Quiet(r, t)
    ensures SwitchFits(c, mode', m, r, t) && Tracks(c, mode', m, r, t)
  {
    forall b | 0 <= b < c.numBanks
      ensures !OrdinaryOpen(m[b])
    {
      if mode == SB || b < 2 {
        assert BankTracks(c, m[Peer(mode, b)], r[b], t);
      }
    }
  }
}
