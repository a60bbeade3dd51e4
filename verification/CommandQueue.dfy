/** The command queue: which command is issuable, and which one a call of `pop` issues. */
module CommandQueueModel {
  import opened Arithmetic
  import opened Dram

  /** What the scheduler looks at besides its queues: the controller's table of bank states,
      the mode of every rank, its own limits, and the clock. */
  datatype View = View(
    c: Config, table: seq<seq<BankState>>, modes: seq<DramMode>, activations: seq<seq<int>>,
    accesses: seq<seq<nat>>, clock: int)
  {
    predicate Shaped() {
      && c.Valid()
      && |table| == |modes| == |activations| == |accesses| == c.numRanks
      && (forall r | 0 <= r < c.numRanks :: |table[r]| == |accesses[r]| == c.numBanks)
    }

    predicate InRange(p: BusPacket) {
      p.rank < c.numRanks && p.bank < c.numBanks
    }

    /** The limits on row activations and on accesses to an open row. */
    predicate WithinLimits(p: BusPacket)
      requires Shaped() && InRange(p)
    {
      && (p.busPacketType == ACTIVATE ==> |activations[p.rank]| < c.xaw)
      && (p.busPacketType == READ || p.busPacketType == WRITE ==>
            accesses[p.rank][p.bank] < c.totalRowAccesses)
    }

    predicate Issuable(p: BusPacket)
      requires Shaped() && InRange(p)
    {
      Ready(modes[p.rank], table[p.rank][p.bank], p, clock) && WithinLimits(p)
    }

    /** The queue entry at `i` can be issued now and overtakes nothing it depends on. */
    predicate Eligible(q: seq<BusPacket>, i: nat)
      requires Shaped() && i < |q| && InRange(q[i])
    {
      Issuable(q[i]) && Free(q, i)
    }

    /** The queue entry at `i` may have its row opened now. */
    predicate Opens(q: seq<BusPacket>, i: nat)
      requires Shaped() && i < |q| && InRange(q[i])
    {
      && (forall j | 0 < j <= i :: !q[j].barrier)
      && table[q[i].rank][q[i].bank].currentBankState == Idle
      && Issuable(ActivateFor(q[i]))
    }

    /** Entry `i` is the first of the queue that can be served. */
    predicate ServesFirst(q: seq<BusPacket>, i: nat)
      requires Shaped() && i < |q| && QueueInRange(q)
    {
      Eligible(q, i) && forall j | 0 <= j < i :: !Eligible(q, j)
    }

    /** Entry `i` is the first of the queue that a row can be opened for, and none can be served. */
    predicate OpensFirst(q: seq<BusPacket>, i: nat)
      requires Shaped() && i < |q| && QueueInRange(q)
    {
      && Opens(q, i)
      && (forall j | 0 <= j < i :: !Opens(q, j))
      && (forall j | 0 <= j < |q| :: !Eligible(q, j))
    }

    /** What the queue of one rank yields: the entry at `served`, or the opening of a row for
        the first entry that needs one, or nothing. */
    predicate Yields(q: seq<BusPacket>, r: Option<BusPacket>, served: int)
      requires Shaped() && QueueInRange(q)
    {
      if served >= 0 then
        served < |q| && r == Some(q[served]) && ServesFirst(q, served)
      else if r.Some? then
        exists i | 0 <= i < |q| :: r.value == ActivateFor(q[i]) && OpensFirst(q, i)
      else Silent(q)
    }

    predicate QueueInRange(q: seq<BusPacket>) {
      forall i | 0 <= i < |q| :: InRange(q[i])
    }

    /** Nothing in this queue can be served, and no row can be opened for it. */
    predicate Silent(q: seq<BusPacket>)
      requires Shaped() && QueueInRange(q)
    {
      forall i | 0 <= i < |q| :: !Eligible(q, i) && !Opens(q, i)
    }

    /** Some entry, before or at the first barrier, still needs the row open in this bank. */
    predicate Wanted(q: seq<BusPacket>, r: nat, b: nat)
      requires Shaped() && r < c.numRanks && b < c.numBanks
    {
      exists i | 0 <= i < |q| :: WantedBy(q, r, b, i)
    }

    predicate WantedBy(q: seq<BusPacket>, r: nat, b: nat, i: nat)
      requires Shaped() && r < c.numRanks && b < c.numBanks && i < |q|
    {
      && (forall j | 0 <= j < i :: !q[j].barrier)
      && q[i].rank == r && q[i].bank == b
      && table[r][b].currentBankState == RowActive
      && q[i].row == table[r][b].openRowAddress
    }

    function PrechargeOf(r: nat, b: nat): BusPacket
      requires Shaped() && r < c.numRanks && b < c.numBanks
    {
      BusPacket(PRECHARGE, 0, 0, table[r][b].openRowAddress, r, b, 0, false)
    }

    /** A row of rank `r` is open and may be closed. */
    predicate Closable(r: nat, b: nat)
      requires Shaped() && r < c.numRanks && b < c.numBanks
    {
      table[r][b].currentBankState == RowActive && Issuable(PrechargeOf(r, b))
    }

    /** No row of rank `r` before this one may be closed. */
    predicate FirstClosable(r: nat, b: nat)
      requires Shaped() && r < c.numRanks && b < c.numBanks
    {
      Closable(r, b) && forall k | 0 <= k < b :: !Closable(r, k)
    }

    /** A refresh that waits for rank `r` gets its turn: it can be issued, or a row closed for it. */
    predicate RefreshTurn(waiting: bool, r: nat)
      requires Shaped() && r < c.numRanks
    {
      waiting && (!AnyOpen(r) || exists b | 0 <= b < c.numBanks :: Closable(r, b))
    }

    /** What it does with its turn. */
    predicate RefreshStep(r: nat, p: BusPacket)
      requires Shaped() && r < c.numRanks
    {
      if AnyOpen(r) then exists b | 0 <= b < c.numBanks :: FirstClosable(r, b) && p == PrechargeOf(r, b)
      else p == RefreshOf(r)
    }

    /** No queue has anything to serve or to open a row for. */
    predicate AllSilent(queues: seq<seq<BusPacket>>)
      requires Shaped() && forall q | q in queues :: QueueInRange(q)
    {
      forall k | 0 <= k < |queues| :: Silent(queues[k])
    }

    /** Some row of rank `r` is open. */
    predicate AnyOpen(r: nat)
      requires Shaped() && r < c.numRanks
    {
      exists b | 0 <= b < c.numBanks :: table[r][b].currentBankState == RowActive
    }
  }

  /** The part of `isIssuable` that looks at the state and the deadlines of one bank. */
  predicate Ready(mode: DramMode, b: BankState, p: BusPacket, clock: int) {
    match p.busPacketType
    case REF => true
    case ACTIVATE =>
      && (mode == SB || p.bank < 2)
      && (b.currentBankState == Idle || b.currentBankState == Refreshing)
      && clock >= b.nextActivate
    case WRITE =>
      b.currentBankState == RowActive && clock >= b.nextWrite && p.row == b.openRowAddress
    case READ =>
      b.currentBankState == RowActive && clock >= b.nextRead && p.row == b.openRowAddress
    case PRECHARGE => b.currentBankState == RowActive && clock >= b.nextPrecharge
    case DATA => false
  }

  predicate SameCell(p: BusPacket, q: BusPacket) {
    p.bank == q.bank && p.row == q.row && p.column == q.column
  }

  /** Issuing entry `i` before the entries ahead of it breaks no fence and no dependency. */
  predicate Free(q: seq<BusPacket>, i: nat)
    requires i < |q|
  {
    && (i == 0 || !q[i].barrier)
    && (forall j | 0 <= j < i :: !SameCell(q[i], q[j]) && !q[j].barrier)
  }

  function ActivateFor(p: BusPacket): BusPacket {
    p.(busPacketType := ACTIVATE, data := 0)
  }

  function RefreshOf(r: nat): BusPacket {
    BusPacket(REF, 0, 0, 0, r, 0, 0, false)
  }

  function Without(q: seq<BusPacket>, i: nat): seq<BusPacket>
    requires i < |q|
  {
    q[..i] + q[i + 1..]
  }

  // ---------- the round robin over banks ----------

  /** The place of a bank in the round-robin order. */
  function Turn(c: Config, rank: nat, bank: nat): nat {
    if c.bankThenRank then rank * c.numBanks + bank else bank * c.numRanks + rank
  }

  function Turns(c: Config): nat {
    if c.bankThenRank then c.numRanks * c.numBanks else c.numBanks * c.numRanks
  }

  lemma TurnInRange(c: Config, rank: nat, bank: nat)
    requires rank < c.numRanks && bank < c.numBanks
    ensures Turn(c, rank, bank) < Turns(c)
  {
    if c.bankThenRank {
      assert (rank + 1) * c.numBanks <= c.numRanks * c.numBanks;
    } else {
      assert (bank + 1) * c.numRanks <= c.numBanks * c.numRanks;
    }
  }

  lemma ProductGap(a: nat, b: nat, radix: nat)
    requires a < b
    ensures a * radix + radix <= b * radix
  {
    assert b * radix == (a + 1) * radix + (b - a - 1) * radix;
  }

  lemma MixedRadixInjective(radix: nat, hi: nat, lo: nat, hi': nat, lo': nat)
    requires lo < radix && lo' < radix && hi * radix + lo == hi' * radix + lo'
    ensures hi == hi' && lo == lo'
  {
    if hi < hi' {
      ProductGap(hi, hi', radix);
    } else if hi' < hi {
      ProductGap(hi', hi, radix);
    }
  }

  lemma TurnInjective(c: Config, rank: nat, bank: nat, rank': nat, bank': nat)
    requires rank < c.numRanks && bank < c.numBanks && rank' < c.numRanks && bank' < c.numBanks
    requires Turn(c, rank, bank) == Turn(c, rank', bank')
    ensures rank == rank' && bank == bank'
  {
    if c.bankThenRank {
      MixedRadixInjective(c.numBanks, rank, bank, rank', bank');
    } else {
      MixedRadixInjective(c.numRanks, bank, rank, bank', rank');
    }
  }

  /** `nextRankAndBank`. */
  function Successor(c: Config, rank: nat, bank: nat): (nat, nat) {
    if c.bankThenRank then
      if bank + 1 == c.numBanks then ((if rank + 1 == c.numRanks then 0 else rank + 1), 0)
      else (rank, bank + 1)
    else
      if rank + 1 == c.numRanks then (0, if bank + 1 == c.numBanks then 0 else bank + 1)
      else (rank + 1, bank)
  }

  /** Counting up in mixed radix. */
  function NextDigits(hi: nat, lo: nat, his: nat, radix: nat): (nat, nat) {
    if lo + 1 == radix then (if hi + 1 == his then 0 else hi + 1, 0) else (hi, lo + 1)
  }

  lemma NextDigitsCountUp(hi: nat, lo: nat, his: nat, radix: nat)
    requires hi < his && lo < radix
    ensures var (h, l) := NextDigits(hi, lo, his, radix);
            h < his && l < radix
            && h * radix + l == if hi * radix + lo + 1 == his * radix then 0 else hi * radix + lo + 1
  {
    if lo + 1 < radix {
      ProductGap(hi, his, radix);
    } else if hi + 1 < his {
      ProductGap(hi + 1, his, radix);
      NextProduct(hi, radix);
    } else {
      NextProduct(hi, radix);
    }
  }

  /** The round robin is a single cycle: every step moves one place on, and the last place
      leads back to the first. */
  lemma SuccessorIsOneCycle(c: Config, rank: nat, bank: nat)
    requires rank < c.numRanks && bank < c.numBanks
    ensures var (r, b) := Successor(c, rank, bank);
            r < c.numRanks && b < c.numBanks
            && Turn(c, r, b) == if Turn(c, rank, bank) + 1 == Turns(c) then 0
                                else Turn(c, rank, bank) + 1
  {
    if c.bankThenRank {
      NextDigitsCountUp(rank, bank, c.numRanks, c.numBanks);
    } else {
      NextDigitsCountUp(bank, rank, c.numBanks, c.numRanks);
    }
  }

  lemma WrapAround(x: nat, total: nat)
    requires x < total
    ensures (x + 1) % total == if x + 1 == total then 0 else x + 1
  {
    if x + 1 < total {
      assert (x + 1) / total == 0;
    }
  }

  /** Whether place `x` is among the first `n` places visited from `start` in a cycle. */
  predicate Visited(x: int, start: int, n: int, total: int) {
    start <= x < start + n || start <= x + total < start + n
  }

  /** How far place `y` is ahead of place `x` in a cycle. */
  function Ahead(x: int, y: int, total: int): int {
    if y >= x then y - x else y + total - x
  }

  class CommandQueue {
    const config: Config
    var currentClockCycle: int
    var queues: seq<seq<BusPacket>>
    var nextRank: nat
    var nextRankPRE: nat
    var nextBankPRE: nat
    var refreshRank: nat
    var refreshWaiting: bool
    var tXAWCountdown: seq<seq<int>>
    var rowAccessCounters: seq<seq<nat>>

    /** Every queued packet is a column access to its own rank. */
    predicate Valid()
      reads this
    {
      && config.Valid()
      && |tXAWCountdown| == |rowAccessCounters| == config.numRanks
      && (forall r | 0 <= r < config.numRanks :: |rowAccessCounters[r]| == config.numBanks)
      && AllQueued(config, queues)
      && nextRank < config.numRanks && nextRankPRE < config.numRanks
      && nextBankPRE < config.numBanks && refreshRank < config.numRanks
    }

    function Seen(table: seq<seq<BankState>>, modes: seq<DramMode>): View
      reads this
    {
      View(config, table, modes, tXAWCountdown, rowAccessCounters, currentClockCycle)
    }

    constructor (config: Config)
      requires config.Valid()
      ensures Valid() && this.config == config && currentClockCycle == 0 && !refreshWaiting
      ensures queues == seq(config.numRanks, _ => [])
    {
      this.config := config;
      currentClockCycle := 0;
      queues := seq(config.numRanks, _ => []);
      nextRank, nextRankPRE, nextBankPRE, refreshRank, refreshWaiting := 0, 0, 0, 0, false;
      tXAWCountdown := seq(config.numRanks, _ => []);
      rowAccessCounters := seq(config.numRanks, _ => seq(config.numBanks, _ => 0));
    }

    predicate HasRoomFor(count: nat, rank: nat)
      requires rank < |queues|
      reads this
    {
      config.queueDepth - |queues[rank]| >= count
    }

    method Enqueue(packet: BusPacket)
      requires Valid() && packet.rank < config.numRanks && HasRoomFor(1, packet.rank)
      requires packet.bank < config.numBanks
      requires packet.busPacketType == READ || packet.busPacketType == WRITE
      modifies this`queues
      ensures Valid()
      ensures queues == old(queues)[packet.rank := old(queues)[packet.rank] + [packet]]
    {
      queues := queues[packet.rank := queues[packet.rank] + [packet]];
    }

    method NeedRefresh(rank: nat)
      requires Valid() && rank < config.numRanks
      modifies this`refreshWaiting, this`refreshRank
      ensures Valid() && refreshWaiting && refreshRank == rank
    {
      refreshWaiting := true;
      refreshRank := rank;
    }

    method Step()
      modifies this`currentClockCycle
      ensures currentClockCycle == old(currentClockCycle) + 1
    {
      currentClockCycle := currentClockCycle + 1;
    }

    /** A pending refresh closes the open rows of its rank one by one and is then issued. */
    method ProcessRefresh(table: seq<seq<BankState>>, modes: seq<DramMode>)
      returns (r: Option<BusPacket>)
      requires Valid() && Seen(table, modes).Shaped()
      modifies this`refreshWaiting
      ensures Valid()
      ensures r.Some? <==> Seen(table, modes).RefreshTurn(old(refreshWaiting), refreshRank)
      ensures r.Some? ==> Seen(table, modes).RefreshStep(refreshRank, r.value)
      ensures refreshWaiting == (old(refreshWaiting) && (r.None? || r.value.busPacketType != REF))
    {
      ghost var v := Seen(table, modes);
      r := None;
      if refreshWaiting {
        var sendREF := true;
        for b := 0 to config.numBanks
          invariant sendREF ==> forall k | 0 <= k < b :: table[refreshRank][k].currentBankState != RowActive
          invariant !sendREF ==> exists k | 0 <= k < b :: table[refreshRank][k].currentBankState == RowActive
          invariant forall k | 0 <= k < b :: !v.Closable(refreshRank, k)
        {
          if table[refreshRank][b].currentBankState == RowActive {
            sendREF := false;
            var packet := BusPacket(PRECHARGE, 0, 0, table[refreshRank][b].openRowAddress,
                                    refreshRank, b, 0, false);
            if Seen(table, modes).Issuable(packet) {
              assert v.FirstClosable(refreshRank, b) && packet == v.PrechargeOf(refreshRank, b);
              return Some(packet);
            }
          }
        }
        if sendREF {
          refreshWaiting := false;
          return Some(RefreshOf(refreshRank));
        }
      }
    }

    /** Serves the first entry of the current rank's queue that depends on nothing ahead of it,
        or else opens the row of the first entry that needs it. `served` is the place of the
        served entry, and is negative when a row is opened. */
    method ServeRank(table: seq<seq<BankState>>, modes: seq<DramMode>)
      returns (r: Option<BusPacket>, served: int)
      requires Valid() && Seen(table, modes).Shaped()
      modifies this`queues
      ensures Valid()
      ensures Seen(table, modes).Yields(old(queues)[nextRank], r, served)
      ensures queues == if served < 0 then old(queues)
                        else old(queues)[nextRank := Without(old(queues)[nextRank], served)]
    {
      var queue := queues[nextRank];
      ghost var v := Seen(table, modes);
      for i := 0 to |queue|
        invariant queues == old(queues)
        invariant forall j | 0 <= j < i :: !v.Eligible(queue, j)
      {
        var packet := queue[i];
        if Seen(table, modes).Issuable(packet) {
          if i != 0 && queue[i].barrier {
            assert forall k | i <= k < |queue| :: !Free(queue, k);
            break;
          } else {
            var depend := false;
            for j := 0 to i
              invariant !depend
              invariant forall k | 0 <= k < j :: !SameCell(queue[i], queue[k]) && !queue[k].barrier
            {
              if queue[i].bank == queue[j].bank && queue[i].row == queue[j].row
                 && queue[i].column == queue[j].column {
                depend := true;
                break;
              }
              if queue[j].barrier {
                depend := true;
                break;
              }
            }
            if !depend {
              queues := queues[nextRank := queue[..i] + queue[i + 1..]];
              return Some(packet), i;
            }
          }
        }
      }
      for i := 0 to |queue|
        invariant queues == old(queues)
        invariant forall j | 0 < j < i :: !queue[j].barrier
        invariant forall j | 0 <= j < i :: !v.Opens(queue, j)
      {
        if i != 0 && queue[i].barrier {
          assert forall k | i <= k < |queue| :: !v.Opens(queue, k);
          break;
        }
        var packet := queue[i];
        if table[packet.rank][packet.bank].currentBankState == Idle {
          var activate := ActivateFor(packet);
          if Seen(table, modes).Issuable(activate) {
            return Some(activate), -1;
          }
        }
      }
      return None, -1;
    }

    /** Goes round the ranks, starting with the one after the last rank that had nothing. */
    method ProcessCommand(table: seq<seq<BankState>>, modes: seq<DramMode>)
      returns (r: Option<BusPacket>, served: int)
      requires Valid() && Seen(table, modes).Shaped()
      modifies this`queues, this`nextRank
      ensures Valid()
      ensures r.Some? ==> Seen(table, modes).Yields(old(queues)[nextRank], r, served)
      ensures r.None? ==> served < 0 && nextRank == old(nextRank)
      ensures queues == if served < 0 then old(queues)
                        else old(queues)[nextRank := Without(old(queues)[nextRank], served)]
      ensures r.Some? ==>
                forall k | 0 <= k < config.numRanks
                           && Visited(k, old(nextRank), Ahead(old(nextRank), nextRank, config.numRanks),
                                      config.numRanks) ::
                  Seen(table, modes).Silent(old(queues)[k])
      ensures r.None? ==>
                forall k | 0 <= k < config.numRanks :: Seen(table, modes).Silent(queues[k])
    {
      var startingRank := nextRank;
      ghost var v := Seen(table, modes);
      ghost var n := 0;
      var more := true;
      while more
        invariant Valid() && queues == old(queues) && 0 <= n <= config.numRanks
        invariant nextRank == if startingRank + n < config.numRanks then startingRank + n
                              else startingRank + n - config.numRanks
        invariant more == (n < config.numRanks)
        invariant forall k | 0 <= k < config.numRanks && Visited(k, startingRank, n, config.numRanks) ::
            v.Silent(queues[k])
        decreases config.numRanks - n
      {
        r, served := ServeRank(table, modes);
        if r.Some? {
          return;
        }
        WrapAround(nextRank, config.numRanks);
        nextRank := (nextRank + 1) % config.numRanks;
        n := n + 1;
        more := startingRank != nextRank;
      }
      return None, -1;
    }

    /** `nextRankAndBank` on the precharge pointer. */
    method Advance()
      requires Valid()
      modifies this`nextRankPRE, this`nextBankPRE
      ensures Valid()
      ensures Turn(config, nextRankPRE, nextBankPRE)
              == if old(Turn(config, nextRankPRE, nextBankPRE)) + 1 == Turns(config) then 0
                 else old(Turn(config, nextRankPRE, nextBankPRE)) + 1
    {
      SuccessorIsOneCycle(config, nextRankPRE, nextBankPRE);
      var next := Successor(config, nextRankPRE, nextBankPRE);
      nextRankPRE, nextBankPRE := next.0, next.1;
    }

    /** The scan of `process_precharge` for an entry that still needs the open row. */
    method IsWanted(table: seq<seq<BankState>>, modes: seq<DramMode>, rank: nat, bank: nat)
      returns (found: bool)
      requires Valid() && Seen(table, modes).Shaped() && rank < config.numRanks && bank < config.numBanks
      ensures found == Seen(table, modes).Wanted(queues[rank], rank, bank)
    {
      found := false;
      var queue := queues[rank];
      ghost var v := Seen(table, modes);
      for i := 0 to |queue|
        invariant forall j | 0 <= j < i :: !queue[j].barrier
        invariant found == exists j | 0 <= j < i :: v.WantedBy(queue, rank, bank, j)
      {
        var packet := queue[i];
        if rank == packet.rank && bank == packet.bank
           && table[packet.rank][packet.bank].currentBankState == RowActive
           && packet.row == table[packet.rank][packet.bank].openRowAddress {
          assert v.WantedBy(queue, rank, bank, i);
          found := true;
        }
        if packet.barrier {
          break;
        }
      }
    }

    /** Closes the first row, in round-robin order, that no queued entry is waiting for. */
    method ProcessPrecharge(table: seq<seq<BankState>>, modes: seq<DramMode>)
      returns (r: Option<BusPacket>)
      requires Valid() && Seen(table, modes).Shaped()
      modifies this`nextRankPRE, this`nextBankPRE
      ensures Valid()
      ensures r.Some? ==>
                && r.value == Seen(table, modes).PrechargeOf(nextRankPRE, nextBankPRE)
                && Seen(table, modes).Closable(nextRankPRE, nextBankPRE)
                && !Seen(table, modes).Wanted(queues[nextRankPRE], nextRankPRE, nextBankPRE)
      ensures r.Some? ==>
                forall k, b | 0 <= k < config.numRanks && 0 <= b < config.numBanks
                              && Visited(Turn(config, k, b), old(Turn(config, nextRankPRE, nextBankPRE)),
                                         Ahead(old(Turn(config, nextRankPRE, nextBankPRE)),
                                               Turn(config, nextRankPRE, nextBankPRE), Turns(config)),
                                         Turns(config)) ::
                  Seen(table, modes).Wanted(queues[k], k, b) || !Seen(table, modes).Closable(k, b)
      ensures r.None? ==>
                && nextRankPRE == old(nextRankPRE) && nextBankPRE == old(nextBankPRE)
                && forall k, b | 0 <= k < config.numRanks && 0 <= b < config.numBanks ::
                     Seen(table, modes).Wanted(queues[k], k, b) || !Seen(table, modes).Closable(k, b)
    {
      var startingRank, startingBank := nextRankPRE, nextBankPRE;
      ghost var v := Seen(table, modes);
      ghost var start := Turn(config, startingRank, startingBank);
      ghost var n := 0;
      var more := true;
      TurnInRange(config, startingRank, startingBank);
      while more
        invariant Valid() && 0 <= n <= Turns(config)
        invariant Turn(config, nextRankPRE, nextBankPRE)
               == if start + n < Turns(config) then start + n else start + n - Turns(config)
        invariant more == (n < Turns(config))
        invariant forall k, b | 0 <= k < config.numRanks && 0 <= b < config.numBanks
                                && Visited(Turn(config, k, b), start, n, Turns(config)) ::
            v.Wanted(queues[k], k, b) || !v.Closable(k, b)
        decreases Turns(config) - n
      {
        var found := IsWanted(table, modes, nextRankPRE, nextBankPRE);
        if !found {
          var packet := BusPacket(PRECHARGE, 0, 0, table[nextRankPRE][nextBankPRE].openRowAddress,
                                  nextRankPRE, nextBankPRE, 0, false);
          if Seen(table, modes).Issuable(packet) {
            return Some(packet);
          }
        }
        forall k, b | 0 <= k < config.numRanks && 0 <= b < config.numBanks
                      && Visited(Turn(config, k, b), start, n + 1, Turns(config))
          ensures v.Wanted(queues[k], k, b) || !v.Closable(k, b)
        {
          TurnInRange(config, k, b);
          if Turn(config, k, b) == Turn(config, nextRankPRE, nextBankPRE) {
            TurnInjective(config, k, b, nextRankPRE, nextBankPRE);
          }
        }
        Advance();
        n := n + 1;
        more := !(startingRank == nextRankPRE && startingBank == nextBankPRE);
        if n == Turns(config) {
          TurnInjective(config, nextRankPRE, nextBankPRE, startingRank, startingBank);
        }
      }
      forall k, b | 0 <= k < config.numRanks && 0 <= b < config.numBanks
        ensures v.Wanted(queues[k], k, b) || !v.Closable(k, b)
      {
        TurnInRange(config, k, b);
      }
      TurnInjective(config, nextRankPRE, nextBankPRE, startingRank, startingBank);
      return None;
    }

    /** One cycle of the activation windows. */
    method AgeWindows()
      requires Valid()
      modifies this`tXAWCountdown
      ensures Valid() && tXAWCountdown == Aged(old(tXAWCountdown))
    {
      for i := 0 to config.numRanks
        invariant Valid()
        invariant forall r | 0 <= r < i :: tXAWCountdown[r] == AgedOne(old(tXAWCountdown)[r])
        invariant forall r | i <= r < config.numRanks :: tXAWCountdown[r] == old(tXAWCountdown)[r]
      {
        var countdown := AgeWindow(tXAWCountdown[i]);
        tXAWCountdown := tXAWCountdown[i := countdown];
      }
    }

    /** One cycle of the scheduler: a refresh first, then the queues, then an idle row. */
    method Pop(table: seq<seq<BankState>>, modes: seq<DramMode>) returns (r: Option<BusPacket>)
      requires Valid() && Seen(table, modes).Shaped()
      modifies this
      ensures Valid() && currentClockCycle == old(currentClockCycle) && refreshRank == old(refreshRank)
      ensures Seen(table, modes).Shaped()
      ensures tXAWCountdown == Aged(old(tXAWCountdown)) && rowAccessCounters == old(rowAccessCounters)
      ensures r.Some? ==> MayIssue(config, table, modes, currentClockCycle, old(queues), r.value, queues)
      ensures r.Some? ==> Seen(table, modes).Issuable(r.value)
      ensures r.None? ==> queues == old(queues) && Stuck(Seen(table, modes), queues, refreshWaiting, refreshRank)
      ensures Seen(table, modes).RefreshTurn(old(refreshWaiting), refreshRank) ==>
                r.Some? && Seen(table, modes).RefreshStep(refreshRank, r.value) && nextRank == old(nextRank)
      ensures !Seen(table, modes).RefreshTurn(old(refreshWaiting), refreshRank)
              && !Seen(table, modes).AllSilent(old(queues)) ==>
                r.Some? && FirstToSpeak(Seen(table, modes), old(queues), old(nextRank), nextRank, r)
      ensures !Seen(table, modes).RefreshTurn(old(refreshWaiting), refreshRank)
              && Seen(table, modes).AllSilent(old(queues)) && r.Some? ==>
                MayClose(Seen(table, modes), queues, nextRankPRE, nextBankPRE, r.value)
    {
      AgeWindows();
      r := PopAged(table, modes);
    }

    method PopAged(table: seq<seq<BankState>>, modes: seq<DramMode>) returns (r: Option<BusPacket>)
      requires Valid() && Seen(table, modes).Shaped()
      modifies this`queues, this`nextRank, this`nextRankPRE, this`nextBankPRE, this`refreshWaiting
      ensures Valid()
      ensures r.Some? ==> MayIssue(config, table, modes, currentClockCycle, old(queues), r.value, queues)
      ensures r.Some? ==> Seen(table, modes).Issuable(r.value)
      ensures r.None? ==> queues == old(queues) && Stuck(Seen(table, modes), queues, refreshWaiting, refreshRank)
      ensures Seen(table, modes).RefreshTurn(old(refreshWaiting), refreshRank) ==>
                r.Some? && Seen(table, modes).RefreshStep(refreshRank, r.value) && nextRank == old(nextRank)
      ensures !Seen(table, modes).RefreshTurn(old(refreshWaiting), refreshRank)
              && !Seen(table, modes).AllSilent(old(queues)) ==>
                r.Some? && FirstToSpeak(Seen(table, modes), old(queues), old(nextRank), nextRank, r)
      ensures !Seen(table, modes).RefreshTurn(old(refreshWaiting), refreshRank)
              && Seen(table, modes).AllSilent(old(queues)) && r.Some? ==>
                MayClose(Seen(table, modes), queues, nextRankPRE, nextBankPRE, r.value)
    {
      hide MayIssue, Ready, Free, Visited, Ahead, View.Yields, View.Wanted;
      ghost var v := Seen(table, modes);
      r := ProcessRefresh(table, modes);
      if r.Some? {
        RefreshMayIssue(v, queues, refreshRank, r.value);
        return;
      }
      var served;
      r, served := ProcessCommand(table, modes);
      if r.Some? {
        YieldMayIssue(v, old(queues), nextRank, r.value, served);
        assert !v.Silent(old(queues)[nextRank]);
        return;
      }
      r := ProcessPrecharge(table, modes);
      if r.Some? {
        CloseMayIssue(v, queues, nextRankPRE, nextBankPRE, r.value);
      }
    }
  }

  /** The rank `r` is the first, from `start` on, whose queue is not silent, and this is what it yields. */
  ghost predicate FirstToSpeak(v: View, queues: seq<seq<BusPacket>>, start: nat, rank: nat, r: Option<BusPacket>)
    requires v.Shaped() && AllQueued(v.c, queues)
  {
    && rank < v.c.numRanks && (exists served: int :: v.Yields(queues[rank], r, served))
    && forall k | 0 <= k < v.c.numRanks && Visited(k, start, Ahead(start, rank, v.c.numRanks), v.c.numRanks) ::
         v.Silent(queues[k])
  }

  /** The packet closes the row of this bank, which may be closed and which nothing waits for. */
  predicate MayClose(v: View, queues: seq<seq<BusPacket>>, rank: nat, bank: nat, p: BusPacket)
    requires v.Shaped() && AllQueued(v.c, queues)
  {
    && rank < v.c.numRanks && bank < v.c.numBanks && p == v.PrechargeOf(rank, bank)
    && v.Closable(rank, bank) && !v.Wanted(queues[rank], rank, bank)
  }

  lemma RefreshMayIssue(v: View, queues: seq<seq<BusPacket>>, rank: nat, p: BusPacket)
    requires v.Shaped() && AllQueued(v.c, queues) && rank < v.c.numRanks && v.RefreshStep(rank, p)
    ensures MayIssue(v.c, v.table, v.modes, v.clock, queues, p, queues) && v.Issuable(p)
  {
  }

  lemma CloseMayIssue(v: View, queues: seq<seq<BusPacket>>, rank: nat, bank: nat, p: BusPacket)
    requires v.Shaped() && AllQueued(v.c, queues) && MayClose(v, queues, rank, bank, p)
    ensures MayIssue(v.c, v.table, v.modes, v.clock, queues, p, queues) && v.Issuable(p)
  {
  }

  lemma YieldMayIssue(v: View, queues: seq<seq<BusPacket>>, rank: nat, p: BusPacket, served: int)
    requires v.Shaped() && AllQueued(v.c, queues) && rank < v.c.numRanks
    requires v.Yields(queues[rank], Some(p), served)
    ensures !v.Silent(queues[rank]) && v.InRange(p) && v.Issuable(p)
    ensures MayIssue(v.c, v.table, v.modes, v.clock, queues, p,
                     if served < 0 then queues else queues[rank := Without(queues[rank], served)])
  {
    if served >= 0 {
      assert WellQueued(v.c, queues[rank], rank);
      assert TakenAt(queues, p, served, queues[rank := Without(queues[rank], served)]);
    }
  }

  /** One cycle of the countdowns of one activation window. */
  method AgeWindow(countdown: seq<int>) returns (r: seq<int>)
    ensures r == AgedOne(countdown)
  {
    r := countdown;
    for j := 0 to |countdown|
      invariant |r| == |countdown|
      invariant forall k | 0 <= k < j :: r[k] == countdown[k] - 1
      invariant forall k | j <= k < |r| :: r[k] == countdown[k]
    {
      r := r[j := r[j] - 1];
    }
    if |r| > 0 && r[0] == 0 {
      r := r[1..];
    }
  }

  function AgedOne(countdown: seq<int>): seq<int> {
    var left := seq(|countdown|, j requires 0 <= j < |countdown| => countdown[j] - 1);
    if |left| > 0 && left[0] == 0 then left[1..] else left
  }

  function Aged(windows: seq<seq<int>>): seq<seq<int>> {
    seq(|windows|, r requires 0 <= r < |windows| => AgedOne(windows[r]))
  }

  predicate WellQueued(c: Config, q: seq<BusPacket>, rank: nat) {
    forall i | 0 <= i < |q| ::
      && q[i].rank == rank && q[i].bank < c.numBanks
      && (q[i].busPacketType == READ || q[i].busPacketType == WRITE)
  }

  predicate AllQueued(c: Config, queues: seq<seq<BusPacket>>) {
    |queues| == c.numRanks
    && forall r {:trigger queues[r]} | 0 <= r < c.numRanks :: WellQueued(c, queues[r], r)
  }

  predicate TableShape(c: Config, table: seq<seq<BankState>>) {
    |table| == c.numRanks && forall r | 0 <= r < c.numRanks :: |table[r]| == c.numBanks
  }

  /** What holds of every packet that `pop` hands out, whatever the order of its scans: the
      bank is ready for it, and it comes from the queue or from the state of the bank. */
  predicate MayIssue(c: Config, table: seq<seq<BankState>>, modes: seq<DramMode>, clock: int,
                     queues: seq<seq<BusPacket>>, p: BusPacket, queues': seq<seq<BusPacket>>)
    requires TableShape(c, table) && |modes| == |queues| == c.numRanks
  {
    && p.rank < c.numRanks && p.bank < c.numBanks
    && Ready(modes[p.rank], table[p.rank][p.bank], p, clock)
    && match p.busPacketType {
         case READ => TakenFrom(queues, p, queues')
         case WRITE => TakenFrom(queues, p, queues')
         case ACTIVATE =>
           queues' == queues && exists i | 0 <= i < |queues[p.rank]| :: p == ActivateFor(queues[p.rank][i])
         case PRECHARGE =>
           queues' == queues && p.row == table[p.rank][p.bank].openRowAddress
         case REF =>
           && queues' == queues && p == RefreshOf(p.rank)
           && forall b | 0 <= b < c.numBanks :: table[p.rank][b].currentBankState != RowActive
         case DATA => false
       }
  }

  predicate TakenFrom(queues: seq<seq<BusPacket>>, p: BusPacket, queues': seq<seq<BusPacket>>)
    requires p.rank < |queues|
  {
    exists i | 0 <= i < |queues[p.rank]| :: TakenAt(queues, p, i, queues')
  }

  predicate TakenAt(queues: seq<seq<BusPacket>>, p: BusPacket, i: nat, queues': seq<seq<BusPacket>>)
    requires p.rank < |queues| && i < |queues[p.rank]|
  {
    var q := queues[p.rank];
    q[i] == p && Free(q, i) && queues' == queues[p.rank := Without(q, i)]
  }

  /** Nothing at all can be issued. */
  predicate Stuck(v: View, queues: seq<seq<BusPacket>>, refreshWaiting: bool, refreshRank: nat)
    requires v.Shaped() && AllQueued(v.c, queues) && refreshRank < v.c.numRanks
  {
    && (refreshWaiting ==>
          && v.AnyOpen(refreshRank)
          && forall b | 0 <= b < v.c.numBanks :: !v.Closable(refreshRank, b))
    && (forall r | 0 <= r < v.c.numRanks :: v.Silent(queues[r]))
    && (forall r, b | 0 <= r < v.c.numRanks && 0 <= b < v.c.numBanks ::
          v.Wanted(queues[r], r, b) || !v.Closable(r, b))
  }
}
