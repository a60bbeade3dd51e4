/** When the scheduler is stuck: once all deadlines have passed, `pop` finds a command unless fences block
    every queue that has something in it. */
module Progress {
  import opened Dram
  import opened CommandQueueModel

  /** All ranks are in single-bank mode, no bank is between two states, every deadline has
      passed, and no limit on activations or row accesses is exhausted. */
  predicate AllClear(v: View)
    requires v.Shaped()
  {
    && (forall r | 0 <= r < v.c.numRanks :: v.modes[r] == SB && |v.activations[r]| < v.c.xaw)
    && (forall r, b | 0 <= r < v.c.numRanks && 0 <= b < v.c.numBanks ::
          BankClear(v.table[r][b], v.clock) && v.accesses[r][b] < v.c.totalRowAccesses)
  }

  predicate BankClear(b: BankState, clock: int) {
    && (b.currentBankState == Idle || b.currentBankState == RowActive)
    && b.nextRead <= clock && b.nextWrite <= clock && b.nextActivate <= clock && b.nextPrecharge <= clock
  }

  /** A limit that is reached holds commands of its kind back, whatever else lets them go. */
  lemma LimitsHold(v: View, p: BusPacket)
    requires v.Shaped() && v.InRange(p) && v.Issuable(p)
    ensures p.busPacketType == ACTIVATE ==> |v.activations[p.rank]| < v.c.xaw
    ensures p.busPacketType == READ || p.busPacketType == WRITE ==>
              v.accesses[p.rank][p.bank] < v.c.totalRowAccesses
  {
  }

  /** The entry would hit the open row of its bank. */
  predicate Hits(v: View, p: BusPacket)
    requires v.Shaped() && v.InRange(p)
  {
    var b := v.table[p.rank][p.bank];
    b.currentBankState == RowActive && p.row == b.openRowAddress
  }

  /** No fence stands before entry `i`. */
  predicate Unfenced(q: seq<BusPacket>, i: nat)
    requires i <= |q|
  {
    forall j | 0 <= j < i :: !q[j].barrier
  }

  /**
   * The fence at `f` blocks the queue of a rank: it wants the row that its bank has open and so keeps it open,
   * everything ahead of it wants other rows of that bank, and no other bank of the rank has a row open.
   */
  predicate Blocks(v: View, q: seq<BusPacket>, rank: nat, f: nat)
    requires v.Shaped() && rank < v.c.numRanks && v.QueueInRange(q)
  {
    && 0 < f < |q| && q[f].barrier && Unfenced(q, f) && Hits(v, q[f])
    && (forall i | 0 <= i < f :: q[i].bank == q[f].bank && q[i].row != q[f].row)
    && (forall b | 0 <= b < v.c.numBanks && b != q[f].bank :: v.table[rank][b].currentBankState != RowActive)
  }

  /** Nothing in the queue can be served, no row opened for it, and no row of the rank closed. */
  predicate AtRest(v: View, q: seq<BusPacket>, rank: nat)
    requires v.Shaped() && rank < v.c.numRanks && v.QueueInRange(q)
  {
    v.Silent(q) && forall b | 0 <= b < v.c.numBanks :: v.Wanted(q, rank, b) || !v.Closable(rank, b)
  }

  /** Of the entries that hit the open row of a bank, the first ahead of all fences can be served. */
  lemma {:induction false} FirstHitIsServed(v: View, q: seq<BusPacket>, rank: nat, bank: nat, i: nat) returns (k: nat)
    requires v.Shaped() && AllClear(v) && rank < v.c.numRanks && WellQueued(v.c, q, rank)
    requires v.QueueInRange(q) && i < |q| && Unfenced(q, i) && q[i].bank == bank && Hits(v, q[i])
    requires i == 0 || !q[i].barrier
    ensures k < |q| && v.Eligible(q, k)
  {
    if j :| 0 <= j < i && q[j].bank == bank && Hits(v, q[j]) {
      k := FirstHitIsServed(v, q, rank, bank, j);
    } else {
      k := i;
      assert BankClear(v.table[rank][bank], v.clock);
      assert v.Issuable(q[i]);
    }
  }

  /** Where nothing is served, a row is wanted by a fence behind the head, or not at all. */
  lemma OnlyFencesWant(v: View, q: seq<BusPacket>, rank: nat, bank: nat, i: nat)
    requires v.Shaped() && AllClear(v) && rank < v.c.numRanks && WellQueued(v.c, q, rank) && v.QueueInRange(q)
    requires v.Silent(q) && bank < v.c.numBanks && i < |q| && v.WantedBy(q, rank, bank, i)
    ensures i > 0 && q[i].barrier && Unfenced(q, i) && Hits(v, q[i])
  {
    if i == 0 || !q[i].barrier {
      var k := FirstHitIsServed(v, q, rank, bank, i);
    }
  }

  /** With nothing to serve or to open, every entry ahead of the fences has a row of its bank open. */
  lemma HeadsAreOpen(v: View, q: seq<BusPacket>, rank: nat, i: nat)
    requires v.Shaped() && AllClear(v) && rank < v.c.numRanks && WellQueued(v.c, q, rank) && v.QueueInRange(q)
    requires v.Silent(q) && i < |q| && (forall j | 0 < j <= i :: !q[j].barrier)
    ensures v.table[rank][q[i].bank].currentBankState == RowActive
  {
    assert BankClear(v.table[rank][q[i].bank], v.clock);
    if v.table[rank][q[i].bank].currentBankState == Idle {
      assert v.Opens(q, i);
    }
  }

  /** A rank at rest with something in its queue is blocked by a fence. */
  lemma RestIsBlocked(v: View, q: seq<BusPacket>, rank: nat) returns (f: nat)
    requires v.Shaped() && AllClear(v) && rank < v.c.numRanks && WellQueued(v.c, q, rank) && v.QueueInRange(q)
    requires AtRest(v, q, rank) && |q| > 0
    ensures Blocks(v, q, rank, f)
  {
    HeadsAreOpen(v, q, rank, 0);
    f := FenceFor(v, q, rank, q[0].bank);
    forall b | 0 <= b < v.c.numBanks && v.table[rank][b].currentBankState == RowActive
      ensures b == q[f].bank
    {
      var g := FenceFor(v, q, rank, b);
      assert g == f;
    }
    forall i | 0 <= i < f
      ensures q[i].bank == q[f].bank && q[i].row != q[f].row
    {
      HeadsAreOpen(v, q, rank, i);
      if q[i].row == q[f].row {
        var k := FirstHitIsServed(v, q, rank, q[f].bank, i);
      }
    }
  }

  /** The fence that keeps an open row open. */
  lemma FenceFor(v: View, q: seq<BusPacket>, rank: nat, bank: nat) returns (f: nat)
    requires v.Shaped() && AllClear(v) && rank < v.c.numRanks && WellQueued(v.c, q, rank) && v.QueueInRange(q)
    requires AtRest(v, q, rank) && bank < v.c.numBanks && v.table[rank][bank].currentBankState == RowActive
    ensures 0 < f < |q| && q[f].barrier && Unfenced(q, f) && Hits(v, q[f]) && q[f].bank == bank
  {
    assert BankClear(v.table[rank][bank], v.clock);
    assert v.Closable(rank, bank);
    f :| 0 <= f < |q| && v.WantedBy(q, rank, bank, f);
    OnlyFencesWant(v, q, rank, bank, f);
  }

  /** A blocked rank is at rest, whatever its deadlines. */
  lemma BlockedRests(v: View, q: seq<BusPacket>, rank: nat, f: nat)
    requires v.Shaped() && rank < v.c.numRanks && WellQueued(v.c, q, rank) && v.QueueInRange(q)
    requires Blocks(v, q, rank, f)
    ensures AtRest(v, q, rank)
  {
    assert v.WantedBy(q, rank, q[f].bank, f);
  }

  /** A rank is at rest if and only if a fence blocks its queue, or its queue is empty and its rows are closed. */
  predicate Resting(v: View, q: seq<BusPacket>, rank: nat)
    requires v.Shaped() && rank < v.c.numRanks && v.QueueInRange(q)
  {
    if |q| == 0 then !v.AnyOpen(rank) else exists f: nat | f < |q| :: Blocks(v, q, rank, f)
  }

  lemma RestsExactly(v: View, q: seq<BusPacket>, rank: nat)
    requires v.Shaped() && AllClear(v) && rank < v.c.numRanks && WellQueued(v.c, q, rank) && v.QueueInRange(q)
    ensures AtRest(v, q, rank) <==> Resting(v, q, rank)
  {
    if |q| == 0 {
      forall b | 0 <= b < v.c.numBanks
        ensures v.Closable(rank, b) <==> v.table[rank][b].currentBankState == RowActive
      {
        assert BankClear(v.table[rank][b], v.clock);
      }
    } else if AtRest(v, q, rank) {
      var f := RestIsBlocked(v, q, rank);
    } else if f: nat :| f < |q| && Blocks(v, q, rank, f) {
      BlockedRests(v, q, rank, f);
    }
  }

  /** A pending refresh is never stuck, with or without packets in the queues. */
  lemma RefreshMoves(v: View, queues: seq<seq<BusPacket>>, refreshRank: nat)
    requires v.Shaped() && AllClear(v) && AllQueued(v.c, queues) && refreshRank < v.c.numRanks
    ensures !Stuck(v, queues, true, refreshRank)
  {
    if v.AnyOpen(refreshRank) {
      var b :| 0 <= b < v.c.numBanks && v.table[refreshRank][b].currentBankState == RowActive;
      assert BankClear(v.table[refreshRank][b], v.clock);
      assert v.Closable(refreshRank, b);
    }
  }

  /** `pop` comes back empty-handed if and only if no refresh waits and every rank is blocked by a fence or
      has nothing to do. */
  lemma StuckExactly(v: View, queues: seq<seq<BusPacket>>, refreshWaiting: bool, refreshRank: nat)
    requires v.Shaped() && AllClear(v) && AllQueued(v.c, queues) && refreshRank < v.c.numRanks
    ensures (forall r | 0 <= r < v.c.numRanks :: v.QueueInRange(queues[r]))
    ensures Stuck(v, queues, refreshWaiting, refreshRank)
            <==> !refreshWaiting && forall r | 0 <= r < v.c.numRanks :: Resting(v, queues[r], r)
  {
    forall r | 0 <= r < v.c.numRanks
      ensures v.QueueInRange(queues[r])
    {
      assert WellQueued(v.c, queues[r], r);
    }
    if refreshWaiting {
      RefreshMoves(v, queues, refreshRank);
    } else {
      forall r | 0 <= r < v.c.numRanks
        ensures AtRest(v, queues[r], r) <==> Resting(v, queues[r], r)
      {
        RestsExactly(v, queues[r], r);
      }
    }
  }

  /** `pop` does not come back empty-handed while a packet waits that no fence blocks. */
  lemma NeverStuck(v: View, queues: seq<seq<BusPacket>>, refreshWaiting: bool, refreshRank: nat, rank: nat)
    requires v.Shaped() && AllClear(v) && AllQueued(v.c, queues) && refreshRank < v.c.numRanks
    requires rank < v.c.numRanks && |queues[rank]| > 0 && v.QueueInRange(queues[rank])
    requires !exists f: nat | f < |queues[rank]| :: Blocks(v, queues[rank], rank, f)
    ensures !Stuck(v, queues, refreshWaiting, refreshRank)
  {
    StuckExactly(v, queues, refreshWaiting, refreshRank);
  }
}
