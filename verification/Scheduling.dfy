/** Out-of-order issue preserves the meaning of memory: fences hold, accesses to one cell stay
    in order, and every read sees what it would see if packets were issued as they arrived. */
module Scheduling {
  import opened Dram
  import opened CommandQueueModel
  import opened BankModel

  /** Two packets that must not overtake each other. */
  predicate Conflict(p: BusPacket, q: BusPacket) {
    SameCell(p, q) || p.barrier || q.barrier
  }

  /** The history of the queue of one rank. Packets are numbered in order of arrival; `waiting`
      and `issued` hold their numbers. */
  datatype History = History(arrivals: seq<BusPacket>, waiting: seq<nat>, issued: seq<nat>)

  datatype QueueEvent = Enqueued(p: BusPacket) | Issued(i: nat)

  function Packets(arrivals: seq<BusPacket>, ids: seq<nat>): (r: seq<BusPacket>)
    requires forall k | 0 <= k < |ids| :: ids[k] < |arrivals|
    ensures |r| == |ids|
  {
    seq(|ids|, k requires 0 <= k < |ids| => arrivals[ids[k]])
  }

  predicate Numbered(h: History) {
    && (forall k | 0 <= k < |h.waiting| :: h.waiting[k] < |h.arrivals|)
    && (forall k | 0 <= k < |h.issued| :: h.issued[k] < |h.arrivals|)
  }

  /** An entry is issued only where `pop` may take it from. */
  predicate Possible(h: History, e: QueueEvent)
    requires Numbered(h)
  {
    e.Issued? ==> e.i < |h.waiting| && Free(Packets(h.arrivals, h.waiting), e.i)
  }

  function Next(h: History, e: QueueEvent): (r: History)
    requires Numbered(h) && Possible(h, e)
    ensures Numbered(r)
  {
    match e
    case Enqueued(p) => h.(arrivals := h.arrivals + [p], waiting := h.waiting + [|h.arrivals|])
    case Issued(i) =>
      h.(waiting := h.waiting[..i] + h.waiting[i + 1..], issued := h.issued + [h.waiting[i]])
  }

  /** What a sequence of events leads to; None if one of them is not possible. */
  function Outcome(events: seq<QueueEvent>): (r: Option<History>)
    ensures r.Some? ==> Numbered(r.value)
  {
    if |events| == 0 then Some(History([], [], []))
    else
      var n := |events| - 1;
      match Outcome(events[..n])
      case None => None
      case Some(h) => if Possible(h, events[n]) then Some(Next(h, events[n])) else None
  }

  /**
   * A waiting packet may be issued if and only if no BAR packet waits before it, it is none itself unless it
   * waits first, and no packet that waits before it is for the same bank, row and column.
   */
  lemma OvertakesExactly(h: History, i: nat)
    requires Numbered(h)
    ensures Possible(h, Issued(i)) <==>
              && i < |h.waiting|
              && (i > 0 ==> !h.arrivals[h.waiting[i]].barrier)
              && forall j | 0 <= j < i ::
                   var p, q := h.arrivals[h.waiting[j]], h.arrivals[h.waiting[i]];
                   !p.barrier && (p.bank, p.row, p.column) != (q.bank, q.row, q.column)
  {
    if i < |h.waiting| {
      var q := Packets(h.arrivals, h.waiting);
      assert forall j | 0 <= j <= i :: q[j] == h.arrivals[h.waiting[j]];
    }
  }

  // ---------- order ----------

  /** Wherever `y` stands among the issued packets, `x` stands before it. */
  predicate Before(issued: seq<nat>, x: nat, y: nat) {
    forall j | 0 <= j < |issued| && issued[j] == y :: x in issued[..j]
  }

  predicate Distinct(s: seq<nat>) {
    forall i, j | 0 <= i < j < |s| :: s[i] != s[j]
  }

  predicate Increasing(s: seq<nat>) {
    forall i, j | 0 <= i < j < |s| :: s[i] < s[j]
  }

  /** Conflicting packets are issued in order of arrival. */
  predicate KeepsOrder(h: History)
    requires Numbered(h)
  {
    forall x, y | 0 <= x < y < |h.arrivals| && Conflict(h.arrivals[x], h.arrivals[y]) ::
      Before(h.issued, x, y)
  }

  predicate Sound(h: History) {
    && Numbered(h) && KeepsOrder(h)
    && Increasing(h.waiting) && Distinct(h.issued)
    && (forall k | 0 <= k < |h.issued| :: h.issued[k] !in h.waiting)
    && (forall x: nat | x < |h.arrivals| :: x in h.waiting || x in h.issued)
  }

  lemma EnqueueKeepsSound(h: History, p: BusPacket)
    requires Sound(h)
    ensures Sound(Next(h, Enqueued(p)))
  {
    var h' := Next(h, Enqueued(p));
    forall x, y | 0 <= x < y < |h'.arrivals| && Conflict(h'.arrivals[x], h'.arrivals[y])
      ensures Before(h'.issued, x, y)
    {
      if y < |h.arrivals| {
        assert Conflict(h.arrivals[x], h.arrivals[y]);
      }
    }
    forall x: nat | x < |h'.arrivals|
      ensures x in h'.waiting || x in h'.issued
    {
      if x == |h.arrivals| {
        assert h'.waiting[|h.waiting|] == x;
      } else if x in h.waiting {
        var k :| 0 <= k < |h.waiting| && h.waiting[k] == x;
        assert h'.waiting[k] == x;
      }
    }
  }

  lemma NothingAheadConflicts(h: History, i: nat, k: nat)
    requires Sound(h) && Possible(h, Issued(i)) && k < i
    ensures !Conflict(h.arrivals[h.waiting[k]], h.arrivals[h.waiting[i]])
  {
    var q := Packets(h.arrivals, h.waiting);
    assert q[k] == h.arrivals[h.waiting[k]] && q[i] == h.arrivals[h.waiting[i]];
  }

  /** A free entry conflicts with nothing that arrived earlier and still waits. */
  lemma FreeIsUnopposed(h: History, i: nat, x: nat)
    requires Sound(h) && Possible(h, Issued(i))
    requires x < h.waiting[i] && Conflict(h.arrivals[x], h.arrivals[h.waiting[i]])
    ensures x in h.issued
  {
    forall k | 0 <= k < |h.waiting|
      ensures h.waiting[k] != x
    {
      if k < i {
        NothingAheadConflicts(h, i, k);
      }
    }
  }

  lemma IssueKeepsOrder(h: History, i: nat)
    requires Sound(h) && Possible(h, Issued(i))
    ensures KeepsOrder(Next(h, Issued(i)))
  {
    var h' := Next(h, Issued(i));
    var n := |h.issued|;
    forall x, y | 0 <= x < y < |h'.arrivals| && Conflict(h'.arrivals[x], h'.arrivals[y])
      ensures Before(h'.issued, x, y)
    {
      assert Before(h.issued, x, y);
      forall j | 0 <= j < |h'.issued| && h'.issued[j] == y
        ensures x in h'.issued[..j]
      {
        if j < n {
          assert h'.issued[..j] == h.issued[..j];
        } else {
          FreeIsUnopposed(h, i, x);
          assert h'.issued[..n] == h.issued;
        }
      }
    }
  }

  lemma IssueLosesNothing(h: History, i: nat)
    requires Sound(h) && Possible(h, Issued(i))
    ensures var h' := Next(h, Issued(i));
            forall x: nat | x < |h'.arrivals| :: x in h'.waiting || x in h'.issued
  {
    var h' := Next(h, Issued(i));
    var n := |h.issued|;
    forall x: nat | x < |h'.arrivals|
      ensures x in h'.waiting || x in h'.issued
    {
      if x == h.waiting[i] {
        assert h'.issued[n] == x;
      } else if x in h.waiting {
        var k :| 0 <= k < |h.waiting| && h.waiting[k] == x;
        assert h'.waiting[if k < i then k else k - 1] == x;
      } else {
        var k :| 0 <= k < n && h.issued[k] == x;
        assert h'.issued[k] == x;
      }
    }
  }

  lemma IssueKeepsSound(h: History, i: nat)
    requires Sound(h) && Possible(h, Issued(i))
    ensures Sound(Next(h, Issued(i)))
  {
    IssueKeepsOrder(h, i);
    IssueLosesNothing(h, i);
    hide KeepsOrder, Free;
  }

  /** Over any run of the queue, conflicting packets are issued in order of arrival, and no
      packet is lost or issued twice. In particular a barrier is issued after everything that
      arrived before it and before everything that arrived after it. */
  lemma {:induction false} RunIsSound(events: seq<QueueEvent>)
    requires Outcome(events).Some?
    ensures Sound(Outcome(events).value)
  {
    if |events| > 0 {
      var n := |events| - 1;
      RunIsSound(events[..n]);
      var h := Outcome(events[..n]).value;
      match events[n] {
        case Enqueued(p) => EnqueueKeepsSound(h, p);
        case Issued(i) => IssueKeepsSound(h, i);
      }
    }
  }

  lemma {:induction false} NothingIsLost(events: seq<QueueEvent>)
    requires Outcome(events).Some?
    ensures var h := Outcome(events).value; |h.arrivals| == |h.waiting| + |h.issued|
  {
    if |events| > 0 {
      NothingIsLost(events[..|events| - 1]);
    }
  }

  /** The other way round: of two conflicting packets, the one issued first arrived first. */
  lemma IssuedFirstArrivedFirst(h: History, i: nat, k: nat)
    requires Sound(h) && i < k < |h.issued|
    requires Conflict(h.arrivals[h.issued[i]], h.arrivals[h.issued[k]])
    ensures h.issued[i] < h.issued[k]
  {
    var x, y := h.issued[k], h.issued[i];
    assert x !in h.issued[..i];
    assert !Before(h.issued, x, y);
  }

  lemma BarrierIsAFence(events: seq<QueueEvent>, b: nat, x: nat)
    requires Outcome(events).Some?
    requires var h := Outcome(events).value; b < |h.arrivals| && x < |h.arrivals| && h.arrivals[b].barrier
    ensures var h := Outcome(events).value;
            && (x < b ==> Before(h.issued, x, b))
            && (b < x ==> Before(h.issued, b, x))
  {
    RunIsSound(events);
    var h := Outcome(events).value;
    if x < b {
      assert Conflict(h.arrivals[x], h.arrivals[b]);
    } else if b < x {
      assert Conflict(h.arrivals[b], h.arrivals[x]);
    }
  }

  // ---------- meaning ----------

  datatype Cell = Cell(bank: nat, row: nat, column: nat)

  function CellOf(p: BusPacket): Cell {
    Cell(p.bank, p.row, p.column)
  }

  type Memory = map<Cell, Burst>

  /** Writes to reserved rows never reach the banks. */
  function Executed(m: Memory, p: BusPacket): Memory {
    if p.busPacketType == WRITE && !IsReservedRow(p.row) then m[CellOf(p) := p.data] else m
  }

  /** The data a read gets; its buffer is left alone when the cell was never written. */
  function ValueRead(m: Memory, p: BusPacket): Burst {
    if CellOf(p) in m then m[CellOf(p)] else p.data
  }

  /** The contents of the banks after the packets with these numbers, in this order. */
  function Replay(arrivals: seq<BusPacket>, order: seq<nat>): Memory
    requires forall k | 0 <= k < |order| :: order[k] < |arrivals|
  {
    if |order| == 0 then map[]
    else
      var n := |order| - 1;
      Executed(Replay(arrivals, order[..n]), arrivals[order[n]])
  }

  /** The contents of the banks after these packets. */
  function Contents(ps: seq<BusPacket>): Memory {
    if ps == [] then map[] else Executed(Contents(ps[..|ps| - 1]), ps[|ps| - 1])
  }

  lemma {:induction false} ReplayIsContents(arrivals: seq<BusPacket>, order: seq<nat>)
    requires forall k | 0 <= k < |order| :: order[k] < |arrivals|
    ensures Replay(arrivals, order) == Contents(Packets(arrivals, order))
  {
    if |order| > 0 {
      var n := |order| - 1;
      ReplayIsContents(arrivals, order[..n]);
      assert Packets(arrivals, order)[..n] == Packets(arrivals, order[..n]);
    }
  }

  predicate Writes(p: BusPacket, cell: Cell) {
    p.busPacketType == WRITE && !IsReservedRow(p.row) && CellOf(p) == cell
  }

  /** A cell holds the data of the last write to it. */
  lemma {:induction false} ReplayHasLastWrite(arrivals: seq<BusPacket>, order: seq<nat>, cell: Cell, k: nat)
    requires forall i | 0 <= i < |order| :: order[i] < |arrivals|
    requires k < |order| && Writes(arrivals[order[k]], cell)
    requires forall i | k < i < |order| :: !Writes(arrivals[order[i]], cell)
    ensures cell in Replay(arrivals, order) && Replay(arrivals, order)[cell] == arrivals[order[k]].data
  {
    var n := |order| - 1;
    if k < n {
      ReplayHasLastWrite(arrivals, order[..n], cell, k);
    }
  }

  lemma {:induction false} ReplayWithoutWrite(arrivals: seq<BusPacket>, order: seq<nat>, cell: Cell)
    requires forall i | 0 <= i < |order| :: order[i] < |arrivals|
    requires forall i | 0 <= i < |order| :: !Writes(arrivals[order[i]], cell)
    ensures cell !in Replay(arrivals, order)
  {
    if |order| > 0 {
      ReplayWithoutWrite(arrivals, order[..|order| - 1], cell);
    }
  }

  /** The numbers below `n`, in order of arrival. */
  function FirstIn(n: nat): (r: seq<nat>)
    ensures |r| == n && forall k | 0 <= k < n :: r[k] == k
  {
    seq(n, k => k)
  }

  /** The last packet before `n` that writes the cell; `n` if there is none. */
  function LastWriter(arrivals: seq<BusPacket>, cell: Cell, n: nat): (w: nat)
    requires n <= |arrivals|
    ensures w <= n
    ensures w < n ==> Writes(arrivals[w], cell) && forall x | w < x < n :: !Writes(arrivals[x], cell)
    ensures w == n ==> forall x | 0 <= x < n :: !Writes(arrivals[x], cell)
  {
    if n == 0 then 0
    else if Writes(arrivals[n - 1], cell) then n - 1
    else
      var w := LastWriter(arrivals, cell, n - 1);
      if w == n - 1 then n else w
  }

  /** A part of the issue order in which the writes to a cell are those of the first `n` arrivals,
      in order, leaves the cell as a replay of those arrivals does. */
  lemma SameCellContents(h: History, prefix: seq<nat>, cell: Cell, n: nat)
    requires Sound(h) && prefix <= h.issued && n <= |h.arrivals|
    requires forall x | 0 <= x < n && Writes(h.arrivals[x], cell) :: x in prefix
    requires forall k | 0 <= k < |prefix| && Writes(h.arrivals[prefix[k]], cell) :: prefix[k] < n
    ensures cell in Replay(h.arrivals, prefix) <==> cell in Replay(h.arrivals, FirstIn(n))
    ensures cell in Replay(h.arrivals, prefix) ==>
              Replay(h.arrivals, prefix)[cell] == Replay(h.arrivals, FirstIn(n))[cell]
  {
    var w := LastWriter(h.arrivals, cell, n);
    if w == n {
      ReplayWithoutWrite(h.arrivals, prefix, cell);
      ReplayWithoutWrite(h.arrivals, FirstIn(n), cell);
    } else {
      ReplayHasLastWrite(h.arrivals, FirstIn(n), cell, w);
      var i :| 0 <= i < |prefix| && prefix[i] == w;
      forall k | i < k < |prefix|
        ensures !Writes(h.arrivals[prefix[k]], cell)
      {
        assert h.issued[k] == prefix[k] && h.issued[i] == w;
        if Writes(h.arrivals[prefix[k]], cell) {
          IssuedFirstArrivedFirst(h, i, k);
        }
      }
      ReplayHasLastWrite(h.arrivals, prefix, cell, i);
    }
  }

  /** Every read gets the data that it would get if all packets were executed in order of
      arrival, whatever order the scheduler has chosen. */
  lemma ReadsAsInFifo(events: seq<QueueEvent>, j: nat)
    requires Outcome(events).Some? && j < |Outcome(events).value.issued|
    ensures var h := Outcome(events).value;
            var y := h.issued[j];
            ValueRead(Replay(h.arrivals, h.issued[..j]), h.arrivals[y])
            == ValueRead(Replay(h.arrivals, FirstIn(y)), h.arrivals[y])
  {
    RunIsSound(events);
    hide Outcome;
    ReadsInOrder(Outcome(events).value, j);
  }

  lemma ReadsInOrder(h: History, j: nat)
    requires Sound(h) && j < |h.issued|
    ensures var y := h.issued[j];
            ValueRead(Replay(h.arrivals, h.issued[..j]), h.arrivals[y])
            == ValueRead(Replay(h.arrivals, FirstIn(y)), h.arrivals[y])
  {
    var y := h.issued[j];
    var cell := CellOf(h.arrivals[y]);
    WritesAreOrdered(h, j, cell);
    hide Sound, Replay, FirstIn, Writes;
    SameCellContents(h, h.issued[..j], cell, y);
  }

  /** When a packet is issued, exactly those earlier writes to its cell are out that arrived before it. */
  lemma WritesAreOrdered(h: History, j: nat, cell: Cell)
    requires Sound(h) && j < |h.issued| && cell == CellOf(h.arrivals[h.issued[j]])
    ensures forall x | 0 <= x < h.issued[j] && Writes(h.arrivals[x], cell) :: x in h.issued[..j]
    ensures forall k | 0 <= k < j && Writes(h.arrivals[h.issued[k]], cell) :: h.issued[k] < h.issued[j]
  {
    var y := h.issued[j];
    forall x | 0 <= x < y && Writes(h.arrivals[x], cell)
      ensures x in h.issued[..j]
    {
      assert Conflict(h.arrivals[x], h.arrivals[y]);
    }
    forall k | 0 <= k < j && Writes(h.arrivals[h.issued[k]], cell)
      ensures h.issued[k] < y
    {
      IssuedFirstArrivedFirst(h, k, j);
    }
  }

  /** Once the queue is empty, the banks hold what execution in order of arrival leaves. */
  lemma DrainedAsInFifo(events: seq<QueueEvent>)
    requires Outcome(events).Some? && |Outcome(events).value.waiting| == 0
    ensures var h := Outcome(events).value;
            Replay(h.arrivals, h.issued) == Replay(h.arrivals, FirstIn(|h.arrivals|))
  {
    RunIsSound(events);
    var h := Outcome(events).value;
    forall cell: Cell
      ensures cell in Replay(h.arrivals, h.issued) <==> cell in Replay(h.arrivals, FirstIn(|h.arrivals|))
      ensures cell in Replay(h.arrivals, h.issued) ==>
                Replay(h.arrivals, h.issued)[cell] == Replay(h.arrivals, FirstIn(|h.arrivals|))[cell]
    {
      SameCellContents(h, h.issued, cell, |h.arrivals|);
    }
  }

  // ---------- the linked lists ----------

  /** The lists of bank `number` hold exactly what `m` says about its cells. */
  ghost predicate Stores(bank: Bank, number: nat, m: Memory)
    requires bank.Valid()
    reads bank, bank.nodes
  {
    forall c: nat, r: nat | c < bank.numCols ::
      bank.At(c, r) == if Cell(number, r, c) in m then Some(m[Cell(number, r, c)]) else None
  }

  /** The packet is a read of an ordinary row of bank `number`. */
  predicate ReadsBank(p: BusPacket, number: nat) {
    p.bank == number && p.busPacketType == READ && !IsReservedRow(p.row)
  }

  /** The reads of bank `number` among the first |got| issued packets got what they get in order of arrival. */
  predicate GotAsInFifo(arrivals: seq<BusPacket>, issued: seq<nat>, number: nat, got: seq<Burst>)
    requires |got| <= |issued| && forall i | 0 <= i < |issued| :: issued[i] < |arrivals|
  {
    forall j | 0 <= j < |got| && ReadsBank(arrivals[issued[j]], number) ::
      got[j] == ValueRead(Replay(arrivals, FirstIn(issued[j])), arrivals[issued[j]])
  }

  /**
   * The packets of one rank's queue reach the lists of bank `number` in the order in which they are
   * issued, and every read of it gets what a bank would hold if they came as they arrived.
   */
  method ServeBank(bank: Bank, number: nat, arrivals: seq<BusPacket>, issued: seq<nat>, ghost events: seq<QueueEvent>)
    returns (got: seq<Burst>)
    requires bank.Valid() && Stores(bank, number, map[])
    requires forall p | p in arrivals :: p.column < bank.numCols
    requires Outcome(events).Some?
    requires Outcome(events).value.arrivals == arrivals && Outcome(events).value.issued == issued
    modifies bank, bank.nodes
    ensures bank.Valid() && Stores(bank, number, Replay(arrivals, issued))
    ensures |got| == |issued| && GotAsInFifo(arrivals, issued, number, got)
  {
    got := [];
    ghost var m: Memory := map[];
    for k := 0 to |issued|
      invariant bank.Valid() && fresh(bank.nodes - old(bank.nodes)) && |got| == k
      invariant m == Replay(arrivals, issued[..k]) && Stores(bank, number, m)
      invariant GotAsInFifo(arrivals, issued, number, got)
    {
      var p := arrivals[issued[k]];
      var data := ServePacket(bank, number, p, m);
      OneMoreInReplay(arrivals, issued, k);
      OneMoreRead(events, number, got, data);
      m := Executed(m, p);
      got := got + [data];
    }
    assert issued[..|issued|] == issued;
  }

  lemma OneMoreRead(events: seq<QueueEvent>, number: nat, got: seq<Burst>, data: Burst)
    requires Outcome(events).Some?
    requires var h := Outcome(events).value;
             && |got| < |h.issued| && GotAsInFifo(h.arrivals, h.issued, number, got)
             && var p := h.arrivals[h.issued[|got|]];
             ReadsBank(p, number) ==> data == ValueRead(Replay(h.arrivals, h.issued[..|got|]), p)
    ensures var h := Outcome(events).value; GotAsInFifo(h.arrivals, h.issued, number, got + [data])
  {
    ReadsAsInFifo(events, |got|);
  }

  lemma OneMoreInReplay(arrivals: seq<BusPacket>, order: seq<nat>, k: nat)
    requires k < |order| && forall i | 0 <= i < |order| :: order[i] < |arrivals|
    ensures Replay(arrivals, order[..k + 1]) == Executed(Replay(arrivals, order[..k]), arrivals[order[k]])
    ensures Replay(arrivals, order[..0]) == map[]
  {
    assert order[..k + 1][..k] == order[..k];
  }

  /** One packet; those for other banks and for reserved rows pass by. */
  method ServePacket(bank: Bank, number: nat, p: BusPacket, ghost m: Memory) returns (data: Burst)
    requires bank.Valid() && Stores(bank, number, m) && p.column < bank.numCols
    modifies bank, bank.nodes
    ensures bank.Valid() && fresh(bank.nodes - old(bank.nodes)) && Stores(bank, number, Executed(m, p))
    ensures ReadsBank(p, number) ==> data == ValueRead(m, p)
  {
    data := p.data;
    if p.bank == number && !IsReservedRow(p.row) {
      if p.busPacketType == WRITE {
        var ok := bank.Write(p);
      } else if p.busPacketType == READ {
        data := bank.Read(p);
      }
    }
  }
}
