/**
 * The sparse matrix-vector trace generator: rows are dealt out to banks by their nonzeros, and each row is
 * turned into index reads, gathers of x, multiply-accumulates, flushes of partial sums and a result write.
 */
module SpmvTraceModel {
  import opened Arithmetic
  import opened ClockDomainModel
  import opened Rounding

  const TOTAL_BANKS := 1024
  const BURST_ELEMS := 8
  const TILE_ELEMS := 128
  const BANK_BYTES := 0x100_0000

  // ----- rows to banks -----

  ghost predicate IsIndptr(indptr: seq<nat>) {
    |indptr| >= 1 && indptr[0] == 0 && forall i, j :: 0 <= i <= j < |indptr| ==> indptr[i] <= indptr[j]
  }

  function Nnz(indptr: seq<nat>): nat
    requires |indptr| >= 1
  {
    indptr[|indptr| - 1]
  }

  /** floor(prev / target) with target = nnz / TOTAL_BANKS, over exact fractions, capped at the last bank. */
  function BankOf(indptr: seq<nat>, row: nat): (b: nat)
    requires IsIndptr(indptr) && row + 1 < |indptr|
    ensures b < TOTAL_BANKS && (Nnz(indptr) == 0 ==> b == 0)
  {
    if Nnz(indptr) == 0 then 0
    else
      QuotientIsNatural(indptr[row] * TOTAL_BANKS, Nnz(indptr));
      var b := indptr[row] * TOTAL_BANKS / Nnz(indptr);
      if b < TOTAL_BANKS then b else TOTAL_BANKS - 1
  }

  lemma BanksDoNotDecrease(indptr: seq<nat>, r: nat, s: nat)
    requires IsIndptr(indptr) && r <= s && s + 1 < |indptr|
    ensures BankOf(indptr, r) <= BankOf(indptr, s)
  {
    var n := Nnz(indptr);
    if n > 0 {
      var a, b := indptr[r] * TOTAL_BANKS, indptr[s] * TOTAL_BANKS;
      assert a <= b;
      QuotientRange(b, n, b / n + 1);
      QuotientRange(a, n, b / n + 1);
    }
  }

  /** The nonzeros of the rows below `rows` that went to bank b. */
  function Load(indptr: seq<nat>, b: nat, rows: nat): nat
    requires IsIndptr(indptr) && rows < |indptr|
  {
    if rows == 0 then 0
    else Load(indptr, b, rows - 1) + if BankOf(indptr, rows - 1) == b then indptr[rows] - indptr[rows - 1] else 0
  }

  /** The row starts in its bank's share of the nonzeros, or past it in the last bank. */
  lemma StartsInShare(indptr: seq<nat>, row: nat, n: nat, b: nat)
    requires IsIndptr(indptr) && row + 1 < |indptr| && n == Nnz(indptr) > 0 && b == BankOf(indptr, row)
    ensures b * n <= indptr[row] * TOTAL_BANKS
    ensures b < TOTAL_BANKS - 1 ==> indptr[row] * TOTAL_BANKS < (b + 1) * n
  {
    QuotientRange(indptr[row] * TOTAL_BANKS, n, b);
    QuotientRange(indptr[row] * TOTAL_BANKS, n, b + 1);
  }

  /** What a bank holds fits between its share's beginning and the end of the rows. */
  lemma {:induction false} LoadFromShare(indptr: seq<nat>, b: nat, rows: nat, n: nat)
    requires IsIndptr(indptr) && rows < |indptr| && n == Nnz(indptr) > 0
    ensures Load(indptr, b, rows) > 0 ==> Load(indptr, b, rows) * TOTAL_BANKS + b * n <= indptr[rows] * TOTAL_BANKS
  {
    if rows > 0 {
      LoadFromShare(indptr, b, rows - 1, n);
      assert indptr[rows - 1] <= indptr[rows];
      if BankOf(indptr, rows - 1) == b { StartsInShare(indptr, rows - 1, n, b); }
    }
  }

  /** No bank gets more than an even share plus the largest row. */
  lemma {:induction false} BanksAreBalanced(indptr: seq<nat>, b: nat, rows: nat, largest: nat)
    requires IsIndptr(indptr) && rows < |indptr|
    requires forall r :: 0 <= r < |indptr| - 1 ==> indptr[r + 1] - indptr[r] <= largest
    ensures Load(indptr, b, rows) * 1024 <= Nnz(indptr) + largest * 1024
  {
    var n := Nnz(indptr);
    hide BankOf;
    if rows > 0 {
      assert indptr[rows - 1] <= indptr[rows] <= n && indptr[rows - 1 + 1] - indptr[rows - 1] <= largest;
      BanksAreBalanced(indptr, b, rows - 1, largest);
      if BankOf(indptr, rows - 1) == b && n > 0 {
        LoadFromShare(indptr, b, rows, n);
        StartsInShare(indptr, rows - 1, n, b);
        NextProduct(b, n);
        if b == TOTAL_BANKS - 1 { assert b * n == (TOTAL_BANKS - 1) * n; }
      }
    }
  }

  /** The number of a bank in memory order; n_channel 16, n_bank 4, n_bg 4, n_rank 2, n_pch 2. */
  function Position(bank: nat): nat {
    var ch, rest := bank % 16, bank / 16;
    var ba, rest1 := rest % 4, rest / 4;
    var bg, rest2 := rest1 % 4, rest1 / 4;
    var rank, pch := rest2 % 2, rest2 / 2;
    ch * 64 + pch * 32 + rank * 16 + bg * 4 + ba
  }

  /** Where a bank's memory begins. */
  function BankBase(bank: nat): nat {
    Position(bank) * BANK_BYTES
  }

  lemma PositionDigits(ch: nat, pch: nat, rank: nat, bg: nat, ba: nat)
    requires pch < 2 && rank < 2 && bg < 4 && ba < 4
    ensures var m := ch * 64 + pch * 32 + rank * 16 + bg * 4 + ba;
            m / 64 == ch && m % 64 / 32 == pch && m % 32 / 16 == rank && m % 16 / 4 == bg && m % 4 == ba
  {
    var m := ch * 64 + pch * 32 + rank * 16 + bg * 4 + ba;
    Quotient(m, 64, ch, pch * 32 + rank * 16 + bg * 4 + ba);
    Quotient(m, 32, ch * 2 + pch, rank * 16 + bg * 4 + ba);
    Quotient(m, 16, ch * 4 + pch * 2 + rank, bg * 4 + ba);
    Quotient(m, 4, ch * 16 + pch * 8 + rank * 4 + bg, ba);
  }

  /** The bank at a position in memory. */
  function BankAt(m: nat): nat {
    m / 64 + 16 * (m % 4 + 4 * (m % 16 / 4 + 4 * (m % 32 / 16 + 2 * (m % 64 / 32))))
  }

  lemma BankAtPosition(bank: nat)
    requires bank < TOTAL_BANKS
    ensures BankAt(Position(bank)) == bank
  {
    var rest := bank / 16;
    var rest1 := rest / 4;
    var rest2 := rest1 / 4;
    PositionDigits(bank % 16, rest2 / 2, rest2 % 2, rest1 % 4, rest % 4);
  }

  /** The banks' memories do not overlap. */
  /** The digits of a bank number, channel first, and the 16 MB block of memory that they name. */
  lemma BankBaseOf(ch: nat, ba: nat, bg: nat, rank: nat, pch: nat)
    requires ch < 16 && ba < 4 && bg < 4 && rank < 2 && pch < 2
    ensures BankBase(ch + 16 * ba + 64 * bg + 256 * rank + 512 * pch)
         == 0x4000_0000 * ch + 0x2000_0000 * pch + 0x1000_0000 * rank + 0x400_0000 * bg + 0x100_0000 * ba
  {
    var bank := ch + 16 * ba + 64 * bg + 256 * rank + 512 * pch;
    var rest := ba + 4 * bg + 16 * rank + 32 * pch;
    Quotient(bank, 16, rest, ch);
    Quotient(rest, 4, bg + 4 * rank + 8 * pch, ba);
    Quotient(bg + 4 * rank + 8 * pch, 4, rank + 2 * pch, bg);
    Quotient(rank + 2 * pch, 2, pch, rank);
  }

  lemma BanksAreApart(b: nat, c: nat)
    requires b < TOTAL_BANKS && c < TOTAL_BANKS && b != c
    ensures BankBase(b) + BANK_BYTES <= BankBase(c) || BankBase(c) + BANK_BYTES <= BankBase(b)
  {
    BankAtPosition(b);
    BankAtPosition(c);
    hide Position, BankAt;
    var p, q := Position(b), Position(c);
    if p < q { ScalesWeakly(p + 1, q, BANK_BYTES); } else { ScalesWeakly(q + 1, p, BANK_BYTES); }
  }

  // ----- the trace -----

  datatype Cmd =
    | IndexRead(bank: nat, index: nat)
    | GatherX(channel: nat, burst: nat)
    | Mac(bank: nat, index: nat)
    | Barrier(channel: nat)
    | Flush(bank: nat)
    | WriteY(bank: nat, row: nat)

  /** Counts over a trace; since counts the multiply-accumulates after the last flush, worst its maximum. */
  datatype Tally = Tally(indexReads: nat, gathers: nat, macs: nat, since: nat, worst: nat)

  function After(t: Tally, c: Cmd): Tally {
    match c
    case IndexRead(_, _) => t.(indexReads := t.indexReads + 1)
    case GatherX(_, _) => t.(gathers := t.gathers + 1)
    case Mac(_, _) =>
      t.(macs := t.macs + 1, since := t.since + 1, worst := if t.since + 1 > t.worst then t.since + 1 else t.worst)
    case Flush(_) => t.(since := 0)
    case _ => t
  }

  function TallyOf(trace: seq<Cmd>): Tally {
    if trace == [] then Tally(0, 0, 0, 0, 0) else After(TallyOf(trace[..|trace| - 1]), trace[|trace| - 1])
  }

  /** The value indices a bank's index reads name, in order. */
  function Indices(trace: seq<Cmd>, bank: nat): seq<nat> {
    if trace == [] then []
    else
      var last := trace[|trace| - 1];
      Indices(trace[..|trace| - 1], bank) + if last.IndexRead? && last.bank == bank then [last.index] else []
  }

  // ----- what the trace computes -----

  /** Clear: a barrier was the last command that counts. Flushed: a partial sum moved, and no barrier since. */
  datatype Fence = Clear(channel: nat) | Busy | Flushed

  /**
   * What a bank's unit has been through: the (bank, value index) pairs read since the last multiply-accumulate,
   * those accumulated since the last result write, the (channel, burst) pairs of x gathered since then, and for
   * every written row the values and the bursts that went into it. It is sound as long as every
   * multiply-accumulate names the first of at most lanePack values read for it, partial sums move between two
   * barriers of their channel and from the bank that holds them, and no row is written twice.
   */
  datatype Work = Work(chunk: seq<(nat, nat)>, sum: seq<(nat, nat)>, xs: set<(nat, nat)>,
                       values: map<nat, seq<(nat, nat)>>, bursts: map<nat, set<(nat, nat)>>, fence: Fence, sound: bool)

  const NO_WORK := Work([], [], {}, map[], map[], Busy, true)

  predicate HeldIn(sum: seq<(nat, nat)>, bank: nat) {
    sum != [] && sum[|sum| - 1].0 == bank
  }

  function Worked(lanePack: nat, w: Work, c: Cmd): Work {
    match c
    case IndexRead(b, i) => w.(chunk := w.chunk + [(b, i)], fence := Busy, sound := w.sound && w.fence != Flushed)
    case GatherX(ch, u) => w.(xs := w.xs + {(ch, u)}, fence := Busy, sound := w.sound && w.fence != Flushed)
    case Mac(b, i) =>
      w.(chunk := [], sum := w.sum + w.chunk, fence := Busy,
         sound := w.sound && w.fence != Flushed && 0 < |w.chunk| <= lanePack && w.chunk[0] == (b, i))
    case Barrier(ch) => w.(fence := Clear(ch))
    case Flush(b) =>
      w.(fence := Flushed, sound := w.sound && w.fence == Clear(b % 16) && w.chunk == [] && HeldIn(w.sum, b))
    case WriteY(b, r) =>
      w.(values := w.values[r := w.sum], bursts := w.bursts[r := w.xs], sum := [], xs := {},
         sound := w.sound && w.fence == Flushed && w.chunk == [] && HeldIn(w.sum, b) && r !in w.values)
  }

  function WorkOf(lanePack: nat, trace: seq<Cmd>): Work {
    if trace == [] then NO_WORK
    else Worked(lanePack, WorkOf(lanePack, trace[..|trace| - 1]), trace[|trace| - 1])
  }

  lemma Appended(lanePack: nat, trace: seq<Cmd>, c: Cmd)
    ensures TallyOf(trace + [c]) == After(TallyOf(trace), c)
    ensures forall b :: Indices(trace + [c], b) ==
                        Indices(trace, b) + if c.IndexRead? && c.bank == b then [c.index] else []
    ensures WorkOf(lanePack, trace + [c]) == Worked(lanePack, WorkOf(lanePack, trace), c)
  {
    assert (trace + [c])[..|trace|] == trace;
  }

  /** n values of a bank from the one with index `first` on. */
  function Reads(bank: nat, first: nat, n: nat): seq<(nat, nat)> {
    seq(n, i requires 0 <= i => (bank, first + i))
  }

  lemma ReadsJoin(bank: nat, first: nat, n: nat, m: nat)
    ensures Reads(bank, first, n) + Reads(bank, first + n, m) == Reads(bank, first, n + m)
    ensures Reads(bank, first, n) + [(bank, first + n)] == Reads(bank, first, n + 1)
  {
  }

  /** The burst of x that holds an element, in the bank's channel. */
  function BurstOf(bank: nat, col: nat): (nat, nat) {
    (bank % 16, col / BURST_ELEMS)
  }

  function BurstsOf(indices: seq<nat>, bank: nat, begin: nat, end: nat): set<(nat, nat)>
    requires begin <= end <= |indices|
  {
    set k | begin <= k < end :: BurstOf(bank, indices[k])
  }

  lemma SameSlotSameBurst(col: nat, other: nat)
    requires Slot(col) == Slot(other)
    ensures col / BURST_ELEMS == other / BURST_ELEMS
  {
    assert col / BURST_ELEMS == col / TILE_ELEMS * 16 + col % TILE_ELEMS / BURST_ELEMS;
    assert other / BURST_ELEMS == other / TILE_ELEMS * 16 + other % TILE_ELEMS / BURST_ELEMS;
  }

  /** Two columns share a slot when they lie in one burst of eight; a tile is sixteen of these. */
  lemma SlotsAreBursts(bank: nat, col: nat, other: nat)
    ensures Slot(col) == Slot(other) <==> col / 8 == other / 8
    ensures Slot(col).0 == col / 128 && BurstOf(bank, col) == (bank % 16, col / 8)
  {
    SameBurstSameSlot(col, other);
    if Slot(col) == Slot(other) { SameSlotSameBurst(col, other); }
  }

  lemma SameBurstSameSlot(col: nat, other: nat)
    ensures col / 8 == other / 8 ==> Slot(col) == Slot(other)
  {
    assert col / TILE_ELEMS == col / 8 / 16 && col % TILE_ELEMS / BURST_ELEMS == col / 8 % 16;
    assert other / TILE_ELEMS == other / 8 / 16 && other % TILE_ELEMS / BURST_ELEMS == other / 8 % 16;
  }

  function UpTo(n: nat): seq<nat> {
    seq(n, i => i)
  }

  /** The multiply-accumulates of the rows below `rows`, lanePack values each. */
  function MacsOf(indptr: seq<nat>, lanePack: nat, rows: nat): nat
    requires IsIndptr(indptr) && rows < |indptr| && lanePack > 0
  {
    if rows == 0 then 0
    else MacsOf(indptr, lanePack, rows - 1) + CeilingDiv(indptr[rows] - indptr[rows - 1], lanePack)
  }

  /** The place of an x element: its column tile and the burst within the tile. */
  function Slot(col: nat): (nat, nat) {
    (col / TILE_ELEMS, col % TILE_ELEMS / BURST_ELEMS)
  }

  /** The bursts of x that a stretch of a row needs. */
  function Slots(indices: seq<nat>, begin: nat, end: nat): set<(nat, nat)>
    requires begin <= end <= |indices|
  {
    set k | begin <= k < end :: Slot(indices[k])
  }

  /** The gathers of the rows below `rows` when a burst is loaded once a row. */
  function CachedGathers(indptr: seq<nat>, indices: seq<nat>, rows: nat): nat
    requires IsIndptr(indptr) && Nnz(indptr) == |indices| && rows < |indptr|
  {
    if rows == 0 then 0
    else CachedGathers(indptr, indices, rows - 1) + |Slots(indices, indptr[rows - 1], indptr[rows])|
  }

  class TraceGenerator {
    const lanePack: nat
    const macBatch: nat
    const cacheTile: bool
    const indptr: seq<nat>
    const indices: seq<nat>
    var trace: seq<Cmd>
    var valueCursor: seq<nat>

    ghost predicate Valid()
      reads this
    {
      && lanePack >= 1 && macBatch >= 1
      && IsIndptr(indptr) && Nnz(indptr) == |indices|
      && |valueCursor| == TOTAL_BANKS
      && forall b :: 0 <= b < TOTAL_BANKS ==> Indices(trace, b) == UpTo(valueCursor[b])
    }

    ghost function Counts(): Tally
      reads this
    {
      TallyOf(trace)
    }

    ghost function Done(): Work
      reads this
    {
      WorkOf(lanePack, trace)
    }

    /** Nothing is half done. */
    ghost predicate Settled()
      reads this
    {
      && Done().sound && Done().chunk == [] && Done().sum == [] && Done().xs == {} && Done().fence != Flushed
      && Counts().since == 0 && Counts().worst <= macBatch
    }

    /** The values and bursts that belong in the result of a row. */
    ghost predicate RowIsRight(r: nat)
      requires IsIndptr(indptr) && Nnz(indptr) == |indices| && r + 1 < |indptr|
      reads this
    {
      var bank := BankOf(indptr, r);
      && r in Done().values && r in Done().bursts
      && Done().values[r] == Reads(bank, Load(indptr, bank, r), indptr[r + 1] - indptr[r])
      && Done().bursts[r] == BurstsOf(indices, bank, indptr[r], indptr[r + 1])
    }

    /** The rows below `rows` that have a nonzero are written, with what belongs in them, and no others. */
    ghost predicate WrittenBelow(rows: nat)
      requires IsIndptr(indptr) && Nnz(indptr) == |indices| && rows < |indptr|
      reads this
    {
      && (forall r: nat :: r in Done().values ==> r < rows && indptr[r] < indptr[r + 1])
      && (forall r: nat :: r < rows && indptr[r] < indptr[r + 1] ==> RowIsRight(r))
    }

    constructor (indptr: seq<nat>, indices: seq<nat>, lanePack: nat, macBatch: nat, cacheTile: bool)
      requires lanePack >= 1 && macBatch >= 1 && IsIndptr(indptr) && Nnz(indptr) == |indices|
      ensures Valid() && trace == []
      ensures this.indptr == indptr && this.indices == indices
      ensures this.lanePack == lanePack && this.macBatch == macBatch && this.cacheTile == cacheTile
      ensures forall b :: 0 <= b < TOTAL_BANKS ==> valueCursor[b] == 0
    {
      this.indptr, this.indices := indptr, indices;
      this.lanePack, this.macBatch, this.cacheTile := lanePack, macBatch, cacheTile;
      trace := [];
      valueCursor := seq(TOTAL_BANKS, _ => 0);
    }

    method Emit(c: Cmd)
      requires !c.IndexRead?
      modifies this`trace
      ensures trace == old(trace) + [c] && Counts() == After(old(Counts()), c)
      ensures forall b :: Indices(trace, b) == old(Indices(trace, b))
      ensures Done() == Worked(lanePack, old(Done()), c)
    {
      Appended(lanePack, trace, c);
      trace := trace + [c];
    }

    /** The next value of a bank: its index is the bank's cursor. */
    method ReadIndex(bank: nat) returns (index: nat)
      requires Valid() && bank < TOTAL_BANKS
      modifies this`trace, this`valueCursor
      ensures Valid() && index == old(valueCursor[bank]) && Counts() == After(old(Counts()), IndexRead(bank, index))
      ensures valueCursor == old(valueCursor)[bank := index + 1]
      ensures Done() == Worked(lanePack, old(Done()), IndexRead(bank, index))
    {
      index := valueCursor[bank];
      Appended(lanePack, trace, IndexRead(bank, index));
      assert UpTo(index + 1) == UpTo(index) + [index];
      trace := trace + [IndexRead(bank, index)];
      valueCursor := valueCursor[bank := index + 1];
    }

    /** The x burst of a column, unless it is kept from an earlier column of the row. */
    method Gather(bank: nat, col: nat, loaded0: set<(nat, nat)>) returns (loaded: set<(nat, nat)>)
      requires Valid() && Done().fence == Busy
      requires Slot(col) in loaded0 ==> BurstOf(bank, col) in Done().xs
      modifies this`trace
      ensures Valid() && loaded == loaded0 + {Slot(col)}
      ensures var t, u := old(Counts()), Counts();
              && u == t.(gathers := u.gathers)
              && u.gathers == t.gathers + if cacheTile then |loaded| - |loaded0| else 1
      ensures Done() == old(Done()).(xs := old(Done()).xs + {BurstOf(bank, col)})
    {
      if !cacheTile || Slot(col) !in loaded0 {
        Emit(GatherX(bank % 16, col / BURST_ELEMS));
      } else {
        assert Done().xs == Done().xs + {BurstOf(bank, col)};
      }
      loaded := loaded0 + {Slot(col)};
      if Slot(col) in loaded0 { assert loaded == loaded0; }
    }

    /** One value: its index is read, and its x gathered unless it is there already. */
    method Value(bank: nat, ghost rowBegin: nat, pos: nat, loaded0: set<(nat, nat)>)
      returns (loaded: set<(nat, nat)>)
      requires Valid() && bank < TOTAL_BANKS && rowBegin <= pos < |indices| && loaded0 == Slots(indices, rowBegin, pos)
      requires Done().fence != Flushed && Done().xs == BurstsOf(indices, bank, rowBegin, pos)
      modifies this`trace, this`valueCursor
      ensures Valid() && loaded == Slots(indices, rowBegin, pos + 1)
      ensures valueCursor == old(valueCursor)[bank := old(valueCursor[bank]) + 1]
      ensures var t, u := old(Counts()), Counts();
              && u == t.(indexReads := t.indexReads + 1, gathers := u.gathers)
              && u.gathers == t.gathers + if cacheTile then |loaded| - |loaded0| else 1
      ensures Done() == old(Done()).(chunk := old(Done()).chunk + [(bank, old(valueCursor[bank]))], fence := Busy,
                                     xs := BurstsOf(indices, bank, rowBegin, pos + 1))
    {
      AnotherColumn(bank, rowBegin, pos);
      hide Slots, BurstsOf, Slot, BurstOf;
      var index := ReadIndex(bank);
      loaded := Gather(bank, indices[pos], loaded0);
    }

    /** The values of one chunk. */
    method Chunk(bank: nat, ghost rowBegin: nat, begin: nat, end: nat, loaded0: set<(nat, nat)>)
      returns (loaded: set<(nat, nat)>, first: nat)
      requires Valid() && bank < TOTAL_BANKS && rowBegin <= begin < end <= |indices|
      requires loaded0 == Slots(indices, rowBegin, begin)
      requires Done().fence != Flushed && Done().chunk == [] && Done().xs == BurstsOf(indices, bank, rowBegin, begin)
      modifies this`trace, this`valueCursor
      ensures Valid() && loaded == Slots(indices, rowBegin, end) && first == old(valueCursor[bank])
      ensures valueCursor == old(valueCursor)[bank := first + (end - begin)]
      ensures var t, u := old(Counts()), Counts();
              && u == t.(indexReads := t.indexReads + (end - begin), gathers := u.gathers)
              && u.gathers == t.gathers + if cacheTile then |loaded| - |loaded0| else end - begin
      ensures Done() == old(Done()).(chunk := Reads(bank, first, end - begin), fence := Busy,
                                     xs := BurstsOf(indices, bank, rowBegin, end))
    {
      assert Reads(bank, valueCursor[bank], 0) == [];
      hide Slots, BurstsOf, Slot, BurstOf, Reads;
      loaded := loaded0;
      first := valueCursor[bank];
      ghost var w, t := Done(), Counts();
      for pos := begin to end
        invariant Valid() && loaded == Slots(indices, rowBegin, pos)
        invariant valueCursor == old(valueCursor)[bank := first + (pos - begin)]
        invariant Counts() == t.(indexReads := t.indexReads + (pos - begin), gathers := Counts().gathers)
        invariant Counts().gathers == t.gathers + if cacheTile then |loaded| - |loaded0| else pos - begin
        invariant Done() == w.(chunk := Reads(bank, first, pos - begin),
                               fence := if pos == begin then w.fence else Busy,
                               xs := BurstsOf(indices, bank, rowBegin, pos))
      {
        loaded := Value(bank, rowBegin, pos, loaded);
        ReadsJoin(bank, first, pos - begin, 1);
      }
    }

    lemma AnotherColumn(bank: nat, rowBegin: nat, pos: nat)
      requires rowBegin <= pos < |indices|
      ensures Slot(indices[pos]) in Slots(indices, rowBegin, pos) ==>
                BurstOf(bank, indices[pos]) in BurstsOf(indices, bank, rowBegin, pos)
      ensures BurstsOf(indices, bank, rowBegin, pos + 1)
           == BurstsOf(indices, bank, rowBegin, pos) + {BurstOf(bank, indices[pos])}
      ensures Slots(indices, rowBegin, pos + 1) == Slots(indices, rowBegin, pos) + {Slot(indices[pos])}
    {
      if Slot(indices[pos]) in Slots(indices, rowBegin, pos) {
        var k :| rowBegin <= k < pos && Slot(indices[k]) == Slot(indices[pos]);
        SameSlotSameBurst(indices[k], indices[pos]);
        assert BurstOf(bank, indices[k]) == BurstOf(bank, indices[pos]);
      }
    }

    /** One row: its chunks, with a flush after every macBatch of them and after the last. */
    method Row(row: nat, bank: nat)
      requires Valid() && row + 1 < |indptr| && bank < TOTAL_BANKS && indptr[row] < indptr[row + 1]
      requires Settled() && row !in Done().values
      modifies this`trace, this`valueCursor
      ensures Valid() && Settled()
      ensures var t, u, n := old(Counts()), Counts(), indptr[row + 1] - indptr[row];
              && u.indexReads == t.indexReads + n
              && u.macs == t.macs + CeilingDiv(n, lanePack)
              && u.gathers == t.gathers + if cacheTile then |Slots(indices, indptr[row], indptr[row + 1])| else n
      ensures valueCursor == old(valueCursor)[bank := old(valueCursor[bank]) + (indptr[row + 1] - indptr[row])]
      ensures Written(old(Done()), row, bank, old(valueCursor[bank]))
    {
      var rowBegin, rowEnd := indptr[row], indptr[row + 1];
      var chunkBegin, macsInBatch := rowBegin, 0;
      var loaded: set<(nat, nat)> := {};
      ghost var chunks: nat, first, w, t := 0, valueCursor[bank], Done(), Counts();
      hide Slots, BurstsOf, Slot, BurstOf, Reads, CeilingDiv;
      NothingYet(bank, first, rowBegin);
      while chunkBegin < rowEnd
        invariant rowBegin <= chunkBegin < rowEnd + lanePack && chunkBegin == rowBegin + chunks * lanePack
        invariant Valid() && macsInBatch == Counts().since < macBatch && Counts().worst <= macBatch
        invariant chunkBegin >= rowEnd ==> macsInBatch == 0
        invariant loaded == Slots(indices, rowBegin, Min(chunkBegin, rowEnd))
        invariant Counts().indexReads == t.indexReads + (Min(chunkBegin, rowEnd) - rowBegin)
        invariant Counts().macs == t.macs + chunks
        invariant Counts().gathers == t.gathers + if cacheTile then |loaded| else Min(chunkBegin, rowEnd) - rowBegin
        invariant valueCursor == old(valueCursor)[bank := first + (Min(chunkBegin, rowEnd) - rowBegin)]
        invariant Between()
        invariant chunkBegin < rowEnd ==> Underway(w, bank, first, rowBegin, chunkBegin)
        invariant chunkBegin >= rowEnd ==> Written(w, row, bank, first)
        decreases rowEnd + lanePack - chunkBegin
      {
        var chunkEnd := Min(chunkBegin + lanePack, rowEnd);
        loaded, macsInBatch := Round(row, bank, chunkBegin, chunkEnd, loaded, macsInBatch, w, first);
        NextProduct(chunks, lanePack);
        chunks := chunks + 1;
        chunkBegin := chunkBegin + lanePack;
      }
      CeilingIs(rowEnd - rowBegin, lanePack, chunks);
    }

    lemma NothingYet(bank: nat, first: nat, rowBegin: nat)
      requires rowBegin <= |indices|
      ensures Reads(bank, first, 0) == []
      ensures BurstsOf(indices, bank, rowBegin, rowBegin) == {} && Slots(indices, rowBegin, rowBegin) == {}
    {
    }

    /** No chunk is half read, and no flush is without its second barrier. */
    ghost predicate Between()
      reads this
    {
      Done().sound && Done().fence != Flushed && Done().chunk == []
    }

    /** One chunk of a row: its values, its multiply-accumulate, and a flush when it is due. */
    method Round(row: nat, bank: nat, begin: nat, end: nat, loaded0: set<(nat, nat)>, macsInBatch0: nat,
                 ghost w: Work, ghost first: nat)
      returns (loaded: set<(nat, nat)>, macsInBatch: nat)
      requires Valid() && row + 1 < |indptr| && bank < TOTAL_BANKS && row !in w.values
      requires indptr[row] <= begin < end <= indptr[row + 1] && end <= begin + lanePack
      requires loaded0 == Slots(indices, indptr[row], begin) && macsInBatch0 == Counts().since < macBatch
      requires Counts().worst <= macBatch && valueCursor[bank] == first + (begin - indptr[row])
      requires Between() && Underway(w, bank, first, indptr[row], begin)
      modifies this`trace, this`valueCursor
      ensures Valid() && loaded == Slots(indices, indptr[row], end) && Between()
      ensures macsInBatch == Counts().since < macBatch && (end == indptr[row + 1] ==> macsInBatch == 0)
      ensures var t, u := old(Counts()), Counts();
              && u.indexReads == t.indexReads + (end - begin) && u.macs == t.macs + 1 && u.worst <= macBatch
              && u.gathers == t.gathers + if cacheTile then |loaded| - |loaded0| else end - begin
      ensures valueCursor == old(valueCursor)[bank := first + (end - indptr[row])]
      ensures if end < indptr[row + 1] then Underway(w, bank, first, indptr[row], end) else Written(w, row, bank, first)
    {
      ReadsHeld(bank, first, end - indptr[row]);
      hide Slots, BurstsOf, Slot, BurstOf, Reads, TallyOf, WorkOf, Indices, UpTo, HeldIn;
      loaded := Accumulate(row, bank, begin, end, loaded0, w, first);
      macsInBatch := FlushIfDue(row, bank, macsInBatch0 + 1, end >= indptr[row + 1]);
    }

    /** The values of a chunk go into the partial sum. */
    method Accumulate(ghost row: nat, bank: nat, begin: nat, end: nat, loaded0: set<(nat, nat)>,
                      ghost w: Work, ghost first: nat)
      returns (loaded: set<(nat, nat)>)
      requires Valid() && row + 1 < |indptr| && bank < TOTAL_BANKS
      requires indptr[row] <= begin < end <= indptr[row + 1] && end <= begin + lanePack
      requires loaded0 == Slots(indices, indptr[row], begin)
      requires valueCursor[bank] == first + (begin - indptr[row])
      requires Between() && Underway(w, bank, first, indptr[row], begin)
      modifies this`trace, this`valueCursor
      ensures Valid() && loaded == Slots(indices, indptr[row], end)
      ensures var t, u := old(Counts()), Counts();
              && u.indexReads == t.indexReads + (end - begin) && u.macs == t.macs + 1
              && u.since == t.since + 1 && u.worst == (if t.since + 1 > t.worst then t.since + 1 else t.worst)
              && u.gathers == t.gathers + if cacheTile then |loaded| - |loaded0| else end - begin
      ensures valueCursor == old(valueCursor)[bank := first + (end - indptr[row])]
      ensures Between() && Done().fence == Busy && Underway(w, bank, first, indptr[row], end)
    {
      var place;
      ReadsHeld(bank, valueCursor[bank], end - begin);
      ReadsJoin(bank, first, begin - indptr[row], end - begin);
      hide Slots, BurstsOf, Slot, BurstOf, Reads, TallyOf, WorkOf, Indices, UpTo;
      loaded, place := Chunk(bank, indptr[row], begin, end, loaded0);
      Emit(Mac(bank, place));
    }

    lemma ReadsHeld(bank: nat, first: nat, n: nat)
      requires n > 0
      ensures |Reads(bank, first, n)| == n && Reads(bank, first, n)[0] == (bank, first)
      ensures HeldIn(Reads(bank, first, n), bank)
    {
    }

    /** The columns of a row from rowBegin to pos have been worked off. */
    ghost predicate Underway(before: Work, bank: nat, first: nat, rowBegin: nat, pos: nat)
      requires rowBegin <= pos <= |indices|
      reads this
    {
      && Done().sum == Reads(bank, first, pos - rowBegin)
      && Done().xs == BurstsOf(indices, bank, rowBegin, pos)
      && Done().values == before.values && Done().bursts == before.bursts
    }

    /** The row has been written. */
    ghost predicate Written(before: Work, row: nat, bank: nat, first: nat)
      requires row + 1 < |indptr| && indptr[row] <= indptr[row + 1] <= |indices|
      reads this
    {
      && Done().sum == [] && Done().xs == {}
      && Done().values == before.values[row := Reads(bank, first, indptr[row + 1] - indptr[row])]
      && Done().bursts == before.bursts[row := BurstsOf(indices, bank, indptr[row], indptr[row + 1])]
    }

    /** A full batch or the end of the row moves the partial sum out; the end of the row writes the result. */
    method FlushIfDue(row: nat, bank: nat, macsInBatch0: nat, isLastChunk: bool) returns (macsInBatch: nat)
      requires Valid() && macsInBatch0 == Counts().since
      requires Done().sound && Done().fence == Busy && Done().chunk == [] && HeldIn(Done().sum, bank)
      requires row !in Done().values
      modifies this`trace
      ensures Valid() && macsInBatch == Counts().since
      ensures macsInBatch == if macsInBatch0 == macBatch || isLastChunk then 0 else macsInBatch0
      ensures Counts() == old(Counts()).(since := macsInBatch)
      ensures var w := old(Done()); var at := w.(fence := Done().fence);
              && Done().fence != Flushed
              && Done() == if isLastChunk then at.(values := w.values[row := w.sum], bursts := w.bursts[row := w.xs],
                                                   sum := [], xs := {})
                           else at
    {
      macsInBatch := macsInBatch0;
      if macsInBatch == macBatch || isLastChunk {
        Emit(Barrier(bank % 16));
        Emit(Flush(bank));
        if isLastChunk {
          Emit(WriteY(bank, row));
        }
        Emit(Barrier(bank % 16));
        macsInBatch := 0;
      }
    }

    method RowIfAny(row: nat)
      requires Valid() && row + 1 < |indptr| && Settled() && row !in Done().values
      modifies this`trace, this`valueCursor
      ensures Valid() && Settled()
      ensures var t, u, n := old(Counts()), Counts(), indptr[row + 1] - indptr[row];
              && u.indexReads == t.indexReads + n
              && u.macs == t.macs + CeilingDiv(n, lanePack)
              && u.gathers == t.gathers + if cacheTile then |Slots(indices, indptr[row], indptr[row + 1])| else n
      ensures var n, bank := indptr[row + 1] - indptr[row], BankOf(indptr, row);
              && valueCursor == old(valueCursor)[bank := old(valueCursor)[bank] + n]
              && if n == 0 then Done() == old(Done()) else Written(old(Done()), row, bank, old(valueCursor)[bank])
    {
      if indptr[row] < indptr[row + 1] {
        Row(row, BankOf(indptr, row));
      } else {
        CeilingIs(0, lanePack, 0);
      }
    }

    /**
     * The whole matrix: every row that has a nonzero is written once, with the sum of exactly its own values,
     * read from its own bank, and exactly the bursts of x that it needs; and no other row is. One index read per
     * nonzero, ceil(nnz / lanePack) multiply-accumulates a row, at most macBatch of them between flushes, and
     * every bank's values numbered from 0 without a gap.
     */
    method Generate()
      requires Valid() && trace == [] && forall b :: 0 <= b < TOTAL_BANKS ==> valueCursor[b] == 0
      modifies this`trace, this`valueCursor
      ensures Valid() && Settled() && WrittenBelow(|indptr| - 1)
      ensures forall b :: 0 <= b < TOTAL_BANKS ==> valueCursor[b] == Load(indptr, b, |indptr| - 1)
      ensures Counts().indexReads == |indices|
      ensures Counts().macs == MacsOf(indptr, lanePack, |indptr| - 1)
      ensures Counts().gathers == if cacheTile then CachedGathers(indptr, indices, |indptr| - 1) else |indices|
    {
      for row := 0 to |indptr| - 1
        invariant Valid() && Settled() && WrittenBelow(row)
        invariant forall b :: 0 <= b < TOTAL_BANKS ==> valueCursor[b] == Load(indptr, b, row)
        invariant Counts().indexReads == indptr[row] && Counts().macs == MacsOf(indptr, lanePack, row)
        invariant Counts().gathers == if cacheTile then CachedGathers(indptr, indices, row) else indptr[row]
      {
        label Before:
        RowIfAny(row);
        StillWritten@Before(row);
      }
    }

    twostate lemma StillWritten(row: nat)
      requires IsIndptr(indptr) && Nnz(indptr) == |indices| && row + 1 < |indptr| && old(WrittenBelow(row))
      requires var n, bank := indptr[row + 1] - indptr[row], BankOf(indptr, row);
               if n == 0 then Done() == old(Done()) else Written(old(Done()), row, bank, Load(indptr, bank, row))
      ensures WrittenBelow(row + 1)
    {
      forall r: nat | r < row + 1 && indptr[r] < indptr[r + 1]
        ensures RowIsRight(r)
      {
        if r < row { assert old(RowIsRight(r)); }
      }
    }
  }

  function Min(a: int, b: int): int {
    if a <= b then a else b
  }
}
