/**
 * The eleven address-mapping schemes. Each takes fields off the low end of the address one after another;
 * for a power-of-two geometry each is proved to be a bijection between addresses and places in the device.
 */
module AddressMappingModel {
  import opened Arithmetic
  import opened Dram
  import opened Rounding

  // ----- taking fields off an address -----

  /** diffBitWidth: what the shift drops is the difference between the address and itself with the bits cleared. */
  method DiffBitWidth(address: nat, bits: nat) returns (low: nat, rest: nat)
    ensures rest == ShiftRight(address, bits) && low == address % Pow2(bits)
  {
    Division(address, Pow2(bits));
    rest := ShiftRight(address, bits);
    var cleared := rest * Pow2(bits);
    low := address - cleared;
  }

  /** uLog2: the least number of bits that can count up to the value. */
  method ULog2(value0: nat) returns (logBase2: nat)
    ensures value0 <= Pow2(logBase2) && (logBase2 > 0 ==> Pow2(logBase2 - 1) < value0)
  {
    logBase2 := 0;
    var value := value0 / 2;
    while value > 0
      invariant value0 > 0 ==> value * Pow2(logBase2 + 1) <= value0 < (value + 1) * Pow2(logBase2 + 1)
      invariant value0 > 0 ==> Pow2(logBase2) <= value0
      invariant value0 == 0 ==> value == 0 && logBase2 == 0
    {
      Halve(value, value0, logBase2);
      value := value / 2;
      logBase2 := logBase2 + 1;
    }
    if Pow2(logBase2) < value0 {
      logBase2 := logBase2 + 1;
    } else if logBase2 > 0 {
      assert Pow2(logBase2) == 2 * Pow2(logBase2 - 1);
    }
  }

  lemma Halve(value: nat, value0: nat, k: nat)
    requires value > 0 && value * Pow2(k + 1) <= value0 < (value + 1) * Pow2(k + 1)
    ensures value / 2 * Pow2(k + 2) <= value0 < (value / 2 + 1) * Pow2(k + 2)
    ensures Pow2(k + 1) <= value0
  {
    HalvedProduct(value, value / 2, Pow2(k + 1));
    ScalesWeakly(1, value, Pow2(k + 1));
  }

  lemma HalvedProduct(v: nat, h: nat, p: nat)
    requires 2 * h <= v <= 2 * h + 1
    ensures h * (2 * p) <= v * p && (v + 1) * p <= (h + 1) * (2 * p)
  {
    Regroup(h, 2, p);
    Regroup(h + 1, 2, p);
    ScalesWeakly(2 * h, v, p);
    ScalesWeakly(v + 1, 2 * h + 2, p);
  }

  /** A power of two is its own logarithm's power. */
  lemma Log2OfPower(n: nat, k: nat)
    requires Pow2(n) <= Pow2(k) && (k > 0 ==> Pow2(k - 1) < Pow2(n))
    ensures k == n
  {
    if k < n { Pow2Grows(k + 1, n); } else if n < k { Pow2Grows(n, k - 1); }
  }

  // ----- mixed radix -----

  function Digits(widths: seq<nat>, a: nat): (ds: seq<nat>)
    ensures |ds| == |widths|
  {
    if widths == [] then []
    else
      Division(a, Pow2(widths[0]));
      [a % Pow2(widths[0])] + Digits(widths[1..], ShiftRight(a, widths[0]))
  }

  lemma Division(a: nat, d: nat)
    requires d > 0
    ensures a == d * (a / d) + a % d && 0 <= a % d < d && a / d >= 0
  {
  }

  function Join(widths: seq<nat>, ds: seq<nat>): nat
    requires |ds| == |widths|
  {
    if widths == [] then 0 else ds[0] + Pow2(widths[0]) * Join(widths[1..], ds[1..])
  }

  predicate InRange(widths: seq<nat>, ds: seq<nat>) {
    |ds| == |widths| && forall i :: 0 <= i < |ds| ==> ds[i] < Pow2(widths[i])
  }

  function Total(widths: seq<nat>): nat {
    if widths == [] then 0 else widths[0] + Total(widths[1..])
  }

  lemma {:induction false} DigitsInRange(widths: seq<nat>, a: nat)
    ensures InRange(widths, Digits(widths, a))
  {
    if widths != [] {
      DigitsInRange(widths[1..], ShiftRight(a, widths[0]));
      Division(a, Pow2(widths[0]));
    }
  }

  lemma {:induction false} JoinDigits(widths: seq<nat>, a: nat)
    requires a < Pow2(Total(widths))
    ensures Join(widths, Digits(widths, a)) == a
  {
    if widths != [] {
      var w := widths[0];
      Division(a, Pow2(w));
      Pow2Adds(w, Total(widths[1..]));
      Commute(Pow2(w), Pow2(Total(widths[1..])));
      QuotientRange(a, Pow2(w), Pow2(Total(widths[1..])));
      JoinDigits(widths[1..], ShiftRight(a, w));
    }
  }

  lemma {:induction false} DigitsJoin(widths: seq<nat>, ds: seq<nat>)
    requires InRange(widths, ds)
    ensures Digits(widths, Join(widths, ds)) == ds && Join(widths, ds) < Pow2(Total(widths))
  {
    if widths == [] {
      assert ds == [];
    } else {
      var w, rest := widths[0], Join(widths[1..], ds[1..]);
      assert InRange(widths[1..], ds[1..]);
      DigitsJoin(widths[1..], ds[1..]);
      Commute(rest, Pow2(w));
      Quotient(Join(widths, ds), Pow2(w), rest, ds[0]);
      Pow2Adds(w, Total(widths[1..]));
      ScalesWeakly(rest + 1, Pow2(Total(widths[1..])), Pow2(w));
      Distributes(Pow2(w), rest, 1);
      assert ds == [ds[0]] + ds[1..];
    }
  }

  // ----- schemes -----

  datatype Field = Chan | Rank | Bank | BankLow | BankGroup | Row | Col

  /** The fields from the low end of the address up. */
  function Order(scheme: nat): seq<Field>
    requires 1 <= scheme <= 11
  {
    if scheme == 1 then [Bank, Col, Row, Rank, Chan]
    else if scheme == 2 then [Rank, Bank, Col, Row, Chan]
    else if scheme == 3 then [Row, Col, Bank, Rank, Chan]
    else if scheme == 4 then [Col, Row, Bank, Rank, Chan]
    else if scheme == 5 then [Bank, Rank, Col, Row, Chan]
    else if scheme == 6 then [Col, Rank, Bank, Row, Chan]
    else if scheme == 7 then [Chan, Bank, Rank, Col, Row]
    else if scheme == 8 then [Chan, BankLow, BankGroup, Col, Row, Rank]
    else if scheme == 9 then [Chan, Col, BankLow, BankGroup, Row, Rank]
    else if scheme == 10 then [BankLow, BankGroup, Chan, Col, Row, Rank]
    else [Chan, BankLow, BankGroup, Row, Col, Rank]
  }

  datatype Place = Place(chan: nat, rank: nat, bank: nat, row: nat, col: nat)

  /** The bit widths of a power-of-two geometry. */
  datatype Geometry = Geometry(chan: nat, rank: nat, bank: nat, bankgroup: nat, row: nat, colHigh: nat,
                               colLow: nat, byteOffset: nat)
  {
    predicate Valid() { bankgroup <= bank }

    function Width(f: Field): nat
      requires Valid()
    {
      match f
      case Chan => chan
      case Rank => rank
      case Bank => bank
      case BankLow => bank - bankgroup
      case BankGroup => bankgroup
      case Row => row
      case Col => colHigh
    }

    function Widths(order: seq<Field>): (ws: seq<nat>)
      requires Valid()
      ensures |ws| == |order|
    {
      seq(|order|, i requires 0 <= i < |order| => Width(order[i]))
    }

    function TransactionSize(): nat { Pow2(byteOffset + colLow) }

    function Capacity(): nat {
      Pow2(byteOffset + colLow) * Pow2(chan + rank + bank + row + colHigh)
    }

    predicate Holds(p: Place) {
      p.chan < Pow2(chan) && p.rank < Pow2(rank) && p.bank < Pow2(bank) && p.row < Pow2(row) && p.col < Pow2(colHigh)
    }
  }

  /** The digit of a field, zero if the order does not have it. */
  function ValueOf(order: seq<Field>, ds: seq<nat>, f: Field): nat
    requires |order| == |ds|
  {
    if order == [] then 0 else if order[0] == f then ds[0] else ValueOf(order[1..], ds[1..], f)
  }

  function Gathered(g: Geometry, order: seq<Field>, ds: seq<nat>): Place
    requires |order| == |ds| && g.Valid()
  {
    Place(ValueOf(order, ds, Chan), ValueOf(order, ds, Rank),
          if Bank in order then ValueOf(order, ds, Bank)
          else ValueOf(order, ds, BankLow) + ValueOf(order, ds, BankGroup) * Pow2(g.bank - g.bankgroup),
          ValueOf(order, ds, Row), ValueOf(order, ds, Col))
  }

  function DigitOf(g: Geometry, p: Place, f: Field): nat
    requires g.Valid()
  {
    match f
    case Chan => p.chan
    case Rank => p.rank
    case Bank => p.bank
    case BankLow => Division(p.bank, Pow2(g.bank - g.bankgroup)); p.bank % Pow2(g.bank - g.bankgroup)
    case BankGroup => ShiftRight(p.bank, g.bank - g.bankgroup)
    case Row => p.row
    case Col => p.col
  }

  function DigitsOf(g: Geometry, order: seq<Field>, p: Place): (ds: seq<nat>)
    requires g.Valid()
    ensures |ds| == |order|
  {
    seq(|order|, i requires 0 <= i < |order| => DigitOf(g, p, order[i]))
  }

  /** Where an address lies. */
  function Mapped(g: Geometry, scheme: nat, address: nat): Place
    requires g.Valid() && 1 <= scheme <= 11
  {
    var order := Order(scheme);
    Gathered(g, order, Digits(g.Widths(order), ShiftRight(ShiftRight(address, g.byteOffset), g.colLow)))
  }

  /** The aligned address of a place. */
  function Unmapped(g: Geometry, scheme: nat, p: Place): nat
    requires g.Valid() && 1 <= scheme <= 11
  {
    Join(g.Widths(Order(scheme)), DigitsOf(g, Order(scheme), p)) * g.TransactionSize()
  }

  // ----- what makes an order a bijection -----

  predicate Distinct(order: seq<Field>) {
    forall i, j :: 0 <= i < j < |order| ==> order[i] != order[j]
  }

  /** Every field once, the bank whole or as its two halves. */
  predicate Complete(order: seq<Field>) {
    && Distinct(order)
    && Chan in order && Rank in order && Row in order && Col in order
    && (Bank in order ==> BankLow !in order && BankGroup !in order)
    && (Bank !in order ==> BankLow in order && BankGroup in order)
  }

  lemma {:induction false} ValueAt(order: seq<Field>, ds: seq<nat>, i: nat)
    requires Distinct(order) && |order| == |ds| && i < |order|
    ensures ValueOf(order, ds, order[i]) == ds[i]
  {
    if i > 0 {
      assert order[0] != order[i];
      ValueAt(order[1..], ds[1..], i - 1);
    }
  }

  lemma WholeBankSchemes(scheme: nat)
    requires 1 <= scheme <= 3
    ensures Complete(Order(scheme)) && |Order(scheme)| == 5
  {
    var order := Order(scheme);
    assert order[0] in order && order[1] in order && order[2] in order && order[3] in order && order[4] in order;
  }

  lemma MoreWholeBankSchemes(scheme: nat)
    requires 4 <= scheme <= 7
    ensures Complete(Order(scheme)) && |Order(scheme)| == 5
  {
    var order := Order(scheme);
    assert order[0] in order && order[1] in order && order[2] in order && order[3] in order && order[4] in order;
  }

  lemma SplitBankSchemes(scheme: nat)
    requires 8 <= scheme <= 9
    ensures Complete(Order(scheme)) && |Order(scheme)| == 6
  {
    var order := Order(scheme);
    assert order[0] in order && order[1] in order && order[2] in order;
    assert order[3] in order && order[4] in order && order[5] in order;
  }

  lemma MoreSplitBankSchemes(scheme: nat)
    requires 10 <= scheme <= 11
    ensures Complete(Order(scheme)) && |Order(scheme)| == 6
  {
    var order := Order(scheme);
    assert order[0] in order && order[1] in order && order[2] in order;
    assert order[3] in order && order[4] in order && order[5] in order;
  }

  lemma SchemesAreComplete(scheme: nat)
    requires 1 <= scheme <= 11
    ensures Complete(Order(scheme)) && |Order(scheme)| == if scheme <= 7 then 5 else 6
  {
    hide Order, Complete;
    if scheme <= 3 { WholeBankSchemes(scheme); } else if scheme <= 7 { MoreWholeBankSchemes(scheme); }
    else if scheme <= 9 { SplitBankSchemes(scheme); } else { MoreSplitBankSchemes(scheme); }
  }

  /** Reading the fields of a place back gives the digits it was gathered from. */
  lemma DigitsOfGathered(g: Geometry, order: seq<Field>, ds: seq<nat>, i: nat)
    requires g.Valid() && Complete(order) && InRange(g.Widths(order), ds) && i < |order|
    ensures DigitOf(g, Gathered(g, order, ds), order[i]) == ds[i]
  {
    ValueAt(order, ds, i);
    if order[i] == BankLow || order[i] == BankGroup {
      HalvesOfBank(g, order, ds);
    }
  }

  lemma HalvesOfBank(g: Geometry, order: seq<Field>, ds: seq<nat>)
    requires g.Valid() && Complete(order) && InRange(g.Widths(order), ds) && Bank !in order
    ensures var p := Gathered(g, order, ds);
            && DigitOf(g, p, BankLow) == ValueOf(order, ds, BankLow) < Pow2(g.bank - g.bankgroup)
            && DigitOf(g, p, BankGroup) == ValueOf(order, ds, BankGroup) < Pow2(g.bankgroup)
  {
    var i :| 0 <= i < |order| && order[i] == BankLow;
    var j :| 0 <= j < |order| && order[j] == BankGroup;
    ValueAt(order, ds, i);
    ValueAt(order, ds, j);
    assert g.Widths(order)[i] == g.bank - g.bankgroup && g.Widths(order)[j] == g.bankgroup;
    var p := Gathered(g, order, ds);
    Quotient(p.bank, Pow2(g.bank - g.bankgroup), ValueOf(order, ds, BankGroup), ValueOf(order, ds, BankLow));
  }

  /** The two halves of a bank number make it up again, and stay in range. */
  lemma BankOfHalves(g: Geometry, bank: nat)
    requires g.Valid()
    ensures bank == bank % Pow2(g.bank - g.bankgroup)
                    + ShiftRight(bank, g.bank - g.bankgroup) * Pow2(g.bank - g.bankgroup)
    ensures bank < Pow2(g.bank) <==> ShiftRight(bank, g.bank - g.bankgroup) < Pow2(g.bankgroup)
  {
    var low := g.bank - g.bankgroup;
    Division(bank, Pow2(low));
    Commute(Pow2(low), ShiftRight(bank, low));
    Pow2Adds(g.bankgroup, low);
    QuotientRange(bank, Pow2(low), Pow2(g.bankgroup));
  }

  lemma GatheredHolds(g: Geometry, order: seq<Field>, ds: seq<nat>, f: Field)
    requires g.Valid() && Complete(order) && InRange(g.Widths(order), ds) && f in order
    ensures ValueOf(order, ds, f) < Pow2(g.Width(f))
  {
    var i :| 0 <= i < |order| && order[i] == f;
    ValueAt(order, ds, i);
    assert g.Widths(order)[i] == g.Width(f);
  }

  /** Every field is in range, for any address whatever. */
  lemma MappedInRange(g: Geometry, scheme: nat, address: nat)
    requires g.Valid() && 1 <= scheme <= 11
    ensures g.Holds(Mapped(g, scheme, address))
  {
    var order := Order(scheme);
    SchemesAreComplete(scheme);
    var a := ShiftRight(ShiftRight(address, g.byteOffset), g.colLow);
    DigitsInRange(g.Widths(order), a);
    AllFieldsHold(g, order, Digits(g.Widths(order), a));
  }

  lemma AllFieldsHold(g: Geometry, order: seq<Field>, ds: seq<nat>)
    requires g.Valid() && Complete(order) && InRange(g.Widths(order), ds)
    ensures g.Holds(Gathered(g, order, ds))
  {
    GatheredHolds(g, order, ds, Chan);
    GatheredHolds(g, order, ds, Rank);
    GatheredHolds(g, order, ds, Row);
    GatheredHolds(g, order, ds, Col);
    if Bank in order {
      GatheredHolds(g, order, ds, Bank);
    } else {
      HalvesOfBank(g, order, ds);
      BankOfHalves(g, Gathered(g, order, ds).bank);
    }
  }

  /** Gathering a place's own digits gives the place. */
  lemma GatheredOfDigits(g: Geometry, order: seq<Field>, p: Place)
    requires g.Valid() && Complete(order) && g.Holds(p)
    ensures InRange(g.Widths(order), DigitsOf(g, order, p))
    ensures Gathered(g, order, DigitsOf(g, order, p)) == p
  {
    var ds := DigitsOf(g, order, p);
    BankOfHalves(g, p.bank);
    Division(p.bank, Pow2(g.bank - g.bankgroup));
    forall f | f in order ensures ValueOf(order, ds, f) == DigitOf(g, p, f) {
      var i :| 0 <= i < |order| && order[i] == f;
      ValueAt(order, ds, i);
    }
  }

  lemma TotalOfFive(a: nat, b: nat, c: nat, d: nat, e: nat)
    ensures Total([a, b, c, d, e]) == a + b + c + d + e
  {
    assert [a, b, c, d, e][1..] == [b, c, d, e] && [b, c, d, e][1..] == [c, d, e] && [c, d, e][1..] == [d, e];
    assert [d, e][1..] == [e] && [e][1..] == [] && Total([e]) == e + Total([]);
    assert Total([d, e]) == d + e && Total([c, d, e]) == c + d + e && Total([b, c, d, e]) == b + c + d + e;
  }

  lemma TotalOfScheme(g: Geometry, scheme: nat)
    requires g.Valid() && 1 <= scheme <= 11
    ensures Total(g.Widths(Order(scheme))) == g.chan + g.rank + g.bank + g.row + g.colHigh
  {
    var order := Order(scheme);
    var w := g.Widths(order);
    if |order| == 5 {
      assert w == [w[0], w[1], w[2], w[3], w[4]];
      TotalOfFive(w[0], w[1], w[2], w[3], w[4]);
    } else {
      assert w == [w[0]] + [w[1], w[2], w[3], w[4], w[5]];
      TotalOfFive(w[1], w[2], w[3], w[4], w[5]);
    }
  }

  // ----- bijection -----

  /** An aligned address below capacity is recovered from its place. */
  lemma UnmappedMapped(g: Geometry, scheme: nat, address: nat)
    requires g.Valid() && 1 <= scheme <= 11 && address < g.Capacity() && address % g.TransactionSize() == 0
    ensures Unmapped(g, scheme, Mapped(g, scheme, address)) == address
  {
    var order := Order(scheme);
    var a := ShiftRight(ShiftRight(address, g.byteOffset), g.colLow);
    SchemesAreComplete(scheme);
    TotalOfScheme(g, scheme);
    BurstsOf(g, address, a);
    hide Gathered, Digits, Join, Order, DigitOf, ShiftRight, Pow2;
    JoinGathered(g, order, a);
  }

  lemma JoinGathered(g: Geometry, order: seq<Field>, a: nat)
    requires g.Valid() && Complete(order) && a < Pow2(Total(g.Widths(order)))
    ensures Join(g.Widths(order), DigitsOf(g, order, Gathered(g, order, Digits(g.Widths(order), a)))) == a
  {
    hide Gathered, DigitOf, ShiftRight, Pow2;
    var ds := Digits(g.Widths(order), a);
    DigitsInRange(g.Widths(order), a);
    forall i | 0 <= i < |order| ensures DigitOf(g, Gathered(g, order, ds), order[i]) == ds[i] {
      DigitsOfGathered(g, order, ds, i);
    }
    assert DigitsOf(g, order, Gathered(g, order, ds)) == ds;
    JoinDigits(g.Widths(order), a);
  }

  /** Shifting by the byte offset and the low column bits divides by the transaction size. */
  lemma BurstsOf(g: Geometry, address: nat, a: nat)
    requires a == ShiftRight(ShiftRight(address, g.byteOffset), g.colLow)
    ensures a == address / g.TransactionSize()
    ensures address < g.Capacity() ==> a < Pow2(g.chan + g.rank + g.bank + g.row + g.colHigh)
    ensures address % g.TransactionSize() == 0 ==> address == a * g.TransactionSize()
  {
    var p, q := Pow2(g.byteOffset), Pow2(g.colLow);
    Pow2Adds(g.byteOffset, g.colLow);
    ShiftTwice(address, p, q);
    Division(address, g.TransactionSize());
    Commute(a, g.TransactionSize());
    QuotientRange(address, g.TransactionSize(), Pow2(g.chan + g.rank + g.bank + g.row + g.colHigh));
    Commute(g.TransactionSize(), Pow2(g.chan + g.rank + g.bank + g.row + g.colHigh));
  }

  lemma ShiftTwice(a: nat, p: nat, q: nat)
    requires p > 0 && q > 0
    ensures p * q > 0 && a / p >= 0 && a / (p * q) == a / p / q
  {
    Product(p, q);
    Division(a, p);
    Division(a / p, q);
    var c, r := a / p / q, a / p % q;
    Regroup(p, q, c);
    Distributes(p, q * c, r);
    ScalesWeakly(r + 1, q, p);
    Distributes(p, r, 1);
    Commute(c, p * q);
    Quotient(a, p * q, c, p * r + a % p);
  }

  /** Every place is where its own address lies, and the address is aligned and below capacity. */
  lemma MappedUnmapped(g: Geometry, scheme: nat, p: Place)
    requires g.Valid() && 1 <= scheme <= 11 && g.Holds(p)
    ensures var address := Unmapped(g, scheme, p);
            && Mapped(g, scheme, address) == p
            && address < g.Capacity() && address % g.TransactionSize() == 0
  {
    SchemesAreComplete(scheme);
    TotalOfScheme(g, scheme);
    hide Complete, Gathered, Digits, Join, Order, DigitOf, DigitsOf, ShiftRight, Pow2;
    PlaceOfJoin(g, Order(scheme), p);
    var a := Join(g.Widths(Order(scheme)), DigitsOf(g, Order(scheme), p));
    BackToBursts(g, a);
  }

  lemma BackToBursts(g: Geometry, a: nat)
    ensures ShiftRight(ShiftRight(a * g.TransactionSize(), g.byteOffset), g.colLow) == a
    ensures a * g.TransactionSize() % g.TransactionSize() == 0
    ensures a < Pow2(g.chan + g.rank + g.bank + g.row + g.colHigh) ==> a * g.TransactionSize() < g.Capacity()
  {
    var size := g.TransactionSize();
    Exact(a, size);
    BurstsOf(g, a * size, ShiftRight(ShiftRight(a * size, g.byteOffset), g.colLow));
    Ordered(a, Pow2(g.chan + g.rank + g.bank + g.row + g.colHigh), size);
  }

  lemma PlaceOfJoin(g: Geometry, order: seq<Field>, p: Place)
    requires g.Valid() && Complete(order) && g.Holds(p)
    ensures var a := Join(g.Widths(order), DigitsOf(g, order, p));
            && Gathered(g, order, Digits(g.Widths(order), a)) == p && a < Pow2(Total(g.Widths(order)))
  {
    hide Complete, Gathered, Digits, Join, DigitOf, Pow2;
    GatheredOfDigits(g, order, p);
    DigitsJoin(g.Widths(order), DigitsOf(g, order, p));
  }

  /** bankgroupId: the bank number over the banks of a group. */
  function BankgroupId(g: Geometry, bank: nat): nat
    requires g.Valid()
  {
    ShiftRight(bank, g.bank - g.bankgroup)
  }

  /** In schemes 8 to 11 the bank group recovered from the bank number is the field taken off the address. */
  lemma BankgroupIsRecovered(g: Geometry, scheme: nat, address: nat)
    requires g.Valid() && 8 <= scheme <= 11
    ensures var order := Order(scheme);
            var ds := Digits(g.Widths(order), ShiftRight(ShiftRight(address, g.byteOffset), g.colLow));
            BankgroupId(g, Mapped(g, scheme, address).bank) == ValueOf(order, ds, BankGroup)
  {
    var order := Order(scheme);
    SchemesAreComplete(scheme);
    var a := ShiftRight(ShiftRight(address, g.byteOffset), g.colLow);
    DigitsInRange(g.Widths(order), a);
    HalvesOfBank(g, order, Digits(g.Widths(order), a));
  }

  // ----- the mapping itself -----

  /** The first field is the low end of the address; the others lie in what is left. */
  lemma FirstField(g: Geometry, order: seq<Field>, a: nat)
    requires g.Valid() && order != []
    ensures Digits(g.Widths(order), a)
         == [a % Pow2(g.Width(order[0]))] + Digits(g.Widths(order[1..]), ShiftRight(a, g.Width(order[0])))
  {
    assert g.Widths(order)[1..] == g.Widths(order[1..]);
    Division(a, Pow2(g.Width(order[0])));
  }

  lemma AllValues(order: seq<Field>, ds: seq<nat>)
    requires Distinct(order) && |order| == |ds|
    ensures forall i :: 0 <= i < |order| ==> ValueOf(order, ds, order[i]) == ds[i]
  {
    forall i | 0 <= i < |order| ensures ValueOf(order, ds, order[i]) == ds[i] {
      ValueAt(order, ds, i);
    }
  }

  lemma GatheredFive(g: Geometry, order: seq<Field>, ds: seq<nat>, p: Place)
    requires g.Valid() && Complete(order) && |order| == |ds| == 5 && Bank in order
    requires forall i :: 0 <= i < 5 ==> ds[i] == DigitOf(g, p, order[i])
    ensures Gathered(g, order, ds) == p
  {
    hide ValueOf;
    AllValues(order, ds);
  }

  lemma GatheredSix(g: Geometry, order: seq<Field>, ds: seq<nat>, p: Place, low: nat, group: nat)
    requires g.Valid() && Complete(order) && |order| == |ds| == 6 && Bank !in order
    requires p.bank == low + group * Pow2(g.bank - g.bankgroup)
    requires forall i :: 0 <= i < 6 ==>
               ds[i] == if order[i] == BankLow then low
                        else if order[i] == BankGroup then group
                        else DigitOf(g, p, order[i])
    ensures Gathered(g, order, ds) == p
  {
    hide ValueOf;
    AllValues(order, ds);
  }

  // ----- the fields as arithmetic on the address -----

  /** The width bits above the lowest ones. */
  ghost function Slice(a: nat, lowest: nat, width: nat): nat {
    Division(a, Pow2(lowest));
    a / Pow2(lowest) % Pow2(width)
  }

  /** The place whose fields begin at these bits of the address. */
  ghost function PlaceAt(g: Geometry, address: nat, chan: nat, rank: nat, bank: nat, row: nat, col: nat): Place {
    Place(Slice(address, chan, g.chan), Slice(address, rank, g.rank), Slice(address, bank, g.bank),
          Slice(address, row, g.row), Slice(address, col, g.colHigh))
  }

  lemma SliceAbove(a: nat, w: nat, lowest: nat, width: nat)
    ensures Slice(ShiftRight(a, w), lowest, width) == Slice(a, w + lowest, width)
  {
    Pow2Adds(w, lowest);
    ShiftTwice(a, Pow2(w), Pow2(lowest));
  }

  lemma LowestSlice(a: nat, width: nat)
    ensures Slice(a, 0, width) == a % Pow2(width)
  {
  }

  /** Two neighbouring slices make up the one that spans both. */
  lemma SlicesJoin(a: nat, lowest: nat, low: nat, high: nat)
    ensures Slice(a, lowest, low) + Slice(a, lowest + low, high) * Pow2(low) == Slice(a, lowest, low + high)
  {
    Division(a, Pow2(lowest));
    var x, p, q := a / Pow2(lowest), Pow2(low), Pow2(high);
    SliceAbove(a, lowest, low, high);
    Pow2Adds(low, high);
    LowDigitsJoin(x, p, q);
  }

  lemma LowDigitsJoin(x: nat, p: nat, q: nat)
    requires p > 0 && q > 0
    ensures p * q > 0 && x / p >= 0 && x % p + x / p % q * p == x % (p * q)
  {
    ShiftTwice(x, p, q);
    Division(x, p);
    Division(x / p, q);
    var low, mid, c := x % p, x / p % q, x / p / q;
    Distributes(p, q * c, mid);
    Regroup(p, q, c);
    Commute(c, p * q);
    Commute(mid, p);
    ScalesWeakly(mid + 1, q, p);
    Distributes(p, mid, 1);
    Quotient(x, p * q, c, low + mid * p);
  }

  lemma {:induction false} DigitIsSlice(w: nat, ws: seq<nat>, a: nat, i: nat, lowest: nat, width: nat)
    requires i < |ws| && Digits(ws, ShiftRight(a, w))[i] == Slice(ShiftRight(a, w), lowest, width)
    ensures Digits([w] + ws, a) == [Slice(a, 0, w)] + Digits(ws, ShiftRight(a, w))
    ensures Digits([w] + ws, a)[i + 1] == Slice(a, w + lowest, width)
  {
    assert ([w] + ws)[1..] == ws;
    LowestSlice(a, w);
    SliceAbove(a, w, lowest, width);
  }

  lemma OneSlice(a: nat, u: nat)
    ensures Digits([u], a) == [Slice(a, 0, u)]
  {
    assert [u][1..] == [];
    LowestSlice(a, u);
  }

  lemma TwoSlices(a: nat, u: nat, v: nat)
    ensures Digits([u, v], a) == [Slice(a, 0, u), Slice(a, u, v)]
  {
    OneSlice(ShiftRight(a, u), v);
    DigitIsSlice(u, [v], a, 0, 0, v);
    assert [u] + [v] == [u, v];
  }

  lemma ThreeSlices(a: nat, u: nat, v: nat, w: nat)
    ensures Digits([u, v, w], a) == [Slice(a, 0, u), Slice(a, u, v), Slice(a, u + v, w)]
  {
    hide Digits, Slice;
    TwoSlices(ShiftRight(a, u), v, w);
    DigitIsSlice(u, [v, w], a, 0, 0, v);
    DigitIsSlice(u, [v, w], a, 1, v, w);
    assert [u] + [v, w] == [u, v, w];
  }

  lemma FourSlices(a: nat, u: nat, v: nat, w: nat, x: nat)
    ensures Digits([u, v, w, x], a)
         == [Slice(a, 0, u), Slice(a, u, v), Slice(a, u + v, w), Slice(a, u + v + w, x)]
  {
    hide Digits, Slice;
    ThreeSlices(ShiftRight(a, u), v, w, x);
    DigitIsSlice(u, [v, w, x], a, 0, 0, v);
    DigitIsSlice(u, [v, w, x], a, 1, v, w);
    DigitIsSlice(u, [v, w, x], a, 2, v + w, x);
    assert [u] + [v, w, x] == [u, v, w, x];
  }

  lemma FiveSlices(a: nat, u: nat, v: nat, w: nat, x: nat, y: nat)
    ensures Digits([u, v, w, x, y], a)
         == [Slice(a, 0, u), Slice(a, u, v), Slice(a, u + v, w), Slice(a, u + v + w, x), Slice(a, u + v + w + x, y)]
  {
    hide Digits, Slice;
    FourSlices(ShiftRight(a, u), v, w, x, y);
    DigitIsSlice(u, [v, w, x, y], a, 0, 0, v);
    DigitIsSlice(u, [v, w, x, y], a, 1, v, w);
    DigitIsSlice(u, [v, w, x, y], a, 2, v + w, x);
    DigitIsSlice(u, [v, w, x, y], a, 3, v + w + x, y);
    assert [u] + [v, w, x, y] == [u, v, w, x, y];
  }

  lemma SixSlices(a: nat, u: nat, v: nat, w: nat, x: nat, y: nat, z: nat)
    ensures Digits([u, v, w, x, y, z], a)
         == [Slice(a, 0, u), Slice(a, u, v), Slice(a, u + v, w), Slice(a, u + v + w, x),
             Slice(a, u + v + w + x, y), Slice(a, u + v + w + x + y, z)]
  {
    hide Digits, Slice;
    FiveSlices(ShiftRight(a, u), v, w, x, y, z);
    DigitIsSlice(u, [v, w, x, y, z], a, 0, 0, v);
    DigitIsSlice(u, [v, w, x, y, z], a, 1, v, w);
    DigitIsSlice(u, [v, w, x, y, z], a, 2, v + w, x);
    DigitIsSlice(u, [v, w, x, y, z], a, 3, v + w + x, y);
    DigitIsSlice(u, [v, w, x, y, z], a, 4, v + w + x + y, z);
    assert [u] + [v, w, x, y, z] == [u, v, w, x, y, z];
  }

  /** The fields lie above the bits of a burst. */
  lemma AboveBurst(g: Geometry, address: nat, low: nat, chan: nat, rank: nat, bank: nat, row: nat, col: nat)
    requires low == g.byteOffset + g.colLow
    ensures PlaceAt(g, ShiftRight(ShiftRight(address, g.byteOffset), g.colLow), chan, rank, bank, row, col)
         == PlaceAt(g, address, low + chan, low + rank, low + bank, low + row, low + col)
  {
    forall k: nat, width: nat
      ensures Slice(ShiftRight(ShiftRight(address, g.byteOffset), g.colLow), k, width) == Slice(address, low + k, width)
    {
      SliceAbove(ShiftRight(address, g.byteOffset), g.colLow, k, width);
      SliceAbove(address, g.byteOffset, g.colLow + k, width);
    }
  }

  lemma Scheme1Fields(g: Geometry, address: nat, low: nat)
    requires g.Valid() && low == g.byteOffset + g.colLow
    ensures Mapped(g, 1, address)
         == PlaceAt(g, address, bank := low, col := low + g.bank, row := low + g.bank + g.colHigh,
                   rank := low + g.bank + g.colHigh + g.row, chan := low + g.bank + g.colHigh + g.row + g.rank)
  {
    hide Digits, Slice;
    var a := ShiftRight(ShiftRight(address, g.byteOffset), g.colLow);
    assert g.Widths(Order(1)) == [g.bank, g.colHigh, g.row, g.rank, g.chan];
    FiveSlices(a, g.bank, g.colHigh, g.row, g.rank, g.chan);
    SchemesAreComplete(1);
    AllValues(Order(1), Digits(g.Widths(Order(1)), a));
    AboveBurst(g, address, low, g.bank + g.colHigh + g.row + g.rank, g.bank + g.colHigh + g.row, 0,
               g.bank + g.colHigh, g.bank);
  }

  lemma Scheme2Fields(g: Geometry, address: nat, low: nat)
    requires g.Valid() && low == g.byteOffset + g.colLow
    ensures Mapped(g, 2, address)
         == PlaceAt(g, address, rank := low, bank := low + g.rank, col := low + g.rank + g.bank,
                   row := low + g.rank + g.bank + g.colHigh, chan := low + g.rank + g.bank + g.colHigh + g.row)
  {
    hide Digits, Slice;
    var a := ShiftRight(ShiftRight(address, g.byteOffset), g.colLow);
    assert g.Widths(Order(2)) == [g.rank, g.bank, g.colHigh, g.row, g.chan];
    FiveSlices(a, g.rank, g.bank, g.colHigh, g.row, g.chan);
    SchemesAreComplete(2);
    AllValues(Order(2), Digits(g.Widths(Order(2)), a));
    AboveBurst(g, address, low, g.rank + g.bank + g.colHigh + g.row, 0, g.rank, g.rank + g.bank + g.colHigh,
               g.rank + g.bank);
  }

  lemma Scheme3Fields(g: Geometry, address: nat, low: nat)
    requires g.Valid() && low == g.byteOffset + g.colLow
    ensures Mapped(g, 3, address)
         == PlaceAt(g, address, row := low, col := low + g.row, bank := low + g.row + g.colHigh,
                   rank := low + g.row + g.colHigh + g.bank, chan := low + g.row + g.colHigh + g.bank + g.rank)
  {
    hide Digits, Slice;
    var a := ShiftRight(ShiftRight(address, g.byteOffset), g.colLow);
    assert g.Widths(Order(3)) == [g.row, g.colHigh, g.bank, g.rank, g.chan];
    FiveSlices(a, g.row, g.colHigh, g.bank, g.rank, g.chan);
    SchemesAreComplete(3);
    AllValues(Order(3), Digits(g.Widths(Order(3)), a));
    AboveBurst(g, address, low, g.row + g.colHigh + g.bank + g.rank, g.row + g.colHigh + g.bank, g.row + g.colHigh,
               0, g.row);
  }

  lemma Scheme4Fields(g: Geometry, address: nat, low: nat)
    requires g.Valid() && low == g.byteOffset + g.colLow
    ensures Mapped(g, 4, address)
         == PlaceAt(g, address, col := low, row := low + g.colHigh, bank := low + g.colHigh + g.row,
                   rank := low + g.colHigh + g.row + g.bank, chan := low + g.colHigh + g.row + g.bank + g.rank)
  {
    hide Digits, Slice;
    var a := ShiftRight(ShiftRight(address, g.byteOffset), g.colLow);
    assert g.Widths(Order(4)) == [g.colHigh, g.row, g.bank, g.rank, g.chan];
    FiveSlices(a, g.colHigh, g.row, g.bank, g.rank, g.chan);
    SchemesAreComplete(4);
    AllValues(Order(4), Digits(g.Widths(Order(4)), a));
    AboveBurst(g, address, low, g.colHigh + g.row + g.bank + g.rank, g.colHigh + g.row + g.bank, g.colHigh + g.row,
               g.colHigh, 0);
  }

  lemma Scheme5Fields(g: Geometry, address: nat, low: nat)
    requires g.Valid() && low == g.byteOffset + g.colLow
    ensures Mapped(g, 5, address)
         == PlaceAt(g, address, bank := low, rank := low + g.bank, col := low + g.bank + g.rank,
                   row := low + g.bank + g.rank + g.colHigh, chan := low + g.bank + g.rank + g.colHigh + g.row)
  {
    hide Digits, Slice;
    var a := ShiftRight(ShiftRight(address, g.byteOffset), g.colLow);
    assert g.Widths(Order(5)) == [g.bank, g.rank, g.colHigh, g.row, g.chan];
    FiveSlices(a, g.bank, g.rank, g.colHigh, g.row, g.chan);
    SchemesAreComplete(5);
    AllValues(Order(5), Digits(g.Widths(Order(5)), a));
    AboveBurst(g, address, low, g.bank + g.rank + g.colHigh + g.row, g.bank, 0, g.bank + g.rank + g.colHigh,
               g.bank + g.rank);
  }

  lemma Scheme6Fields(g: Geometry, address: nat, low: nat)
    requires g.Valid() && low == g.byteOffset + g.colLow
    ensures Mapped(g, 6, address)
         == PlaceAt(g, address, col := low, rank := low + g.colHigh, bank := low + g.colHigh + g.rank,
                   row := low + g.colHigh + g.rank + g.bank, chan := low + g.colHigh + g.rank + g.bank + g.row)
  {
    hide Digits, Slice;
    var a := ShiftRight(ShiftRight(address, g.byteOffset), g.colLow);
    assert g.Widths(Order(6)) == [g.colHigh, g.rank, g.bank, g.row, g.chan];
    FiveSlices(a, g.colHigh, g.rank, g.bank, g.row, g.chan);
    SchemesAreComplete(6);
    AllValues(Order(6), Digits(g.Widths(Order(6)), a));
    AboveBurst(g, address, low, g.colHigh + g.rank + g.bank + g.row, g.colHigh, g.colHigh + g.rank,
               g.colHigh + g.rank + g.bank, 0);
  }

  lemma Scheme7Fields(g: Geometry, address: nat, low: nat)
    requires g.Valid() && low == g.byteOffset + g.colLow
    ensures Mapped(g, 7, address)
         == PlaceAt(g, address, chan := low, bank := low + g.chan, rank := low + g.chan + g.bank,
                   col := low + g.chan + g.bank + g.rank, row := low + g.chan + g.bank + g.rank + g.colHigh)
  {
    hide Digits, Slice;
    var a := ShiftRight(ShiftRight(address, g.byteOffset), g.colLow);
    assert g.Widths(Order(7)) == [g.chan, g.bank, g.rank, g.colHigh, g.row];
    FiveSlices(a, g.chan, g.bank, g.rank, g.colHigh, g.row);
    SchemesAreComplete(7);
    AllValues(Order(7), Digits(g.Widths(Order(7)), a));
    AboveBurst(g, address, low, 0, g.chan + g.bank, g.chan, g.chan + g.bank + g.rank + g.colHigh,
               g.chan + g.bank + g.rank);
  }

  lemma Scheme8Fields(g: Geometry, address: nat, low: nat)
    requires g.Valid() && low == g.byteOffset + g.colLow
    ensures Mapped(g, 8, address)
         == PlaceAt(g, address, chan := low, bank := low + g.chan, col := low + g.chan + g.bank,
                   row := low + g.chan + g.bank + g.colHigh, rank := low + g.chan + g.bank + g.colHigh + g.row)
  {
    hide Digits, Slice;
    var a := ShiftRight(ShiftRight(address, g.byteOffset), g.colLow);
    assert g.Widths(Order(8)) == [g.chan, g.bank - g.bankgroup, g.bankgroup, g.colHigh, g.row, g.rank];
    SixSlices(a, g.chan, g.bank - g.bankgroup, g.bankgroup, g.colHigh, g.row, g.rank);
    SlicesJoin(a, g.chan, g.bank - g.bankgroup, g.bankgroup);
    SchemesAreComplete(8);
    AllValues(Order(8), Digits(g.Widths(Order(8)), a));
    AboveBurst(g, address, low, 0, g.chan + g.bank + g.colHigh + g.row, g.chan, g.chan + g.bank + g.colHigh,
               g.chan + g.bank);
  }

  lemma Scheme9Fields(g: Geometry, address: nat, low: nat)
    requires g.Valid() && low == g.byteOffset + g.colLow
    ensures Mapped(g, 9, address)
         == PlaceAt(g, address, chan := low, col := low + g.chan, bank := low + g.chan + g.colHigh,
                   row := low + g.chan + g.colHigh + g.bank, rank := low + g.chan + g.colHigh + g.bank + g.row)
  {
    hide Digits, Slice;
    var a := ShiftRight(ShiftRight(address, g.byteOffset), g.colLow);
    assert g.Widths(Order(9)) == [g.chan, g.colHigh, g.bank - g.bankgroup, g.bankgroup, g.row, g.rank];
    SixSlices(a, g.chan, g.colHigh, g.bank - g.bankgroup, g.bankgroup, g.row, g.rank);
    SlicesJoin(a, g.chan + g.colHigh, g.bank - g.bankgroup, g.bankgroup);
    SchemesAreComplete(9);
    AllValues(Order(9), Digits(g.Widths(Order(9)), a));
    AboveBurst(g, address, low, 0, g.chan + g.colHigh + g.bank + g.row, g.chan + g.colHigh,
               g.chan + g.colHigh + g.bank, g.chan);
  }

  lemma Scheme10Fields(g: Geometry, address: nat, low: nat)
    requires g.Valid() && low == g.byteOffset + g.colLow
    ensures Mapped(g, 10, address)
         == PlaceAt(g, address, bank := low, chan := low + g.bank, col := low + g.bank + g.chan,
                   row := low + g.bank + g.chan + g.colHigh, rank := low + g.bank + g.chan + g.colHigh + g.row)
  {
    hide Digits, Slice;
    var a := ShiftRight(ShiftRight(address, g.byteOffset), g.colLow);
    assert g.Widths(Order(10)) == [g.bank - g.bankgroup, g.bankgroup, g.chan, g.colHigh, g.row, g.rank];
    SixSlices(a, g.bank - g.bankgroup, g.bankgroup, g.chan, g.colHigh, g.row, g.rank);
    SlicesJoin(a, 0, g.bank - g.bankgroup, g.bankgroup);
    SchemesAreComplete(10);
    AllValues(Order(10), Digits(g.Widths(Order(10)), a));
    AboveBurst(g, address, low, g.bank, g.bank + g.chan + g.colHigh + g.row, 0, g.bank + g.chan + g.colHigh,
               g.bank + g.chan);
  }

  lemma Scheme11Fields(g: Geometry, address: nat, low: nat)
    requires g.Valid() && low == g.byteOffset + g.colLow
    ensures Mapped(g, 11, address)
         == PlaceAt(g, address, chan := low, bank := low + g.chan, row := low + g.chan + g.bank,
                   col := low + g.chan + g.bank + g.row, rank := low + g.chan + g.bank + g.row + g.colHigh)
  {
    hide Digits, Slice;
    var a := ShiftRight(ShiftRight(address, g.byteOffset), g.colLow);
    assert g.Widths(Order(11)) == [g.chan, g.bank - g.bankgroup, g.bankgroup, g.row, g.colHigh, g.rank];
    SixSlices(a, g.chan, g.bank - g.bankgroup, g.bankgroup, g.row, g.colHigh, g.rank);
    SlicesJoin(a, g.chan, g.bank - g.bankgroup, g.bankgroup);
    SchemesAreComplete(11);
    AllValues(Order(11), Digits(g.Widths(Order(11)), a));
    AboveBurst(g, address, low, 0, g.chan + g.bank + g.row + g.colHigh, g.chan, g.chan + g.bank,
               g.chan + g.bank + g.row);
  }

  lemma FieldsOfScheme(g: Geometry, scheme: nat, address: nat)
    requires g.Valid() && 1 <= scheme <= 11
    ensures var p := Mapped(g, scheme, address); var low := g.byteOffset + g.colLow;
            && (scheme == 1 ==> p == PlaceAt(g, address, bank := low, col := low + g.bank,
                  row := low + g.bank + g.colHigh, rank := low + g.bank + g.colHigh + g.row,
                  chan := low + g.bank + g.colHigh + g.row + g.rank))
            && (scheme == 2 ==> p == PlaceAt(g, address, rank := low, bank := low + g.rank,
                  col := low + g.rank + g.bank, row := low + g.rank + g.bank + g.colHigh,
                  chan := low + g.rank + g.bank + g.colHigh + g.row))
            && (scheme == 3 ==> p == PlaceAt(g, address, row := low, col := low + g.row,
                  bank := low + g.row + g.colHigh, rank := low + g.row + g.colHigh + g.bank,
                  chan := low + g.row + g.colHigh + g.bank + g.rank))
            && (scheme == 4 ==> p == PlaceAt(g, address, col := low, row := low + g.colHigh,
                  bank := low + g.colHigh + g.row, rank := low + g.colHigh + g.row + g.bank,
                  chan := low + g.colHigh + g.row + g.bank + g.rank))
            && (scheme == 5 ==> p == PlaceAt(g, address, bank := low, rank := low + g.bank,
                  col := low + g.bank + g.rank, row := low + g.bank + g.rank + g.colHigh,
                  chan := low + g.bank + g.rank + g.colHigh + g.row))
            && (scheme == 6 ==> p == PlaceAt(g, address, col := low, rank := low + g.colHigh,
                  bank := low + g.colHigh + g.rank, row := low + g.colHigh + g.rank + g.bank,
                  chan := low + g.colHigh + g.rank + g.bank + g.row))
            && (scheme == 7 ==> p == PlaceAt(g, address, chan := low, bank := low + g.chan,
                  rank := low + g.chan + g.bank, col := low + g.chan + g.bank + g.rank,
                  row := low + g.chan + g.bank + g.rank + g.colHigh))
            && (scheme == 8 ==> p == PlaceAt(g, address, chan := low, bank := low + g.chan,
                  col := low + g.chan + g.bank, row := low + g.chan + g.bank + g.colHigh,
                  rank := low + g.chan + g.bank + g.colHigh + g.row))
            && (scheme == 9 ==> p == PlaceAt(g, address, chan := low, col := low + g.chan,
                  bank := low + g.chan + g.colHigh, row := low + g.chan + g.colHigh + g.bank,
                  rank := low + g.chan + g.colHigh + g.bank + g.row))
            && (scheme == 10 ==> p == PlaceAt(g, address, bank := low, chan := low + g.bank,
                  col := low + g.bank + g.chan, row := low + g.bank + g.chan + g.colHigh,
                  rank := low + g.bank + g.chan + g.colHigh + g.row))
            && (scheme == 11 ==> p == PlaceAt(g, address, chan := low, bank := low + g.chan,
                  row := low + g.chan + g.bank, col := low + g.chan + g.bank + g.row,
                  rank := low + g.chan + g.bank + g.row + g.colHigh))
  {
    hide Mapped, PlaceAt;
    var low := g.byteOffset + g.colLow;
    if scheme == 1 {
      Scheme1Fields(g, address, low);
    } else if scheme == 2 {
      Scheme2Fields(g, address, low);
    } else if scheme == 3 {
      Scheme3Fields(g, address, low);
    } else if scheme == 4 {
      Scheme4Fields(g, address, low);
    } else if scheme == 5 {
      Scheme5Fields(g, address, low);
    } else if scheme == 6 {
      Scheme6Fields(g, address, low);
    } else if scheme == 7 {
      Scheme7Fields(g, address, low);
    } else if scheme == 8 {
      Scheme8Fields(g, address, low);
    } else if scheme == 9 {
      Scheme9Fields(g, address, low);
    } else if scheme == 10 {
      Scheme10Fields(g, address, low);
    } else {
      Scheme11Fields(g, address, low);
    }
  }

  class AddrMapping {
    const channelBitWidth: nat
    const rankBitWidth: nat
    const bankBitWidth: nat
    const bankgroupBitWidth: nat
    const rowBitWidth: nat
    const colLowBitWidth: nat
    const colHighBitWidth: nat
    const byteOffsetWidth: nat
    const scheme: nat

    predicate Valid() {
      bankgroupBitWidth <= bankBitWidth
    }

    function Bits(): Geometry {
      Geometry(channelBitWidth, rankBitWidth, bankBitWidth, bankgroupBitWidth, rowBitWidth, colHighBitWidth,
               colLowBitWidth, byteOffsetWidth)
    }

    /** The widths come out of the configured counts when these are powers of two. */
    constructor (chans: nat, ranks: nat, banks: nat, bankGroups: nat, rows: nat, cols: nat, busBytes: nat, bl: nat,
                 scheme: nat, ghost g: Geometry)
      requires g.Valid() && chans == Pow2(g.chan) && ranks == Pow2(g.rank) && banks == Pow2(g.bank)
      requires bankGroups == Pow2(g.bankgroup) && rows == Pow2(g.row) && cols == Pow2(g.colHigh + g.colLow)
      requires busBytes == Pow2(g.byteOffset) && busBytes * bl == Pow2(g.byteOffset + g.colLow)
      ensures Valid() && Bits() == g && this.scheme == scheme
    {
      var chanBits := ULog2(chans);
      var rankBits := ULog2(ranks);
      var bankBits := ULog2(banks);
      var groupBits := ULog2(bankGroups);
      var rowBits := ULog2(rows);
      var colBits := ULog2(cols);
      var offset := ULog2(busBytes);
      var throwAwayBits := ULog2(busBytes * bl);
      Log2OfPower(g.chan, chanBits);
      Log2OfPower(g.rank, rankBits);
      Log2OfPower(g.bank, bankBits);
      Log2OfPower(g.bankgroup, groupBits);
      Log2OfPower(g.row, rowBits);
      Log2OfPower(g.colHigh + g.colLow, colBits);
      Log2OfPower(g.byteOffset, offset);
      Log2OfPower(g.byteOffset + g.colLow, throwAwayBits);
      channelBitWidth, rankBitWidth, bankBitWidth := chanBits, rankBits, bankBits;
      bankgroupBitWidth, rowBitWidth, byteOffsetWidth := groupBits, rowBits, offset;
      colLowBitWidth := throwAwayBits - offset;
      colHighBitWidth := colBits - (throwAwayBits - offset);
      this.scheme := scheme;
    }

    /** Takes the next field off the address. */
    method Take(f: Field, width: nat, address: nat, ghost order: seq<Field>) returns (value: nat, rest: nat)
      requires Valid() && order != [] && order[0] == f && width == Bits().Width(f)
      ensures Digits(Bits().Widths(order), address) == [value] + Digits(Bits().Widths(order[1..]), rest)
    {
      FirstField(Bits(), order, address);
      value, rest := DiffBitWidth(address, width);
    }

    method Scheme1(address: nat) returns (p: Place)
      requires Valid()
      ensures p == Gathered(Bits(), Order(1), Digits(Bits().Widths(Order(1)), address))
    {
      ghost var order := Order(1);
      var bank, a1 := Take(Bank, bankBitWidth, address, order);
      var col, a2 := Take(Col, colHighBitWidth, a1, order[1..]);
      var row, a3 := Take(Row, rowBitWidth, a2, order[2..]);
      var rank, a4 := Take(Rank, rankBitWidth, a3, order[3..]);
      var chan, a5 := Take(Chan, channelBitWidth, a4, order[4..]);
      ghost var ds := Digits(Bits().Widths(order), address);
      assert ds == [bank, col, row, rank, chan];
      p := Place(chan, rank, bank, row, col);
      SchemesAreComplete(1);
      GatheredFive(Bits(), order, ds, p);
    }

    method Scheme2(address: nat) returns (p: Place)
      requires Valid()
      ensures p == Gathered(Bits(), Order(2), Digits(Bits().Widths(Order(2)), address))
    {
      ghost var order := Order(2);
      var rank, a1 := Take(Rank, rankBitWidth, address, order);
      var bank, a2 := Take(Bank, bankBitWidth, a1, order[1..]);
      var col, a3 := Take(Col, colHighBitWidth, a2, order[2..]);
      var row, a4 := Take(Row, rowBitWidth, a3, order[3..]);
      var chan, a5 := Take(Chan, channelBitWidth, a4, order[4..]);
      ghost var ds := Digits(Bits().Widths(order), address);
      assert ds == [rank, bank, col, row, chan];
      p := Place(chan, rank, bank, row, col);
      SchemesAreComplete(2);
      GatheredFive(Bits(), order, ds, p);
    }

    method Scheme3(address: nat) returns (p: Place)
      requires Valid()
      ensures p == Gathered(Bits(), Order(3), Digits(Bits().Widths(Order(3)), address))
    {
      ghost var order := Order(3);
      var row, a1 := Take(Row, rowBitWidth, address, order);
      var col, a2 := Take(Col, colHighBitWidth, a1, order[1..]);
      var bank, a3 := Take(Bank, bankBitWidth, a2, order[2..]);
      var rank, a4 := Take(Rank, rankBitWidth, a3, order[3..]);
      var chan, a5 := Take(Chan, channelBitWidth, a4, order[4..]);
      ghost var ds := Digits(Bits().Widths(order), address);
      assert ds == [row, col, bank, rank, chan];
      p := Place(chan, rank, bank, row, col);
      SchemesAreComplete(3);
      GatheredFive(Bits(), order, ds, p);
    }

    method Scheme4(address: nat) returns (p: Place)
      requires Valid()
      ensures p == Gathered(Bits(), Order(4), Digits(Bits().Widths(Order(4)), address))
    {
      ghost var order := Order(4);
      var col, a1 := Take(Col, colHighBitWidth, address, order);
      var row, a2 := Take(Row, rowBitWidth, a1, order[1..]);
      var bank, a3 := Take(Bank, bankBitWidth, a2, order[2..]);
      var rank, a4 := Take(Rank, rankBitWidth, a3, order[3..]);
      var chan, a5 := Take(Chan, channelBitWidth, a4, order[4..]);
      ghost var ds := Digits(Bits().Widths(order), address);
      assert ds == [col, row, bank, rank, chan];
      p := Place(chan, rank, bank, row, col);
      SchemesAreComplete(4);
      GatheredFive(Bits(), order, ds, p);
    }

    method Scheme5(address: nat) returns (p: Place)
      requires Valid()
      ensures p == Gathered(Bits(), Order(5), Digits(Bits().Widths(Order(5)), address))
    {
      ghost var order := Order(5);
      var bank, a1 := Take(Bank, bankBitWidth, address, order);
      var rank, a2 := Take(Rank, rankBitWidth, a1, order[1..]);
      var col, a3 := Take(Col, colHighBitWidth, a2, order[2..]);
      var row, a4 := Take(Row, rowBitWidth, a3, order[3..]);
      var chan, a5 := Take(Chan, channelBitWidth, a4, order[4..]);
      ghost var ds := Digits(Bits().Widths(order), address);
      assert ds == [bank, rank, col, row, chan];
      p := Place(chan, rank, bank, row, col);
      SchemesAreComplete(5);
      GatheredFive(Bits(), order, ds, p);
    }

    method Scheme6(address: nat) returns (p: Place)
      requires Valid()
      ensures p == Gathered(Bits(), Order(6), Digits(Bits().Widths(Order(6)), address))
    {
      ghost var order := Order(6);
      var col, a1 := Take(Col, colHighBitWidth, address, order);
      var rank, a2 := Take(Rank, rankBitWidth, a1, order[1..]);
      var bank, a3 := Take(Bank, bankBitWidth, a2, order[2..]);
      var row, a4 := Take(Row, rowBitWidth, a3, order[3..]);
      var chan, a5 := Take(Chan, channelBitWidth, a4, order[4..]);
      ghost var ds := Digits(Bits().Widths(order), address);
      assert ds == [col, rank, bank, row, chan];
      p := Place(chan, rank, bank, row, col);
      SchemesAreComplete(6);
      GatheredFive(Bits(), order, ds, p);
    }

    method Scheme7(address: nat) returns (p: Place)
      requires Valid()
      ensures p == Gathered(Bits(), Order(7), Digits(Bits().Widths(Order(7)), address))
    {
      ghost var order := Order(7);
      var chan, a1 := Take(Chan, channelBitWidth, address, order);
      var bank, a2 := Take(Bank, bankBitWidth, a1, order[1..]);
      var rank, a3 := Take(Rank, rankBitWidth, a2, order[2..]);
      var col, a4 := Take(Col, colHighBitWidth, a3, order[3..]);
      var row, a5 := Take(Row, rowBitWidth, a4, order[4..]);
      ghost var ds := Digits(Bits().Widths(order), address);
      assert ds == [chan, bank, rank, col, row];
      p := Place(chan, rank, bank, row, col);
      SchemesAreComplete(7);
      GatheredFive(Bits(), order, ds, p);
    }

    method Scheme8(address: nat) returns (p: Place)
      requires Valid()
      ensures p == Gathered(Bits(), Order(8), Digits(Bits().Widths(Order(8)), address))
    {
      ghost var order := Order(8);
      var chan, a1 := Take(Chan, channelBitWidth, address, order);
      var low, a2 := Take(BankLow, bankBitWidth - bankgroupBitWidth, a1, order[1..]);
      var group, a3 := Take(BankGroup, bankgroupBitWidth, a2, order[2..]);
      var col, a4 := Take(Col, colHighBitWidth, a3, order[3..]);
      var row, a5 := Take(Row, rowBitWidth, a4, order[4..]);
      var rank, a6 := Take(Rank, rankBitWidth, a5, order[5..]);
      ghost var ds := Digits(Bits().Widths(order), address);
      assert ds == [chan, low, group, col, row, rank];
      p := Place(chan, rank, low + group * Pow2(bankBitWidth - bankgroupBitWidth), row, col);
      SchemesAreComplete(8);
      GatheredSix(Bits(), order, ds, p, low, group);
    }

    method Scheme9(address: nat) returns (p: Place)
      requires Valid()
      ensures p == Gathered(Bits(), Order(9), Digits(Bits().Widths(Order(9)), address))
    {
      ghost var order := Order(9);
      var chan, a1 := Take(Chan, channelBitWidth, address, order);
      var col, a2 := Take(Col, colHighBitWidth, a1, order[1..]);
      var low, a3 := Take(BankLow, bankBitWidth - bankgroupBitWidth, a2, order[2..]);
      var group, a4 := Take(BankGroup, bankgroupBitWidth, a3, order[3..]);
      var row, a5 := Take(Row, rowBitWidth, a4, order[4..]);
      var rank, a6 := Take(Rank, rankBitWidth, a5, order[5..]);
      ghost var ds := Digits(Bits().Widths(order), address);
      assert ds == [chan, col, low, group, row, rank];
      p := Place(chan, rank, low + group * Pow2(bankBitWidth - bankgroupBitWidth), row, col);
      SchemesAreComplete(9);
      GatheredSix(Bits(), order, ds, p, low, group);
    }

    method Scheme10(address: nat) returns (p: Place)
      requires Valid()
      ensures p == Gathered(Bits(), Order(10), Digits(Bits().Widths(Order(10)), address))
    {
      ghost var order := Order(10);
      var low, a1 := Take(BankLow, bankBitWidth - bankgroupBitWidth, address, order);
      var group, a2 := Take(BankGroup, bankgroupBitWidth, a1, order[1..]);
      var chan, a3 := Take(Chan, channelBitWidth, a2, order[2..]);
      var col, a4 := Take(Col, colHighBitWidth, a3, order[3..]);
      var row, a5 := Take(Row, rowBitWidth, a4, order[4..]);
      var rank, a6 := Take(Rank, rankBitWidth, a5, order[5..]);
      ghost var ds := Digits(Bits().Widths(order), address);
      assert ds == [low, group, chan, col, row, rank];
      p := Place(chan, rank, low + group * Pow2(bankBitWidth - bankgroupBitWidth), row, col);
      SchemesAreComplete(10);
      GatheredSix(Bits(), order, ds, p, low, group);
    }

    method Scheme11(address: nat) returns (p: Place)
      requires Valid()
      ensures p == Gathered(Bits(), Order(11), Digits(Bits().Widths(Order(11)), address))
    {
      ghost var order := Order(11);
      var chan, a1 := Take(Chan, channelBitWidth, address, order);
      var low, a2 := Take(BankLow, bankBitWidth - bankgroupBitWidth, a1, order[1..]);
      var group, a3 := Take(BankGroup, bankgroupBitWidth, a2, order[2..]);
      var row, a4 := Take(Row, rowBitWidth, a3, order[3..]);
      var col, a5 := Take(Col, colHighBitWidth, a4, order[4..]);
      var rank, a6 := Take(Rank, rankBitWidth, a5, order[5..]);
      ghost var ds := Digits(Bits().Widths(order), address);
      assert ds == [chan, low, group, row, col, rank];
      p := Place(chan, rank, low + group * Pow2(bankBitWidth - bankgroupBitWidth), row, col);
      SchemesAreComplete(11);
      GatheredSix(Bits(), order, ds, p, low, group);
    }

    /**
     * Every field is a slice of the address, each above the one before in the order that the scheme gives
     * them, the first above the bits of a burst. An unknown scheme ends the simulation; None stands for that
     * exit.
     */
    method AddressMapping(address: nat) returns (p: Option<Place>)
      requires Valid()
      ensures p == if 1 <= scheme <= 11 then Some(Mapped(Bits(), scheme, address)) else None
      ensures p.Some? ==>
                var g := Bits(); var low := g.byteOffset + g.colLow; var p := p.value;
                && (scheme == 1 ==> p == PlaceAt(g, address, bank := low, col := low + g.bank,
                      row := low + g.bank + g.colHigh, rank := low + g.bank + g.colHigh + g.row,
                      chan := low + g.bank + g.colHigh + g.row + g.rank))
                && (scheme == 2 ==> p == PlaceAt(g, address, rank := low, bank := low + g.rank,
                      col := low + g.rank + g.bank, row := low + g.rank + g.bank + g.colHigh,
                      chan := low + g.rank + g.bank + g.colHigh + g.row))
                && (scheme == 3 ==> p == PlaceAt(g, address, row := low, col := low + g.row,
                      bank := low + g.row + g.colHigh, rank := low + g.row + g.colHigh + g.bank,
                      chan := low + g.row + g.colHigh + g.bank + g.rank))
                && (scheme == 4 ==> p == PlaceAt(g, address, col := low, row := low + g.colHigh,
                      bank := low + g.colHigh + g.row, rank := low + g.colHigh + g.row + g.bank,
                      chan := low + g.colHigh + g.row + g.bank + g.rank))
                && (scheme == 5 ==> p == PlaceAt(g, address, bank := low, rank := low + g.bank,
                      col := low + g.bank + g.rank, row := low + g.bank + g.rank + g.colHigh,
                      chan := low + g.bank + g.rank + g.colHigh + g.row))
                && (scheme == 6 ==> p == PlaceAt(g, address, col := low, rank := low + g.colHigh,
                      bank := low + g.colHigh + g.rank, row := low + g.colHigh + g.rank + g.bank,
                      chan := low + g.colHigh + g.rank + g.bank + g.row))
                && (scheme == 7 ==> p == PlaceAt(g, address, chan := low, bank := low + g.chan,
                      rank := low + g.chan + g.bank, col := low + g.chan + g.bank + g.rank,
                      row := low + g.chan + g.bank + g.rank + g.colHigh))
                && (scheme == 8 ==> p == PlaceAt(g, address, chan := low, bank := low + g.chan,
                      col := low + g.chan + g.bank, row := low + g.chan + g.bank + g.colHigh,
                      rank := low + g.chan + g.bank + g.colHigh + g.row))
                && (scheme == 9 ==> p == PlaceAt(g, address, chan := low, col := low + g.chan,
                      bank := low + g.chan + g.colHigh, row := low + g.chan + g.colHigh + g.bank,
                      rank := low + g.chan + g.colHigh + g.bank + g.row))
                && (scheme == 10 ==> p == PlaceAt(g, address, bank := low, chan := low + g.bank,
                      col := low + g.bank + g.chan, row := low + g.bank + g.chan + g.colHigh,
                      rank := low + g.bank + g.chan + g.colHigh + g.row))
                && (scheme == 11 ==> p == PlaceAt(g, address, chan := low, bank := low + g.chan,
                      row := low + g.chan + g.bank, col := low + g.chan + g.bank + g.row,
                      rank := low + g.chan + g.bank + g.row + g.colHigh))
    {
      hide Mapped, PlaceAt;
      if scheme < 1 || scheme > 11 {
        return None;
      }
      var q := MapKnown(address);
      p := Some(q);
      FieldsOfScheme(Bits(), scheme, address);
    }

    method MapKnown(address: nat) returns (p: Place)
      requires Valid() && 1 <= scheme <= 11
      ensures p == Mapped(Bits(), scheme, address)
    {
      hide Gathered, Digits, Order;
      var a := ShiftRight(ShiftRight(address, byteOffsetWidth), colLowBitWidth);
      if scheme == 1 {
        p := Scheme1(a);
      } else if scheme == 2 {
        p := Scheme2(a);
      } else if scheme == 3 {
        p := Scheme3(a);
      } else if scheme == 4 {
        p := Scheme4(a);
      } else if scheme == 5 {
        p := Scheme5(a);
      } else if scheme == 6 {
        p := Scheme6(a);
      } else if scheme == 7 {
        p := Scheme7(a);
      } else if scheme == 8 {
        p := Scheme8(a);
      } else if scheme == 9 {
        p := Scheme9(a);
      } else if scheme == 10 {
        p := Scheme10(a);
      } else {
        p := Scheme11(a);
      }
    }
  }
}
