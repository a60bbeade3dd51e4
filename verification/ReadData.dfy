/**
 * What a run does with each of its transactions, told by the transactions alone: every access that is issued
 * serves one of them, at the place of its address, and every read finds what the last write to its address
 * before it has stored.
 */
module ReadData {
  import opened Dram
  import opened CommandQueueModel
  import opened MemoryControllerModel
  import opened MemorySystemModel
  import opened Runs
  import opened QueueHistory
  import Scheduling

  // ---------- the two ends of a run ----------

  /** In this event a column access to the rank is issued. */
  ghost predicate Issues(e: Event, r: nat) {
    && e.Cycles? && e.choice.popped.Some?
    && (e.choice.popped.value.busPacketType == READ || e.choice.popped.value.busPacketType == WRITE)
    && e.choice.popped.value.rank == r
  }

  /** The access is issued for the transaction: of its kind, at the place of its address, with its data. */
  ghost predicate Serves(locate: nat -> Location, p: BusPacket, t: Transaction) {
    && p.busPacketType == (if t.transactionType == DATA_READ then READ else WRITE)
    && p.physicalAddress == t.address && p.data == t.data
    && Location(p.rank, p.bank, p.row, p.column) == locate(t.address)
  }

  /** The data of the last transaction of the first `n` events that writes to the address; else `blank`. */
  ghost function Stored(events: seq<Event>, n: nat, address: nat, blank: Burst): Burst
    requires n <= |events|
  {
    if n == 0 then blank
    else
      match events[n - 1]
      case Arrives(t) =>
        if t.transactionType == DATA_WRITE && t.address == address then t.data
        else Stored(events, n - 1, address, blank)
      case _ => Stored(events, n - 1, address, blank)
  }

  /** The data of the last WRITE to a place that is issued in the first `n` events; else `blank`. */
  ghost function Held(events: seq<Event>, n: nat, place: Location, blank: Burst): Burst
    requires n <= |events|
  {
    if n == 0 then blank
    else
      match events[n - 1]
      case Cycles(choice) =>
        if choice.popped.Some? && choice.popped.value.busPacketType == WRITE
           && Location(choice.popped.value.rank, choice.popped.value.bank, choice.popped.value.row,
                       choice.popped.value.column) == place
        then choice.popped.value.data
        else Held(events, n - 1, place, blank)
      case _ => Held(events, n - 1, place, blank)
  }

  /** These arrivals are different, and the first is the earlier one if they are of one address or one is a barrier. */
  ghost predicate InTurn(events: seq<Event>, a: nat, b: nat) {
    && a < |events| && b < |events| && events[a].Arrives? && events[b].Arrives? && a != b
    && (events[a].t.address == events[b].t.address || events[a].t.barrier || events[b].t.barrier ==> a < b)
  }

  /** Different addresses that are asked for lie in different places. */
  ghost predicate Apart(locate: nat -> Location, events: seq<Event>) {
    forall i, k | 0 <= i < |events| && 0 <= k < |events| && events[i].Arrives? && events[k].Arrives? ::
      locate(events[i].t.address) == locate(events[k].t.address) ==> events[i].t.address == events[k].t.address
  }

  // ---------- where requests come from ----------

  /** The arrivals of a rank among the first `n` events. */
  ghost function Arrivals(locate: nat -> Location, events: seq<Event>, n: nat, r: nat): seq<nat>
    requires n <= |events|
  {
    if n == 0 then []
    else
      Arrivals(locate, events, n - 1, r) +
      if events[n - 1].Arrives? && locate(events[n - 1].t.address).rank == r then [n - 1] else []
  }

  /** The request is that of the transaction, but for a barrier that came late. */
  ghost predicate Requests(locate: nat -> Location, p: BusPacket, t: Transaction) {
    Serves(locate, p, t) && (t.barrier ==> p.barrier)
  }

  ghost predicate Sourced(locate: nat -> Location, events: seq<Event>, n: nat, at: seq<nat>, asked: seq<BusPacket>)
    requires n <= |events|
  {
    && |at| == |asked|
    && (forall x | 0 <= x < |at| ::
          at[x] < n && events[at[x]].Arrives? && Requests(locate, asked[x], events[at[x]].t))
    && (forall x, y | 0 <= x < y < |at| :: at[x] < at[y])
  }

  lemma OneMoreSource(locate: nat -> Location, events: seq<Event>, n: nat, at: seq<nat>, asked: seq<BusPacket>)
    requires n < |events| && Sourced(locate, events, n, at, asked) && events[n].Arrives?
    ensures Sourced(locate, events, n + 1, at + [n], asked + [CommandFor(locate, events[n].t)])
  {
    var at', asked' := at + [n], asked + [CommandFor(locate, events[n].t)];
    forall x | 0 <= x < |at'|
      ensures at'[x] < n + 1 && events[at'[x]].Arrives? && Requests(locate, asked'[x], events[at'[x]].t)
    {
      assert x < |at| ==> Requests(locate, asked[x], events[at[x]].t);
    }
  }

  lemma FencedSource(locate: nat -> Location, events: seq<Event>, n: nat, at: seq<nat>, asked: seq<BusPacket>)
    requires n <= |events| && Sourced(locate, events, n, at, asked)
    ensures Sourced(locate, events, n, at, WithFence(asked))
  {
    forall x | 0 <= x < |at|
      ensures Requests(locate, WithFence(asked)[x], events[at[x]].t)
    {
      assert Requests(locate, asked[x], events[at[x]].t);
    }
  }

  lemma StillSourced(locate: nat -> Location, events: seq<Event>, n: nat, at: seq<nat>, asked: seq<BusPacket>)
    requires n < |events| && Sourced(locate, events, n, at, asked)
    ensures Sourced(locate, events, n + 1, at, asked)
  {
  }

  lemma ArrivalAsks(locate: nat -> Location, states: seq<SystemState>, events: seq<Event>, n: nat, r: nat)
    requires n < |events| <= |states| && events[n].Arrives?
    ensures var t := events[n].t;
            var at, asked := Arrivals(locate, events, n, r), Asked(locate, states, events, n, r);
            var at', asked' := Arrivals(locate, events, n + 1, r), Asked(locate, states, events, n + 1, r);
            if locate(t.address).rank == r then at' == at + [n] && asked' == asked + [CommandFor(locate, t)]
            else at' == at && asked' == asked
  {
    var t := events[n].t;
    CommandsOfLast(locate, [], t, r);
    assert [] + [t] == [t];
    var at, asked := Arrivals(locate, events, n, r), Asked(locate, states, events, n, r);
    assert at + [] == at && asked + [] == asked;
  }

  lemma OthersAsk(locate: nat -> Location, states: seq<SystemState>, events: seq<Event>, n: nat, r: nat)
    requires n < |events| <= |states| && !events[n].Arrives?
    ensures Arrivals(locate, events, n + 1, r) == Arrivals(locate, events, n, r)
    ensures var asked, asked' := Asked(locate, states, events, n, r), Asked(locate, states, events, n + 1, r);
            asked' == asked || asked' == WithFence(asked)
  {
    var at := Arrivals(locate, events, n, r);
    assert at + [] == at;
  }

  /** The arrivals of a rank are the sources of what was asked of it. */
  lemma {:induction false} AskedIsSourced(locate: nat -> Location, states: seq<SystemState>, events: seq<Event>, n: nat,
                                          r: nat)
    requires n <= |events| <= |states|
    ensures Sourced(locate, events, n, Arrivals(locate, events, n, r), Asked(locate, states, events, n, r))
  {
    if n > 0 {
      AskedIsSourced(locate, states, events, n - 1, r);
      hide Sourced, Asked, Arrivals, WithFence, CommandFor;
      var at, asked := Arrivals(locate, events, n - 1, r), Asked(locate, states, events, n - 1, r);
      StillSourced(locate, events, n - 1, at, asked);
      if events[n - 1].Arrives? {
        ArrivalAsks(locate, states, events, n - 1, r);
        OneMoreSource(locate, events, n - 1, at, asked);
      } else {
        OthersAsk(locate, states, events, n - 1, r);
        FencedSource(locate, events, n, at, asked);
      }
    }
  }

  // ---------- what cells hold ----------

  ghost function CellOf(place: Location): Scheduling.Cell {
    Scheduling.Cell(place.bank, place.row, place.column)
  }

  ghost function Content(m: Scheduling.Memory, place: Location, blank: Burst): Burst {
    if CellOf(place) in m then m[CellOf(place)] else blank
  }

  /** The accesses given to a rank leave in a cell what the run holds there. */
  lemma {:induction false} GivenIsHeld(events: seq<Event>, n: nat, place: Location, blank: Burst)
    requires n <= |events| && place.row / 0x2000 % 2 == 0
    ensures Content(Scheduling.Contents(Given(events, n, place.rank)), place, blank) == Held(events, n, place, blank)
  {
    if n > 0 {
      GivenIsHeld(events, n - 1, place, blank);
      var before := Given(events, n - 1, place.rank);
      match events[n - 1] {
        case Cycles(choice) =>
          if choice.popped.Some? && IsAccess(choice.popped.value, place.rank) {
            assert (before + [choice.popped.value])[..|before|] == before;
          } else {
            assert before + [] == before;
          }
        case _ => assert before + [] == before;
      }
    }
  }

  /** Barriers play no part in what cells hold. */
  ghost predicate SameWrites(ps: seq<BusPacket>, qs: seq<BusPacket>) {
    |ps| == |qs| && forall i | 0 <= i < |ps| :: qs[i] == ps[i].(barrier := qs[i].barrier)
  }

  lemma {:induction false} SameWritesSameContents(ps: seq<BusPacket>, qs: seq<BusPacket>)
    requires SameWrites(ps, qs)
    ensures Scheduling.Contents(ps) == Scheduling.Contents(qs)
  {
    if ps != [] {
      SameWritesSameContents(ps[..|ps| - 1], qs[..|qs| - 1]);
    }
  }

  /** What was asked of a rank before is asked of it still. */
  lemma {:induction false} AskedBefore(locate: nat -> Location, states: seq<SystemState>, events: seq<Event>, m: nat,
                                       n: nat, r: nat)
    requires m <= n <= |events| <= |states|
    ensures var was, asked := Asked(locate, states, events, m, r), Asked(locate, states, events, n, r);
            |was| <= |asked| && SameWrites(was, asked[..|was|])
    decreases n
  {
    if m < n { AskedBefore(locate, states, events, m, n - 1, r); }
  }

  /** One more request changes the cell of an address as its transaction changes what is stored there. */
  lemma RequestStores(locate: nat -> Location, before: seq<BusPacket>, t: Transaction, address: nat, blank: Burst)
    requires var place := locate(address);
             && locate(t.address).rank == place.rank && place.row / 0x2000 % 2 == 0
             && t.transactionType != RETURN_DATA && (locate(t.address) == place ==> t.address == address)
    ensures var place := locate(address);
            Content(Scheduling.Contents(before + [CommandFor(locate, t)]), place, blank)
            == if t.transactionType == DATA_WRITE && t.address == address then t.data
               else Content(Scheduling.Contents(before), place, blank)
  {
    var p := CommandFor(locate, t);
    var longer := before + [p];
    assert longer[..|longer| - 1] == before;
    assert Scheduling.Contents(longer) == Scheduling.Executed(Scheduling.Contents(before), p);
    assert Scheduling.CellOf(p) == CellOf(locate(address)) <==> t.address == address;
  }

  /** The cell of an address holds, after what was asked of its rank, what was stored at the address. */
  ghost predicate StoredAt(locate: nat -> Location, states: seq<SystemState>, events: seq<Event>, n: nat, address: nat,
                           blank: Burst)
    requires n <= |events| <= |states|
  {
    var place := locate(address);
    Content(Scheduling.Contents(Asked(locate, states, events, n, place.rank)), place, blank)
    == Stored(events, n, address, blank)
  }

  lemma ArrivalStores(locate: nat -> Location, states: seq<SystemState>, events: seq<Event>, n: nat, address: nat,
                      blank: Burst)
    requires n < |events| <= |states| && StoredAt(locate, states, events, n, address, blank)
    requires events[n].Arrives? && events[n].t.transactionType != RETURN_DATA && locate(address).row / 0x2000 % 2 == 0
    requires locate(events[n].t.address) == locate(address) ==> events[n].t.address == address
    ensures StoredAt(locate, states, events, n + 1, address, blank)
  {
    var t, r := events[n].t, locate(address).rank;
    ArrivalAsks(locate, states, events, n, r);
    hide Asked, Content, CommandFor, Scheduling.Contents, Arrivals;
    if locate(t.address).rank == r {
      RequestStores(locate, Asked(locate, states, events, n, r), t, address, blank);
    }
  }

  lemma OthersStore(locate: nat -> Location, states: seq<SystemState>, events: seq<Event>, n: nat, address: nat,
                    blank: Burst)
    requires n < |events| <= |states| && StoredAt(locate, states, events, n, address, blank) && !events[n].Arrives?
    ensures StoredAt(locate, states, events, n + 1, address, blank)
  {
    var r := locate(address).rank;
    OthersAsk(locate, states, events, n, r);
    hide Asked, Content, Scheduling.Contents, Arrivals, WithFence;
    FenceStores(Asked(locate, states, events, n, r));
  }

  /** What was asked of a rank leaves in a cell what was stored at its address. */
  lemma {:induction false} AskedIsStored(locate: nat -> Location, states: seq<SystemState>, events: seq<Event>, n: nat,
                                         i: nat, blank: Burst)
    requires n <= |events| <= |states| && Apart(locate, events) && i < |events| && events[i].Arrives?
    requires locate(events[i].t.address).row / 0x2000 % 2 == 0 && ArrivesOnly(events)
    ensures StoredAt(locate, states, events, n, events[i].t.address, blank)
    decreases n
  {
    if n > 0 {
      AskedIsStored(locate, states, events, n - 1, i, blank);
      hide StoredAt;
      if events[n - 1].Arrives? {
        ArrivalStores(locate, states, events, n - 1, events[i].t.address, blank);
      } else {
        OthersStore(locate, states, events, n - 1, events[i].t.address, blank);
      }
    }
  }

  lemma FenceStores(ps: seq<BusPacket>)
    ensures Scheduling.Contents(WithFence(ps)) == Scheduling.Contents(ps)
  {
    SameWritesSameContents(ps, WithFence(ps));
  }

  // ---------- what is given, and for what ----------

  /** The access that an event issues is the next one given. */
  lemma {:induction false} GivenAt(events: seq<Event>, n: nat, j: nat, r: nat)
    requires j < n <= |events| && Issues(events[j], r)
    ensures var k := |Given(events, j, r)|;
            && k < |Given(events, n, r)| && Given(events, n, r)[k] == events[j].choice.popped.value
            && Given(events, n, r)[..k] == Given(events, j, r)
    decreases n
  {
    var before := Given(events, n - 1, r);
    if j < n - 1 {
      GivenAt(events, n - 1, j, r);
      var k := |Given(events, j, r)|;
      assert Given(events, n, r)[..k] == before[..k];
    } else {
      assert Given(events, n, r)[..|before|] == before;
    }
  }

  lemma OrderGiven(events: seq<Event>, n: nat, i: nat, j: nat, r: nat)
    requires i < j < n <= |events| && Issues(events[i], r) && Issues(events[j], r)
    ensures |Given(events, i, r)| < |Given(events, j, r)|
  {
    GivenAt(events, j, i, r);
  }

  /** For the access issued in event `j`, the event in which its transaction arrived. */
  ghost function SourceOf(at: seq<nat>, ids: seq<nat>, k: nat): nat {
    if k < |ids| && ids[k] < |at| then at[ids[k]] else 0
  }

  ghost predicate ArrivesOnly(events: seq<Event>) {
    forall i | 0 <= i < |events| && events[i].Arrives? :: events[i].t.transactionType != RETURN_DATA
  }

  lemma RunArrives(c: Config, locate: nat -> Location, states: seq<SystemState>, events: seq<Event>)
    requires Inputs(c, locate) && IsRun(c, locate, states, events)
    ensures ArrivesOnly(events) && |states| == |events| + 1
  {
    forall i | 0 <= i < |events| && events[i].Arrives?
      ensures events[i].t.transactionType != RETURN_DATA
    {
      assert IsStep(c, locate, states[i], events[i], states[i + 1]);
    }
  }

  lemma {:induction false} EarlierArrivals(locate: nat -> Location, events: seq<Event>, m: nat, n: nat, r: nat)
    requires m <= n <= |events|
    ensures Arrivals(locate, events, m, r) <= Arrivals(locate, events, n, r)
    decreases n
  {
    if m < n { EarlierArrivals(locate, events, m, n - 1, r); }
  }

  /** What there is to know of one access: its transaction arrived before, and is the one asked for. */
  lemma ServesItsSource(locate: nat -> Location, states: seq<SystemState>, events: seq<Event>, n: nat, r: nat,
                        ids: seq<nat>, j: nat)
    requires j < n <= |events| <= |states| && Issues(events[j], r)
    requires Answers(Asked(locate, states, events, n, r), Given(events, n, r), ids)
    requires Timely(locate, states, events, n, r, ids)
    ensures var at, k := Arrivals(locate, events, n, r), |Given(events, j, r)|;
            var a := SourceOf(at, ids, k);
            && k < |ids| && ids[k] < |at| == |Asked(locate, states, events, n, r)|
            && a == at[ids[k]] && a < j && events[a].Arrives?
            && Serves(locate, events[j].choice.popped.value, events[a].t)
            && Given(events, n, r)[k] == Asked(locate, states, events, n, r)[ids[k]] == events[j].choice.popped.value
  {
    var k := |Given(events, j, r)|;
    GivenAt(events, n, j, r);
    GivenAt(events, j + 1, j, r);
    AskedIsSourced(locate, states, events, n, r);
    AskedIsSourced(locate, states, events, j, r);
    EarlierArrivals(locate, events, j, n, r);
    hide Given, Asked, Arrivals, Issues;
    assert ids[k] < |Asked(locate, states, events, j, r)|;
    var at, early := Arrivals(locate, events, n, r), Arrivals(locate, events, j, r);
    assert at[ids[k]] == early[ids[k]];
  }

  /** Of two requests in conflict, the one that is given first was asked for first. */
  lemma GivenFirstAskedFirst(asked: seq<BusPacket>, given: seq<BusPacket>, ids: seq<nat>, i: nat, j: nat)
    requires Answers(asked, given, ids) && InOrder(asked, ids) && i < j < |ids|
    requires Scheduling.Conflict(asked[ids[i]], asked[ids[j]])
    ensures ids[i] < ids[j]
  {
    var x, y := ids[j], ids[i];
    assert x !in ids[..i];
    assert !Scheduling.Before(ids, x, y);
  }

  /** Two accesses of a rank serve different transactions, in order of arrival if they are in conflict. */
  lemma ServedInOrder(locate: nat -> Location, states: seq<SystemState>, events: seq<Event>, n: nat, r: nat,
                      ids: seq<nat>, i: nat, j: nat)
    requires i < j < n <= |events| <= |states| && Issues(events[i], r) && Issues(events[j], r)
    requires var asked, given := Asked(locate, states, events, n, r), Given(events, n, r);
             Answers(asked, given, ids) && InOrder(asked, ids)
    requires Timely(locate, states, events, n, r, ids)
    ensures var at := Arrivals(locate, events, n, r);
            var a, b := SourceOf(at, ids, |Given(events, i, r)|), SourceOf(at, ids, |Given(events, j, r)|);
            && a < n && b < n && events[a].Arrives? && events[b].Arrives? && a != b
            && (events[a].t.address == events[b].t.address || events[a].t.barrier || events[b].t.barrier ==> a < b)
  {
    ServesItsSource(locate, states, events, n, r, ids, i);
    ServesItsSource(locate, states, events, n, r, ids, j);
    AskedIsSourced(locate, states, events, n, r);
    OrderGiven(events, n, i, j, r);
    hide Given, Asked, Arrivals, Issues, InOrder;
    var asked, given, at := Asked(locate, states, events, n, r), Given(events, n, r), Arrivals(locate, events, n, r);
    var x, y := ids[|Given(events, i, r)|], ids[|Given(events, j, r)|];
    var t, u := events[at[x]].t, events[at[y]].t;
    assert Requests(locate, asked[x], t) && Requests(locate, asked[y], u);
    if t.address == u.address || t.barrier || u.barrier {
      GivenFirstAskedFirst(asked, given, ids, |Given(events, i, r)|, |Given(events, j, r)|);
    }
  }

  lemma {:induction false} ArrivalsBefore(locate: nat -> Location, events: seq<Event>, n: nat, r: nat, x: nat)
    requires n <= |events| && x < |Arrivals(locate, events, n, r)|
    ensures var a := Arrivals(locate, events, n, r)[x]; a < n && |Arrivals(locate, events, a, r)| == x
  {
    if x < |Arrivals(locate, events, n - 1, r)| {
      ArrivalsBefore(locate, events, n - 1, r, x);
    }
  }

  /** What was asked before a request, and what its transaction found asked: the same contents. */
  lemma AskedByThen(locate: nat -> Location, states: seq<SystemState>, events: seq<Event>, n: nat, r: nat, x: nat)
    requires n <= |events| <= |states| && x < |Arrivals(locate, events, n, r)|
    ensures var asked, a := Asked(locate, states, events, n, r), Arrivals(locate, events, n, r)[x];
            && a < n && x < |asked|
            && Scheduling.Contents(asked[..x]) == Scheduling.Contents(Asked(locate, states, events, a, r))
  {
    var a := Arrivals(locate, events, n, r)[x];
    ArrivalsBefore(locate, events, n, r, x);
    AskedIsSourced(locate, states, events, n, r);
    AskedIsSourced(locate, states, events, a, r);
    AskedBefore(locate, states, events, a, n, r);
    hide Asked, Arrivals;
    SameWritesSameContents(Asked(locate, states, events, a, r), Asked(locate, states, events, n, r)[..x]);
  }

  /** A read of an ordinary row finds what the last write to its address before it stored there. */
  lemma ReadsStored(locate: nat -> Location, states: seq<SystemState>, events: seq<Event>, n: nat, r: nat,
                    ids: seq<nat>, j: nat)
    requires j < n <= |events| <= |states| && Issues(events[j], r) && Apart(locate, events) && ArrivesOnly(events)
    requires events[j].choice.popped.value.row / 0x2000 % 2 == 0
    requires var asked, given := Asked(locate, states, events, n, r), Given(events, n, r);
             Answers(asked, given, ids) && ReadsInOrder(asked, given, ids)
    requires Timely(locate, states, events, n, r, ids)
    ensures var a := SourceOf(Arrivals(locate, events, n, r), ids, |Given(events, j, r)|);
            && a < n && events[a].Arrives?
            && var t := events[a].t;
               Held(events, j, locate(t.address), t.data) == Stored(events, a, t.address, t.data)
  {
    ServesItsSource(locate, states, events, n, r, ids, j);
    var asked, given, at := Asked(locate, states, events, n, r), Given(events, n, r), Arrivals(locate, events, n, r);
    var k := |Given(events, j, r)|;
    var a, p := SourceOf(at, ids, k), events[j].choice.popped.value;
    var t := events[a].t;
    GivenAt(events, n, j, r);
    AskedByThen(locate, states, events, n, r, ids[k]);
    assert locate(t.address).rank == r;
    GivenIsHeld(events, j, locate(t.address), t.data);
    AskedIsStored(locate, states, events, a, a, t.data);
    hide Given, Asked, Arrivals, Held, Stored, Scheduling.Contents;
    assert Scheduling.CellOf(p) == CellOf(locate(t.address));
    assert Scheduling.ValueRead(Scheduling.Contents(given[..k]), p)
        == Scheduling.ValueRead(Scheduling.Contents(asked[..ids[k]]), p);
  }

  /**
   * In every run, each access that a rank is given serves a transaction that arrived before it, and no two
   * serve the same one. Transactions of one address, and any two of which one is a barrier, are served in the
   * order in which they arrived. Every read of an ordinary row finds what the last write to its address before
   * it stored there, if different addresses lie in different places.
   */
  lemma RunServes(c: Config, locate: nat -> Location, states: seq<SystemState>, events: seq<Event>, r: nat)
    returns (source: seq<nat>)
    requires Inputs(c, locate) && IsRun(c, locate, states, events) && r < c.numRanks
    ensures |source| == |events|
    ensures forall j | 0 <= j < |events| && Issues(events[j], r) ::
              var a := source[j];
              a < j && events[a].Arrives? && Serves(locate, events[j].choice.popped.value, events[a].t)
    ensures forall i, j | 0 <= i < j < |events| && Issues(events[i], r) && Issues(events[j], r) ::
              InTurn(events, source[i], source[j])
    ensures Apart(locate, events) ==>
              forall j | 0 <= j < |events| && Issues(events[j], r) &&
                         events[j].choice.popped.value.row / 0x2000 % 2 == 0 ::
                source[j] < |events| && events[source[j]].Arrives? &&
                var t := events[source[j]].t;
                Held(events, j, locate(t.address), t.data) == Stored(events, source[j], t.address, t.data)
  {
    var n := |events|;
    var ids := RunAnswers(c, locate, states, events, n, r);
    RunArrives(c, locate, states, events);
    var at := Arrivals(locate, events, n, r);
    source := seq(n, j requires 0 <= j < n => SourceOf(at, ids, |Given(events, j, r)|));
    hide IsRun, Answers, InOrder, ReadsInOrder, Timely, SourceOf, Issues, Serves, Apart, Held, Stored;
    forall j | 0 <= j < n && Issues(events[j], r)
      ensures var a := source[j];
              a < j && events[a].Arrives? && Serves(locate, events[j].choice.popped.value, events[a].t)
    {
      ServesItsSource(locate, states, events, n, r, ids, j);
    }
    forall i, j | 0 <= i < j < n && Issues(events[i], r) && Issues(events[j], r)
      ensures InTurn(events, source[i], source[j])
    {
      ServedInOrder(locate, states, events, n, r, ids, i, j);
    }
    if Apart(locate, events) {
      forall j | 0 <= j < n && Issues(events[j], r) && events[j].choice.popped.value.row / 0x2000 % 2 == 0
        ensures source[j] < n && events[source[j]].Arrives? &&
                var t := events[source[j]].t;
                Held(events, j, locate(t.address), t.data) == Stored(events, source[j], t.address, t.data)
      {
        ReadsStored(locate, states, events, n, r, ids, j);
      }
    }
  }

  // ---------- nothing is lost ----------

  /** How many of the first `n` events issue an access to the rank. */
  ghost function IssueCount(events: seq<Event>, n: nat, r: nat): nat
    requires n <= |events|
  {
    if n == 0 then 0 else IssueCount(events, n - 1, r) + if Issues(events[n - 1], r) then 1 else 0
  }

  /** How many of these transactions are for the rank. */
  ghost function CountFor(locate: nat -> Location, ts: seq<Transaction>, r: nat): nat {
    if ts == [] then 0
    else CountFor(locate, ts[..|ts| - 1], r) + if locate(ts[|ts| - 1].address).rank == r then 1 else 0
  }

  lemma {:induction false} GivenCount(events: seq<Event>, n: nat, r: nat)
    requires n <= |events|
    ensures |Given(events, n, r)| == IssueCount(events, n, r)
  {
    if n > 0 { GivenCount(events, n - 1, r); }
  }

  lemma {:induction false} CommandsCount(locate: nat -> Location, ts: seq<Transaction>, r: nat)
    ensures |Commands(locate, ts, r)| == CountFor(locate, ts, r)
  {
    if ts != [] { CommandsCount(locate, ts[..|ts| - 1], r); }
  }

  /** Every transaction of a rank that has arrived has been served, or is queued, or waits to be. */
  lemma NoneIsLost(c: Config, locate: nat -> Location, states: seq<SystemState>, events: seq<Event>, r: nat)
    requires Inputs(c, locate) && IsRun(c, locate, states, events) && r < c.numRanks
    ensures var s := states[|events|].controller;
            && r < |s.queues|
            && |Arrivals(locate, events, |events|, r)|
               == IssueCount(events, |events|, r) + |s.queues[r]| + CountFor(locate, s.ledger.queued, r)
  {
    var n := |events|;
    var ids := RunAnswers(c, locate, states, events, n, r);
    AskedIsSourced(locate, states, events, n, r);
    GivenCount(events, n, r);
    CommandsCount(locate, states[n].controller.ledger.queued, r);
  }

  // ---------- rows are opened on request ----------

  /** What waits in the queue of a rank has been asked for. */
  lemma QueuedWasAsked(history: seq<Scheduling.QueueEvent>, queue: seq<BusPacket>, left: seq<BusPacket>,
                       asked: seq<BusPacket>, given: seq<BusPacket>, i: nat)
    returns (x: nat)
    requires Accounts(history, queue, left, asked, given) && i < |queue|
    ensures x < |asked| && queue[i] == asked[x]
  {
    var h := Scheduling.Outcome(history).value;
    x := h.waiting[i];
    assert queue[i] == h.arrivals[x] == asked[x];
  }

  lemma OpenedForQueued(c: Config, locate: nat -> Location, s: SystemState, choice: Choice, p: BusPacket)
    returns (i: nat)
    requires Inputs(c, locate) && SystemShape(c, s) && Allowed(c, s, choice) && Cycle(c, locate, s, choice).Success?
    requires choice.popped == Some(p) && p.busPacketType == ACTIVATE
    ensures p.rank < c.numRanks == |s.controller.queues| && i < |s.controller.queues[p.rank]|
    ensures var q := s.controller.queues[p.rank][i];
            && p.physicalAddress == q.physicalAddress
            && (p.rank, p.bank, p.row, p.column) == (q.rank, q.bank, q.row, q.column)
  {
    CycleQueues(c, locate, s, choice);
    hide Cycle, Allowed;
    var table, modes :| TableShape(c, table) && |modes| == c.numRanks
                        && MayIssue(c, table, modes, s.clock, s.controller.queues, p, choice.queues);
    i :| 0 <= i < |s.controller.queues[p.rank]| && p == ActivateFor(s.controller.queues[p.rank][i]);
  }

  /** A row is opened only for a transaction that has arrived before, at the place of its address. */
  lemma ActivateIsAskedFor(c: Config, locate: nat -> Location, states: seq<SystemState>, events: seq<Event>, j: nat,
                           p: BusPacket)
    returns (a: nat)
    requires Inputs(c, locate) && IsRun(c, locate, states, events) && j < |events|
    requires events[j].Cycles? && events[j].choice.popped == Some(p) && p.busPacketType == ACTIVATE
    ensures a < j && events[a].Arrives?
    ensures var t := events[a].t;
            p.physicalAddress == t.address && Location(p.rank, p.bank, p.row, p.column) == locate(t.address)
  {
    assert |states| == |events| + 1;
    assert IsStep(c, locate, states[j], events[j], states[j + 1]);
    hide IsRun, Cycle, Allowed, Fittingly, Accounts, Asked, Given, Arrivals, Commands, CommandFor;
    var i := OpenedForQueued(c, locate, states[j], events[j].choice, p);
    var s, r := states[j].controller, p.rank;
    var history := QueueHasHistory(c, locate, states, events, j, r);
    var asked := Asked(locate, states, events, j, r);
    var x := QueuedWasAsked(history, s.queues[r], Commands(locate, s.ledger.queued, r), asked, Given(events, j, r), i);
    AskedIsSourced(locate, states, events, j, r);
    a := Arrivals(locate, events, j, r)[x];
    assert Requests(locate, asked[x], events[a].t);
  }
}
