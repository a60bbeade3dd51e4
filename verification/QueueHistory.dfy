/**
 * What a run of the whole system does with the transactions of a rank. Its queue has the history that
 * Scheduling is about, so the accesses that leave it keep the fences and the order of every cell, and every
 * read gets what it would get if the transactions were executed one after the other.
 */
module QueueHistory {
  import opened Dram
  import opened CommandQueueModel
  import opened MemoryControllerModel
  import opened MemorySystemModel
  import opened RankModel
  import opened Runs
  import Scheduling

  // ---------- what is asked of a rank, and what it is given ----------

  /** The commands that these transactions become in the queue of rank `r`. */
  function Commands(locate: nat -> Location, ts: seq<Transaction>, r: nat): seq<BusPacket> {
    if ts == [] then []
    else
      var t := ts[|ts| - 1];
      Commands(locate, ts[..|ts| - 1], r) + if locate(t.address).rank == r then [CommandFor(locate, t)] else []
  }

  function WithFence(ps: seq<BusPacket>): seq<BusPacket> {
    if ps == [] then ps else ps[|ps| - 1 := ps[|ps| - 1].(barrier := true)]
  }

  /** A late barrier is for the rank of the transaction that is queued last. */
  predicate MarksRank(locate: nat -> Location, s: SystemState, r: nat) {
    var queued := s.controller.ledger.queued;
    queued != [] && locate(queued[|queued| - 1].address).rank == r
  }

  /** The accesses of rank `r` that the first `n` events of a run ask for, in order of arrival. */
  function Asked(locate: nat -> Location, states: seq<SystemState>, events: seq<Event>, n: nat, r: nat): seq<BusPacket>
    requires n <= |events| <= |states|
  {
    if n == 0 then []
    else
      var before := Asked(locate, states, events, n - 1, r);
      match events[n - 1]
      case Arrives(t) => before + Commands(locate, [t], r)
      case Marks => if MarksRank(locate, states[n - 1], r) then WithFence(before) else before
      case Cycles(_) => before
  }

  predicate IsAccess(p: BusPacket, r: nat) {
    p.rank == r && (p.busPacketType == READ || p.busPacketType == WRITE)
  }

  function Access(popped: Option<BusPacket>, r: nat): seq<BusPacket> {
    if popped.Some? && IsAccess(popped.value, r) then [popped.value] else []
  }

  /** The accesses of rank `r` that `pop` has handed out in the first `n` events. */
  function Given(events: seq<Event>, n: nat, r: nat): seq<BusPacket>
    requires n <= |events|
  {
    if n == 0 then []
    else
      Given(events, n - 1, r) + match events[n - 1]
                                case Cycles(choice) => Access(choice.popped, r)
                                case _ => []
  }

  // ---------- commands of transactions ----------

  lemma {:induction false} CommandsJoin(locate: nat -> Location, ts: seq<Transaction>, us: seq<Transaction>, r: nat)
    ensures Commands(locate, ts + us, r) == Commands(locate, ts, r) + Commands(locate, us, r)
  {
    if us == [] {
      assert ts + us == ts;
    } else {
      assert (ts + us)[..|ts + us| - 1] == ts + us[..|us| - 1];
      CommandsJoin(locate, ts, us[..|us| - 1], r);
    }
  }

  lemma {:induction false} NoCommands(locate: nat -> Location, ts: seq<Transaction>, r: nat)
    requires forall i | 0 <= i < |ts| :: locate(ts[i].address).rank != r
    ensures Commands(locate, ts, r) == []
  {
    if ts != [] {
      NoCommands(locate, ts[..|ts| - 1], r);
    }
  }

  lemma CommandsOfLast(locate: nat -> Location, ts: seq<Transaction>, t: Transaction, r: nat)
    ensures Commands(locate, ts + [t], r) == Commands(locate, ts, r) + Commands(locate, [t], r)
    ensures Commands(locate, [t], r) == if locate(t.address).rank == r then [CommandFor(locate, t)] else []
  {
    CommandsJoin(locate, ts, [t], r);
    assert [t][..0] == [];
  }

  /** The transaction that is scheduled is the first of its rank. */
  lemma {:induction false} FirstOfItsRank(c: Config, locate: nat -> Location, queued: seq<Transaction>,
                                          queues: seq<seq<BusPacket>>, i: nat)
    requires Inputs(c, locate) && |queues| == c.numRanks && i <= |queued|
    ensures var n := FirstWithRoom(c, locate, queued, queues, i);
            n < |queued| ==> forall k | i <= k < n :: locate(queued[k].address).rank != locate(queued[n].address).rank
    decreases |queued| - i
  {
    if i < |queued| && !(c.queueDepth - |queues[locate(queued[i].address).rank]| >= 1) {
      FirstOfItsRank(c, locate, queued, queues, i + 1);
      RoomWhereFound(c, locate, queued, queues, i + 1);
    }
  }

  lemma {:induction false} RoomWhereFound(c: Config, locate: nat -> Location, queued: seq<Transaction>,
                                          queues: seq<seq<BusPacket>>, i: nat)
    requires Inputs(c, locate) && |queues| == c.numRanks && i <= |queued|
    ensures var n := FirstWithRoom(c, locate, queued, queues, i);
            n < |queued| ==> c.queueDepth - |queues[locate(queued[n].address).rank]| >= 1
    decreases |queued| - i
  {
    if i < |queued| && !(c.queueDepth - |queues[locate(queued[i].address).rank]| >= 1) {
      RoomWhereFound(c, locate, queued, queues, i + 1);
    }
  }

  // ---------- the history of a queue ----------

  /** These events of the queue of rank `r` account for all that was asked of the rank and all it was given. */
  ghost predicate Accounts(history: seq<Scheduling.QueueEvent>, queue: seq<BusPacket>, left: seq<BusPacket>,
                           asked: seq<BusPacket>, given: seq<BusPacket>)
  {
    && Scheduling.Outcome(history).Some?
    && var h := Scheduling.Outcome(history).value;
       && Scheduling.Packets(h.arrivals, h.waiting) == queue
       && Scheduling.Packets(h.arrivals, h.issued) == given
       && h.arrivals + left == asked
  }

  lemma MoreArrivals(arrivals: seq<BusPacket>, p: BusPacket, ids: seq<nat>)
    requires forall k | 0 <= k < |ids| :: ids[k] < |arrivals|
    ensures Scheduling.Packets(arrivals + [p], ids) == Scheduling.Packets(arrivals, ids)
    ensures Scheduling.Packets(arrivals + [p], ids + [|arrivals|]) == Scheduling.Packets(arrivals, ids) + [p]
  {
    var all := arrivals + [p];
    forall k | 0 <= k < |ids|
      ensures Scheduling.Packets(all, ids)[k] == Scheduling.Packets(arrivals, ids)[k]
    {
      assert all[ids[k]] == arrivals[ids[k]];
    }
  }

  /** The next command to arrive is enqueued. */
  lemma Enqueues(history: seq<Scheduling.QueueEvent>, queue: seq<BusPacket>, p: BusPacket, left: seq<BusPacket>,
                 asked: seq<BusPacket>, given: seq<BusPacket>)
    requires Accounts(history, queue, [p] + left, asked, given)
    ensures Accounts(history + [Scheduling.Enqueued(p)], queue + [p], left, asked, given)
  {
    var more := history + [Scheduling.Enqueued(p)];
    assert more[..|history|] == history;
    var h := Scheduling.Outcome(history).value;
    assert Scheduling.Outcome(more).value == Scheduling.Next(h, Scheduling.Enqueued(p));
    MoreArrivals(h.arrivals, p, h.waiting);
    MoreArrivals(h.arrivals, p, h.issued);
    assert h.arrivals + [p] + left == h.arrivals + ([p] + left);
  }

  /** A queued command is given out. */
  lemma Issues(history: seq<Scheduling.QueueEvent>, queue: seq<BusPacket>, i: nat, left: seq<BusPacket>,
               asked: seq<BusPacket>, given: seq<BusPacket>)
    requires Accounts(history, queue, left, asked, given) && i < |queue| && Free(queue, i)
    ensures Accounts(history + [Scheduling.Issued(i)], Without(queue, i), left, asked, given + [queue[i]])
  {
    var more := history + [Scheduling.Issued(i)];
    assert more[..|history|] == history;
    var h := Scheduling.Outcome(history).value;
    var h' := Scheduling.Outcome(more).value;
    assert h' == Scheduling.Next(h, Scheduling.Issued(i));
    assert queue[i] == h.arrivals[h.waiting[i]];
    forall k | 0 <= k < |queue| - 1
      ensures Scheduling.Packets(h'.arrivals, h'.waiting)[k] == Without(queue, i)[k]
    {
      var j := if k < i then k else k + 1;
      assert Scheduling.Packets(h.arrivals, h.waiting)[j] == queue[j];
    }
    assert Scheduling.Packets(h'.arrivals, h'.waiting) == Without(queue, i);
    forall k | 0 <= k < |given| + 1
      ensures Scheduling.Packets(h'.arrivals, h'.issued)[k] == (given + [queue[i]])[k]
    {
      assert k < |given| ==> Scheduling.Packets(h.arrivals, h.issued)[k] == given[k];
    }
  }

  /** What `pop` does to the queue of a rank is a possible issue of the access that it hands out. */
  lemma PopIsHistory(c: Config, table: seq<seq<BankState>>, modes: seq<DramMode>, clock: int,
                     queues: seq<seq<BusPacket>>, p: BusPacket, queues': seq<seq<BusPacket>>, r: nat,
                     history: seq<Scheduling.QueueEvent>, left: seq<BusPacket>, asked: seq<BusPacket>,
                     given: seq<BusPacket>)
    returns (longer: seq<Scheduling.QueueEvent>)
    requires TableShape(c, table) && |modes| == |queues| == |queues'| == c.numRanks && r < c.numRanks
    requires MayIssue(c, table, modes, clock, queues, p, queues') && Accounts(history, queues[r], left, asked, given)
    ensures history <= longer && Accounts(longer, queues'[r], left, asked, given + Access(Some(p), r))
  {
    hide Accounts;
    longer := history;
    if p.busPacketType == READ || p.busPacketType == WRITE {
      var i :| 0 <= i < |queues[p.rank]| && TakenAt(queues, p, i, queues');
      if p.rank == r {
        Issues(history, queues[r], i, left, asked, given);
        longer := history + [Scheduling.Issued(i)];
      }
    }
    assert given + [] == given;
  }

  lemma CommandsWithout(locate: nat -> Location, queued: seq<Transaction>, i: nat, r: nat)
    requires i < |queued|
    requires locate(queued[i].address).rank == r ==> forall k | 0 <= k < i :: locate(queued[k].address).rank != r
    ensures var p, rest := CommandFor(locate, queued[i]), queued[..i] + queued[i + 1..];
            Commands(locate, queued, r) == (if p.rank == r then [p] else []) + Commands(locate, rest, r)
  {
    var t, ahead, behind := queued[i], queued[..i], queued[i + 1..];
    assert queued == (ahead + [t]) + behind;
    CommandsJoin(locate, ahead + [t], behind, r);
    CommandsOfLast(locate, ahead, t, r);
    CommandsJoin(locate, ahead, behind, r);
    if locate(t.address).rank == r { NoCommands(locate, ahead, r); }
    hide Commands;
  }

  /** It joins the end of the queue of its rank. */
  lemma SchedulingIsHistory(c: Config, locate: nat -> Location, queued: seq<Transaction>, queues: seq<seq<BusPacket>>,
                            r: nat, history: seq<Scheduling.QueueEvent>, asked: seq<BusPacket>, given: seq<BusPacket>)
    returns (longer: seq<Scheduling.QueueEvent>)
    requires Inputs(c, locate) && |queues| == c.numRanks && r < c.numRanks
    requires Accounts(history, queues[r], Commands(locate, queued, r), asked, given)
    ensures var (queued', queues') := AfterScheduling(c, locate, queued, queues);
            && |queues'| == c.numRanks && history <= longer
            && Accounts(longer, queues'[r], Commands(locate, queued', r), asked, given)
  {
    var i := FirstWithRoom(c, locate, queued, queues, 0);
    longer := history;
    if i < |queued| {
      FirstOfItsRank(c, locate, queued, queues, 0);
      CommandsWithout(locate, queued, i, r);
      assert AfterScheduling(c, locate, queued, queues)
          == (queued[..i] + queued[i + 1..],
              var p := CommandFor(locate, queued[i]); queues[p.rank := queues[p.rank] + [p]]);
      hide Accounts, Commands, FirstWithRoom, AfterScheduling;
      var p, rest := CommandFor(locate, queued[i]), queued[..i] + queued[i + 1..];
      if p.rank == r {
        Enqueues(history, queues[r], p, Commands(locate, rest, r), asked, given);
        longer := history + [Scheduling.Enqueued(p)];
      } else {
        assert [] + Commands(locate, rest, r) == Commands(locate, rest, r);
      }
    }
  }

  // ---------- the steps of a run ----------

  /** What the pop of a cycle does to the queues. */
  function Popped(s: SystemState, choice: Choice): seq<seq<BusPacket>> {
    if choice.popped.None? then s.controller.queues else choice.queues
  }

  lemma CycleQueues(c: Config, locate: nat -> Location, s: SystemState, choice: Choice)
    requires Inputs(c, locate) && SystemShape(c, s) && Allowed(c, s, choice) && Cycle(c, locate, s, choice).Success?
    ensures |Popped(s, choice)| == c.numRanks
    ensures choice.popped.Some? ==>
              exists table: seq<seq<BankState>>, modes: seq<DramMode> ::
                && TableShape(c, table) && |modes| == c.numRanks
                && MayIssue(c, table, modes, s.clock, s.controller.queues, choice.popped.value, choice.queues)
    ensures var s' := Cycle(c, locate, s, choice).value;
            (s'.controller.ledger.queued, s'.controller.queues)
            == AfterScheduling(c, locate, s.controller.ledger.queued, Popped(s, choice))
  {
    hide AfterIssueTable, MayIssue, TickTable, Receive, Accepts, WriteBusTick, FirstWithRoom;
    var t := AfterRanks(c, s);
    QueuedKept(c, s.ranks, s.controller.ledger, 0);
    QueuesKept(c, t.controller, t.ranks, s.clock, choice.pimMode);
    hide BeforePop;
    var before := BeforePop(c, t.controller, t.ranks, s.clock, choice.pimMode).value;
    if choice.popped.Some? {
      assert Admissible(c, before.0, Modes(before.1), s.clock, choice);
    }
    AfterPopQueues(c, locate, before.0, s.clock, choice);
  }

  lemma QueuesKept(c: Config, s: ControllerState, ranks: seq<RankState>, clock: int, pimMode: DramMode)
    requires c.Valid() && Shaped(c, s, ranks)
    ensures var r := BeforePop(c, s, ranks, clock, pimMode);
            r.Success? ==> r.value.0.queues == s.queues && r.value.0.ledger.queued == s.ledger.queued
  {
    hide TickTable, Receive, Accepts, WriteBusTick;
  }

  lemma AfterPopQueues(c: Config, locate: nat -> Location, s: ControllerState, clock: int, choice: Choice)
    requires Inputs(c, locate) && |s.queues| == |choice.queues| == c.numRanks
    ensures var r := AfterPop(c, locate, s, clock, choice);
            var queues := if choice.popped.None? then s.queues else choice.queues;
            r.Success? ==>
              (r.value.ledger.queued, r.value.queues) == AfterScheduling(c, locate, s.ledger.queued, queues)
  {
    hide AfterIssueTable, FirstWithRoom;
  }

  lemma CycleIsHistory(c: Config, locate: nat -> Location, s: SystemState, choice: Choice, r: nat,
                       history: seq<Scheduling.QueueEvent>, asked: seq<BusPacket>, given: seq<BusPacket>)
    returns (longer: seq<Scheduling.QueueEvent>)
    requires Inputs(c, locate) && SystemShape(c, s) && Allowed(c, s, choice) && Cycle(c, locate, s, choice).Success?
    requires r < c.numRanks
    requires Accounts(history, s.controller.queues[r], Commands(locate, s.controller.ledger.queued, r), asked, given)
    ensures var s' := Cycle(c, locate, s, choice).value;
            && |s'.controller.queues| == c.numRanks && history <= longer
            && Accounts(longer, s'.controller.queues[r], Commands(locate, s'.controller.ledger.queued, r), asked,
                        given + Access(choice.popped, r))
  {
    CycleQueues(c, locate, s, choice);
    hide Accounts, Cycle, MayIssue, AfterScheduling, Allowed;
    var queues, left := Popped(s, choice), Commands(locate, s.controller.ledger.queued, r);
    if choice.popped.Some? {
      var p := choice.popped.value;
      var table, modes :| TableShape(c, table) && |modes| == c.numRanks
                          && MayIssue(c, table, modes, s.clock, s.controller.queues, p, choice.queues);
      longer := PopIsHistory(c, table, modes, s.clock, s.controller.queues, p, queues, r, history, left, asked, given);
    } else {
      longer := history;
      assert given + [] == given;
    }
    longer := SchedulingIsHistory(c, locate, s.controller.ledger.queued, queues, r, longer, asked,
                                  given + Access(choice.popped, r));
  }

  lemma ArrivalIsAsked(locate: nat -> Location, s: SystemState, t: Transaction, r: nat, asked: seq<BusPacket>,
                       given: seq<BusPacket>, history: seq<Scheduling.QueueEvent>)
    requires r < |s.controller.queues|
    requires Accounts(history, s.controller.queues[r], Commands(locate, s.controller.ledger.queued, r), asked, given)
    ensures Accounts(history, s.controller.queues[r],
                     Commands(locate, WithTransaction(s, t).controller.ledger.queued, r),
                     asked + Commands(locate, [t], r), given)
  {
    CommandsJoin(locate, s.controller.ledger.queued, [t], r);
  }

  /** A late barrier falls on what was asked last of its rank. */
  lemma BarrierIsAsked(locate: nat -> Location, s: SystemState, r: nat, asked: seq<BusPacket>, given: seq<BusPacket>,
                       history: seq<Scheduling.QueueEvent>)
    requires r < |s.controller.queues|
    requires Accounts(history, s.controller.queues[r], Commands(locate, s.controller.ledger.queued, r), asked, given)
    ensures Accounts(history, s.controller.queues[r], Commands(locate, WithBarrier(s).controller.ledger.queued, r),
                     if MarksRank(locate, s, r) then WithFence(asked) else asked, given)
  {
    hide Commands, Scheduling.Outcome, Scheduling.Packets;
    var queued := s.controller.ledger.queued;
    if queued != [] {
      var front, last := queued[..|queued| - 1], queued[|queued| - 1];
      var marked := last.(barrier := true);
      assert queued == front + [last] && WithBarrier(s).controller.ledger.queued == front + [marked];
      CommandsOfLast(locate, front, last, r);
      CommandsOfLast(locate, front, marked, r);
      assert CommandFor(locate, marked) == CommandFor(locate, last).(barrier := true);
      if MarksRank(locate, s, r) {
        assert asked == Scheduling.Outcome(history).value.arrivals + Commands(locate, front, r)
                      + [CommandFor(locate, last)];
      }
    }
  }

  lemma FreshQueues(c: Config, locate: nat -> Location, r: nat)
    requires r < c.numRanks
    ensures var s := InitialSystem(c).controller;
            |s.queues| == c.numRanks && Accounts([], s.queues[r], Commands(locate, s.ledger.queued, r), [], [])
  {
    assert Scheduling.Packets([], []) == [];
  }

  /** Nothing is given before it is asked for. */
  predicate Timely(locate: nat -> Location, states: seq<SystemState>, events: seq<Event>, n: nat, r: nat, ids: seq<nat>)
    requires n <= |events| <= |states|
  {
    && |ids| == |Given(events, n, r)|
    && forall j, k | 0 <= j < n && |Given(events, j, r)| <= k < |Given(events, j + 1, r)| && k < |ids| ::
         ids[k] < |Asked(locate, states, events, j, r)|
  }

  lemma TimelyAtFirst(locate: nat -> Location, states: seq<SystemState>, events: seq<Event>, r: nat)
    requires |events| <= |states|
    ensures Timely(locate, states, events, 0, r, Scheduling.Outcome([]).value.issued)
  {
  }

  lemma {:induction false} LongerHistory(history: seq<Scheduling.QueueEvent>, longer: seq<Scheduling.QueueEvent>)
    requires history <= longer && Scheduling.Outcome(longer).Some?
    ensures Scheduling.Outcome(history).Some?
    ensures Scheduling.Outcome(history).value.issued <= Scheduling.Outcome(longer).value.issued
  {
    if |history| == |longer| {
      assert history == longer;
    } else {
      assert history <= longer[..|longer| - 1];
      LongerHistory(history, longer[..|longer| - 1]);
    }
  }

  lemma {:induction false} GivenGrows(events: seq<Event>, m: nat, n: nat, r: nat)
    requires m <= n <= |events|
    ensures |Given(events, m, r)| <= |Given(events, n, r)|
    decreases n
  {
    if m < n { GivenGrows(events, m, n - 1, r); }
  }

  lemma StaysTimely(locate: nat -> Location, states: seq<SystemState>, events: seq<Event>, n: nat, r: nat,
                    history: seq<Scheduling.QueueEvent>, longer: seq<Scheduling.QueueEvent>, queue: seq<BusPacket>,
                    left: seq<BusPacket>)
    requires n < |events| <= |states| && history <= longer && Scheduling.Outcome(history).Some?
    requires Timely(locate, states, events, n, r, Scheduling.Outcome(history).value.issued)
    requires Accounts(longer, queue, left, Asked(locate, states, events, n + 1, r), Given(events, n + 1, r))
    requires |Asked(locate, states, events, n + 1, r)| == |Asked(locate, states, events, n, r)|
             || |Given(events, n + 1, r)| == |Given(events, n, r)|
    ensures Timely(locate, states, events, n + 1, r, Scheduling.Outcome(longer).value.issued)
  {
    LongerHistory(history, longer);
    hide Asked, Given, Scheduling.Outcome;
    var was, h := Scheduling.Outcome(history).value.issued, Scheduling.Outcome(longer).value;
    assert |Scheduling.Packets(h.arrivals, h.issued)| == |h.issued|;
    forall j, k | 0 <= j < n + 1 && |Given(events, j, r)| <= k < |Given(events, j + 1, r)| && k < |h.issued|
      ensures h.issued[k] < |Asked(locate, states, events, j, r)|
    {
      if j < n {
        GivenGrows(events, j + 1, n, r);
        assert was[k] == h.issued[k];
      } else {
        assert h.issued[k] < |h.arrivals|;
      }
    }
  }

  lemma KeptTimely(locate: nat -> Location, states: seq<SystemState>, events: seq<Event>, n: nat, r: nat,
                   history: seq<Scheduling.QueueEvent>, longer: seq<Scheduling.QueueEvent>, queue: seq<BusPacket>,
                   left: seq<BusPacket>, queue': seq<BusPacket>, left': seq<BusPacket>)
    requires n < |events| <= |states| && history <= longer
    requires Accounts(history, queue, left, Asked(locate, states, events, n, r), Given(events, n, r))
    requires Timely(locate, states, events, n, r, Scheduling.Outcome(history).value.issued)
    requires Accounts(longer, queue', left', Asked(locate, states, events, n + 1, r), Given(events, n + 1, r))
    ensures Timely(locate, states, events, n + 1, r, Scheduling.Outcome(longer).value.issued)
  {
    assert |Asked(locate, states, events, n + 1, r)| == |Asked(locate, states, events, n, r)|
           || |Given(events, n + 1, r)| == |Given(events, n, r)|;
    hide Timely, Asked, Given;
    StaysTimely(locate, states, events, n, r, history, longer, queue', left');
  }

  /**
   * In every state of every run, the queue of a rank has a history in which the arrivals, followed by what
   * still waits to be scheduled, are what was asked of the rank, and the issues are what `pop` has given it.
   */
  lemma {:induction false} QueueHasHistory(c: Config, locate: nat -> Location, states: seq<SystemState>,
                                           events: seq<Event>, n: nat, r: nat)
    returns (history: seq<Scheduling.QueueEvent>)
    requires Inputs(c, locate) && IsRun(c, locate, states, events) && n <= |events| && r < c.numRanks
    ensures |states[n].controller.queues| == c.numRanks
    ensures var s := states[n].controller;
            Accounts(history, s.queues[r], Commands(locate, s.ledger.queued, r),
                     Asked(locate, states, events, n, r), Given(events, n, r))
    ensures Timely(locate, states, events, n, r, Scheduling.Outcome(history).value.issued)
    decreases n
  {
    hide Accounts, Cycle, Allowed, Fittingly, InitialSystem, Commands, Timely, Scheduling.Outcome;
    if n == 0 {
      history := [];
      FreshQueues(c, locate, r);
      TimelyAtFirst(locate, states, events, r);
    } else {
      history := QueueHasHistory(c, locate, states, events, n - 1, r);
      var s, asked, given := states[n - 1], Asked(locate, states, events, n - 1, r), Given(events, n - 1, r);
      assert IsStep(c, locate, s, events[n - 1], states[n - 1 + 1]);
      var was := history;
      match events[n - 1] {
        case Arrives(t) =>
          ArrivalIsAsked(locate, s, t, r, asked, given, history);
          assert given + [] == given;
        case Marks =>
          BarrierIsAsked(locate, s, r, asked, given, history);
          assert given + [] == given;
        case Cycles(choice) =>
          history := CycleIsHistory(c, locate, s, choice, r, history, asked, given);
      }
      var s' := states[n].controller;
      KeptTimely(locate, states, events, n - 1, r, was, history, s.controller.queues[r],
                 Commands(locate, s.controller.ledger.queued, r), s'.queues[r], Commands(locate, s'.ledger.queued, r));
    }
  }

  // ---------- what follows for runs ----------

  /** Every access that is given is one that was asked for, and no request is given twice. */
  predicate Answers(asked: seq<BusPacket>, given: seq<BusPacket>, ids: seq<nat>) {
    && |ids| == |given| && Scheduling.Distinct(ids)
    && forall k | 0 <= k < |ids| :: ids[k] < |asked| && given[k] == asked[ids[k]]
  }

  /** Requests for one cell are met in the order in which they were made, and none is met across a barrier. */
  predicate InOrder(asked: seq<BusPacket>, ids: seq<nat>) {
    forall x, y | 0 <= x < y < |asked| && Scheduling.Conflict(asked[x], asked[y]) :: Scheduling.Before(ids, x, y)
  }

  /** Every read gets what it would get if all that was asked before it were executed in order. */
  predicate ReadsInOrder(asked: seq<BusPacket>, given: seq<BusPacket>, ids: seq<nat>)
    requires Answers(asked, given, ids)
  {
    forall k | 0 <= k < |given| ::
      Scheduling.ValueRead(Scheduling.Contents(given[..k]), given[k])
      == Scheduling.ValueRead(Scheduling.Contents(asked[..ids[k]]), given[k])
  }

  lemma HistoryReadsInOrder(history: seq<Scheduling.QueueEvent>, j: nat)
    requires Scheduling.Outcome(history).Some? && j < |Scheduling.Outcome(history).value.issued|
    ensures var h := Scheduling.Outcome(history).value;
            var y, given := h.issued[j], Scheduling.Packets(h.arrivals, h.issued);
            Scheduling.ValueRead(Scheduling.Contents(given[..j]), h.arrivals[y])
            == Scheduling.ValueRead(Scheduling.Contents(h.arrivals[..y]), h.arrivals[y])
  {
    var h := Scheduling.Outcome(history).value;
    var y, given := h.issued[j], Scheduling.Packets(h.arrivals, h.issued);
    Scheduling.ReadsAsInFifo(history, j);
    Scheduling.ReplayIsContents(h.arrivals, h.issued[..j]);
    Scheduling.ReplayIsContents(h.arrivals, Scheduling.FirstIn(y));
    assert Scheduling.Packets(h.arrivals, h.issued[..j]) == given[..j];
    assert Scheduling.Packets(h.arrivals, Scheduling.FirstIn(y)) == h.arrivals[..y];
  }

  lemma AnswersInOrder(history: seq<Scheduling.QueueEvent>, queue: seq<BusPacket>, left: seq<BusPacket>,
                       asked: seq<BusPacket>, given: seq<BusPacket>)
    requires Accounts(history, queue, left, asked, given)
    ensures var ids := Scheduling.Outcome(history).value.issued;
            Answers(asked, given, ids) && InOrder(asked, ids) && ReadsInOrder(asked, given, ids)
  {
    Scheduling.RunIsSound(history);
    var h := Scheduling.Outcome(history).value;
    forall k | 0 <= k < |h.issued|
      ensures h.issued[k] < |asked| && given[k] == asked[h.issued[k]]
    {
      assert given[k] == h.arrivals[h.issued[k]] == asked[h.issued[k]];
    }
    forall x, y | 0 <= x < y < |asked| && Scheduling.Conflict(asked[x], asked[y])
      ensures Scheduling.Before(h.issued, x, y)
    {
      if y < |h.arrivals| {
        assert asked[x] == h.arrivals[x] && asked[y] == h.arrivals[y];
      }
    }
    forall k | 0 <= k < |given|
      ensures Scheduling.ValueRead(Scheduling.Contents(given[..k]), given[k])
           == Scheduling.ValueRead(Scheduling.Contents(asked[..h.issued[k]]), given[k])
    {
      HistoryReadsInOrder(history, k);
      assert asked[..h.issued[k]] == h.arrivals[..h.issued[k]];
    }
  }

  lemma DrainedContents(history: seq<Scheduling.QueueEvent>, asked: seq<BusPacket>, given: seq<BusPacket>)
    requires Accounts(history, [], [], asked, given)
    ensures Scheduling.Contents(given) == Scheduling.Contents(asked)
  {
    var h := Scheduling.Outcome(history).value;
    assert |h.waiting| == |Scheduling.Packets(h.arrivals, h.waiting)| == 0;
    Scheduling.DrainedAsInFifo(history);
    Scheduling.ReplayIsContents(h.arrivals, h.issued);
    Scheduling.ReplayIsContents(h.arrivals, Scheduling.FirstIn(|h.arrivals|));
    assert Scheduling.Packets(h.arrivals, Scheduling.FirstIn(|h.arrivals|)) == h.arrivals == asked;
  }

  /**
   * In every run, `pop` gives a rank what was asked of it, each request at most once and none lost, in an
   * order that keeps barriers and the order of accesses to a cell, so that every read gets the data of
   * execution in order of arrival; and once nothing waits, the cells hold what such an execution leaves.
   */
  lemma RunAnswers(c: Config, locate: nat -> Location, states: seq<SystemState>, events: seq<Event>, n: nat, r: nat)
    returns (ids: seq<nat>)
    requires Inputs(c, locate) && IsRun(c, locate, states, events) && n <= |events| && r < c.numRanks
    ensures var asked, given := Asked(locate, states, events, n, r), Given(events, n, r);
            Answers(asked, given, ids) && InOrder(asked, ids) && ReadsInOrder(asked, given, ids)
    ensures Timely(locate, states, events, n, r, ids)
    ensures r < |states[n].controller.queues|
    ensures var asked, given := Asked(locate, states, events, n, r), Given(events, n, r);
            var queue, left := states[n].controller.queues[r], Commands(locate, states[n].controller.ledger.queued, r);
            && |asked| == |given| + |queue| + |left|
            && (|asked| == |given| ==> Scheduling.Contents(given) == Scheduling.Contents(asked))
  {
    var history := QueueHasHistory(c, locate, states, events, n, r);
    var asked, given := Asked(locate, states, events, n, r), Given(events, n, r);
    var queue, left := states[n].controller.queues[r], Commands(locate, states[n].controller.ledger.queued, r);
    ids := Scheduling.Outcome(history).value.issued;
    hide Asked, Given, Commands, IsRun, Answers, InOrder, ReadsInOrder, Timely;
    AnswersInOrder(history, queue, left, asked, given);
    Scheduling.NothingIsLost(history);
    if |asked| == |given| {
      DrainedContents(history, asked, given);
    }
  }
}
