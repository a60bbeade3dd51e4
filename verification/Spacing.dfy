/**
 * How far apart the commands of a run are. Every bound is in the parameters themselves: recovery, turnaround,
 * activation and refresh times. Where a bound can be missed, the configurations that keep it are the exact ones.
 */
module Spacing {
  import opened Dram
  import opened CommandQueueModel
  import opened MemoryControllerModel
  import opened MemorySystemModel
  import opened Runs

  // ---------- commands in runs ----------

  /** The event is a cycle in which `pop` hands out the command. */
  ghost predicate Sends(e: Event, p: BusPacket) {
    e.Cycles? && e.choice.popped == Some(p)
  }

  /** In this run, `p` is issued in cycle `t` and `q` after it in cycle `u`. */
  ghost predicate Follow(c: Config, locate: nat -> Location, states: seq<SystemState>, events: seq<Event>,
                         i: nat, p: BusPacket, t: int, j: nat, q: BusPacket, u: int)
    requires c.Valid()
  {
    && Inputs(c, locate) && IsRun(c, locate, states, events) && i < j < |events|
    && Sends(events[i], p) && states[i].clock == t && Sends(events[j], q) && states[j].clock == u
  }

  /** Some run does so. */
  ghost predicate Happens(c: Config, p: BusPacket, t: int, q: BusPacket, u: int)
    requires c.Valid()
  {
    exists locate: nat -> Location, states: seq<SystemState>, events: seq<Event>, i: nat, j: nat ::
      Follow(c, locate, states, events, i, p, t, j, q, u)
  }

  // ---------- one bank over a run ----------

  /** The controller's entry for a bank at some point of a run. */
  ghost function BankIn(s: SystemState, r: nat, b: nat): BankState
    requires r < |s.controller.table| && b < |s.controller.table[r]|
  {
    s.controller.table[r][b]
  }

  ghost predicate Tabled(c: Config, s: SystemState) {
    TableShape(c, s.controller.table)
  }

  /** What one event does to one bank of the table, and what lets a command be issued. */
  ghost predicate BankStep(c: Config, e: Event, clock: int, clock': int, r: nat, b: nat, x: BankState, x': BankState)
    requires c.Valid()
  {
    match e
    case Arrives(_) => x' == x && clock' == clock
    case Marks => x' == x && clock' == clock
    case Cycles(choice) =>
      && clock' == clock + 1
      && if choice.popped.None? then x' == TickBank(x)
         else
           var p := choice.popped.value;
           && x' == AfterIssue(c, p, clock, r, b, TickBank(x))
           && (p.rank == r && p.bank == b ==> exists mode :: Ready(mode, TickBank(x), p, clock))
           && (p.rank == r && p.bank == b && p.busPacketType == PRECHARGE ==> p.row == TickBank(x).openRowAddress)
           && (p.rank == r && p.busPacketType == REF ==> TickBank(x).currentBankState != RowActive)
  }

  lemma CycleOfBank(c: Config, locate: nat -> Location, s: SystemState, choice: Choice, r: nat, b: nat)
    requires Inputs(c, locate) && SystemShape(c, s) && Allowed(c, s, choice) && Cycle(c, locate, s, choice).Success?
    requires r < c.numRanks && b < c.numBanks
    ensures var s' := Cycle(c, locate, s, choice).value;
            && Tabled(c, s') && BankStep(c, Cycles(choice), s.clock, s'.clock, r, b, BankIn(s, r, b), BankIn(s', r, b))
            && (choice.popped.Some? ==> choice.popped.value.rank < c.numRanks && choice.popped.value.bank < c.numBanks)
  {
    var s' := Cycle(c, locate, s, choice).value;
    hide AfterIssue, TickBank, Ready;
    var t := AfterRanks(c, s);
    var before := BeforePop(c, t.controller, t.ranks, s.clock, choice.pimMode).value;
    assert before.0.table == TickTable(s.controller.table);
    assert before.0.table[r][b] == TickBank(BankIn(s, r, b));
    if choice.popped.Some? {
      var p := choice.popped.value;
      assert MayIssue(c, before.0.table, Modes(before.1), s.clock, before.0.queues, p, choice.queues);
      assert s'.controller.table == AfterIssueTable(c, p, s.clock, before.0.table);
      assert BankIn(s', r, b) == AfterIssue(c, p, s.clock, r, b, before.0.table[r][b]);
    }
  }

  lemma StepOfBank(c: Config, locate: nat -> Location, states: seq<SystemState>, events: seq<Event>, i: nat,
                   r: nat, b: nat)
    requires Inputs(c, locate) && IsRun(c, locate, states, events) && i < |events| && r < c.numRanks && b < c.numBanks
    ensures Tabled(c, states[i]) && Tabled(c, states[i + 1])
    ensures BankStep(c, events[i], states[i].clock, states[i + 1].clock, r, b, BankIn(states[i], r, b),
                     BankIn(states[i + 1], r, b))
    ensures forall p :: Sends(events[i], p) ==> p.rank < c.numRanks && p.bank < c.numBanks
  {
    hide Safe, Cycle, Allowed, Fittingly, BankStep;
    RunIsSafe(c, locate, states, events);
    SafeShape(c, states[i]);
    assert IsStep(c, locate, states[i], events[i], states[i + 1]);
    match events[i] {
      case Cycles(choice) => CycleOfBank(c, locate, states[i], choice, r, b);
      case _ => StillBank(c, events[i], states[i].clock, r, b, BankIn(states[i], r, b));
    }
  }

  lemma StillBank(c: Config, e: Event, clock: int, r: nat, b: nat, x: BankState)
    requires c.Valid() && !e.Cycles?
    ensures BankStep(c, e, clock, clock, r, b, x, x)
  {
  }

  // ---------- deadlines that only move later ----------

  ghost predicate NoSooner(x: BankState, x': BankState) {
    x.nextRead <= x'.nextRead && x.nextWrite <= x'.nextWrite && x.nextPrecharge <= x'.nextPrecharge
  }

  lemma StepIsNoSooner(c: Config, e: Event, clock: int, clock': int, r: nat, b: nat, x: BankState, x': BankState)
    requires c.Valid() && BankStep(c, e, clock, clock', r, b, x, x')
    ensures NoSooner(x, x') && clock <= clock'
  {
  }

  /** The column and PRECHARGE deadlines of a bank never move back, and neither does the clock. */
  lemma {:induction false} Later(c: Config, locate: nat -> Location, states: seq<SystemState>, events: seq<Event>,
                                 i: nat, j: nat, r: nat, b: nat)
    requires Inputs(c, locate) && IsRun(c, locate, states, events) && i <= j < |events|
    requires r < c.numRanks && b < c.numBanks
    ensures Tabled(c, states[i]) && Tabled(c, states[j])
    ensures NoSooner(BankIn(states[i], r, b), BankIn(states[j], r, b)) && states[i].clock <= states[j].clock
    decreases j - i
  {
    assert |states| == |events| + 1;
    hide IsRun, BankStep;
    StepOfBank(c, locate, states, events, i, r, b);
    if i < j {
      StepIsNoSooner(c, events[i], states[i].clock, states[i + 1].clock, r, b, BankIn(states[i], r, b),
                     BankIn(states[i + 1], r, b));
      Later(c, locate, states, events, i + 1, j, r, b);
    }
  }

  /** What the two commands find: the bank of the second right after the first, and when it is ready again. */
  lemma Between(c: Config, locate: nat -> Location, states: seq<SystemState>, events: seq<Event>,
                i: nat, p: BusPacket, t: int, j: nat, q: BusPacket, u: int)
    returns (x: BankState, y: BankState, mode: DramMode)
    requires c.Valid() && Follow(c, locate, states, events, i, p, t, j, q, u)
    ensures t < u && NoSooner(AfterIssue(c, p, t, q.rank, q.bank, TickBank(x)), y)
    ensures Ready(mode, TickBank(y), q, u)
  {
    assert |states| == |events| + 1;
    hide IsRun, AfterIssue, TickBank, Ready, NoSooner;
    StepOfBank(c, locate, states, events, j, 0, 0);
    StepOfBank(c, locate, states, events, j, q.rank, q.bank);
    StepOfBank(c, locate, states, events, i, q.rank, q.bank);
    Later(c, locate, states, events, i + 1, j, q.rank, q.bank);
    x, y := BankIn(states[i], q.rank, q.bank), BankIn(states[j], q.rank, q.bank);
    mode :| Ready(mode, TickBank(y), q, u);
  }

  /**
   * A row is closed no sooner than the write recovery time after the data of a WRITE to its bank, the
   * read-to-precharge time after a READ, and the row active time after it was opened.
   */
  lemma PrechargeWaits(c: Config, p: BusPacket, t: int, q: BusPacket, u: int)
    requires c.Valid() && Happens(c, p, t, q, u)
    requires q.busPacketType == PRECHARGE && p.rank == q.rank && p.bank == q.bank
    ensures p.busPacketType == WRITE ==> u - t >= c.wl + c.bl / 2 + c.tWR
    ensures p.busPacketType == READ ==> u - t >= c.al + c.bl / 2 && u - t >= c.al + c.bl / 2 + c.tRTPL - c.tCCDL
    ensures p.busPacketType == ACTIVATE ==> u - t >= c.tRAS
  {
    var locate, states, events, i: nat, j: nat :| Follow(c, locate, states, events, i, p, t, j, q, u);
    var x, y, mode := Between(c, locate, states, events, i, p, t, j, q, u);
  }

  /**
   * A column access waits for the row to be open, for the gap between accesses of its kind (the long one in
   * the bank group of the other access), and for the data bus to turn round.
   */
  lemma ColumnWaits(c: Config, p: BusPacket, t: int, q: BusPacket, u: int)
    requires c.Valid() && Happens(c, p, t, q, u) && p.rank == q.rank
    requires q.busPacketType == READ || q.busPacketType == WRITE
    ensures p.busPacketType == ACTIVATE && p.bank == q.bank ==>
              u - t >= (if q.busPacketType == READ then c.tRCDRD else c.tRCDWR) - c.al
    ensures p.busPacketType == q.busPacketType ==>
              && u - t >= c.bl / 2
              && u - t >= if p.bank / c.banksPerGroup == q.bank / c.banksPerGroup then c.tCCDL else c.tCCDS
    ensures p.busPacketType == READ && q.busPacketType == WRITE ==> u - t >= c.rl + c.bl / 2 + c.tRTRS - c.wl
    ensures p.busPacketType == WRITE && q.busPacketType == READ ==> u - t >= c.wl + c.bl / 2 + c.tWTRL
  {
    var locate, states, events, i: nat, j: nat :| Follow(c, locate, states, events, i, p, t, j, q, u);
    var x, y, mode := Between(c, locate, states, events, i, p, t, j, q, u);
  }

  // ---------- what a refresh may undo ----------

  /** A refresh replaces the activation deadline of a bank; that is why the bounds below are the lesser of two. */
  ghost predicate ActivateNotBefore(x: BankState, deadline: int) {
    x.nextActivate >= deadline
  }

  lemma StepKeepsDeadline(c: Config, e: Event, clock: int, clock': int, r: nat, b: nat, x: BankState, x': BankState,
                          deadline: int)
    requires c.Valid() && BankStep(c, e, clock, clock', r, b, x, x') && ActivateNotBefore(x, deadline)
    requires clock + c.tRFC >= deadline
    ensures ActivateNotBefore(x', deadline) && clock' + c.tRFC >= deadline
  {
  }

  lemma {:induction false} DeadlineStays(c: Config, locate: nat -> Location, states: seq<SystemState>,
                                         events: seq<Event>, i: nat, j: nat, r: nat, b: nat, deadline: int)
    requires Inputs(c, locate) && IsRun(c, locate, states, events) && i <= j < |events|
    requires r < c.numRanks && b < c.numBanks
    requires Tabled(c, states[i]) && ActivateNotBefore(BankIn(states[i], r, b), deadline)
    requires states[i].clock + c.tRFC >= deadline
    ensures Tabled(c, states[j]) && ActivateNotBefore(BankIn(states[j], r, b), deadline)
    decreases j - i
  {
    assert |states| == |events| + 1;
    hide IsRun, BankStep, ActivateNotBefore;
    StepOfBank(c, locate, states, events, i, r, b);
    if i < j {
      StepKeepsDeadline(c, events[i], states[i].clock, states[i + 1].clock, r, b, BankIn(states[i], r, b),
                        BankIn(states[i + 1], r, b), deadline);
      DeadlineStays(c, locate, states, events, i + 1, j, r, b, deadline);
    }
  }

  /** After the first of two commands, and in the cycle of the second: the deadline of the bank of the second. */
  lemma ActivateWaits(c: Config, locate: nat -> Location, states: seq<SystemState>, events: seq<Event>,
                      i: nat, p: BusPacket, t: int, j: nat, q: BusPacket, u: int, deadline: int)
    requires c.Valid() && Follow(c, locate, states, events, i, p, t, j, q, u) && q.busPacketType == ACTIVATE
    requires t + 1 + c.tRFC >= deadline
    requires forall x :: ActivateNotBefore(AfterIssue(c, p, t, q.rank, q.bank, x), deadline)
    ensures u >= deadline
  {
    assert |states| == |events| + 1;
    hide IsRun, AfterIssue, ActivateNotBefore;
    StepOfBank(c, locate, states, events, j, 0, 0);
    StepOfBank(c, locate, states, events, j, q.rank, q.bank);
    StepOfBank(c, locate, states, events, i, q.rank, q.bank);
    DeadlineStays(c, locate, states, events, i + 1, j, q.rank, q.bank, deadline);
    Admits(q, BankIn(states[j], q.rank, q.bank), u, deadline);
  }

  lemma Admits(q: BusPacket, x: BankState, u: int, deadline: int)
    requires q.busPacketType == ACTIVATE && ActivateNotBefore(x, deadline)
    requires exists mode :: Ready(mode, TickBank(x), q, u)
    ensures u >= deadline
  {
  }

  /**
   * A row is opened no sooner than the refresh time after a refresh of its rank, and no sooner than the
   * precharge time after its bank was closed, unless a refresh that came in between is over before that.
   */
  lemma ActivateAfterRefresh(c: Config, p: BusPacket, t: int, q: BusPacket, u: int)
    requires c.Valid() && Happens(c, p, t, q, u) && q.busPacketType == ACTIVATE && p.rank == q.rank
    ensures p.busPacketType == REF ==> u - t >= c.tRFC
    ensures p.busPacketType == PRECHARGE && p.bank == q.bank ==> u - t >= c.tRP || u - t >= 1 + c.tRFC
  {
    var locate, states, events, i: nat, j: nat :| Follow(c, locate, states, events, i, p, t, j, q, u);
    if p.busPacketType == REF {
      ActivateWaits(c, locate, states, events, i, p, t, j, q, u, t + c.tRFC);
    } else if p.busPacketType == PRECHARGE && p.bank == q.bank {
      ActivateWaits(c, locate, states, events, i, p, t, j, q, u, t + if c.tRP <= 1 + c.tRFC then c.tRP else 1 + c.tRFC);
    }
  }

  // ---------- rows of one rank ----------

  /** An activation at `t` still stands: its row is open, or its time has passed. */
  ghost predicate Stands(c: Config, x: BankState, t: int, clock: int) {
    && clock >= t + 1
    && ((clock >= t + c.tRAS + 1 && clock >= t + 2)
        || (x.currentBankState == RowActive && x.lastCommand != PRECHARGE && x.lastCommand != REF
            && x.nextPrecharge >= t + c.tRAS))
  }

  ghost predicate Refreshes(e: Event, r: nat) {
    e.Cycles? && e.choice.popped.Some? && e.choice.popped.value.busPacketType == REF && e.choice.popped.value.rank == r
  }

  /** The time from an activation to the end of the refresh that may follow it. */
  ghost function Round(c: Config): int {
    (if c.tRAS < 1 then 1 else c.tRAS) + 1 + c.tRFC
  }

  lemma StepStands(c: Config, e: Event, clock: int, clock': int, r: nat, b: nat, x: BankState, x': BankState, t: int)
    requires c.Valid() && BankStep(c, e, clock, clock', r, b, x, x') && Stands(c, x, t, clock)
    ensures Stands(c, x', t, clock')
    ensures Refreshes(e, r) ==> clock + c.tRFC >= t + Round(c)
  {
  }

  lemma StepKeepsApart(c: Config, e: Event, clock: int, clock': int, r: nat, b: nat, x: BankState, x': BankState,
                       deadline: int)
    requires c.Valid() && BankStep(c, e, clock, clock', r, b, x, x') && ActivateNotBefore(x, deadline)
    requires Refreshes(e, r) ==> clock + c.tRFC >= deadline
    ensures ActivateNotBefore(x', deadline)
  {
  }

  /** An activation of bank `b` at `t` keeps that of bank `b'` off, up to the deadline. */
  lemma {:induction false} ActivationStands(c: Config, locate: nat -> Location, states: seq<SystemState>,
                                            events: seq<Event>, i: nat, j: nat, r: nat, b: nat, b': nat, t: int,
                                            deadline: int)
    requires Inputs(c, locate) && IsRun(c, locate, states, events) && i <= j < |events|
    requires r < c.numRanks && b < c.numBanks && b' < c.numBanks && deadline <= t + Round(c)
    requires Tabled(c, states[i]) && Stands(c, BankIn(states[i], r, b), t, states[i].clock)
    requires ActivateNotBefore(BankIn(states[i], r, b'), deadline)
    ensures Tabled(c, states[j]) && ActivateNotBefore(BankIn(states[j], r, b'), deadline)
    decreases j - i
  {
    assert |states| == |events| + 1;
    hide IsRun, BankStep, ActivateNotBefore, Stands, Round;
    StepOfBank(c, locate, states, events, i, r, b);
    StepOfBank(c, locate, states, events, i, r, b');
    if i < j {
      var x, x' := BankIn(states[i], r, b), BankIn(states[i + 1], r, b);
      var y, y' := BankIn(states[i], r, b'), BankIn(states[i + 1], r, b');
      StepStands(c, events[i], states[i].clock, states[i + 1].clock, r, b, x, x', t);
      StepKeepsApart(c, events[i], states[i].clock, states[i + 1].clock, r, b', y, y', deadline);
      ActivationStands(c, locate, states, events, i + 1, j, r, b, b', t, deadline);
    }
  }

  /** The row-to-row time of two banks of a rank, the row cycle time of one bank. */
  ghost function RowGap(c: Config, b: nat, b': nat): int
    requires c.banksPerGroup >= 1
  {
    if b == b' then c.tRC else if b / c.banksPerGroup == b' / c.banksPerGroup then c.tRRDL else c.tRRDS
  }

  lemma OpeningStands(c: Config, e: Event, p: BusPacket, t: int, t': int, x: BankState, x': BankState)
    requires c.Valid() && Sends(e, p) && p.busPacketType == ACTIVATE
    requires BankStep(c, e, t, t', p.rank, p.bank, x, x')
    ensures Stands(c, x', t, t')
  {
  }

  lemma OpeningKeepsOff(c: Config, e: Event, p: BusPacket, t: int, t': int, b: nat, x: BankState, x': BankState)
    requires c.Valid() && Sends(e, p) && p.busPacketType == ACTIVATE && BankStep(c, e, t, t', p.rank, b, x, x')
    ensures ActivateNotBefore(x', t + RowGap(c, p.bank, b))
  {
  }

  /**
   * Two rows of a rank are opened no sooner one after the other than the row cycle time in the same bank and
   * the row-to-row time in different ones, unless a refresh comes in between.
   */
  lemma ActivateAfterActivate(c: Config, p: BusPacket, t: int, q: BusPacket, u: int)
    requires c.Valid() && Happens(c, p, t, q, u) && p.rank == q.rank
    requires p.busPacketType == q.busPacketType == ACTIVATE
    ensures u - t >= RowGap(c, p.bank, q.bank) || u - t >= (if c.tRAS < 1 then 1 else c.tRAS) + 1 + c.tRFC
  {
    var locate, states, events, i: nat, j: nat :| Follow(c, locate, states, events, i, p, t, j, q, u);
    assert |states| == |events| + 1;
    hide IsRun, BankStep, Happens, Sends, Stands, ActivateNotBefore, RowGap;
    StepOfBank(c, locate, states, events, j, 0, 0);
    StepOfBank(c, locate, states, events, i, 0, 0);
    var s: SystemState, s': SystemState, r := states[i], states[i + 1], p.rank;
    StepOfBank(c, locate, states, events, i, r, p.bank);
    StepOfBank(c, locate, states, events, i, r, q.bank);
    OpeningStands(c, events[i], p, t, s'.clock, BankIn(s, r, p.bank), BankIn(s', r, p.bank));
    OpeningKeepsOff(c, events[i], p, t, s'.clock, q.bank, BankIn(s, r, q.bank), BankIn(s', r, q.bank));
    var gap := RowGap(c, p.bank, q.bank);
    var deadline := t + if gap <= Round(c) then gap else Round(c);
    LowerDeadline(BankIn(s', r, q.bank), t + gap, deadline);
    ActivationStands(c, locate, states, events, i + 1, j, r, p.bank, q.bank, t, deadline);
    OpensOnTime(c, locate, states, events, j, q, deadline);
  }

  lemma LowerDeadline(x: BankState, deadline: int, lower: int)
    requires ActivateNotBefore(x, deadline) && lower <= deadline
    ensures ActivateNotBefore(x, lower)
  {
  }

  lemma OpensOnTime(c: Config, locate: nat -> Location, states: seq<SystemState>, events: seq<Event>, j: nat,
                    q: BusPacket, deadline: int)
    requires Inputs(c, locate) && IsRun(c, locate, states, events) && j < |events| && Sends(events[j], q)
    requires q.busPacketType == ACTIVATE && q.rank < c.numRanks && q.bank < c.numBanks && Tabled(c, states[j])
    requires ActivateNotBefore(BankIn(states[j], q.rank, q.bank), deadline)
    ensures states[j].clock >= deadline
  {
    StepOfBank(c, locate, states, events, j, q.rank, q.bank);
    hide IsRun, AfterIssue;
    Admits(q, BankIn(states[j], q.rank, q.bank), states[j].clock, deadline);
  }

  // ---------- columns of different ranks ----------

  /** The column deadline of a bank whose row is open. */
  ghost function ColumnDeadline(kind: BusPacketType, x: BankState): int {
    if kind == READ then x.nextRead else x.nextWrite
  }

  /** Cycles from the opening of a row to the first access of this kind. */
  ghost function Opening(c: Config, kind: BusPacketType): int {
    var wait := (if kind == READ then c.tRCDRD else c.tRCDWR) - c.al;
    if wait < 1 then 1 else wait
  }

  /** An open row is not accessed before the deadline, nor is one that has yet to be opened. */
  ghost predicate Shuns(c: Config, kind: BusPacketType, x: BankState, t: int, clock: int, deadline: int) {
    && clock >= t + 1
    && (x.currentBankState == RowActive ==> clock >= deadline || ColumnDeadline(kind, x) >= deadline)
  }

  lemma StepShuns(c: Config, kind: BusPacketType, e: Event, clock: int, clock': int, r: nat, b: nat, x: BankState,
                  x': BankState, t: int, deadline: int)
    requires c.Valid() && BankStep(c, e, clock, clock', r, b, x, x') && Shuns(c, kind, x, t, clock, deadline)
    requires deadline <= t + 1 + Opening(c, kind)
    ensures Shuns(c, kind, x', t, clock', deadline)
  {
  }

  lemma {:induction false} KeepsShunning(c: Config, kind: BusPacketType, locate: nat -> Location,
                                         states: seq<SystemState>, events: seq<Event>, i: nat, j: nat, r: nat, b: nat,
                                         t: int, deadline: int)
    requires Inputs(c, locate) && IsRun(c, locate, states, events) && i <= j < |events|
    requires r < c.numRanks && b < c.numBanks && deadline <= t + 1 + Opening(c, kind)
    requires Tabled(c, states[i]) && Shuns(c, kind, BankIn(states[i], r, b), t, states[i].clock, deadline)
    ensures Tabled(c, states[j]) && Shuns(c, kind, BankIn(states[j], r, b), t, states[j].clock, deadline)
    decreases j - i
  {
    assert |states| == |events| + 1;
    hide IsRun, BankStep, Shuns, Opening;
    StepOfBank(c, locate, states, events, i, r, b);
    if i < j {
      StepShuns(c, kind, events[i], states[i].clock, states[i + 1].clock, r, b, BankIn(states[i], r, b),
                BankIn(states[i + 1], r, b), t, deadline);
      KeepsShunning(c, kind, locate, states, events, i + 1, j, r, b, t, deadline);
    }
  }

  /** What the data bus asks of column accesses to different ranks. */
  ghost function RankGap(c: Config, p: BusPacketType, q: BusPacketType): int {
    if p == q then c.bl / 2 + c.tRTRS
    else if p == READ then c.rl + c.bl / 2 + c.tRTRS - c.wl
    else c.wl + c.bl / 2 + c.tRTRS - c.rl
  }

  lemma AccessShuns(c: Config, e: Event, p: BusPacket, t: int, t': int, r: nat, b: nat, x: BankState, x': BankState,
                    kind: BusPacketType, deadline: int)
    requires c.Valid() && Sends(e, p) && (p.busPacketType == READ || p.busPacketType == WRITE) && p.rank != r
    requires (kind == READ || kind == WRITE) && BankStep(c, e, t, t', r, b, x, x')
    requires deadline <= t + RankGap(c, p.busPacketType, kind)
    ensures Shuns(c, kind, x', t, t', deadline)
  {
  }

  lemma AdmitsColumn(c: Config, q: BusPacket, x: BankState, t: int, u: int, deadline: int)
    requires q.busPacketType == READ || q.busPacketType == WRITE
    requires Shuns(c, q.busPacketType, x, t, u, deadline) && exists mode :: Ready(mode, TickBank(x), q, u)
    ensures u >= deadline
  {
  }

  /**
   * Column accesses to different ranks are as far apart as the data bus asks, unless the second rank opened
   * its row only after the first access.
   */
  lemma ColumnOfOtherRank(c: Config, p: BusPacket, t: int, q: BusPacket, u: int)
    requires c.Valid() && Happens(c, p, t, q, u) && p.rank != q.rank
    requires p.busPacketType == READ || p.busPacketType == WRITE
    requires q.busPacketType == READ || q.busPacketType == WRITE
    ensures u - t >= RankGap(c, p.busPacketType, q.busPacketType) || u - t >= 1 + Opening(c, q.busPacketType)
  {
    var locate, states, events, i: nat, j: nat :| Follow(c, locate, states, events, i, p, t, j, q, u);
    var kind, gap := q.busPacketType, RankGap(c, p.busPacketType, q.busPacketType);
    var deadline := t + if gap <= 1 + Opening(c, kind) then gap else 1 + Opening(c, kind);
    assert |states| == |events| + 1;
    hide IsRun, BankStep, Happens, Shuns, RankGap, Opening;
    StepOfBank(c, locate, states, events, j, 0, 0);
    var s: SystemState, s': SystemState, r, b := states[i], states[i + 1], q.rank, q.bank;
    StepOfBank(c, locate, states, events, i, r, b);
    AccessShuns(c, events[i], p, t, s'.clock, r, b, BankIn(s, r, b), BankIn(s', r, b), kind, deadline);
    KeepsShunning(c, kind, locate, states, events, i + 1, j, r, b, t, deadline);
    ReadyInTime(c, locate, states, events, j, q, t, deadline);
  }

  lemma ReadyInTime(c: Config, locate: nat -> Location, states: seq<SystemState>, events: seq<Event>, j: nat,
                    q: BusPacket, t: int, deadline: int)
    requires Inputs(c, locate) && IsRun(c, locate, states, events) && j < |events| && Sends(events[j], q)
    requires (q.busPacketType == READ || q.busPacketType == WRITE) && q.rank < c.numRanks && q.bank < c.numBanks
    requires Tabled(c, states[j])
    requires Shuns(c, q.busPacketType, BankIn(states[j], q.rank, q.bank), t, states[j].clock, deadline)
    ensures states[j].clock >= deadline
  {
    StepOfBank(c, locate, states, events, j, q.rank, q.bank);
    hide IsRun, AfterIssue, Shuns;
    AdmitsColumn(c, q, BankIn(states[j], q.rank, q.bank), t, states[j].clock, deadline);
  }

  // ---------- the bounds of one command ----------

  /** The same deadlines, whatever time has made of the state. */
  ghost predicate SameDeadlines(x: BankState, y: BankState) {
    && y.nextRead == x.nextRead && y.nextWrite == x.nextWrite && y.nextActivate == x.nextActivate
    && y.nextPrecharge == x.nextPrecharge && y.openRowAddress == x.openRowAddress
  }

  ghost predicate AllPast(x: BankState, t: int) {
    x.nextRead <= t && x.nextWrite <= t && x.nextActivate <= t && x.nextPrecharge <= t
  }

  /**
   * No command waits for longer than this: where nothing else is due, what follows `p` in its rank is ready as
   * soon as the bound of the two has passed.
   */
  lemma ReadyExactly(c: Config, p: BusPacket, t: int, q: BusPacket, u: int, x: BankState, y: BankState)
    requires c.Valid() && p.rank == q.rank && t <= u && AllPast(x, t)
    requires SameDeadlines(AfterIssue(c, p, t, q.rank, q.bank, x), y)
    ensures q.busPacketType == PRECHARGE ==>
              (Ready(SB, y, q, u) <==>
               && y.currentBankState == RowActive
               && (p.bank == q.bank && p.busPacketType == WRITE ==> u - t >= c.wl + c.bl / 2 + c.tWR)
               && (p.bank == q.bank && p.busPacketType == READ ==>
                     u - t >= c.al + c.bl / 2 && u - t >= c.al + c.bl / 2 + c.tRTPL - c.tCCDL)
               && (p.bank == q.bank && p.busPacketType == ACTIVATE ==> u - t >= c.tRAS))
    ensures q.busPacketType == READ || q.busPacketType == WRITE ==>
              var gap := if p.bank / c.banksPerGroup == q.bank / c.banksPerGroup then c.tCCDL else c.tCCDS;
              (Ready(SB, y, q, u) <==>
               && y.currentBankState == RowActive && y.openRowAddress == q.row
               && (p.busPacketType == q.busPacketType ==> u - t >= c.bl / 2 && u - t >= gap)
               && (p.busPacketType == READ && q.busPacketType == WRITE ==> u - t >= c.rl + c.bl / 2 + c.tRTRS - c.wl)
               && (p.busPacketType == WRITE && q.busPacketType == READ ==> u - t >= c.wl + c.bl / 2 + c.tWTRL)
               && (p.busPacketType == ACTIVATE && p.bank == q.bank ==>
                     u - t >= (if q.busPacketType == READ then c.tRCDRD else c.tRCDWR) - c.al))
    ensures q.busPacketType == ACTIVATE ==>
              (Ready(SB, y, q, u) <==>
               && (y.currentBankState == Idle || y.currentBankState == Refreshing)
               && (p.busPacketType == PRECHARGE && p.bank == q.bank ==> u - t >= c.tRP)
               && (p.busPacketType == REF ==> u - t >= c.tRFC)
               && (p.busPacketType == ACTIVATE ==> u - t >= RowGap(c, p.bank, q.bank)))
  {
  }

  /** The same for a column access to a rank that has its row open when another rank is accessed. */
  lemma OtherRankReadyExactly(c: Config, p: BusPacket, t: int, q: BusPacket, u: int, x: BankState, y: BankState)
    requires c.Valid() && p.rank != q.rank && t <= u && AllPast(x, t) && x.currentBankState == RowActive
    requires SameDeadlines(AfterIssue(c, p, t, q.rank, q.bank, x), y)
    requires p.busPacketType == READ || p.busPacketType == WRITE
    requires q.busPacketType == READ || q.busPacketType == WRITE
    ensures Ready(SB, y, q, u) <==>
              && y.currentBankState == RowActive && y.openRowAddress == q.row
              && u - t >= RankGap(c, p.busPacketType, q.busPacketType)
  {
  }

  // ---------- rows that are open ----------

  /** This event touches the row buffer of the bank. */
  ghost predicate Disturbs(e: Event, r: nat, b: nat) {
    && e.Cycles? && e.choice.popped.Some?
    && var p := e.choice.popped.value;
       p.rank == r && (p.busPacketType == REF || (p.bank == b && p.busPacketType in {ACTIVATE, PRECHARGE}))
  }

  /** The event opened this row of the bank, and nothing has touched the row buffer since. */
  ghost predicate Opened(events: seq<Event>, i: nat, n: nat, r: nat, b: nat, row: nat) {
    && i < n <= |events| && events[i].Cycles? && events[i].choice.popped.Some?
    && var p := events[i].choice.popped.value;
       && p.busPacketType == ACTIVATE && p.rank == r && p.bank == b && p.row == row
       && forall k | i < k < n :: !Disturbs(events[k], r, b)
  }

  lemma StepOpens(c: Config, e: Event, clock: int, clock': int, r: nat, b: nat, x: BankState, x': BankState)
    requires c.Valid() && BankStep(c, e, clock, clock', r, b, x, x') && x'.currentBankState == RowActive
    ensures Disturbs(e, r, b) ==>
              e.choice.popped.value.busPacketType == ACTIVATE && e.choice.popped.value.row == x'.openRowAddress
              && e.choice.popped.value.rank == r && e.choice.popped.value.bank == b
    ensures !Disturbs(e, r, b) ==> x.currentBankState == RowActive && x.openRowAddress == x'.openRowAddress
  {
  }

  lemma StillOpened(events: seq<Event>, i: nat, n: nat, r: nat, b: nat, row: nat)
    requires n < |events| && Opened(events, i, n, r, b, row) && !Disturbs(events[n], r, b)
    ensures Opened(events, i, n + 1, r, b, row)
  {
  }

  lemma InitiallyIdle(c: Config, r: nat, b: nat)
    requires r < c.numRanks && b < c.numBanks
    ensures var s := InitialSystem(c); Tabled(c, s) && BankIn(s, r, b).currentBankState == Idle
  {
  }

  /** An open row is the one that was opened last, by an ACTIVATE that nothing has undone. */
  lemma {:induction false} OpenRowWasOpened(c: Config, locate: nat -> Location, states: seq<SystemState>,
                                            events: seq<Event>, n: nat, r: nat, b: nat)
    returns (i: nat)
    requires Inputs(c, locate) && IsRun(c, locate, states, events) && n < |events| && r < c.numRanks && b < c.numBanks
    requires Tabled(c, states[n]) && BankIn(states[n], r, b).currentBankState == RowActive
    ensures Opened(events, i, n, r, b, BankIn(states[n], r, b).openRowAddress)
    decreases n
  {
    assert |states| == |events| + 1 && states[0] == InitialSystem(c);
    hide IsRun, Disturbs, Opened, InitialSystem;
    InitiallyIdle(c, r, b);
    if n == 0 {
      assert false;
    } else {
      BeforeOpen(c, locate, states, events, n - 1, r, b);
      var row := BankIn(states[n], r, b).openRowAddress;
      i := n - 1;
      if !Opened(events, n - 1, n, r, b, row) {
        i := OpenRowWasOpened(c, locate, states, events, n - 1, r, b);
        StillOpened(events, i, n - 1, r, b, row);
      }
    }
  }

  /** A row that is open was opened by the last event, or was open before it and left alone. */
  lemma BeforeOpen(c: Config, locate: nat -> Location, states: seq<SystemState>, events: seq<Event>, n: nat, r: nat,
                   b: nat)
    requires Inputs(c, locate) && IsRun(c, locate, states, events) && n < |events| < |states|
    requires r < c.numRanks && b < c.numBanks
    requires Tabled(c, states[n + 1]) && BankIn(states[n + 1], r, b).currentBankState == RowActive
    ensures Tabled(c, states[n])
    ensures var row := BankIn(states[n + 1], r, b).openRowAddress; var x := BankIn(states[n], r, b);
            || Opened(events, n, n + 1, r, b, row)
            || (!Disturbs(events[n], r, b) && x.currentBankState == RowActive && x.openRowAddress == row)
  {
    hide IsRun, BankStep, Disturbs, Opened;
    StepOfBank(c, locate, states, events, n, r, b);
    var x, x' := BankIn(states[n], r, b), BankIn(states[n + 1], r, b);
    StepOpens(c, events[n], states[n].clock, states[n + 1].clock, r, b, x, x');
    if Disturbs(events[n], r, b) {
      JustOpened(events, n, r, b, x'.openRowAddress);
    }
  }

  lemma JustOpened(events: seq<Event>, n: nat, r: nat, b: nat, row: nat)
    requires n < |events| && Disturbs(events[n], r, b)
    requires var p := events[n].choice.popped.value;
             p.busPacketType == ACTIVATE && p.row == row && p.rank == r && p.bank == b
    ensures Opened(events, n, n + 1, r, b, row)
  {
  }

  /**
   * Every column access, and every PRECHARGE, is for the row that was opened last in its bank, with the row
   * buffer untouched since.
   */
  lemma CommandFindsRow(c: Config, locate: nat -> Location, states: seq<SystemState>, events: seq<Event>, j: nat,
                       q: BusPacket)
    returns (i: nat)
    requires Inputs(c, locate) && IsRun(c, locate, states, events) && j < |events| && Sends(events[j], q)
    requires q.busPacketType in {READ, WRITE, PRECHARGE}
    ensures Opened(events, i, j, q.rank, q.bank, q.row)
  {
    assert |states| == |events| + 1;
    StepOfBank(c, locate, states, events, j, 0, 0);
    StepOfBank(c, locate, states, events, j, q.rank, q.bank);
    hide IsRun, AfterIssue, Opened;
    var x := BankIn(states[j], q.rank, q.bank);
    assert exists mode :: Ready(mode, TickBank(x), q, states[j].clock);
    i := OpenRowWasOpened(c, locate, states, events, j, q.rank, q.bank);
  }

  // ---------- how long a bank closes or refreshes ----------

  /** A bank on its way to Idle. */
  ghost predicate Returning(x: BankState, state: CurrentBankState, kind: BusPacketType, left: int) {
    if left > 0 then x.currentBankState == state && x.lastCommand == kind && x.stateChangeCountdown == left
    else x.currentBankState == Idle && x.stateChangeCountdown == 0
  }

  lemma StepReturns(c: Config, e: Event, clock: int, clock': int, r: nat, b: nat, x: BankState, x': BankState,
                    state: CurrentBankState, kind: BusPacketType, end: int)
    requires c.Valid() && BankStep(c, e, clock, clock', r, b, x, x') && !Disturbs(e, r, b)
    requires kind == PRECHARGE || kind == REF
    requires state == if kind == REF then Refreshing else Precharging
    requires Returning(x, state, kind, end - clock)
    ensures Returning(x', state, kind, end - clock')
  {
  }

  lemma {:induction false} KeepsReturning(c: Config, locate: nat -> Location, states: seq<SystemState>,
                                          events: seq<Event>, i: nat, j: nat, r: nat, b: nat,
                                          state: CurrentBankState, kind: BusPacketType, end: int)
    requires Inputs(c, locate) && IsRun(c, locate, states, events) && i <= j < |events|
    requires r < c.numRanks && b < c.numBanks && (kind == PRECHARGE || kind == REF)
    requires state == if kind == REF then Refreshing else Precharging
    requires forall k | i <= k < j :: !Disturbs(events[k], r, b)
    requires Tabled(c, states[i]) && Returning(BankIn(states[i], r, b), state, kind, end - states[i].clock)
    ensures Tabled(c, states[j]) && Returning(BankIn(states[j], r, b), state, kind, end - states[j].clock)
    decreases j - i
  {
    assert |states| == |events| + 1;
    hide IsRun, BankStep, Returning, Disturbs;
    StepOfBank(c, locate, states, events, i, r, b);
    if i < j {
      StepReturns(c, events[i], states[i].clock, states[i + 1].clock, r, b, BankIn(states[i], r, b),
                  BankIn(states[i + 1], r, b), state, kind, end);
      KeepsReturning(c, locate, states, events, i + 1, j, r, b, state, kind, end);
    }
  }

  /**
   * A bank that is closed is closing for tRP cycles and then idle, one that is refreshed is refreshing for
   * tRFC cycles and then idle, until something else touches its row buffer.
   */
  lemma IdleAgain(c: Config, locate: nat -> Location, states: seq<SystemState>, events: seq<Event>, i: nat, j: nat,
                  p: BusPacket, b: nat)
    requires Inputs(c, locate) && IsRun(c, locate, states, events) && i < j < |events| && Sends(events[i], p)
    requires (p.busPacketType == PRECHARGE && p.bank == b) || p.busPacketType == REF
    requires p.rank < c.numRanks && b < c.numBanks && forall k | i < k < j :: !Disturbs(events[k], p.rank, b)
    ensures Tabled(c, states[j])
    ensures var state := BankIn(states[j], p.rank, b).currentBankState;
            if p.busPacketType == REF then
              state == if states[j].clock <= states[i].clock + c.tRFC then Refreshing else Idle
            else state == if states[j].clock <= states[i].clock + c.tRP then Precharging else Idle
  {
    assert |states| == |events| + 1;
    StepOfBank(c, locate, states, events, i, p.rank, b);
    var kind := p.busPacketType;
    var state := if kind == REF then Refreshing else Precharging;
    var end := states[i].clock + 1 + if kind == REF then c.tRFC else c.tRP;
    var s: SystemState := states[i + 1];
    assert Returning(BankIn(s, p.rank, b), state, kind, end - s.clock);
    hide IsRun, AfterIssue;
    KeepsReturning(c, locate, states, events, i + 1, j, p.rank, b, state, kind, end);
  }
}
