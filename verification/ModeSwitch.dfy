/**
 * The relation between the controller's table and a rank is not only enough for safety, it is exactly what
 * safety needs: until a rank switches between single-bank and all-bank mode, every sequence of commands is
 * accepted if and only if the relation holds. With it go runs that switch at the wrong moment.
 */
module ModeSwitch {
  import opened Arithmetic
  import opened Dram
  import opened RankModel
  import opened MemoryControllerModel
  import opened TimingSafety

  // ---------- one rank and its row of the table ----------

  /** The controller's entries for the banks of one rank, the rank's own with its mode and its mode registers,
      and the cycle. */
  datatype Sides = Sides(m: seq<BankState>, r: seq<BankState>, mode: DramMode, flags: ModeFlags, t: int)

  /** The mode that the PIM unit asks for goes with a command. */
  datatype Action = Wait | Issue(p: BusPacket, pimMode: DramMode)

  predicate Shape(c: Config, s: Sides) {
    |s.m| == |s.r| == c.numBanks
  }

  /** The controller may pop the command now. */
  predicate Possible(c: Config, s: Sides, a: Action)
    requires Shape(c, s)
  {
    a.Issue? ==> Poppable(c, s.mode, s.m, a.p, s.t) && a.pimMode != SB
  }

  /** The rank accepts it when it arrives, a cycle later. */
  predicate Legal(s: Sides, a: Action) {
    a.Issue? ==> Accepts(s.mode, s.r, a.p, s.t + 1)
  }

  function After(c: Config, s: Sides, a: Action): (s': Sides)
    requires c.Valid() && Shape(c, s)
    ensures Shape(c, s')
  {
    match a
    case Wait => s.(m := TickRow(s.m), t := s.t + 1)
    case Issue(p, pimMode) =>
      var (mode, flags) := ModeAfter(c, s.mode, s.flags, p, pimMode);
      Sides(TickRow(AfterIssueRow(c, p, s.t, p.rank, s.m)), UpdateState(c, s.mode, s.r, p, s.t + 1), mode, flags,
            s.t + 1)
  }

  /** The rank leaves single-bank mode, or comes back to it. */
  predicate Switches(c: Config, s: Sides, a: Action)
    requires c.Valid() && Shape(c, s)
  {
    (After(c, s, a).mode == SB) != (s.mode == SB)
  }

  /** These actions are possible one after the other without a switch, up to one whose command is rejected. */
  predicate Fails(c: Config, s: Sides, acts: seq<Action>)
    requires c.Valid() && Shape(c, s)
    decreases |acts|
  {
    && acts != [] && Possible(c, s, acts[0])
    && (!Legal(s, acts[0]) || (!Switches(c, s, acts[0]) && Fails(c, After(c, s, acts[0]), acts[1..])))
  }

  /** Until its next switch, the rank accepts whatever the controller may pop. */
  ghost predicate Survives(c: Config, s: Sides)
    requires c.Valid() && Shape(c, s)
  {
    forall acts: seq<Action> :: !Fails(c, s, acts)
  }

  /** The rank is in step with the table. */
  ghost predicate InStep(c: Config, s: Sides)
    requires Shape(c, s)
  {
    Tracks(c, s.mode, s.m, s.r, s.t)
  }

  /** No SBMR row has been closed since all-bank mode was entered, so a single PRECHARGE does not leave it. */
  predicate RegistersClear(s: Sides) {
    s.mode == HAB ==> !s.flags.sbmr1 && !s.flags.sbmr2
  }

  /** A bank that is closing its row becomes idle before it may be activated again. */
  predicate Settling(m: BankState, t: int) {
    m.currentBankState == Precharging ==>
      m.lastCommand == PRECHARGE && m.stateChangeCountdown >= 1 && t + m.stateChangeCountdown <= m.nextActivate
  }

  predicate RowSettling(m: seq<BankState>, t: int) {
    Counting(m) && forall b | 0 <= b < |m| :: Settling(m[b], t)
  }

  // ---------- the relation is enough ----------

  /** What is possible is legal, and the relation holds afterwards unless the command is a switch. */
  lemma TrackedStep(c: Config, s: Sides, a: Action)
    requires c.Valid() && ModeFits(c, s.mode) && Shape(c, s) && Counting(s.m) && InStep(c, s)
    requires Possible(c, s, a)
    ensures Legal(s, a)
    ensures var s' := After(c, s, a);
            Counting(s'.m) && (!Switches(c, s, a) ==> ModeFits(c, s'.mode) && InStep(c, s'))
  {
    hide Tracks, Poppable, Accepts, AfterIssueRow, UpdateState, Counting, TickRow, ModeFits, ModeAfter;
    match a {
      case Wait =>
        CountingTicks(s.m);
        TimeKeepsTracking(c, s.mode, s.m, s.r, s.t, s.t + 1);
      case Issue(p, pimMode) =>
        var m, s' := AfterIssueRow(c, p, s.t, p.rank, s.m), After(c, s, a);
        PoppedPasses(c, s.mode, s.m, s.r, p, s.t);
        IssueKeepsTracking(c, s.mode, s.m, s.r, p, s.t);
        CountingKept(c, p, s.t, p.rank, s.m);
        CountingTicks(m);
        TimeKeepsTracking(c, s.mode, m, s'.r, s.t, s.t + 1);
        if !Switches(c, s, a) { SameSide(c, s.mode, s'.mode, s'.m, s'.r, s'.t); }
    }
  }

  /** The two all-bank modes ask the same of the banks. */
  lemma SameSide(c: Config, mode: DramMode, mode': DramMode, m: seq<BankState>, r: seq<BankState>, t: int)
    requires c.Valid() && (mode == SB) == (mode' == SB) && |m| == |r| == c.numBanks
    ensures ModeFits(c, mode) == ModeFits(c, mode') && Tracks(c, mode, m, r, t) == Tracks(c, mode', m, r, t)
  {
    assert forall b: nat | b < c.numBanks :: Peer(mode, b) == Peer(mode', b);
  }

  lemma {:induction false} TrackedSurvives(c: Config, s: Sides, acts: seq<Action>)
    requires c.Valid() && ModeFits(c, s.mode) && Shape(c, s) && Counting(s.m) && InStep(c, s)
    ensures !Fails(c, s, acts)
    decreases |acts|
  {
    hide InStep, Possible, Legal, After, Counting, ModeFits, Switches;
    if acts != [] && Possible(c, s, acts[0]) {
      TrackedStep(c, s, acts[0]);
      if !Switches(c, s, acts[0]) {
        TrackedSurvives(c, After(c, s, acts[0]), acts[1..]);
      }
    }
  }

  lemma CountingTicks(m: seq<BankState>)
    requires Counting(m)
    ensures Counting(TickRow(m))
  {
  }

  // ---------- the relation is necessary ----------

  function Ticked(m: seq<BankState>, n: nat): (r: seq<BankState>)
    ensures |r| == |m|
    decreases n
  {
    if n == 0 then m else Ticked(TickRow(m), n - 1)
  }

  function Waited(s: Sides, n: nat): Sides {
    s.(m := Ticked(s.m, n), t := s.t + n)
  }

  /** Waiting changes no deadline, opens no row and closes none; a bank that was closing one gets there. */
  lemma {:induction false} TickedBank(m: seq<BankState>, n: nat, b: nat)
    requires Counting(m) && b < |m|
    ensures Counting(Ticked(m, n))
    ensures var x, y := m[b], Ticked(m, n)[b];
            && y == x.(currentBankState := y.currentBankState, stateChangeCountdown := y.stateChangeCountdown)
            && (y.currentBankState == RowActive <==> x.currentBankState == RowActive)
            && (x.currentBankState == Idle || x.currentBankState == Refreshing ==>
                  y.currentBankState == Idle || y.currentBankState == Refreshing)
            && (x.currentBankState == Precharging && x.lastCommand == PRECHARGE && 1 <= x.stateChangeCountdown <= n ==>
                  y.currentBankState == Idle || y.currentBankState == Refreshing)
    decreases n
  {
    if n > 0 {
      CountingTicks(m);
      TickedBank(TickRow(m), n - 1, b);
    }
  }

  lemma {:induction false} FailsAfterWaits(c: Config, s: Sides, n: nat, acts: seq<Action>)
    returns (longer: seq<Action>)
    requires c.Valid() && Shape(c, s) && Fails(c, Waited(s, n), acts)
    ensures Fails(c, s, longer)
    decreases n
  {
    if n == 0 {
      longer := acts;
    } else {
      var rest := FailsAfterWaits(c, After(c, s, Wait), n - 1, acts);
      longer := [Wait] + rest;
      assert longer[1..] == rest;
    }
  }

  /** With the mode registers clear, no single command of this kind switches. */
  lemma ClosingStays(c: Config, s: Sides, bank: nat, row: nat)
    requires c.Valid() && Shape(c, s) && RegistersClear(s)
    ensures var a := Issue(CommandTo(PRECHARGE, bank, row), HAB);
            !Switches(c, s, a) && After(c, s, a).mode == s.mode
  {
  }

  function CommandTo(kind: BusPacketType, bank: nat, row: nat): BusPacket {
    BusPacket(kind, 0, 0, row, 0, bank, 0, false)
  }

  /** A command that is ready after a wait, and that bank `b` of the rank does not allow then. */
  lemma WaitAndFail(c: Config, s: Sides, n: nat, p: BusPacket, b: nat)
    returns (acts: seq<Action>)
    requires c.Valid() && Shape(c, s) && b < c.numBanks && Addressed(s.mode, p, b)
    requires p.busPacketType != REF && !IsReservedRow(p.row) && Poppable(c, s.mode, Ticked(s.m, n), p, s.t + n)
    requires !CheckBank(p.busPacketType, s.r[b], p.row, s.t + n + 1)
    ensures Fails(c, s, acts)
  {
    var later := Waited(s, n);
    assert !Legal(later, Issue(p, HAB));
    assert Fails(c, later, [Issue(p, HAB)]);
    acts := FailsAfterWaits(c, s, n, [Issue(p, HAB)]);
  }

  /** The rank does not let bank `b` be opened as soon as the controller may open its peer. */
  predicate Bars(c: Config, s: Sides, b: nat)
    requires Shape(c, s) && b < c.numBanks && Peer(s.mode, b) < c.numBanks
  {
    s.r[b].currentBankState != Idle || s.r[b].nextActivate > SoonestActivate(c, s.m[Peer(s.mode, b)], s.t) + 1
  }

  lemma OpeningFails(c: Config, s: Sides, b: nat) returns (acts: seq<Action>)
    requires c.Valid() && Shape(c, s) && b < c.numBanks && Counting(s.m)
    requires s.m[Peer(s.mode, b)].currentBankState != RowActive && Settling(s.m[Peer(s.mode, b)], s.t)
    requires Bars(c, s, b)
    ensures Fails(c, s, acts)
  {
    var q := Peer(s.mode, b);
    var n := Max(s.m[q].nextActivate, s.t) - s.t;
    TickedBank(s.m, n, q);
    acts := WaitAndFail(c, s, n, CommandTo(ACTIVATE, q, 0), b);
  }

  /** With a row open in the peer, the row is closed first. */
  lemma ReopeningFails(c: Config, s: Sides, b: nat) returns (acts: seq<Action>)
    requires c.Valid() && Shape(c, s) && RegistersClear(s) && b < c.numBanks && Counting(s.m)
    requires s.m[Peer(s.mode, b)].currentBankState == RowActive
    requires OrdinaryOpen(s.m[Peer(s.mode, b)]) ==>
               s.r[b].nextActivate > SoonestActivate(c, s.m[Peer(s.mode, b)], s.t) + 1
    requires Bars(c, s, b)
    ensures Fails(c, s, acts)
  {
    var q := Peer(s.mode, b);
    var n := Max(s.m[q].nextPrecharge, s.t) - s.t;
    TickedBank(s.m, n, q);
    var later := Waited(s, n);
    var close := CommandTo(PRECHARGE, q, s.m[q].openRowAddress);
    assert Possible(c, later, Issue(close, HAB));
    var rest: seq<Action> := [];
    ClosingStays(c, later, q, s.m[q].openRowAddress);
    if Legal(later, Issue(close, HAB)) {
      ClosedBars(c, later, b, close);
      rest := OpeningFails(c, After(c, later, Issue(close, HAB)), b);
    }
    var first := [Issue(close, HAB)] + rest;
    assert first[1..] == rest;
    assert Fails(c, later, first);
    acts := FailsAfterWaits(c, s, n, first);
  }

  lemma ClosedBars(c: Config, s: Sides, b: nat, close: BusPacket)
    requires c.Valid() && Shape(c, s) && RegistersClear(s) && b < c.numBanks && Counting(s.m)
    requires var m := s.m[Peer(s.mode, b)];
             && m.currentBankState == RowActive && m.nextPrecharge <= s.t
             && close == CommandTo(PRECHARGE, Peer(s.mode, b), m.openRowAddress)
             && (OrdinaryOpen(m) ==> s.r[b].nextActivate > SoonestActivate(c, m, s.t) + 1)
    requires Bars(c, s, b)
    ensures var s' := After(c, s, Issue(close, HAB)); var m' := s'.m[Peer(s.mode, b)];
            Counting(s'.m) && m'.currentBankState != RowActive && Settling(m', s'.t) && Bars(c, s', b)
  {
    var q := Peer(s.mode, b);
    CountingKept(c, close, s.t, close.rank, s.m);
    CountingTicks(AfterIssueRow(c, close, s.t, close.rank, s.m));
    var s' := After(c, s, Issue(close, HAB));
    ClosingStays(c, s, q, close.row);
    assert s'.m[q] == TickBank(AfterIssue(c, close, s.t, close.rank, q, s.m[q]));
    assert s'.r[b] == if IsReservedRow(close.row) then s.r[b] else UpdatedBank(c, s.mode, close, s.t + 1, b, s.r[b]);
  }

  /** An ordinary row is open in the table, and bank `b` of the rank does not follow. */
  lemma OpenBankFails(c: Config, s: Sides, b: nat) returns (acts: seq<Action>)
    requires c.Valid() && Shape(c, s) && RegistersClear(s) && b < c.numBanks && Counting(s.m)
    requires var m := s.m[Peer(s.mode, b)]; OrdinaryOpen(m) && !BankTracks(c, m, s.r[b], s.t)
    ensures Fails(c, s, acts)
  {
    var q := Peer(s.mode, b);
    var m, r, t := s.m[q], s.r[b], s.t;
    var close, open, store := CommandTo(PRECHARGE, q, m.openRowAddress), CommandTo(READ, q, m.openRowAddress),
                              CommandTo(WRITE, q, m.openRowAddress);
    if r.currentBankState != RowActive || !Late(r.nextPrecharge, m.nextPrecharge, t) {
      var n := Max(m.nextPrecharge, t) - t;
      TickedBank(s.m, n, q);
      acts := WaitAndFail(c, s, n, close, b);
    } else if r.openRowAddress != m.openRowAddress || !Late(r.nextRead, m.nextRead, t) {
      var n := Max(m.nextRead, t) - t;
      TickedBank(s.m, n, q);
      acts := WaitAndFail(c, s, n, open, b);
    } else if !Late(r.nextWrite, m.nextWrite, t) {
      var n := Max(m.nextWrite, t) - t;
      TickedBank(s.m, n, q);
      acts := WaitAndFail(c, s, n, store, b);
    } else {
      acts := ReopeningFails(c, s, b);
    }
  }

  /** A bank that does not follow its peer leads to a rejected command. */
  lemma UntrackedBankFails(c: Config, s: Sides, b: nat) returns (acts: seq<Action>)
    requires c.Valid() && Shape(c, s) && RegistersClear(s) && b < c.numBanks && RowSettling(s.m, s.t)
    requires !BankTracks(c, s.m[Peer(s.mode, b)], s.r[b], s.t)
    ensures Fails(c, s, acts)
  {
    if OrdinaryOpen(s.m[Peer(s.mode, b)]) {
      acts := OpenBankFails(c, s, b);
    } else if s.m[Peer(s.mode, b)].currentBankState == RowActive {
      acts := ReopeningFails(c, s, b);
    } else {
      acts := OpeningFails(c, s, b);
    }
  }

  /** So does, in all-bank mode, an ordinary row that is open in a bank from 2 on: once the row of its peer
      is closed, the rank no longer lets it be closed. */
  lemma UpperRowFails(c: Config, s: Sides, k: nat) returns (acts: seq<Action>)
    requires c.Valid() && Shape(c, s) && RegistersClear(s) && s.mode != SB && 2 <= k < c.numBanks
    requires RowSettling(s.m, s.t)
    requires OrdinaryOpen(s.m[k])
    ensures Fails(c, s, acts)
  {
    var q := k % 2;
    var m, t := s.m[k], s.t;
    if s.r[k].currentBankState != RowActive {
      var n := Max(m.nextPrecharge, t) - t;
      TickedBank(s.m, n, k);
      acts := WaitAndFail(c, s, n, CommandTo(PRECHARGE, k, m.openRowAddress), k);
    } else if !BankTracks(c, s.m[q], s.r[k], t) {
      acts := UntrackedBankFails(c, s, k);
    } else {
      var n := Max(Max(m.nextPrecharge, s.m[q].nextPrecharge), t) - t;
      TickedBank(s.m, n, k);
      TickedBank(s.m, n, q);
      var later := Waited(s, n);
      var close, upper := CommandTo(PRECHARGE, q, s.m[q].openRowAddress), CommandTo(PRECHARGE, k, m.openRowAddress);
      assert Possible(c, later, Issue(close, HAB));
      var rest: seq<Action> := [];
      ClosingStays(c, later, q, s.m[q].openRowAddress);
      if Legal(later, Issue(close, HAB)) {
        PeerClosed(c, later, k, close, upper);
        rest := WaitAndFail(c, After(c, later, Issue(close, HAB)), 0, upper, k);
      }
      var first := [Issue(close, HAB)] + rest;
      assert first[1..] == rest;
      assert Fails(c, later, first);
      acts := FailsAfterWaits(c, s, n, first);
    }
  }

  lemma PeerClosed(c: Config, s: Sides, k: nat, close: BusPacket, upper: BusPacket)
    requires c.Valid() && Shape(c, s) && RegistersClear(s) && s.mode != SB && 2 <= k < c.numBanks && Counting(s.m)
    requires OrdinaryOpen(s.m[k]) && OrdinaryOpen(s.m[k % 2]) && s.m[k].nextPrecharge <= s.t
    requires close == CommandTo(PRECHARGE, k % 2, s.m[k % 2].openRowAddress)
    requires upper == CommandTo(PRECHARGE, k, s.m[k].openRowAddress)
    ensures var s' := After(c, s, Issue(close, HAB));
            Poppable(c, s.mode, s'.m, upper, s'.t) && s'.r[k].currentBankState == Idle
  {
    var s' := After(c, s, Issue(close, HAB));
    ClosingStays(c, s, k % 2, close.row);
    assert s'.m[k] == TickBank(AfterIssue(c, close, s.t, close.rank, k, s.m[k]));
    assert s'.r[k] == UpdatedBank(c, s.mode, close, s.t + 1, k, s.r[k]);
  }

  lemma UntrackedFails(c: Config, s: Sides) returns (acts: seq<Action>)
    requires c.Valid() && Shape(c, s) && RegistersClear(s) && RowSettling(s.m, s.t) && !InStep(c, s)
    ensures Fails(c, s, acts)
  {
    if b :| 0 <= b < c.numBanks && !BankTracks(c, s.m[Peer(s.mode, b)], s.r[b], s.t) {
      acts := UntrackedBankFails(c, s, b);
    } else {
      var k :| 2 <= k < c.numBanks && OrdinaryOpen(s.m[k]);
      acts := UpperRowFails(c, s, k);
    }
  }

  /** Until its next switch, a rank with clear mode registers accepts every command that the controller may
      ever pop if and only if it is in step now. */
  lemma SurvivesExactly(c: Config, s: Sides)
    requires c.Valid() && ModeFits(c, s.mode) && Shape(c, s) && RowSettling(s.m, s.t) && RegistersClear(s)
    ensures Survives(c, s) <==> InStep(c, s)
  {
    if InStep(c, s) {
      forall acts: seq<Action>
        ensures !Fails(c, s, acts)
      {
        TrackedSurvives(c, s, acts);
      }
    } else {
      var acts := UntrackedFails(c, s);
    }
  }

  /** After a switch between single-bank and all-bank mode, every command is accepted until the next one if
      and only if the switch fits. */
  lemma SwitchSurvivesExactly(c: Config, mode: DramMode, s: Sides)
    requires c.Valid() && ModeFits(c, s.mode) && Shape(c, s) && RowSettling(s.m, s.t) && RegistersClear(s)
    requires Tracks(c, mode, s.m, s.r, s.t) && (mode == SB) != (s.mode == SB)
    ensures Survives(c, s) <==> SwitchFits(c, s.mode, s.m, s.r, s.t)
  {
    SurvivesExactly(c, s);
    SwitchIsExact(c, mode, s.mode, s.m, s.r, s.t);
  }

  // ---------- switches at the wrong moment ----------

  /** The same with the rank's mode and its registers. */
  datatype Scene = Scene(m: seq<BankState>, rank: RankState, t: int)

  function Fresh(c: Config): Scene {
    Scene(seq(c.numBanks, _ => INITIAL_BANK), InitialRank(c), 0)
  }

  /** The command is popped, arrives a cycle later, and a long time passes. */
  function Played(c: Config, s: Scene, p: BusPacket): Scene
    requires c.Valid()
  {
    Scene(Ticked(AfterIssueRow(c, p, s.t, p.rank, s.m), c.LongWait()),
          Receive(c, s.rank, p, s.t + 1, HAB), s.t + c.LongWait())
  }

  predicate MayPop(c: Config, s: Scene, p: BusPacket) {
    |s.m| == c.numBanks && Poppable(c, s.rank.mode, s.m, p, s.t)
  }

  predicate IsAccepted(s: Scene, p: BusPacket) {
    Accepts(s.rank.mode, s.rank.banks, p, s.t + 1)
  }

  /** All these commands can be popped one after the other, and are accepted. */
  predicate Goes(c: Config, s: Scene, ps: seq<BusPacket>)
    requires c.Valid()
    decreases |ps|
  {
    ps == [] || (MayPop(c, s, ps[0]) && IsAccepted(s, ps[0]) && Goes(c, Played(c, s, ps[0]), ps[1..]))
  }

  function End(c: Config, s: Scene, ps: seq<BusPacket>): Scene
    requires c.Valid()
    decreases |ps|
  {
    if ps == [] then s else End(c, Played(c, s, ps[0]), ps[1..])
  }

  lemma GoesOneMore(c: Config, s: Scene, p: BusPacket, ps: seq<BusPacket>)
    requires c.Valid() && MayPop(c, s, p) && IsAccepted(s, p) && Goes(c, Played(c, s, p), ps)
    ensures Goes(c, s, [p] + ps) && End(c, s, [p] + ps) == End(c, Played(c, s, p), ps)
  {
    assert ([p] + ps)[1..] == ps;
  }

  lemma NoneGo(c: Config, s: Scene)
    requires c.Valid()
    ensures Goes(c, s, []) && End(c, s, []) == s
  {
  }

  lemma ThreeGo(c: Config, s: Scene, p0: BusPacket, p1: BusPacket, p2: BusPacket)
    requires c.Valid() && MayPop(c, s, p0) && IsAccepted(s, p0)
    requires var s0 := Played(c, s, p0); MayPop(c, s0, p1) && IsAccepted(s0, p1)
    requires var s1 := Played(c, Played(c, s, p0), p1); MayPop(c, s1, p2) && IsAccepted(s1, p2)
    ensures Goes(c, s, [p0, p1, p2])
    ensures End(c, s, [p0, p1, p2]) == Played(c, Played(c, Played(c, s, p0), p1), p2)
  {
    hide *;
    var s0 := Played(c, s, p0);
    var s1 := Played(c, s0, p1);
    NoneGo(c, Played(c, s1, p2));
    GoesOneMore(c, s1, p2, []);
    assert [p2] + [] == [p2];
    GoesOneMore(c, s0, p1, [p2]);
    assert [p1] + [p2] == [p1, p2];
    GoesOneMore(c, s, p0, [p1, p2]);
    assert [p0] + [p1, p2] == [p0, p1, p2];
  }

  lemma FourGo(c: Config, s: Scene, p0: BusPacket, p1: BusPacket, p2: BusPacket, p3: BusPacket)
    requires c.Valid() && MayPop(c, s, p0) && IsAccepted(s, p0)
    requires var s0 := Played(c, s, p0); MayPop(c, s0, p1) && IsAccepted(s0, p1)
    requires var s1 := Played(c, Played(c, s, p0), p1); MayPop(c, s1, p2) && IsAccepted(s1, p2)
    requires var s2 := Played(c, Played(c, Played(c, s, p0), p1), p2); MayPop(c, s2, p3) && IsAccepted(s2, p3)
    ensures Goes(c, s, [p0, p1, p2, p3])
    ensures End(c, s, [p0, p1, p2, p3]) == Played(c, Played(c, Played(c, Played(c, s, p0), p1), p2), p3)
  {
    hide *;
    ThreeGo(c, Played(c, s, p0), p1, p2, p3);
    GoesOneMore(c, s, p0, [p1, p2, p3]);
    assert [p0] + [p1, p2, p3] == [p0, p1, p2, p3];
  }

  /** All deadlines have passed, and exactly these rows are open in the table. */
  predicate Calm(c: Config, s: Scene, open: map<nat, nat>) {
    && |s.m| == |s.rank.banks| == c.numBanks && Counting(s.m)
    && forall b | 0 <= b < c.numBanks :: BankCalm(s.m[b], s.t, b in open, if b in open then open[b] else 0)
  }

  predicate BankCalm(m: BankState, t: int, open: bool, row: nat) {
    && m.nextActivate <= t && m.nextPrecharge <= t
    && if open then m.currentBankState == RowActive && m.openRowAddress == row
       else m.currentBankState == Idle || m.currentBankState == Refreshing
  }

  function Activation(bank: nat, row: nat): BusPacket {
    BusPacket(ACTIVATE, 0, 0x1f, row, 0, bank, 0, false)
  }

  lemma CalmActivation(c: Config, s: Scene, open: map<nat, nat>, bank: nat, row: nat)
    requires c.Valid() && Calm(c, s, open) && bank < c.numBanks && bank !in open
    requires s.rank.mode == SB || bank < 2
    ensures MayPop(c, s, Activation(bank, row)) && Calm(c, Played(c, s, Activation(bank, row)), open[bank := row])
  {
    var p := Activation(bank, row);
    var m := AfterIssueRow(c, p, s.t, 0, s.m);
    CountingKept(c, p, s.t, p.rank, s.m);
    forall b | 0 <= b < c.numBanks
      ensures BankCalm(Ticked(m, c.LongWait())[b], s.t + c.LongWait(), b in open || b == bank,
                       if b == bank then row else if b in open then open[b] else 0)
    {
      assert m[b] == AfterIssue(c, p, s.t, 0, b, s.m[b]);
      TickedBank(m, c.LongWait(), b);
    }
    TickedBank(m, c.LongWait(), bank);
  }

  lemma CalmClosing(c: Config, s: Scene, open: map<nat, nat>, bank: nat)
    requires c.Valid() && Calm(c, s, open) && bank < c.numBanks && bank in open
    ensures var p := CommandTo(PRECHARGE, bank, open[bank]);
            MayPop(c, s, p) && Calm(c, Played(c, s, p), open - {bank})
  {
    var p := CommandTo(PRECHARGE, bank, open[bank]);
    var m := AfterIssueRow(c, p, s.t, 0, s.m);
    CountingKept(c, p, s.t, p.rank, s.m);
    forall b | 0 <= b < c.numBanks
      ensures BankCalm(Ticked(m, c.LongWait())[b], s.t + c.LongWait(), b in open && b != bank,
                       if b in open && b != bank then open[b] else 0)
    {
      assert m[b] == AfterIssue(c, p, s.t, 0, b, s.m[b]);
      TickedBank(m, c.LongWait(), b);
    }
    TickedBank(m, c.LongWait(), bank);
  }

  const ENTERING := [Activation(0, PIM_ABMR_RA), Activation(1, PIM_ABMR_RA), Activation(8, PIM_ABMR_RA),
                     Activation(9, PIM_ABMR_RA)]

  function WithAbmr(open: map<nat, nat>): map<nat, nat> {
    open[0 := PIM_ABMR_RA][1 := PIM_ABMR_RA][8 := PIM_ABMR_RA][9 := PIM_ABMR_RA]
  }

  /** The ABMR row, opened in its four banks, turns all-bank mode on. */
  lemma Enters(c: Config, s: Scene, open: map<nat, nat>)
    requires c.Valid() && c.numBanks >= 10 && Calm(c, s, open) && {0, 1, 8, 9} !! open.Keys
    requires s.rank.mode == SB && s.rank.flags == CLEAR_FLAGS
    ensures Goes(c, s, ENTERING)
    ensures var e := End(c, s, ENTERING);
            && Calm(c, e, WithAbmr(open)) && e.rank.banks == s.rank.banks
            && e.rank.mode == HAB && e.rank.flags == CLEAR_FLAGS
  {
    var p0, p1, p8, p9 := ENTERING[0], ENTERING[1], ENTERING[2], ENTERING[3];
    assert ENTERING == [p0, p1, p8, p9];
    hide Played, Calm, MayPop, IsAccepted, Goes, End;
    var s0 := Played(c, s, p0);
    var s1 := Played(c, s0, p1);
    var s8 := Played(c, s1, p8);
    var o0 := open[0 := PIM_ABMR_RA];
    var o1 := o0[1 := PIM_ABMR_RA];
    CalmActivation(c, s, open, 0, PIM_ABMR_RA);
    ReservedPlayed(c, s, p0);
    CalmActivation(c, s0, o0, 1, PIM_ABMR_RA);
    ReservedPlayed(c, s0, p1);
    CalmActivation(c, s1, o1, 8, PIM_ABMR_RA);
    ReservedPlayed(c, s1, p8);
    CalmActivation(c, s8, o1[8 := PIM_ABMR_RA], 9, PIM_ABMR_RA);
    ReservedPlayed(c, s8, p9);
    FourGo(c, s, p0, p1, p8, p9);
  }

  /** A command to a reserved row only reaches the mode registers. */
  lemma ReservedPlayed(c: Config, s: Scene, p: BusPacket)
    requires c.Valid() && IsReservedRow(p.row)
    ensures IsAccepted(s, p)
    ensures var r := Played(c, s, p).rank;
            && r.banks == s.rank.banks && (r.mode, r.flags) == ModeAfter(c, s.rank.mode, s.rank.flags, p, HAB)
            && Played(c, s, p).t >= s.t
  {
  }

  lemma FreshIsCalm(c: Config)
    requires c.Valid()
    ensures Calm(c, Fresh(c), map[])
  {
  }

  lemma GoesTogether(c: Config, s: Scene, ps: seq<BusPacket>, qs: seq<BusPacket>)
    requires c.Valid() && Goes(c, s, ps) && Goes(c, End(c, s, ps), qs)
    ensures Goes(c, s, ps + qs) && End(c, s, ps + qs) == End(c, End(c, s, ps), qs)
    decreases |ps|
  {
    hide *;
    if ps == [] {
      NoneGo(c, s);
      assert ps + qs == qs;
    } else {
      FirstGoes(c, s, ps);
      GoesTogether(c, Played(c, s, ps[0]), ps[1..], qs);
      assert ps + qs == [ps[0]] + (ps[1..] + qs);
      GoesOneMore(c, s, ps[0], ps[1..] + qs);
    }
  }

  lemma FirstGoes(c: Config, s: Scene, ps: seq<BusPacket>)
    requires c.Valid() && ps != [] && Goes(c, s, ps)
    ensures MayPop(c, s, ps[0]) && IsAccepted(s, ps[0]) && Goes(c, Played(c, s, ps[0]), ps[1..])
    ensures End(c, s, ps) == End(c, Played(c, s, ps[0]), ps[1..])
  {
  }

  lemma OrdinaryRowOpens(c: Config, s: Scene, bank: nat)
    requires c.Valid() && bank < c.numBanks && s.rank.banks == Fresh(c).m && s.t >= 0
    requires s.rank.mode == SB || bank < 2
    ensures IsAccepted(s, Activation(bank, 0))
    ensures var r := Played(c, s, Activation(bank, 0)).rank;
            && r.mode == s.rank.mode && r.flags == s.rank.flags && |r.banks| == c.numBanks
            && (forall b | 0 <= b < c.numBanks ::
                  r.banks[b].currentBankState == if Addressed(r.mode, Activation(bank, 0), b) then RowActive else Idle)
  {
  }

  /**
   * Entering all-bank mode with an ordinary row open is not safe: a row is opened in bank 2, the mode is
   * switched, and the PRECHARGE of that row is rejected, since the rank then looks at all banks of its parity.
   */
  lemma EnteringWithAnOpenRowIsUnsafe(c: Config)
    requires c.Valid() && c.numBanks >= 10
    ensures var ps := [Activation(2, 0)] + ENTERING;
            var e := End(c, Fresh(c), ps);
            && Goes(c, Fresh(c), ps) && e.rank.mode == HAB
            && MayPop(c, e, CommandTo(PRECHARGE, 2, 0)) && !IsAccepted(e, CommandTo(PRECHARGE, 2, 0))
  {
    var s0 := Fresh(c);
    var p := Activation(2, 0);
    var s := Played(c, s0, p);
    FreshIsCalm(c);
    CalmActivation(c, s0, map[], 2, 0);
    OrdinaryRowOpens(c, s0, 2);
    Enters(c, s, map[][2 := 0]);
    var e := End(c, s, ENTERING);
    CalmClosing(c, e, WithAbmr(map[][2 := 0]), 2);
    assert Addressed(HAB, CommandTo(PRECHARGE, 2, 0), 0) && e.rank.banks[0].currentBankState == Idle;
    assert !IsAccepted(e, CommandTo(PRECHARGE, 2, 0));
    GoesOneMore(c, s0, p, ENTERING);
  }

  /** Both ABMR rows that are in the way are closed, and the SBMR row is opened in banks 0 and 1. */
  const PREPARING := [CommandTo(PRECHARGE, 0, PIM_ABMR_RA), CommandTo(PRECHARGE, 1, PIM_ABMR_RA),
                      Activation(0, PIM_SBMR_RA), Activation(1, PIM_SBMR_RA)]

  lemma Prepares(c: Config, s: Scene)
    requires c.Valid() && c.numBanks >= 10 && Calm(c, s, WithAbmr(map[]))
    requires s.rank.mode == HAB && s.rank.flags == CLEAR_FLAGS
    ensures Goes(c, s, PREPARING)
    ensures var e := End(c, s, PREPARING);
            && Calm(c, e, map[8 := PIM_ABMR_RA, 9 := PIM_ABMR_RA, 0 := PIM_SBMR_RA, 1 := PIM_SBMR_RA])
            && e.rank.banks == s.rank.banks && e.rank.mode == HAB && e.rank.flags == CLEAR_FLAGS && e.t >= s.t
  {
    var p0, p1, p2, p3 := PREPARING[0], PREPARING[1], PREPARING[2], PREPARING[3];
    assert PREPARING == [p0, p1, p2, p3];
    hide Played, Calm, MayPop, IsAccepted, Goes, End;
    var s0 := Played(c, s, p0);
    var s1 := Played(c, s0, p1);
    var s2 := Played(c, s1, p2);
    var o := WithAbmr(map[]);
    CalmClosing(c, s, o, 0);
    ReservedPlayed(c, s, p0);
    CalmClosing(c, s0, o - {0}, 1);
    ReservedPlayed(c, s0, p1);
    assert o - {0} - {1} == map[8 := PIM_ABMR_RA, 9 := PIM_ABMR_RA];
    CalmActivation(c, s1, map[8 := PIM_ABMR_RA, 9 := PIM_ABMR_RA], 0, PIM_SBMR_RA);
    ReservedPlayed(c, s1, p2);
    CalmActivation(c, s2, map[8 := PIM_ABMR_RA, 9 := PIM_ABMR_RA, 0 := PIM_SBMR_RA], 1, PIM_SBMR_RA);
    ReservedPlayed(c, s2, p3);
    FourGo(c, s, p0, p1, p2, p3);
  }

  lemma RowsWhileLeaving()
    ensures var o := map[8 := PIM_ABMR_RA, 9 := PIM_ABMR_RA, 0 := PIM_SBMR_RA, 1 := PIM_SBMR_RA];
            (o - {0})[0 := 0] - {1} == map[8 := PIM_ABMR_RA, 9 := PIM_ABMR_RA, 0 := 0]
  {
  }

  /** An ordinary row is opened in bank 0 between the two PRECHARGEs that turn all-bank mode off. */
  const LEAVING := [CommandTo(PRECHARGE, 0, PIM_SBMR_RA), Activation(0, 0), CommandTo(PRECHARGE, 1, PIM_SBMR_RA)]

  lemma Leaves(c: Config, s: Scene)
    requires c.Valid() && c.numBanks >= 10 && s.t >= 0
    requires Calm(c, s, map[8 := PIM_ABMR_RA, 9 := PIM_ABMR_RA, 0 := PIM_SBMR_RA, 1 := PIM_SBMR_RA])
    requires s.rank.banks == Fresh(c).m && s.rank.mode == HAB && s.rank.flags == CLEAR_FLAGS
    ensures Goes(c, s, LEAVING)
    ensures var e := End(c, s, LEAVING);
            && Calm(c, e, map[8 := PIM_ABMR_RA, 9 := PIM_ABMR_RA, 0 := 0])
            && |e.rank.banks| == c.numBanks && e.rank.banks[2].currentBankState == RowActive && e.rank.mode == SB
  {
    var p0, p1, p2 := LEAVING[0], LEAVING[1], LEAVING[2];
    var s0 := Played(c, s, p0);
    var s1 := Played(c, s0, p1);
    var s2 := Played(c, s1, p2);
    var o := map[8 := PIM_ABMR_RA, 9 := PIM_ABMR_RA, 0 := PIM_SBMR_RA, 1 := PIM_SBMR_RA];
    hide Played, Calm, MayPop, IsAccepted, Goes, End;
    CalmClosing(c, s, o, 0);
    ReservedPlayed(c, s, p0);
    CalmActivation(c, s0, o - {0}, 0, 0);
    OrdinaryRowOpens(c, s0, 0);
    assert Addressed(HAB, p1, 2);
    CalmClosing(c, s1, (o - {0})[0 := 0], 1);
    ReservedPlayed(c, s1, p2);
    RowsWhileLeaving();
    assert s2.rank.mode == SB;
    ThreeGo(c, s, p0, p1, p2);
    assert LEAVING == [p0, p1, p2];
  }

  /**
   * Leaving all-bank mode with an ordinary row open is not safe either: a row is opened in bank 0 while the
   * SBMR row of bank 1 is the last to be closed; the rank has opened it in every even bank, and an ACTIVATE of
   * bank 2, which is ready in the table after the switch, is rejected.
   */
  lemma LeavingWithAnOpenRowIsUnsafe(c: Config)
    requires c.Valid() && c.numBanks >= 10
    ensures var ps := ENTERING + (PREPARING + LEAVING);
            var e := End(c, Fresh(c), ps);
            && Goes(c, Fresh(c), ps) && e.rank.mode == SB
            && MayPop(c, e, Activation(2, 0)) && !IsAccepted(e, Activation(2, 0))
  {
    var s := Fresh(c);
    FreshIsCalm(c);
    Enters(c, s, map[]);
    var e := End(c, s, ENTERING);
    TimePasses(c, s, ENTERING);
    Prepares(c, e);
    var d := End(c, e, PREPARING);
    Leaves(c, d);
    var f := End(c, d, LEAVING);
    CalmActivation(c, f, map[8 := PIM_ABMR_RA, 9 := PIM_ABMR_RA, 0 := 0], 2, 0);
    assert Addressed(SB, Activation(2, 0), 2);
    assert !IsAccepted(f, Activation(2, 0));
    hide Goes, End;
    GoesTogether(c, e, PREPARING, LEAVING);
    GoesTogether(c, s, ENTERING, PREPARING + LEAVING);
  }

  lemma TimePasses(c: Config, s: Scene, ps: seq<BusPacket>)
    requires c.Valid()
    ensures End(c, s, ps).t >= s.t
    decreases |ps|
  {
    if ps != [] {
      TimePasses(c, Played(c, s, ps[0]), ps[1..]);
    }
  }
}
