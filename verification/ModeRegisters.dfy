/**
 * When a rank changes its mode, told by the commands it has received: all-bank mode begins with the last of the
 * banks on which the ABMR row is opened, and ends with the second of the two on which the SBMR row is closed.
 */
module ModeRegisters {
  import opened Dram
  import opened RankModel

  /** A command that reaches the rank, and the mode that the PIM unit would ask for with it. */
  datatype Arrival = Arrival(p: BusPacket, pimMode: DramMode)

  ghost function After(c: Config, mode: DramMode, cmds: seq<Arrival>): (DramMode, ModeFlags) {
    if cmds == [] then (mode, CLEAR_FLAGS)
    else
      var (m, f) := After(c, mode, cmds[..|cmds| - 1]);
      ModeAfter(c, m, f, cmds[|cmds| - 1].p, cmds[|cmds| - 1].pimMode)
  }

  ghost predicate OpensAbmr(p: BusPacket) {
    p.busPacketType == ACTIVATE && p.row == 0x27ff && p.column == 0x1f
  }

  ghost predicate ClosesSbmr(p: BusPacket) {
    p.busPacketType == PRECHARGE && p.row == 0x2fff
  }

  /** One of the commands opened the ABMR row on this bank. */
  ghost predicate AbmrOpened(cmds: seq<Arrival>, bank: nat) {
    exists i | 0 <= i < |cmds| :: OpensAbmr(cmds[i].p) && cmds[i].p.bank == bank
  }

  /** One of the commands closed the SBMR row on this bank, at a time when the PIM units were not running. */
  ghost predicate SbmrClosed(c: Config, cmds: seq<Arrival>, bank: nat) {
    exists i | 0 <= i < |cmds| ::
      ClosesSbmr(cmds[i].p) && cmds[i].p.bank == bank && After(c, HAB, cmds[..i]).0 == HAB
  }

  ghost predicate StaysIn(c: Config, mode: DramMode, cmds: seq<Arrival>) {
    forall n | 0 <= n <= |cmds| :: (After(c, mode, cmds[..n]).0 == SB) == (mode == SB)
  }

  lemma StaysInPrefix(c: Config, mode: DramMode, cmds: seq<Arrival>)
    requires cmds != [] && StaysIn(c, mode, cmds)
    ensures StaysIn(c, mode, cmds[..|cmds| - 1])
  {
    var before := cmds[..|cmds| - 1];
    forall n | 0 <= n <= |before|
      ensures (After(c, mode, before[..n]).0 == SB) == (mode == SB)
    {
      assert before[..n] == cmds[..n];
    }
  }

  lemma AbmrOneMore(cmds: seq<Arrival>, bank: nat)
    requires cmds != []
    ensures AbmrOpened(cmds, bank) <==>
              AbmrOpened(cmds[..|cmds| - 1], bank)
              || (OpensAbmr(cmds[|cmds| - 1].p) && cmds[|cmds| - 1].p.bank == bank)
  {
    var before, last := cmds[..|cmds| - 1], cmds[|cmds| - 1];
    if AbmrOpened(before, bank) {
      var i :| 0 <= i < |before| && OpensAbmr(before[i].p) && before[i].p.bank == bank;
      assert cmds[i] == before[i];
    }
    if AbmrOpened(cmds, bank) {
      var i :| 0 <= i < |cmds| && OpensAbmr(cmds[i].p) && cmds[i].p.bank == bank;
      assert i < |before| ==> before[i] == cmds[i];
    }
  }

  lemma SbmrOneMore(c: Config, cmds: seq<Arrival>, bank: nat)
    requires cmds != []
    ensures var before, last := cmds[..|cmds| - 1], cmds[|cmds| - 1];
            SbmrClosed(c, cmds, bank) <==>
              SbmrClosed(c, before, bank)
              || (ClosesSbmr(last.p) && last.p.bank == bank && After(c, HAB, before).0 == HAB)
  {
    var before, last := cmds[..|cmds| - 1], cmds[|cmds| - 1];
    hide After;
    if SbmrClosed(c, before, bank) {
      var i :| 0 <= i < |before| && ClosesSbmr(before[i].p) && before[i].p.bank == bank
               && After(c, HAB, before[..i]).0 == HAB;
      assert cmds[i] == before[i] && cmds[..i] == before[..i];
    }
    if SbmrClosed(c, cmds, bank) {
      var i :| 0 <= i < |cmds| && ClosesSbmr(cmds[i].p) && cmds[i].p.bank == bank
               && After(c, HAB, cmds[..i]).0 == HAB;
      assert i < |before| ==> before[i] == cmds[i] && before[..i] == cmds[..i];
    }
    assert cmds[..|before|] == before;
  }

  /** In single-bank mode the registers say on which of their banks the ABMR row has been opened. */
  lemma {:induction false} RegistersInSb(c: Config, cmds: seq<Arrival>)
    requires StaysIn(c, SB, cmds)
    ensures After(c, SB, cmds) == (SB, ModeFlags(AbmrOpened(cmds, 0), AbmrOpened(cmds, 1), AbmrOpened(cmds, 8),
                                                 AbmrOpened(cmds, 9), false, false))
  {
    assert cmds[..|cmds|] == cmds;
    if cmds != [] {
      StaysInPrefix(c, SB, cmds);
      RegistersInSb(c, cmds[..|cmds| - 1]);
      hide AbmrOpened, StaysIn;
      AbmrOneMore(cmds, 0);
      AbmrOneMore(cmds, 1);
      AbmrOneMore(cmds, 8);
      AbmrOneMore(cmds, 9);
      assert After(c, SB, cmds).0 == SB by { AtEnd(c, SB, cmds); }
    }
  }

  lemma AtEnd(c: Config, mode: DramMode, cmds: seq<Arrival>)
    requires StaysIn(c, mode, cmds)
    ensures (After(c, mode, cmds).0 == SB) == (mode == SB)
  {
    assert cmds[..|cmds|] == cmds;
  }

  /** In all-bank mode they say on which of the first two banks the SBMR row has been closed, never on both. */
  lemma {:induction false} RegistersInHab(c: Config, cmds: seq<Arrival>)
    requires StaysIn(c, HAB, cmds)
    ensures After(c, HAB, cmds).1
         == ModeFlags(false, false, false, false, SbmrClosed(c, cmds, 0), SbmrClosed(c, cmds, 1))
    ensures !(SbmrClosed(c, cmds, 0) && SbmrClosed(c, cmds, 1))
  {
    if cmds != [] {
      StaysInPrefix(c, HAB, cmds);
      RegistersInHab(c, cmds[..|cmds| - 1]);
      AtEnd(c, HAB, cmds);
      AtEnd(c, HAB, cmds[..|cmds| - 1]);
      hide SbmrClosed, StaysIn;
      SbmrOneMore(c, cmds, 0);
      SbmrOneMore(c, cmds, 1);
    }
  }

  /**
   * A rank in single-bank mode enters all-bank mode with a command if and only if that opens the ABMR row, and
   * the row has then been opened on banks 0 and 1, and on 8 and 9 where there are more than two banks.
   */
  lemma EntersExactly(c: Config, cmds: seq<Arrival>, a: Arrival)
    requires StaysIn(c, SB, cmds)
    ensures var mode := After(c, SB, cmds + [a]).0;
            && (mode == SB || mode == HAB)
            && (mode == HAB <==>
                && OpensAbmr(a.p)
                && AbmrOpened(cmds + [a], 0) && AbmrOpened(cmds + [a], 1)
                && (c.numBanks > 2 ==> AbmrOpened(cmds + [a], 8) && AbmrOpened(cmds + [a], 9)))
  {
    var longer := cmds + [a];
    assert longer[..|longer| - 1] == cmds;
    RegistersInSb(c, cmds);
    hide AbmrOpened, StaysIn;
    AbmrOneMore(longer, 0);
    AbmrOneMore(longer, 1);
    AbmrOneMore(longer, 8);
    AbmrOneMore(longer, 9);
  }

  /**
   * A rank in all-bank mode goes back to single-bank mode if and only if the command closes the SBMR row while
   * the PIM units do not run, and the row has then been closed on banks 0 and 1 while they did not.
   */
  lemma LeavesExactly(c: Config, cmds: seq<Arrival>, a: Arrival)
    requires StaysIn(c, HAB, cmds) && a.pimMode != SB
    ensures After(c, HAB, cmds + [a]).0 == SB <==>
              && After(c, HAB, cmds).0 == HAB && ClosesSbmr(a.p)
              && SbmrClosed(c, cmds + [a], 0) && SbmrClosed(c, cmds + [a], 1)
  {
    var longer := cmds + [a];
    assert longer[..|longer| - 1] == cmds;
    RegistersInHab(c, cmds);
    AtEnd(c, HAB, cmds);
    hide SbmrClosed, StaysIn;
    SbmrOneMore(c, longer, 0);
    SbmrOneMore(c, longer, 1);
  }
}
