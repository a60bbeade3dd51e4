/**
 * The program counter of the in-memory processor. Each qualifying memory access triggers one instruction;
 * one jump counter and one repeat counter stand in for loops and repeated instructions. Over any number of
 * triggers, the object executes what the machine of these counters executes.
 */
module PimSequencerModel {
  import opened Dram
  import opened PimCommandModel

  /** What the sequencer needs to know of an instruction. Do(times) executes that many times in a row. */
  datatype Op = Exit | Jump(counter: nat, offset: nat) | Do(times: nat)

  function AsNat(b: bv32): nat {
    b as nat
  }

  function OpOf(f: Fields, blocks: nat): Op {
    if f.kind == EXIT then Exit
    else if f.kind == JUMP then Jump(AsNat(f.loopCounter), AsNat(f.loopOffset))
    else if f.kind == FILL || (Computes(f.kind) && f.isAuto != 0) then Do(blocks)
    else if f.kind == NOP then Do(AsNat(f.loopCounter) + 1)
    else Do(1)
  }

  /** How a stored word is sequenced. */
  function Fetched(word: bv32, blocks: nat): Op {
    var k := KindOf(FromBit(word, 4, 28));
    if k == EXIT then Exit
    else if k == JUMP then Jump(AsNat(FromBit(word, 17, 11)), AsNat(FromBit(word, 11, 0)))
    else if k == FILL || (Computes(k) && FromBit(word, 1, 15) != 0) then Do(blocks)
    else if k == NOP then Do(AsNat(FromBit(word, 11, 0)) + 1)
    else Do(1)
  }

  /** What each word of the program memory is to the sequencer, bit by bit. */
  lemma FetchedWord(word: bv32, blocks: nat)
    ensures var code, op := word >> 28, Fetched(word, blocks);
            && (code == 15 ==> op == Exit)
            && (code == 14 ==> op == Jump(AsNat((word >> 11) & 0x1_ffff), AsNat(word & 0x7ff)))
            && (code == 9 ==> op == Do(blocks))
            && (1 <= code <= 4 ==> op == if (word >> 15) & 1 != 0 then Do(blocks) else Do(1))
            && (code == 0 ==> op == Do(AsNat(word & 0x7ff) + 1))
            && (5 <= code <= 8 || 10 <= code <= 13 ==> op == Do(1))
  {
    hide FromBit, AsNat;
    TopBits(word);
    LowBits(word);
    BitsAt(word, 17, 11, 0x1_ffff);
    BitsAt(word, 1, 15, 1);
  }

  function Program(crf: seq<bv32>, blocks: nat): (p: seq<Op>)
    ensures |p| == |crf|
  {
    seq(|crf|, i requires 0 <= i < |crf| => Fetched(crf[i], blocks))
  }

  /** A program stored by encoding its commands is fetched as the same program. */
  lemma StoredProgram(commands: seq<Fields>, crf: seq<bv32>, blocks: nat)
    requires |crf| == |commands|
    requires forall i :: 0 <= i < |commands| ==> Fits(commands[i]) && crf[i] == Encoded(commands[i])
    ensures Program(crf, blocks) == seq(|commands|, i requires 0 <= i < |commands| => OpOf(commands[i], blocks))
  {
    hide Encoded, Fetched, OpOf;
    forall i | 0 <= i < |commands| ensures Program(crf, blocks)[i] == OpOf(commands[i], blocks) {
      StoredCommand(commands[i], blocks);
    }
  }

  lemma StoredCommand(f: Fields, blocks: nat)
    requires Fits(f)
    ensures Fetched(Encoded(f), blocks) == OpOf(f, blocks)
  {
    KindAlone(f.kind);
    hide AsNat, FromBit, ToBit, With, Code, KindOf, EncodedMove, EncodedCompute;
    if f.kind == NOP {
      NopWord(Code(f.kind), f.loopCounter);
    } else if f.kind == JUMP {
      JumpWord(Code(f.kind), f.loopCounter, f.loopOffset);
    } else if Moves(f.kind) {
      MoveWord(Code(f.kind), f);
    } else if Computes(f.kind) {
      ComputeWord(Code(f.kind), f, if f.kind == MAD then f.src2 else 0);
    }
  }

  // ----- the machine -----

  datatype Registers = Registers(pc: int, lastJump: int, jumps: int, lastRepeat: int, repeats: int)

  const RESET := Registers(0, -1, -1, -1, 0)

  /** A jump seen for the first time loads its counter. */
  function Loaded(p: seq<Op>, s: Registers): Registers
    requires 0 <= s.pc < |p| && p[s.pc].Jump?
  {
    if s.lastJump != s.pc && p[s.pc].counter > 0 then s.(lastJump := s.pc, jumps := p[s.pc].counter) else s
  }

  function Jumped(p: seq<Op>, s: Registers): Registers
    requires 0 <= s.pc < |p| && p[s.pc].Jump?
  {
    var t := Loaded(p, s);
    if t.jumps > 0 then t.(pc := t.pc - p[s.pc].offset + 1, jumps := t.jumps - 1) else t.(pc := t.pc + 1)
  }

  /** An instruction that repeats stays at its place until its repeat counter runs out. */
  function Repeated(p: seq<Op>, s: Registers): Registers
    requires 0 <= s.pc < |p| && p[s.pc].Do?
  {
    var t := if s.lastRepeat != s.pc then s.(lastRepeat := s.pc, repeats := p[s.pc].times - 1) else s;
    if t.repeats > 0 then t.(repeats := t.repeats - 1) else t.(lastRepeat := -1, repeats := 0, pc := t.pc + 1)
  }

  predicate InCode(p: seq<Op>, s: Registers) {
    0 <= s.pc < |p| && p[s.pc] != Exit
  }

  predicate AtExit(p: seq<Op>, s: Registers) {
    0 <= s.pc < |p| && p[s.pc] == Exit
  }

  /** One round of the sequencer, be it a jump or an instruction. */
  function Stepped(p: seq<Op>, s: Registers): Registers
    requires InCode(p, s)
  {
    if p[s.pc].Jump? then Jumped(p, s) else Repeated(p, s)
  }

  /** A repeat that is in progress is that of the instruction at the program counter. */
  predicate Regular(p: seq<Op>, s: Registers) {
    if s.lastRepeat == -1 then s.repeats == 0
    else s.lastRepeat == s.pc && InCode(p, s) && p[s.pc].Do? && 0 <= s.repeats < p[s.pc].times - 1
  }

  /** From `s` the machine reaches an EXIT in `n` rounds and executes `trace` on the way. */
  ghost predicate Completes(p: seq<Op>, s: Registers, trace: seq<int>, n: nat)
    decreases n
  {
    if n == 0 then AtExit(p, s) && trace == []
    else
      && InCode(p, s)
      && if p[s.pc].Do? then trace != [] && trace[0] == s.pc && Completes(p, Stepped(p, s), trace[1..], n - 1)
         else Completes(p, Stepped(p, s), trace, n - 1)
  }

  /** A trigger executes the first of what is left, or finds nothing left and exits. */
  ghost predicate Outcome(executed: Option<int>, before: seq<int>, after: seq<int>, exited: bool) {
    if before == [] then executed == None && after == [] && exited
    else executed == Some(before[0]) && after == before[1..]
  }

  /** Does an access to this bank and row trigger an instruction under this control byte? */
  ghost predicate Qualifies(toggle: bv8, access: (nat, nat)) {
    && (if access.0 % 2 == 0 then toggle & 1 == 0 else toggle & 2 == 0)
    && (toggle & 4 != 0 || access.1 / 0x2000 % 2 == 0)
  }

  /** How many accesses trigger. */
  ghost function Qualifying(toggle: bv8, accesses: seq<(nat, nat)>): nat {
    if accesses == [] then 0
    else Qualifying(toggle, accesses[..|accesses| - 1]) +
         if Qualifies(toggle, accesses[|accesses| - 1]) then 1 else 0
  }

  ghost function Response(operate: bool, toggle: bv8, access: (nat, nat), program: seq<int>, done: nat): Option<int> {
    if operate && Qualifies(toggle, access) && done < |program| then Some(program[done]) else None
  }

  ghost function Responses(operate: bool, toggle: bv8, accesses: seq<(nat, nat)>, program: seq<int>)
    : (rs: seq<Option<int>>)
    ensures |rs| == |accesses|
  {
    if accesses == [] then []
    else
      var before := accesses[..|accesses| - 1];
      Responses(operate, toggle, before, program) +
      [Response(operate, toggle, accesses[|accesses| - 1], program, Qualifying(toggle, before))]
  }

  lemma {:induction false} ResponsesAt(operate: bool, toggle: bv8, accesses: seq<(nat, nat)>, program: seq<int>)
    ensures var rs := Responses(operate, toggle, accesses, program);
            forall k :: 0 <= k < |rs| ==>
              rs[k] == Response(operate, toggle, accesses[k], program, Qualifying(toggle, accesses[..k]))
  {
    hide Response, Qualifying;
    if accesses != [] {
      var before := accesses[..|accesses| - 1];
      ResponsesAt(operate, toggle, before, program);
      forall k | 0 <= k < |before| ensures accesses[..k] == before[..k] {}
    }
  }

  ghost function LeftAfter(program: seq<int>, done: nat): seq<int> {
    if done < |program| then program[done..] else []
  }

  lemma StaysRegular(p: seq<Op>, s: Registers)
    requires Regular(p, s) && InCode(p, s)
    ensures Regular(p, Stepped(p, s))
  {
  }

  class PimSequencer {
    const blocks: nat
    var crf: seq<bv32>
    var pimPC: int
    var lastJumpIdx: int
    var numJumpToBeTaken: int
    var lastRepeatIdx: int
    var numRepeatToBeDone: int
    var crfExit: bool
    var pimOpMode: bool
    var toggleEvenBank: bool
    var toggleOddBank: bool
    var toggleRa13h: bool

    /** The registers; the repeat counter means nothing while nothing is repeated. */
    ghost function State(): Registers
      reads this
    {
      Registers(pimPC, lastJumpIdx, numJumpToBeTaken, lastRepeatIdx,
                if lastRepeatIdx == -1 then 0 else numRepeatToBeDone)
    }

    ghost function Ops(): seq<Op>
      reads this`crf
    {
      Program(crf, blocks)
    }

    /** The machine is in a regular state from which it reaches an EXIT, executing what is `left` on the way. */
    ghost predicate Due(left: seq<int>)
      reads this
    {
      && blocks >= 1 && Regular(Ops(), State()) && (crfExit ==> AtExit(Ops(), State()))
      && exists n: nat :: Completes(Ops(), State(), left, n)
    }

    /** Writing the control register starts the program over, or leaves the processing mode. */
    method ControlPim(operate: bool, toggle: bv8)
      modifies this`pimOpMode, this`toggleEvenBank, this`toggleOddBank, this`toggleRa13h, this`pimPC,
               this`lastJumpIdx, this`numJumpToBeTaken, this`lastRepeatIdx, this`numRepeatToBeDone, this`crfExit
      ensures pimOpMode == operate && toggleEvenBank == (toggle & 1 == 0) && toggleOddBank == (toggle & 2 == 0)
      ensures toggleRa13h == (toggle & 4 != 0)
      ensures if operate then State() == RESET && !crfExit else State() == old(State()) && crfExit == old(crfExit)
    {
      pimOpMode := operate;
      toggleEvenBank := toggle & 1 == 0;
      toggleOddBank := toggle & 2 == 0;
      toggleRa13h := toggle & 4 != 0;
      if operate {
        pimPC := 0;
        lastJumpIdx, numJumpToBeTaken, lastRepeatIdx, numRepeatToBeDone := -1, -1, -1, -1;
        crfExit := false;
      }
    }

    /** A memory access triggers an instruction while the program runs, by bank parity and row. */
    predicate IsToggleCond(bank: nat, row: nat)
      reads this`pimOpMode, this`crfExit, this`toggleRa13h, this`toggleEvenBank, this`toggleOddBank
    {
      pimOpMode && !crfExit && (toggleRa13h || !IsReservedRow(row)) &&
      if bank % 2 == 0 then toggleEvenBank else toggleOddBank
    }

    /** The jump branch of a trigger. */
    method TakeJump(counter: nat, offset: nat, ghost p: seq<Op>)
      requires 0 <= pimPC < |p| && p[pimPC] == Jump(counter, offset)
      modifies this`pimPC, this`lastJumpIdx, this`numJumpToBeTaken
      ensures State() == Jumped(p, old(State()))
    {
      if lastJumpIdx != pimPC {
        if counter > 0 {
          lastJumpIdx := pimPC;
          numJumpToBeTaken := counter;
        }
      }
      if numJumpToBeTaken > 0 {
        pimPC := pimPC - offset;
        numJumpToBeTaken := numJumpToBeTaken - 1;
      }
      pimPC := pimPC + 1;
    }

    /** The repeat bookkeeping of an instruction that is executed times times. */
    method CountRepeat(times: int)
      modifies this`pimPC, this`lastRepeatIdx, this`numRepeatToBeDone
      ensures var unseen := old(lastRepeatIdx) != old(pimPC);
              var left := if unseen then times - 1 else old(numRepeatToBeDone);
              if left > 0 then
                pimPC == old(pimPC) - 1 && lastRepeatIdx == old(pimPC) && numRepeatToBeDone == left - 1
              else pimPC == old(pimPC) && lastRepeatIdx == -1
    {
      if lastRepeatIdx != pimPC {
        lastRepeatIdx := pimPC;
        numRepeatToBeDone := times - 1;
      }
      if numRepeatToBeDone > 0 {
        pimPC := pimPC - 1;
        numRepeatToBeDone := numRepeatToBeDone - 1;
      } else {
        lastRepeatIdx := -1;
      }
    }

    /** An instruction that is no jump: repeat bookkeeping if it repeats, then on to the next place. */
    method Execute(times: nat, repeating: bool, ghost p: seq<Op>)
      requires Regular(p, State()) && 0 <= pimPC < |p| && p[pimPC] == Do(times) && times >= 1
      requires !repeating ==> times == 1
      modifies this`pimPC, this`lastRepeatIdx, this`numRepeatToBeDone
      ensures State() == Repeated(p, old(State()))
    {
      if repeating {
        CountRepeat(times);
      }
      pimPC := pimPC + 1;
    }

    /** Decodes the word at the program counter. */
    method Fetch(cCmd: PimCommand, ghost p: seq<Op>)
      requires p == Ops() && 0 <= pimPC < |p| && cCmd.isAuto == 0
      modifies cCmd
      ensures cCmd.kind == EXIT <==> p[pimPC] == Exit
      ensures cCmd.kind == JUMP ==>
                cCmd.isAuto == 0 && p[pimPC] == Jump(AsNat(cCmd.loopCounter), AsNat(cCmd.loopOffset))
      ensures cCmd.kind != EXIT && cCmd.kind != JUMP ==>
                p[pimPC] == if cCmd.kind == FILL || cCmd.isAuto != 0 then Do(blocks)
                            else if cCmd.kind == NOP then Do(AsNat(cCmd.loopCounter) + 1) else Do(1)
    {
      assert p[pimPC] == Fetched(crf[pimPC], blocks);
      hide AsNat, FromBit, KindOf, Decoded;
      cCmd.FromInt(crf[pimPC]);
    }

    /** The three ways an instruction that is no jump is counted. */
    method ExecuteRound(everyBlock: bool, nop: bool, counter: bv32, ghost p: seq<Op>)
      requires blocks >= 1 && Regular(p, State()) && 0 <= pimPC < |p|
      requires p[pimPC] == if everyBlock then Do(blocks) else if nop then Do(AsNat(counter) + 1) else Do(1)
      modifies this`pimPC, this`lastRepeatIdx, this`numRepeatToBeDone
      ensures State() == Repeated(p, old(State()))
    {
      hide AsNat;
      if everyBlock {
        Execute(blocks, true, p);
      } else if nop {
        Execute(AsNat(counter) + 1, true, p);
      } else {
        Execute(1, false, p);
      }
    }

    /** One round of a trigger: a jump goes round again, anything else ends the trigger. */
    method Round(cCmd: PimCommand, ghost p: seq<Op>, ghost left: seq<int>, ghost n: nat) returns (executed: Option<int>)
      requires p == Ops() && blocks >= 1 && Regular(p, State()) && Completes(p, State(), left, n) && cCmd.isAuto == 0
      modifies cCmd, this`pimPC, this`lastJumpIdx, this`numJumpToBeTaken, this`lastRepeatIdx, this`numRepeatToBeDone,
               this`crfExit
      ensures Regular(p, State()) && crfExit == (old(crfExit) || AtExit(p, State()))
      ensures cCmd.kind == EXIT <==> n == 0
      ensures n == 0 ==> executed == None && State() == old(State())
      ensures n > 0 ==> State() == Stepped(p, old(State()))
      ensures cCmd.kind == JUMP ==> executed == None && cCmd.isAuto == 0 && Completes(p, State(), left, n - 1)
      ensures cCmd.kind != EXIT && cCmd.kind != JUMP ==>
                left != [] && executed == Some(left[0]) && Completes(p, State(), left[1..], n - 1)
    {
      hide AsNat, Repeated, Jumped;
      Fetch(cCmd, p);
      if cCmd.kind == EXIT {
        crfExit := true;
        return None;
      } else if cCmd.kind == JUMP {
        TakeJump(AsNat(cCmd.loopCounter), AsNat(cCmd.loopOffset), p);
        executed := None;
      } else {
        executed := Some(pimPC);
        ExecuteRound(cCmd.kind == FILL || cCmd.isAuto != 0, cCmd.kind == NOP, cCmd.loopCounter, p);
      }
      StaysRegular(p, old(State()));
      CheckExit(p);
    }

    /**
     * One trigger. It executes the next instruction of what is left, if any, skipping over jumps; when
     * nothing is left it only notices the EXIT. It ends whenever the program does.
     */
    method DoPim(ghost left: seq<int>) returns (executed: Option<int>, ghost after: seq<int>)
      requires Due(left) && !crfExit
      modifies this`pimPC, this`lastJumpIdx, this`numJumpToBeTaken, this`lastRepeatIdx, this`numRepeatToBeDone,
               this`crfExit
      ensures Due(after) && (crfExit ==> after == []) && Outcome(executed, left, after, crfExit)
    {
      ghost var p := Ops();
      ghost var n: nat :| Completes(p, State(), left, n);
      var cCmd := new PimCommand();
      executed, after := None, left;
      var more := true;
      while more
        invariant fresh(cCmd) && p == Ops() && Regular(p, State()) && crf == old(crf)
        invariant Completes(p, State(), after, n)
        invariant crfExit ==> AtExit(p, State())
        invariant more ==> cCmd.isAuto == 0 && executed == None && after == left
        invariant !more ==> Outcome(executed, left, after, crfExit)
        decreases more, n
      {
        executed := Round(cCmd, p, after, n);
        more := cCmd.kind == JUMP;
        if cCmd.kind != EXIT {
          n := n - 1;
          if !more { after := after[1..]; }
        }
      }
    }

    /**
     * An access triggers an instruction exactly in the processing mode, before the EXIT, on a bank of a parity
     * that is switched on, and on an ordinary row (bit 13 clear) unless all rows count.
     */
    method Access(bank: nat, row: nat, ghost left: seq<int>) returns (executed: Option<int>, ghost after: seq<int>)
      requires pimOpMode && !crfExit ==> Due(left)
      modifies this`pimPC, this`lastJumpIdx, this`numJumpToBeTaken, this`lastRepeatIdx, this`numRepeatToBeDone,
               this`crfExit
      ensures if old(pimOpMode && !crfExit && (toggleRa13h || row / 0x2000 % 2 == 0) &&
                     (if bank % 2 == 0 then toggleEvenBank else toggleOddBank))
              then Due(after) && (crfExit ==> after == []) && Outcome(executed, left, after, crfExit)
              else executed == None && after == left && State() == old(State()) && crfExit == old(crfExit)
      ensures old(Due(left)) ==> Due(after)
    {
      executed, after := None, left;
      if IsToggleCond(bank, row) {
        executed, after := DoPim(left);
      }
    }

    /** The switches stand as this control byte says. */
    ghost predicate IsSet(toggle: bv8)
      reads this`toggleEvenBank, this`toggleOddBank, this`toggleRa13h
    {
      && toggleEvenBank == (toggle & 1 == 0) && toggleOddBank == (toggle & 2 == 0)
      && toggleRa13h == (toggle & 4 != 0)
    }

    /** One access of a session in which so many instructions have been executed. */
    method AccessUnder(access: (nat, nat), ghost toggle: bv8, ghost program: seq<int>, ghost done: nat,
                       ghost left: seq<int>)
      returns (executed: Option<int>, ghost after: seq<int>)
      requires IsSet(toggle)
      requires pimOpMode ==> Due(left) && (crfExit ==> left == []) && left == LeftAfter(program, done)
      modifies this`pimPC, this`lastJumpIdx, this`numJumpToBeTaken, this`lastRepeatIdx, this`numRepeatToBeDone,
               this`crfExit
      ensures executed == Response(pimOpMode, toggle, access, program, done)
      ensures pimOpMode ==> Due(after) && (crfExit ==> after == [])
      ensures pimOpMode ==> after == LeftAfter(program, done + if Qualifies(toggle, access) then 1 else 0)
    {
      hide Due;
      executed, after := Access(access.0, access.1, left);
    }

    method AccessAll(accesses: seq<(nat, nat)>, ghost toggle: bv8, ghost program: seq<int>)
      returns (executed: seq<Option<int>>)
      requires IsSet(toggle) && (pimOpMode ==> Due(program) && !crfExit)
      modifies this`pimPC, this`lastJumpIdx, this`numJumpToBeTaken, this`lastRepeatIdx, this`numRepeatToBeDone,
               this`crfExit
      ensures executed == Responses(pimOpMode, toggle, accesses, program)
    {
      hide Due, Qualifies, IsSet, Response;
      executed := [];
      ghost var left, done := program, 0;
      assert left == LeftAfter(program, done);
      hide LeftAfter;
      for i := 0 to |accesses|
        invariant pimOpMode == old(pimOpMode) && IsSet(toggle)
        invariant pimOpMode ==> Due(left) && (crfExit ==> left == []) && left == LeftAfter(program, done)
        invariant done == Qualifying(toggle, accesses[..i])
        invariant executed == Responses(pimOpMode, toggle, accesses[..i], program)
      {
        assert accesses[..i + 1][..i] == accesses[..i];
        var e;
        e, left := AccessUnder(accesses[i], toggle, program, done, left);
        executed := executed + [e];
        done := done + if Qualifies(toggle, accesses[i]) then 1 else 0;
      }
      assert accesses[..|accesses|] == accesses;
    }

    /**
     * A session: the control register is written, then memory is accessed. Every access executes the next
     * instruction of the program, if there is one left, when bit 0 (even banks) or bit 1 (odd banks) of the
     * control byte is clear and either bit 2 is set or the row is no register row; no other access executes
     * anything, and out of processing mode none does.
     */
    method Session(operate: bool, toggle: bv8, accesses: seq<(nat, nat)>, ghost program: seq<int>)
      returns (executed: seq<Option<int>>)
      requires operate ==> blocks >= 1 && exists n: nat :: Completes(Ops(), RESET, program, n)
      modifies this`pimOpMode, this`toggleEvenBank, this`toggleOddBank, this`toggleRa13h, this`pimPC,
               this`lastJumpIdx, this`numJumpToBeTaken, this`lastRepeatIdx, this`numRepeatToBeDone, this`crfExit
      ensures |executed| == |accesses|
      ensures forall k :: 0 <= k < |executed| ==>
                var (bank, row) := accesses[k]; var done := Qualifying(toggle, accesses[..k]);
                executed[k] ==
                  if operate && (if bank % 2 == 0 then toggle & 1 == 0 else toggle & 2 == 0)
                     && (toggle & 4 != 0 || row / 0x2000 % 2 == 0) && done < |program|
                  then Some(program[done]) else None
    {
      ControlPim(operate, toggle);
      executed := AccessAll(accesses, toggle, program);
      ResponsesAt(operate, toggle, accesses, program);
    }

    /** After every step: is the next word an EXIT? */
    method CheckExit(ghost p: seq<Op>)
      requires p == Ops() && 0 <= pimPC < |p|
      modifies this`crfExit
      ensures crfExit == (old(crfExit) || AtExit(p, State()))
    {
      var next := new PimCommand();
      Fetch(next, p);
      if next.kind == EXIT {
        crfExit := true;
      }
    }

    /** One more access of a run whose executed instructions so far are in trace. */
    method Trigger(trace: seq<int>, ghost left: seq<int>, ghost program: seq<int>)
      returns (longer: seq<int>, ghost after: seq<int>)
      requires Due(left) && program == trace + left && (crfExit ==> left == [])
      modifies this`pimPC, this`lastJumpIdx, this`numJumpToBeTaken, this`lastRepeatIdx, this`numRepeatToBeDone,
               this`crfExit
      ensures Due(after) && program == longer + after && (crfExit ==> after == [])
      ensures |longer| == if |trace| < |program| then |trace| + 1 else |program|
      ensures |trace| == |program| ==> crfExit
    {
      hide Due;
      longer, after := trace, left;
      if !crfExit {
        var executed;
        executed, after := DoPim(left);
        if executed.Some? {
          longer := trace + [executed.value];
        }
      }
    }

    /**
     * n qualifying accesses after the start of a program that comes to an EXIT: the instructions executed are
     * the first n that the machine executes. The program exits with its last instruction, or one access later
     * when a jump that is no longer taken stands before the EXIT.
     */
    method Run(n: nat, ghost program: seq<int>) returns (trace: seq<int>)
      requires Due(program) && State() == RESET && !crfExit && pimOpMode
      modifies this`pimPC, this`lastJumpIdx, this`numJumpToBeTaken, this`lastRepeatIdx, this`numRepeatToBeDone,
               this`crfExit
      ensures trace == if n <= |program| then program[..n] else program
      ensures Due(program[|trace|..]) && (crfExit ==> trace == program) && (n > |program| ==> crfExit)
    {
      trace := [];
      ghost var left := program;
      hide Due;
      for i := 0 to n
        invariant Due(left) && program == trace + left
        invariant |trace| == if i <= |program| then i else |program|
        invariant i > |program| ==> crfExit
        invariant crfExit ==> left == []
        invariant unchanged(`pimOpMode)
      {
        if pimOpMode {
          trace, left := Trigger(trace, left, program);
        }
      }
    }
  }
}
