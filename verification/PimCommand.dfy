/** The 32-bit instruction words of the in-memory processor: encoding and decoding. */
module PimCommandModel {
  import opened Dram

  datatype Kind =
    NOP | ADD | MUL | MAC | MAD | REV0 | REV1 | REV2 | MOV | FILL | REV3 | REV4 | REV5 | REV6 | JUMP | EXIT

  /** The enumerators in the order of their codes. */
  function Code(k: Kind): bv32 {
    match k
    case NOP => 0 case ADD => 1 case MUL => 2 case MAC => 3 case MAD => 4
    case REV0 => 5 case REV1 => 6 case REV2 => 7 case MOV => 8 case FILL => 9
    case REV3 => 10 case REV4 => 11 case REV5 => 12 case REV6 => 13 case JUMP => 14 case EXIT => 15
  }

  function KindOf(code: bv32): Kind {
    if code == 0 then NOP else if code == 1 then ADD else if code == 2 then MUL else if code == 3 then MAC
    else if code == 4 then MAD else if code == 5 then REV0 else if code == 6 then REV1 else if code == 7 then REV2
    else if code == 8 then MOV else if code == 9 then FILL else if code == 10 then REV3 else if code == 11 then REV4
    else if code == 12 then REV5 else if code == 13 then REV6 else if code == 14 then JUMP else EXIT
  }

  const EVEN_BANK: bv32 := 2
  const ODD_BANK: bv32 := 3
  const GRF_A: bv32 := 4
  const GRF_B: bv32 := 5

  function Bitmask(bits: bv32): bv32
    requires bits < 32
  {
    (1 << bits) - 1
  }

  function ToBit(val: bv32, bits: bv32, pos: bv32): bv32
    requires bits < 32 && pos < 32
  {
    (val & Bitmask(bits)) << pos
  }

  function FromBit(val: bv32, bits: bv32, pos: bv32): bv32
    requires bits < 32 && pos < 32
  {
    (val >> pos) & Bitmask(bits)
  }

  datatype Fields = Fields(kind: Kind, dst: bv32, src0: bv32, src1: bv32, src2: bv32, loopCounter: bv32,
                           loopOffset: bv32, isAuto: bv32, dstIdx: bv32, src0Idx: bv32, src1Idx: bv32, isRelu: bv32)

  predicate Moves(kind: Kind) {
    kind == FILL || kind == MOV
  }

  predicate Computes(kind: Kind) {
    kind == ADD || kind == MUL || kind == MAC || kind == MAD
  }

  function DecodedOperands(g: Fields, val: bv32): Fields {
    g.(dst := FromBit(val, 3, 25), src0 := FromBit(val, 3, 22),
       dstIdx := FromBit(val, 4, 8), src0Idx := FromBit(val, 4, 4), src1Idx := FromBit(val, 4, 0))
  }

  function DecodedMove(g: Fields, val: bv32): Fields {
    DecodedOperands(g.(isRelu := FromBit(val, 1, 12)), val)
  }

  function DecodedCompute(g: Fields, val: bv32): Fields {
    var h := if g.kind == MAD then g.(src2 := FromBit(val, 3, 16)) else g;
    DecodedOperands(h.(src1 := FromBit(val, 3, 19), isAuto := FromBit(val, 1, 15)), val)
  }

  /** Decoding writes the fields its kind uses and leaves the others as they were. */
  function Decoded(f: Fields, val: bv32): Fields {
    var k := KindOf(FromBit(val, 4, 28));
    if k == NOP then f.(kind := k, loopCounter := FromBit(val, 11, 0))
    else if k == JUMP then f.(kind := k, loopCounter := FromBit(val, 17, 11), loopOffset := FromBit(val, 11, 0))
    else if Moves(k) then DecodedMove(f.(kind := k), val)
    else if Computes(k) then DecodedCompute(f.(kind := k), val)
    else f.(kind := k)
  }

  /** A move into a bank may not name a register file as a source; encoding such a command aborts. */
  predicate Rejected(f: Fields) {
    && Moves(f.kind) && (f.dst == EVEN_BANK || f.dst == ODD_BANK)
    && (f.src0 == GRF_A || f.src0 == GRF_B || f.src1 == GRF_A || f.src1 == GRF_B || f.src2 == GRF_A || f.src2 == GRF_B)
  }

  /** word |= bits */
  function With(word: bv32, bits: bv32): bv32 {
    word | bits
  }

  function EncodedMove(val: bv32, f: Fields): bv32 {
    With(With(With(With(With(With(val, ToBit(f.dst, 3, 25)), ToBit(f.src0, 3, 22)), ToBit(f.dstIdx, 4, 8)),
                        ToBit(f.src0Idx, 4, 4)), ToBit(f.src1Idx, 4, 0)), ToBit(f.isRelu, 1, 12))
  }

  function EncodedCompute(val: bv32, f: Fields): bv32 {
    With(With(With(With(With(With(With(val, ToBit(f.dst, 3, 25)), ToBit(f.src0, 3, 22)), ToBit(f.src1, 3, 19)),
                             ToBit(f.isAuto, 1, 15)), ToBit(f.dstIdx, 4, 8)), ToBit(f.src0Idx, 4, 4)),
         ToBit(f.src1Idx, 4, 0))
  }

  function Encoded(f: Fields): bv32 {
    var val := ToBit(Code(f.kind), 4, 28);
    if f.kind == NOP then With(val, ToBit(f.loopCounter, 11, 0))
    else if f.kind == JUMP then With(With(val, ToBit(f.loopCounter, 17, 11)), ToBit(f.loopOffset, 11, 0))
    else if Moves(f.kind) then EncodedMove(val, f)
    else if Computes(f.kind) then EncodedCompute(if f.kind == MAD then With(val, ToBit(f.src2, 3, 16)) else val, f)
    else val
  }

  /** Every field the kind uses fits the bits the word gives it. */
  predicate Fits(f: Fields) {
    && (f.kind == NOP ==> f.loopCounter < 0x800)
    && (f.kind == JUMP ==> f.loopCounter < 0x2_0000 && f.loopOffset < 0x800)
    && (Moves(f.kind) || Computes(f.kind) ==>
          f.dst < 8 && f.src0 < 8 && f.dstIdx < 16 && f.src0Idx < 16 && f.src1Idx < 16)
    && (Moves(f.kind) ==> f.isRelu < 2)
    && (Computes(f.kind) ==> f.src1 < 8 && f.isAuto < 2)
    && (f.kind == MAD ==> f.src2 < 8)
  }

  /** f with the fields its kind does not use taken from stale. */
  function Overlaid(stale: Fields, f: Fields): Fields {
    Fields(f.kind,
           if Moves(f.kind) || Computes(f.kind) then f.dst else stale.dst,
           if Moves(f.kind) || Computes(f.kind) then f.src0 else stale.src0,
           if Computes(f.kind) then f.src1 else stale.src1,
           if f.kind == MAD then f.src2 else stale.src2,
           if f.kind == NOP || f.kind == JUMP then f.loopCounter else stale.loopCounter,
           if f.kind == JUMP then f.loopOffset else stale.loopOffset,
           if Computes(f.kind) then f.isAuto else stale.isAuto,
           if Moves(f.kind) || Computes(f.kind) then f.dstIdx else stale.dstIdx,
           if Moves(f.kind) || Computes(f.kind) then f.src0Idx else stale.src0Idx,
           if Moves(f.kind) || Computes(f.kind) then f.src1Idx else stale.src1Idx,
           if Moves(f.kind) then f.isRelu else stale.isRelu)
  }

  lemma KindAlone(k: Kind)
    ensures KindOf(Code(k)) == k && Code(k) < 16
    ensures FromBit(ToBit(Code(k), 4, 28), 4, 28) == Code(k)
    ensures With(ToBit(Code(k), 4, 28), ToBit(0, 3, 16)) == ToBit(Code(k), 4, 28)
  {
  }

  lemma NopWord(k: bv32, c: bv32)
    requires k < 16 && c < 0x800
    ensures var w := With(ToBit(k, 4, 28), ToBit(c, 11, 0));
            FromBit(w, 4, 28) == k && FromBit(w, 11, 0) == c
  {
  }

  lemma JumpWord(k: bv32, c: bv32, o: bv32)
    requires k < 16 && c < 0x2_0000 && o < 0x800
    ensures var w := With(With(ToBit(k, 4, 28), ToBit(c, 17, 11)), ToBit(o, 11, 0));
            FromBit(w, 4, 28) == k && FromBit(w, 17, 11) == c && FromBit(w, 11, 0) == o
  {
  }

  lemma MoveWord(k: bv32, f: Fields)
    requires Fits(f) && Moves(f.kind) && k < 16
    ensures var w := EncodedMove(ToBit(k, 4, 28), f);
            && FromBit(w, 4, 28) == k && FromBit(w, 3, 25) == f.dst && FromBit(w, 3, 22) == f.src0
            && FromBit(w, 4, 8) == f.dstIdx && FromBit(w, 4, 4) == f.src0Idx && FromBit(w, 4, 0) == f.src1Idx
            && FromBit(w, 1, 12) == f.isRelu
  {
  }

  lemma ComputeWord(k: bv32, f: Fields, src2: bv32)
    requires Fits(f) && Computes(f.kind) && k < 16 && src2 < 8
    ensures var w := EncodedCompute(With(ToBit(k, 4, 28), ToBit(src2, 3, 16)), f);
            && FromBit(w, 4, 28) == k && FromBit(w, 3, 25) == f.dst && FromBit(w, 3, 22) == f.src0
            && FromBit(w, 3, 19) == f.src1 && FromBit(w, 1, 15) == f.isAuto && FromBit(w, 4, 8) == f.dstIdx
            && FromBit(w, 4, 4) == f.src0Idx && FromBit(w, 4, 0) == f.src1Idx && FromBit(w, 3, 16) == src2
  {
  }

  /** No two fields of a word overlap: decoding an encoded command returns every field its kind uses. */
  lemma DecodingUndoesEncoding(stale: Fields, f: Fields)
    requires Fits(f)
    ensures Decoded(stale, Encoded(f)) == Overlaid(stale, f)
  {
    KindAlone(f.kind);
    hide FromBit, ToBit, With, Code, KindOf, EncodedMove, EncodedCompute;
    if f.kind == NOP {
      NopWord(Code(f.kind), f.loopCounter);
    } else if f.kind == JUMP {
      JumpWord(Code(f.kind), f.loopCounter, f.loopOffset);
    } else if Moves(f.kind) {
      MoveRoundTrip(stale, f);
    } else if Computes(f.kind) {
      ComputeRoundTrip(stale, f);
    }
  }

  lemma MoveRoundTrip(stale: Fields, f: Fields)
    requires Fits(f) && Moves(f.kind)
    ensures Decoded(stale, Encoded(f)) == Overlaid(stale, f)
  {
    KindAlone(f.kind);
    hide FromBit, ToBit, With, Code, KindOf, EncodedMove, EncodedCompute;
    MoveWord(Code(f.kind), f);
  }

  /** src2 is encoded only for MAD; the other kinds leave its bits zero. */
  lemma ComputeRoundTrip(stale: Fields, f: Fields)
    requires Fits(f) && Computes(f.kind)
    ensures Decoded(stale, Encoded(f)) == Overlaid(stale, f)
  {
    KindAlone(f.kind);
    hide FromBit, ToBit, With, Code, KindOf, EncodedMove, EncodedCompute;
    ComputeWord(Code(f.kind), f, if f.kind == MAD then f.src2 else 0);
  }

  lemma KindAtTop(f: Fields)
    requires Fits(f)
    ensures FromBit(Encoded(f), 4, 28) == Code(f.kind)
  {
    KindAlone(f.kind);
    hide FromBit, ToBit, With, Code, KindOf, EncodedMove, EncodedCompute;
    if f.kind == NOP {
      NopWord(Code(f.kind), f.loopCounter);
    } else if f.kind == JUMP {
      JumpWord(Code(f.kind), f.loopCounter, f.loopOffset);
    } else if Moves(f.kind) {
      MoveWord(Code(f.kind), f);
    } else if Computes(f.kind) {
      ComputeWord(Code(f.kind), f, if f.kind == MAD then f.src2 else 0);
    }
  }

  /** The code that the top bits of an encoded word carry for each kind. */
  lemma KindBits(f: Fields)
    requires Fits(f)
    ensures Encoded(f) >> 28 ==
              match f.kind
              case NOP => 0 case ADD => 1 case MUL => 2 case MAC => 3 case MAD => 4 case REV0 => 5
              case REV1 => 6 case REV2 => 7 case MOV => 8 case FILL => 9 case REV3 => 10
              case REV4 => 11 case REV5 => 12 case REV6 => 13 case JUMP => 14 case EXIT => 15
  {
    hide FromBit, Encoded;
    KindAtTop(f);
    TopBits(Encoded(f));
  }

  /** A field of a word is what a shift and a mask of its width leave. */
  lemma BitsAt(w: bv32, bits: bv32, pos: bv32, mask: bv32)
    requires bits < 32 && pos < 32 && mask == (1 << bits) - 1
    ensures FromBit(w, bits, pos) == (w >> pos) & mask
  {
  }

  lemma TopBits(w: bv32)
    ensures FromBit(w, 4, 28) == w >> 28
  {
  }

  lemma LowBits(w: bv32)
    ensures FromBit(w, 11, 0) == w & 0x7ff && FromBit(w, 4, 0) == w & 15
  {
  }

  class PimCommand {
    var kind: Kind
    var dst: bv32
    var src0: bv32
    var src1: bv32
    var src2: bv32
    var loopCounter: bv32
    var loopOffset: bv32
    var isAuto: bv32
    var dstIdx: bv32
    var src0Idx: bv32
    var src1Idx: bv32
    var isRelu: bv32

    ghost function State(): Fields
      reads this
    {
      Fields(kind, dst, src0, src1, src2, loopCounter, loopOffset, isAuto, dstIdx, src0Idx, src1Idx, isRelu)
    }

    constructor ()
      ensures State().(isRelu := 0) == Fields(NOP, 0, 0, 0, 0, 0, 0, 0, 0, 0, 0, 0)
    {
      kind, dst, src0, src1, src2, loopCounter, loopOffset := NOP, 0, 0, 0, 0, 0, 0;
      isAuto, dstIdx, src0Idx, src1Idx := 0, 0, 0, 0;
    }

    method FromInt(val: bv32)
      modifies this
      ensures State() == Decoded(old(State()), val)
      ensures kind == KindOf(FromBit(val, 4, 28))
      ensures kind == NOP ==> loopCounter == FromBit(val, 11, 0)
      ensures kind == JUMP ==> loopCounter == FromBit(val, 17, 11) && loopOffset == FromBit(val, 11, 0)
      ensures isAuto == if Computes(kind) then FromBit(val, 1, 15) else old(isAuto)
    {
      hide FromBit, KindOf, DecodedMove, DecodedCompute;
      kind := KindOf(FromBit(val, 4, 28));
      if kind == NOP {
        loopCounter := FromBit(val, 11, 0);
      } else if kind == JUMP {
        loopCounter := FromBit(val, 17, 11);
        loopOffset := FromBit(val, 11, 0);
      } else if Moves(kind) {
        LoadMove(val);
      } else if Computes(kind) {
        LoadCompute(val);
      }
    }

    method LoadMove(val: bv32)
      modifies this
      ensures State() == DecodedMove(old(State()), val) && kind == old(kind) && isAuto == old(isAuto)
    {
      hide FromBit, DecodedOperands;
      isRelu := FromBit(val, 1, 12);
      LoadOperands(val);
    }

    method LoadCompute(val: bv32)
      modifies this
      ensures State() == DecodedCompute(old(State()), val) && kind == old(kind) && isAuto == FromBit(val, 1, 15)
    {
      hide FromBit, DecodedOperands;
      if kind == MAD {
        src2 := FromBit(val, 3, 16);
      }
      src1 := FromBit(val, 3, 19);
      isAuto := FromBit(val, 1, 15);
      LoadOperands(val);
    }

    /** The fields that moves and arithmetic share. */
    method LoadOperands(val: bv32)
      modifies this`dst, this`src0, this`dstIdx, this`src0Idx, this`src1Idx
      ensures State() == DecodedOperands(old(State()), val)
    {
      hide FromBit;
      dst, src0 := FromBit(val, 3, 25), FromBit(val, 3, 22);
      dstIdx, src0Idx, src1Idx := FromBit(val, 4, 8), FromBit(val, 4, 4), FromBit(val, 4, 0);
    }

    /** The source aborts on a command that validationCheck rejects; None stands for that exit. */
    method ToInt() returns (word: Option<bv32>)
      ensures word == if Rejected(State()) then None else Some(Encoded(State()))
      ensures word == None <==>
                && (kind == MOV || kind == FILL) && (dst == 2 || dst == 3)
                && (src0 == 4 || src0 == 5 || src1 == 4 || src1 == 5 || src2 == 4 || src2 == 5)
    {
      hide ToBit, With, Code, EncodedMove, EncodedCompute;
      if Moves(kind) && (dst == EVEN_BANK || dst == ODD_BANK) {
        if src0 == GRF_A || src0 == GRF_B || src1 == GRF_A || src1 == GRF_B || src2 == GRF_A || src2 == GRF_B {
          return None;
        }
      }
      var val := ToBit(Code(kind), 4, 28);
      if kind == NOP {
        val := With(val, ToBit(loopCounter, 11, 0));
      } else if kind == JUMP {
        val := With(val, ToBit(loopCounter, 17, 11));
        val := With(val, ToBit(loopOffset, 11, 0));
      } else if Moves(kind) {
        val := MoveBits(val);
      } else if Computes(kind) {
        if kind == MAD {
          val := With(val, ToBit(src2, 3, 16));
        }
        val := ComputeBits(val);
      }
      return Some(val);
    }

    method MoveBits(val0: bv32) returns (val: bv32)
      ensures val == EncodedMove(val0, State())
    {
      hide ToBit, With;
      val := With(val0, ToBit(dst, 3, 25));
      val := With(val, ToBit(src0, 3, 22));
      val := With(val, ToBit(dstIdx, 4, 8));
      val := With(val, ToBit(src0Idx, 4, 4));
      val := With(val, ToBit(src1Idx, 4, 0));
      val := With(val, ToBit(isRelu, 1, 12));
    }

    method ComputeBits(val0: bv32) returns (val: bv32)
      ensures val == EncodedCompute(val0, State())
    {
      hide ToBit, With;
      val := With(val0, ToBit(dst, 3, 25));
      val := With(val, ToBit(src0, 3, 22));
      val := With(val, ToBit(src1, 3, 19));
      val := With(val, ToBit(isAuto, 1, 15));
      val := With(val, ToBit(dstIdx, 4, 8));
      val := With(val, ToBit(src0Idx, 4, 4));
      val := With(val, ToBit(src1Idx, 4, 0));
    }
  }
}
