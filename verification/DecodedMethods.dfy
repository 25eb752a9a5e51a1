/** A method whose instructions are those the decoder gives: what the results about recovered bodies take of it holds. */
module DecodedMethods {
  import opened Options
  import DexDecoder
  import DexPayloads
  import DalvikMachine
  import BodiesPreserved

  /** The method's instructions stand at the decoded offsets, in order, at the positions kept of them. */
  predicate Keeps(code: seq<DalvikMachine.Instr>, ins: seq<DexDecoder.Instruction>, kept: seq<nat>) {
    && |code| == |kept|
    && (forall i :: 0 <= i < |kept| ==> kept[i] < |ins| && code[i].offset == ins[kept[i]].offset)
    && forall i, j :: 0 <= i < j < |kept| ==> kept[i] < kept[j]
  }

  lemma DecodedApart(insns: seq<DexDecoder.unit>, i: nat, j: nat)
    requires i < j < |DexDecoder.DecodeFrom(insns, 0)|
    ensures DexDecoder.DecodeFrom(insns, 0)[i].offset < DexDecoder.DecodeFrom(insns, 0)[j].offset
  {
    hide DexDecoder.DecodeFrom;
    var ins := DexDecoder.DecodeFrom(insns, 0);
    DexPayloads.SweepTiles(insns, 0);
    DexPayloads.TilesAddUp(ins, 0, |insns|);
  }

  /** Whichever of the decoded instructions are kept, the offsets of a method's code grow along it. */
  lemma DecodedIsTiled(insns: seq<DexDecoder.unit>, code: seq<DalvikMachine.Instr>, kept: seq<nat>)
    requires Keeps(code, DexDecoder.DecodeFrom(insns, 0), kept)
    ensures BodiesPreserved.Tiled(code)
  {
    hide DexDecoder.DecodeFrom;
    forall i, j | 0 <= i < j < |code| ensures code[i].offset < code[j].offset {
      DecodedApart(insns, kept[i], kept[j]);
    }
  }

  /** The position of an offset in the code is the one that the decoder's index of what was kept gives. */
  lemma {:induction false} SamePositions(ins: seq<DexDecoder.Instruction>, code: seq<DalvikMachine.Instr>, offset: nat)
    requires |code| == |ins| && forall i :: 0 <= i < |ins| ==> code[i].offset == ins[i].offset
    ensures DalvikMachine.IndexOf(code, offset)
         == if offset in DexPayloads.OffsetIndex(ins) then Some(DexPayloads.OffsetIndex(ins)[offset]) else None
  {
    if ins != [] && code[|code| - 1].offset != offset {
      SamePositions(ins[..|ins| - 1], code[..|code| - 1], offset);
    }
  }
}
