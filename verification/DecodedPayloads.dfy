module DecodedPayloads {
  // What a decoded switch or fill-array-data instruction carries: the payload laid out at the place it refers to.
  import opened DexDecoder
  import opened DexPayloads
  import MachineInts

  /** The i-th instruction that the sweep gives for the units of a method. */
  function Decoded(insns: seq<unit>, i: nat): Instruction
    requires i < |DecodeFrom(insns, 0)|
  {
    DecodeFrom(insns, 0)[i]
  }

  /** A sweep keeps the opcode of each unit it stops at, and what was read for it. */
  lemma {:induction false} SweepKeeps(insns: seq<unit>, pc: nat, i: nat)
    requires pc <= |insns| && i < |DecodeFrom(insns, pc)|
    ensures var d := DecodeFrom(insns, pc)[i];
            d.offset < |insns| && d.opcode == insns[d.offset] % 0x100 && d.data == DataOf(insns, d.offset)
    decreases i
  {
    hide DecodeOne, DataOf;
    DecodedParts(insns, pc);
    if i > 0 {
      SweepKeeps(insns, pc + Fitted(DecodeOne(insns, pc), |insns| - pc).length, i - 1);
    }
  }

  lemma DecodedParts(insns: seq<unit>, pc: nat)
    requires pc < |insns|
    ensures var d := DecodeOne(insns, pc); d.offset == pc && d.opcode == insns[pc] % 0x100 && d.data == DataOf(insns, pc)
  {
    hide DataOf, PayloadLength, OpcodeLength;
  }

  /** The two units behind the place pc hold the distance to the place at. */
  predicate RefersTo(insns: seq<unit>, pc: nat, at: nat) {
    && pc + 3 <= |insns| < 0x8000_0000 && at < |insns|
    && insns[pc + 1..pc + 3] == TwoUnits(at - pc)
  }

  lemma TargetIsThere(insns: seq<unit>, pc: nat, at: nat)
    requires RefersTo(insns, pc, at)
    ensures TargetOf(insns, pc) == at
  {
    hide TwoUnits;
    TwoUnitsRead(insns, pc + 1, at - pc);
  }

  /** The payload stands in the code at the place. */
  predicate StandsAt(insns: seq<unit>, at: nat, payload: seq<unit>) {
    at + |payload| <= |insns| && insns[at..at + |payload|] == payload
  }

  /** A decoded packed-switch carries the consecutive keys of its payload, each with the place its offset leads to from the switch. */
  lemma PackedSwitchDecoded(insns: seq<unit>, i: nat, at: nat, first: MachineInts.i32, offsets: seq<MachineInts.i32>)
    requires i < |DecodeFrom(insns, 0)| && Decoded(insns, i).opcode == 0x2b && RefersTo(insns, Decoded(insns, i).offset, at)
    requires |offsets| < 0x1_0000 && StandsAt(insns, at, PackedPayload(first, offsets))
    ensures var d := Decoded(insns, i);
            && d.data.Cases? && |d.data.keys| == |d.data.targets| == |offsets|
            && forall k :: 0 <= k < |offsets| ==>
                 && d.data.keys[k] == MachineInts.Wrap32(first + k)
                 && d.data.targets[k] == MachineInts.Wrap32(d.offset + offsets[k])
  {
    hide DecodeFrom, TargetOf, ReadPacked, RefersTo, PackedPayload, MachineInts.Wrap32;
    var pc := Decoded(insns, i).offset;
    SweepKeeps(insns, 0, i);
    TargetIsThere(insns, pc, at);
    PackedReadBack(insns, pc, at, first, offsets);
  }

  /** A decoded sparse-switch carries the keys of its payload, each with the place its offset leads to from the switch. */
  lemma SparseSwitchDecoded(insns: seq<unit>, i: nat, at: nat, keys: seq<MachineInts.i32>, offsets: seq<MachineInts.i32>)
    requires i < |DecodeFrom(insns, 0)| && Decoded(insns, i).opcode == 0x2c && RefersTo(insns, Decoded(insns, i).offset, at)
    requires |keys| == |offsets| < 0x1_0000 && StandsAt(insns, at, SparsePayload(keys, offsets))
    ensures var d := Decoded(insns, i);
            && d.data.Cases? && d.data.keys == keys && |d.data.targets| == |offsets|
            && forall k :: 0 <= k < |offsets| ==> d.data.targets[k] == MachineInts.Wrap32(d.offset + offsets[k])
  {
    hide DecodeFrom, TargetOf, ReadSparse, RefersTo, SparsePayload, MachineInts.Wrap32;
    var pc := Decoded(insns, i).offset;
    SweepKeeps(insns, 0, i);
    TargetIsThere(insns, pc, at);
    SparseReadBack(insns, pc, at, keys, offsets);
  }

  /** A decoded fill-array-data carries the width and the values of its payload. */
  lemma FillArrayDecoded(insns: seq<unit>, i: nat, at: nat, width: nat, values: seq<int>)
    requires i < |DecodeFrom(insns, 0)| && Decoded(insns, i).opcode == 0x26 && RefersTo(insns, Decoded(insns, i).offset, at)
    requires IsWidth(width) && |values| < 0x1_0000_0000 && forall k :: 0 <= k < |values| ==> InWidth(values[k], width)
    requires StandsAt(insns, at, ArrayPayload(width, values))
    ensures Decoded(insns, i).data == Values(width, values)
  {
    hide DecodeFrom, TargetOf, ReadArray, RefersTo, ArrayPayload, InWidth;
    var pc := Decoded(insns, i).offset;
    SweepKeeps(insns, 0, i);
    TargetIsThere(insns, pc, at);
    ArrayReadBack(insns, at, width, values);
  }
}
