/** The main results about the decoder: the sweep tiles the code, and payloads are read as they are laid out. */
module DexPayloads {
  import opened Options
  import opened LittleEndian
  import opened DexDecoder
  import opened Arithmetic
  import MachineInts

  // ----- The sweep tiles the code -----

  /** Instructions that follow each other from pc to end without a gap or an overlap. */
  predicate Tiles(ins: seq<Instruction>, pc: nat, end: nat) {
    if ins == [] then pc == end
    else ins[0].offset == pc && ins[0].length > 0 && Tiles(ins[1..], pc + ins[0].length, end)
  }

  lemma {:induction false} SweepTiles(insns: seq<unit>, pc: nat)
    requires pc <= |insns|
    ensures Tiles(DecodeFrom(insns, pc), pc, |insns|)
    decreases |insns| - pc
  {
    hide DecodeOne;
    if pc < |insns| {
      DecodedOffset(insns, pc);
      var ins := Fitted(DecodeOne(insns, pc), |insns| - pc);
      SweepTiles(insns, pc + ins.length);
      assert DecodeFrom(insns, pc)[1..] == DecodeFrom(insns, pc + ins.length);
    }
  }

  lemma DecodedOffset(insns: seq<unit>, pc: nat)
    requires pc < |insns|
    ensures DecodeOne(insns, pc).offset == pc
  {
    hide DataOf, PayloadLength, OpcodeLength;
  }

  function TotalLength(ins: seq<Instruction>): nat {
    if ins == [] then 0 else ins[0].length + TotalLength(ins[1..])
  }

  /** Each instruction begins where the lengths before it add up to, and together they take all the code. */
  lemma {:induction false} TilesAddUp(ins: seq<Instruction>, pc: nat, end: nat)
    requires Tiles(ins, pc, end)
    ensures pc + TotalLength(ins) == end
    ensures forall i :: 0 <= i < |ins| ==> ins[i].offset == pc + TotalLength(ins[..i]) && ins[i].length > 0
    ensures forall i :: 0 <= i < |ins| ==> pc <= ins[i].offset && ins[i].offset + ins[i].length <= end
    ensures forall i, j :: 0 <= i < j < |ins| ==> ins[i].offset + ins[i].length <= ins[j].offset
  {
    if ins != [] {
      TilesAddUp(ins[1..], pc + ins[0].length, end);
      forall i | 0 <= i < |ins| ensures ins[i].offset == pc + TotalLength(ins[..i]) && ins[i].length > 0
                                && pc <= ins[i].offset && ins[i].offset + ins[i].length <= end {
        if i > 0 {
          assert ins[i] == ins[1..][i - 1] && ins[..i][1..] == ins[1..][..i - 1];
        }
      }
      forall i, j | 0 <= i < j < |ins| ensures ins[i].offset + ins[i].length <= ins[j].offset {
        assert ins[j] == ins[1..][j - 1];
        if i > 0 { assert ins[i] == ins[1..][i - 1]; }
      }
    }
  }

  /** instructionOffsetIndex: later instructions overwrite earlier ones of the same offset. */
  function OffsetIndex(ins: seq<Instruction>): map<nat, nat> {
    if ins == [] then map[] else OffsetIndex(ins[..|ins| - 1])[ins[|ins| - 1].offset := |ins| - 1]
  }

  method InstructionOffsetIndex(ins: seq<Instruction>) returns (index: map<nat, nat>)
    ensures index == OffsetIndex(ins)
  {
    index := map[];
    for i := 0 to |ins|
      invariant index == OffsetIndex(ins[..i])
    {
      assert ins[..i + 1][..i] == ins[..i];
      index := index[ins[i].offset := i];
    }
    assert ins[..|ins|] == ins;
  }

  /** The index of decoded instructions inverts their offsets, and knows no others. */
  lemma IndexInvertsOffsets(insns: seq<unit>)
    ensures var ins := DecodeFrom(insns, 0);
            && (forall i :: 0 <= i < |ins| ==> ins[i].offset in OffsetIndex(ins) && OffsetIndex(ins)[ins[i].offset] == i)
            && (forall o :: o in OffsetIndex(ins) ==> OffsetIndex(ins)[o] < |ins| && ins[OffsetIndex(ins)[o]].offset == o)
  {
    var ins := DecodeFrom(insns, 0);
    SweepTiles(insns, 0);
    TilesAddUp(ins, 0, |insns|);
    IndexOfIncreasing(ins);
  }

  lemma {:induction false} IndexOfIncreasing(ins: seq<Instruction>)
    requires forall i, j :: 0 <= i < j < |ins| ==> ins[i].offset != ins[j].offset
    ensures forall i :: 0 <= i < |ins| ==> ins[i].offset in OffsetIndex(ins) && OffsetIndex(ins)[ins[i].offset] == i
    ensures forall o :: o in OffsetIndex(ins) ==> OffsetIndex(ins)[o] < |ins| && ins[OffsetIndex(ins)[o]].offset == o
  {
    if ins != [] {
      IndexOfIncreasing(ins[..|ins| - 1]);
    }
  }

  // ----- What a reader takes is what the decoder skips -----

  /** A payload of n units stands at pc: the decoder gives it exactly that length, and the sweep keeps it. */
  predicate SkippedAs(insns: seq<unit>, pc: nat, n: nat) {
    && n > 0 && pc + n <= |insns| && PayloadLength(insns, pc) == Some(n)
    && DecodeOne(insns, pc).length == n && Fitted(DecodeOne(insns, pc), |insns| - pc) == DecodeOne(insns, pc)
  }

  lemma DecodedLength(insns: seq<unit>, pc: nat, n: nat)
    requires n > 0 && pc + n <= |insns| && PayloadLength(insns, pc) == Some(n)
    ensures SkippedAs(insns, pc, n)
  {
    hide PayloadLength, DataOf;
  }

  /** An accepted packed switch takes 4 units and 2 for each case; with one unit less it is not accepted. */
  lemma PackedIsSkipped(insns: seq<unit>, switchPc: nat, pc: int)
    requires ReadPacked(insns, switchPc, pc).Some?
    ensures var n := 4 + 2 * |ReadPacked(insns, switchPc, pc).value.0|;
            pc >= 0 && SkippedAs(insns, pc, n) && ReadPacked(insns[..pc + n - 1], switchPc, pc).None?
  {
    hide MachineInts.Wrap32, DecodeOne;
    var n := 4 + 2 * |ReadPacked(insns, switchPc, pc).value.0|;
    DecodedLength(insns, pc, n);
  }

  /** An accepted sparse switch takes 2 units and 4 for each case; with one unit less it is not accepted. */
  lemma SparseIsSkipped(insns: seq<unit>, switchPc: nat, pc: int)
    requires ReadSparse(insns, switchPc, pc).Some?
    ensures var n := 2 + 4 * |ReadSparse(insns, switchPc, pc).value.0|;
            pc >= 0 && SkippedAs(insns, pc, n) && ReadSparse(insns[..pc + n - 1], switchPc, pc).None?
  {
    hide MachineInts.Wrap32, DecodeOne;
    var n := 2 + 4 * |ReadSparse(insns, switchPc, pc).value.0|;
    DecodedLength(insns, pc, n);
  }

  lemma {:induction false} SameNumbers(a: seq<unit>, b: seq<unit>, base: nat, from: nat, size: nat)
    requires from <= size && base + 2 * size <= |a| && base + 2 * size <= |b| && a[..base + 2 * size] == b[..base + 2 * size]
    ensures Numbers(a, base, from, size) == Numbers(b, base, from, size)
    decreases size - from
  {
    hide MachineInts.Wrap32;
    if from < size {
      SameUnits(a, b, base + 2 * size, base + 2 * from);
      SameUnits(a, b, base + 2 * size, base + 2 * from + 1);
      SameNumbers(a, b, base, from + 1, size);
    }
  }

  lemma SameUnits(a: seq<unit>, b: seq<unit>, end: nat, i: nat)
    requires i < end && end <= |a| && end <= |b| && a[..end] == b[..end]
    ensures a[i] == b[i]
  {
    assert a[i] == a[..end][i] && b[i] == b[..end][i];
  }

  lemma ShorterPrefix(a: seq<unit>, b: seq<unit>, end: nat, n: nat)
    requires n <= end && end <= |a| && end <= |b| && a[..end] == b[..end]
    ensures a[..n] == b[..n]
  {
    assert a[..n] == a[..end][..n] && b[..n] == b[..end][..n];
  }

  /** What stands behind those units does not matter. */
  lemma PackedReadsNoFurther(insns: seq<unit>, other: seq<unit>, switchPc: nat, pc: int)
    requires ReadPacked(insns, switchPc, pc).Some?
    requires var end := pc + 4 + 2 * |ReadPacked(insns, switchPc, pc).value.0|;
             end <= |other| && end <= |insns| && other[..end] == insns[..end]
    ensures ReadPacked(other, switchPc, pc) == ReadPacked(insns, switchPc, pc)
  {
    hide MachineInts.Wrap32;
    var size: nat := insns[pc + 1];
    var end := pc + 4 + 2 * size;
    SameUnits(insns, other, end, pc);
    SameUnits(insns, other, end, pc + 1);
    SameUnits(insns, other, end, pc + 2);
    SameUnits(insns, other, end, pc + 3);
    SameNumbers(insns, other, pc + 4, 0, size);
  }

  lemma SparseReadsNoFurther(insns: seq<unit>, other: seq<unit>, switchPc: nat, pc: int)
    requires ReadSparse(insns, switchPc, pc).Some?
    requires var end := pc + 2 + 4 * |ReadSparse(insns, switchPc, pc).value.0|;
             end <= |other| && end <= |insns| && other[..end] == insns[..end]
    ensures ReadSparse(other, switchPc, pc) == ReadSparse(insns, switchPc, pc)
  {
    hide MachineInts.Wrap32;
    var size: nat := insns[pc + 1];
    var end := pc + 2 + 4 * size;
    SameUnits(insns, other, end, pc);
    SameUnits(insns, other, end, pc + 1);
    ShorterPrefix(insns, other, end, pc + 2 + 2 * size);
    SameNumbers(insns, other, pc + 2, 0, size);
    SameNumbers(insns, other, pc + 2 + 2 * size, 0, size);
  }

  lemma {:induction false} ElementCount(data: bytes, width: nat, size: nat)
    requires width > 0
    ensures |Elements(data, width)| >= size <==> |data| >= Times(size, width)
    decreases |data|
  {
    hide Element;
    if size > 0 {
      TimesGrow(0, size - 1, width);
      TimesGrow(size - 1, size, width);
      NoTimes(width);
      if |data| >= width { ElementCount(data[width..], width, size - 1); }
    } else {
      NoTimes(width);
    }
  }

  /** All announced elements are there if and only if the code has room for them. */
  lemma ArrayAccepted(insns: seq<unit>, pc: nat, width: nat, size: nat)
    requires pc + 4 <= |insns| && insns[pc] == ARRAY_DATA && insns[pc + 1] == width && Unsigned32(insns, pc + 2) == size
    ensures ReadArray(insns, pc).Some? <==> size == 0 || (width > 0 && Times(size, width) <= 2 * (|insns| - pc - 4))
  {
    hide Times, Elements, DataBytes, Unsigned32;
    if width > 0 && size > 0 && pc + 4 < |insns| {
      var need := DataSize(insns, pc + 4, width, size);
      NeedFits(insns, pc + 4, width, size);
      var data := DataBytes(insns, pc + 4, 0, need);
      ElementCount(data, width, size);
      ElementCount(data, width, size + 1);
      TimesGrow(size, size, width);
    } else if width > 0 && size > 0 {
      TimesGrow(1, size, width);
      TimesGrow(0, 1, width);
      NoTimes(width);
    }
  }

  function ArrayUnits(width: nat, size: nat): nat {
    4 + (Times(size, width) + 1) / 2
  }

  /** An accepted array takes 4 units and its bytes, rounded up to whole units. */
  lemma ArrayIsSkipped(insns: seq<unit>, pc: int)
    requires ReadArray(insns, pc).Some? && |insns| < 0x1_0000_0000
    ensures var (width, values) := ReadArray(insns, pc).value;
            var n := ArrayUnits(width, |values|);
            pc >= 0 && SkippedAs(insns, pc, n) && ReadArray(insns[..pc + n - 1], pc).None?
  {
    hide DecodeOne, ArrayValues, Times;
    var (width, values) := ReadArray(insns, pc).value;
    var size := |values|;
    ArrayAccepted(insns, pc, width, size);
    var n := ArrayUnits(width, size);
    if size == 0 { NoTimes(width); }
    ArrayLength(insns, pc, width, size);
    DecodedLength(insns, pc, n);
    var less := insns[..pc + n - 1];
    if pc + 4 <= |less| {
      assert Unsigned32(less, pc + 2) == Unsigned32(insns, pc + 2);
      ArrayAccepted(less, pc, width, size);
    }
  }

  lemma ArrayLength(insns: seq<unit>, pc: nat, width: nat, size: nat)
    requires pc + 4 <= |insns| < 0x1_0000_0000 && insns[pc] == ARRAY_DATA && insns[pc + 1] == width && Unsigned32(insns, pc + 2) == size
    requires Times(size, width) <= 2 * (|insns| - pc - 4)
    ensures PayloadLength(insns, pc) == Some(ArrayUnits(width, size))
  {
  }

  // ----- Payloads as they are laid out -----

  /** A signed 32 bit number as two units, the low one first. */
  function TwoUnits(v: MachineInts.i32): (us: seq<unit>)
    ensures |us| == 2
  {
    [v % 0x1_0000, v / 0x1_0000 % 0x1_0000]
  }

  function NumberUnits(ns: seq<MachineInts.i32>): (us: seq<unit>)
    ensures |us| == 2 * |ns|
  {
    if ns == [] then [] else TwoUnits(ns[0]) + NumberUnits(ns[1..])
  }

  lemma TwoUnitsRead(insns: seq<unit>, at: nat, v: MachineInts.i32)
    requires at + 2 <= |insns| && insns[at..at + 2] == TwoUnits(v)
    ensures Signed32(insns, at) == v
  {
    assert insns[at] == insns[at..at + 2][0] && insns[at + 1] == insns[at..at + 2][1];
    var hi := v / 0x1_0000;
    assert v == 0x1_0000 * hi + v % 0x1_0000;
    assert hi % 0x1_0000 == if hi < 0 then hi + 0x1_0000 else hi;
  }

  lemma {:induction false} NumbersRead(insns: seq<unit>, base: nat, from: nat, ns: seq<MachineInts.i32>)
    requires from <= |ns| && base + 2 * |ns| <= |insns|
    requires insns[base + 2 * from..base + 2 * |ns|] == NumberUnits(ns[from..])
    ensures Numbers(insns, base, from, |ns|) == ns[from..]
    decreases |ns| - from
  {
    hide MachineInts.Wrap32, TwoUnits, Signed32;
    if from < |ns| {
      var part := insns[base + 2 * from..base + 2 * |ns|];
      assert ns[from..][1..] == ns[from + 1..];
      assert insns[base + 2 * from..base + 2 * from + 2] == part[..2] == TwoUnits(ns[from]);
      assert insns[base + 2 * (from + 1)..base + 2 * |ns|] == part[2..] == NumberUnits(ns[from + 1..]);
      TwoUnitsRead(insns, base + 2 * from, ns[from]);
      NumbersRead(insns, base, from + 1, ns);
    }
  }

  /** The packed-switch-payload format: identifier, size, first key, offsets. */
  function PackedPayload(first: MachineInts.i32, offsets: seq<MachineInts.i32>): seq<unit>
    requires |offsets| < 0x1_0000
  {
    [PACKED_SWITCH, |offsets|] + TwoUnits(first) + NumberUnits(offsets)
  }

  /** The sparse-switch-payload format: identifier, size, keys, offsets. */
  function SparsePayload(keys: seq<MachineInts.i32>, offsets: seq<MachineInts.i32>): seq<unit>
    requires |keys| == |offsets| < 0x1_0000
  {
    [SPARSE_SWITCH, |keys|] + NumberUnits(keys) + NumberUnits(offsets)
  }

  lemma UnitsIn(insns: seq<unit>, at: nat, payload: seq<unit>, x: nat, y: nat)
    requires x <= y <= |payload| && at + |payload| <= |insns| && insns[at..at + |payload|] == payload
    ensures insns[at + x..at + y] == payload[x..y]
  {
    forall i | 0 <= i < y - x ensures insns[at + x..at + y][i] == payload[x..y][i] {
      assert insns[at..at + |payload|][x + i] == payload[x + i];
    }
  }

  /** A packed switch laid out anywhere in the code is read back: consecutive keys, and the offsets as targets. */
  lemma PackedReadBack(insns: seq<unit>, switchPc: nat, pc: nat, first: MachineInts.i32, offsets: seq<MachineInts.i32>)
    requires |offsets| < 0x1_0000 && pc + |PackedPayload(first, offsets)| <= |insns|
    requires insns[pc..pc + |PackedPayload(first, offsets)|] == PackedPayload(first, offsets)
    ensures ReadPacked(insns, switchPc, pc) == Some((PackedKeys(first, 0, |offsets|), Targets(switchPc, offsets)))
  {
    hide MachineInts.Wrap32, TwoUnits, Signed32, NumberUnits;
    var p := PackedPayload(first, offsets);
    var n := |p|;
    UnitsIn(insns, pc, p, 0, 2);
    assert insns[pc] == insns[pc..pc + 2][0] && insns[pc + 1] == insns[pc..pc + 2][1];
    UnitsIn(insns, pc, p, 2, 4);
    TwoUnitsRead(insns, pc + 2, first);
    UnitsIn(insns, pc, p, 4, n);
    assert offsets[0..] == offsets;
    NumbersRead(insns, pc + 4, 0, offsets);
  }

  /** A sparse switch laid out anywhere in the code is read back. */
  lemma SparseReadBack(insns: seq<unit>, switchPc: nat, pc: nat, keys: seq<MachineInts.i32>, offsets: seq<MachineInts.i32>)
    requires |keys| == |offsets| < 0x1_0000 && pc + |SparsePayload(keys, offsets)| <= |insns|
    requires insns[pc..pc + |SparsePayload(keys, offsets)|] == SparsePayload(keys, offsets)
    ensures ReadSparse(insns, switchPc, pc) == Some((keys, Targets(switchPc, offsets)))
  {
    hide MachineInts.Wrap32, Signed32, NumberUnits;
    var p := SparsePayload(keys, offsets);
    var m := 2 + 2 * |keys|;
    UnitsIn(insns, pc, p, 0, 2);
    assert insns[pc] == insns[pc..pc + 2][0] && insns[pc + 1] == insns[pc..pc + 2][1];
    UnitsIn(insns, pc, p, 2, m);
    UnitsIn(insns, pc, p, m, |p|);
    assert keys[0..] == keys && offsets[0..] == offsets;
    NumbersRead(insns, pc + 2, 0, keys);
    NumbersRead(insns, pc + m, 0, offsets);
  }

  // ----- Arrays -----

  /** The low bytes of a number, least significant first. */
  function LeBytes(v: int, width: nat): (b: bytes)
    ensures |b| == width
    decreases width
  {
    if width == 0 then [] else [v % 0x100] + LeBytes(v / 0x100, width - 1)
  }

  function Power(width: nat): (p: nat)
    ensures p > 0
  {
    if width == 0 then 1 else 0x100 * Power(width - 1)
  }

  lemma {:induction false} LeBytesRead(v: int, width: nat)
    ensures LeValue(LeBytes(v, width)) == v % Power(width)
    decreases width
  {
    if width > 0 {
      LeBytesRead(v / 0x100, width - 1);
      assert LeBytes(v, width)[1..] == LeBytes(v / 0x100, width - 1);
      ModuloSplit(v, Power(width - 1));
    }
  }

  lemma ModuloSplit(v: int, p: nat)
    requires p > 0
    ensures v % 0x100 + 0x100 * (v / 0x100 % p) == v % (0x100 * p)
  {
    var q, r := v / 0x100, v % 0x100;
    var a, b := q / p, q % p;
    assert v == (0x100 * p) * a + (0x100 * b + r) by {
      assert v == 0x100 * q + r && q == p * a + b;
    }
    assert 0 <= 0x100 * b + r < 0x100 * p;
    UniqueRemainder(v, 0x100 * p, a, 0x100 * b + r);
  }

  predicate IsWidth(width: nat) {
    width == 1 || width == 2 || width == 4 || width == 8
  }

  /** The values an element of the width can have. */
  predicate InWidth(v: int, width: nat) {
    0 <= 2 * v + Power(width) && 2 * v < Power(width)
  }

  lemma Powers()
    ensures Power(1) == 0x100 && Power(2) == 0x1_0000 && Power(4) == 0x1_0000_0000 && Power(8) == 0x1_0000_0000_0000_0000
  {
    assert Power(2) == 0x100 * Power(1) && Power(3) == 0x100 * Power(2) && Power(4) == 0x100 * Power(3);
    assert Power(5) == 0x100 * Power(4) && Power(6) == 0x100 * Power(5) && Power(7) == 0x100 * Power(6);
  }

  lemma ElementRead(v: int, width: nat, tail: bytes)
    requires IsWidth(width) && InWidth(v, width)
    ensures Element(LeBytes(v, width) + tail, width) == v
  {
    hide LeValue, LeBytes, Power;
    LeBytesRead(v, width);
    Powers();
    var data := LeBytes(v, width) + tail;
    assert data[..width] == LeBytes(v, width);
    SignedModulo(v, Power(width));
  }

  lemma SignedModulo(v: int, p: nat)
    requires p > 0 && p % 2 == 0 && 0 <= 2 * v + p && 2 * v < p
    ensures MachineInts.WrapTo(v % p, p) == v
  {
    if v >= 0 { UniqueRemainder(v, p, 0, v); } else { UniqueRemainder(v, p, -1, v + p); }
    UniqueRemainder(v % p, p, 0, v % p);
  }

  function ValueBytes(values: seq<int>, width: nat): (b: bytes)
    ensures |b| == Times(|values|, width)
  {
    if values == [] then NoTimes(width); []
    else TimesGrow(|values| - 1, |values| - 1, width); LeBytes(values[0], width) + ValueBytes(values[1..], width)
  }

  lemma {:induction false} ElementsRead(values: seq<int>, width: nat)
    requires IsWidth(width) && forall i :: 0 <= i < |values| ==> InWidth(values[i], width)
    ensures Elements(ValueBytes(values, width), width) == values
  {
    hide Element, LeBytes, Times, InWidth;
    if values != [] {
      var rest := ValueBytes(values[1..], width);
      ElementRead(values[0], width, rest);
      assert ValueBytes(values, width) == LeBytes(values[0], width) + rest;
      assert ValueBytes(values, width)[width..] == rest;
      ElementsRead(values[1..], width);
    } else {
      NoTimes(width);
    }
  }

  /** Bytes packed into units, the last one filled up with 0. */
  function PackedBytes(data: bytes): (us: seq<unit>)
    ensures |us| == (|data| + 1) / 2
  {
    if data == [] then []
    else if |data| == 1 then [data[0]]
    else
      var lo: int, hi: int := data[0], data[1];
      [lo + 0x100 * hi] + PackedBytes(data[2..])
  }

  lemma {:induction false} PackedByteAt(data: bytes, i: nat)
    requires i < |data|
    ensures ByteAt(PackedBytes(data), 0, i) == data[i]
  {
    if i >= 2 {
      PackedByteAt(data[2..], i - 2);
      assert PackedBytes(data)[i / 2] == PackedBytes(data[2..])[(i - 2) / 2];
    } else if |data| >= 2 {
      var lo: int, hi: int := data[0], data[1];
      assert PackedBytes(data)[0] == lo + 0x100 * hi;
    }
  }

  lemma {:induction false} PackedRead(insns: seq<unit>, base: nat, from: nat, data: bytes)
    requires from <= |data| && base + (|data| + 1) / 2 <= |insns|
    requires insns[base..base + (|data| + 1) / 2] == PackedBytes(data)
    ensures DataBytes(insns, base, from, |data|) == data[from..]
    decreases |data| - from
  {
    hide PackedBytes;
    if from < |data| {
      PackedByteAt(data, from);
      assert insns[base + from / 2] == insns[base..base + (|data| + 1) / 2][from / 2];
      PackedRead(insns, base, from + 1, data);
    }
  }

  /** The fill-array-data-payload format: identifier, width, size, and the values, least significant byte first. */
  function ArrayPayload(width: nat, values: seq<int>): (us: seq<unit>)
    requires width < 0x1_0000 && |values| < 0x1_0000_0000
    ensures |us| == 4 + (Times(|values|, width) + 1) / 2
  {
    [ARRAY_DATA, width, |values| % 0x1_0000, |values| / 0x1_0000] + PackedBytes(ValueBytes(values, width))
  }

  /** An array laid out anywhere in the code is read back, for each of the four element widths. */
  lemma ArrayReadBack(insns: seq<unit>, pc: nat, width: nat, values: seq<int>)
    requires IsWidth(width) && |values| < 0x1_0000_0000 && forall i :: 0 <= i < |values| ==> InWidth(values[i], width)
    requires pc + |ArrayPayload(width, values)| <= |insns|
    requires insns[pc..pc + |ArrayPayload(width, values)|] == ArrayPayload(width, values)
    ensures ReadArray(insns, pc) == Some((width, values))
  {
    hide Times, InWidth, PackedBytes, ValueBytes, Elements, DataBytes;
    var p, data := ArrayPayload(width, values), ValueBytes(values, width);
    UnitsIn(insns, pc, p, 0, 4);
    HeaderUnits(insns, pc, width, |values|);
    UnitsIn(insns, pc, p, 4, |p|);
    assert insns[pc + 4..pc + 4 + (|data| + 1) / 2] == PackedBytes(data);
    assert data[0..] == data;
    PackedRead(insns, pc + 4, 0, data);
    ElementsRead(values, width);
    if values == [] {
      NoTimes(width);
    } else {
      TimesGrow(1, |values|, width);
      TimesGrow(0, 1, width);
      NoTimes(width);
    }
  }

  lemma HeaderUnits(insns: seq<unit>, pc: nat, width: nat, size: nat)
    requires pc + 4 <= |insns| && size < 0x1_0000_0000 && width < 0x1_0000
    requires insns[pc..pc + 4] == [ARRAY_DATA, width, size % 0x1_0000, size / 0x1_0000]
    ensures insns[pc] == ARRAY_DATA && insns[pc + 1] == width && Unsigned32(insns, pc + 2) == size
  {
    var h := insns[pc..pc + 4];
    assert insns[pc] == h[0] && insns[pc + 1] == h[1] && insns[pc + 2] == h[2] && insns[pc + 3] == h[3];
  }

  // ----- Instruction formats -----

  /** The instruction formats of the Dalvik bytecode specification; the number in a name is its length in units. */
  datatype Format =
    | F10x | F12x | F11n | F11x | F10t
    | F20t | F22x | F21t | F21s | F21h | F21c | F23x | F22b | F22t | F22s | F22c
    | F30t | F32x | F31i | F31t | F31c | F35c | F3rc
    | F45cc | F4rcc
    | F51l

  function Units(f: Format): nat {
    match f
    case F10x | F12x | F11n | F11x | F10t => 1
    case F20t | F22x | F21t | F21s | F21h | F21c | F23x | F22b | F22t | F22s | F22c => 2
    case F30t | F32x | F31i | F31t | F31c | F35c | F3rc => 3
    case F45cc | F4rcc => 4
    case F51l => 5
  }

  /** The format of an assigned opcode. */
  function FormatOf(op: nat): Option<Format> {
    if op <= 0x0d then Some(LowMoves(op))
    else if op <= 0x11 then Some(if op == 0x0e then F10x else F11x)
    else if op <= 0x1c then Some(Constants(op))
    else if op <= 0x2c then Some(Objects(op))
    else if op <= 0x31 then Some(F23x)
    else if op <= 0x37 then Some(F22t)
    else if op <= 0x3d then Some(F21t)
    else if op <= 0x43 then None
    else if op <= 0x51 then Some(F23x)
    else if op <= 0x5f then Some(F22c)
    else if op <= 0x6d then Some(F21c)
    else if op <= 0x72 then Some(F35c)
    else if op == 0x73 then None
    else if op <= 0x78 then Some(F3rc)
    else if op <= 0x7a then None
    else if op <= 0x8f then Some(F12x)
    else if op <= 0xaf then Some(F23x)
    else if op <= 0xcf then Some(F12x)
    else if op <= 0xd7 then Some(F22s)
    else if op <= 0xe2 then Some(F22b)
    else if op <= 0xf9 then None
    else if op == 0xfa then Some(F45cc)
    else if op == 0xfb then Some(F4rcc)
    else if op == 0xfc then Some(F35c)
    else if op == 0xfd then Some(F3rc)
    else if op <= 0xff then Some(F21c)
    else None
  }

  function LowMoves(op: nat): Format {
    if op == 0 then F10x
    else if op >= 0x0a then F11x
    else if op % 3 == 1 then F12x
    else if op % 3 == 2 then F22x
    else F32x
  }

  function Constants(op: nat): Format {
    if op == 0x12 then F11n
    else if op == 0x13 || op == 0x16 then F21s
    else if op == 0x14 || op == 0x17 then F31i
    else if op == 0x15 || op == 0x19 then F21h
    else if op == 0x18 then F51l
    else if op == 0x1b then F31c
    else F21c
  }

  function Objects(op: nat): Format {
    if op <= 0x1e then F11x
    else if op == 0x1f || op == 0x22 then F21c
    else if op == 0x20 || op == 0x23 then F22c
    else if op == 0x21 then F12x
    else if op == 0x24 then F35c
    else if op == 0x25 then F3rc
    else if op == 0x26 || op >= 0x2b then F31t
    else if op == 0x27 then F11x
    else if op == 0x28 then F10t
    else if op == 0x29 then F20t
    else F30t
  }

  /** Every assigned opcode has the length of its format, and every other one is taken as a single unit. */
  lemma LengthsAreThoseOfFormats(op: nat)
    requires op < 0x100
    ensures OpcodeLength(op) == match FormatOf(op) case Some(f) => Units(f) case None => 1
  {
  }
}
