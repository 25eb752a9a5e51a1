/** Decoding Dalvik code units into instructions: lengths, switch and array payloads, and the sweep over a method. */
module DexDecoder {
  import opened Options
  import opened LittleEndian
  import MachineInts

  type unit = u: nat | u < 0x1_0000

  const PACKED_SWITCH := 0x0100
  const SPARSE_SWITCH := 0x0200
  const ARRAY_DATA := 0x0300

  /** What an instruction carries besides its operands: the cases of a switch, or the values of an array. */
  datatype Data = None_ | Cases(keys: seq<int>, targets: seq<int>) | Values(width: nat, values: seq<int>)

  datatype Instruction = Instruction(offset: nat, opcode: nat, length: nat, data: Data)

  /** The two units at i as a signed 32 bit number, low unit first. */
  function Signed32(insns: seq<unit>, i: nat): MachineInts.i32
    requires i + 2 <= |insns|
  {
    MachineInts.Wrap32(Unsigned32(insns, i))
  }

  function Unsigned32(insns: seq<unit>, i: nat): nat
    requires i + 2 <= |insns|
  {
    var lo: int, hi: int := insns[i], insns[i + 1];
    lo + 0x1_0000 * hi
  }

  // ----- Opcode lengths -----

  /** opcodeLength: the units of an instruction; 1 for opcodes that are not assigned. */
  function OpcodeLength(op: nat): (n: nat)
    ensures 1 <= n <= 5
  {
    if op == 0x18 then 5
    else if op == 0xfa || op == 0xfb then 4
    else if op in {0x03, 0x06, 0x09, 0x14, 0x17, 0x1b, 0x24, 0x25, 0x26, 0x2a, 0x2b, 0x2c, 0xfc, 0xfd}
            || 0x6e <= op <= 0x72 || 0x74 <= op <= 0x78 then 3
    else if op in {0x02, 0x05, 0x08, 0x13, 0x15, 0x16, 0x19, 0x1a, 0x1c, 0x1f, 0x20, 0x22, 0x23, 0x29, 0xfe, 0xff}
            || 0x2d <= op <= 0x3d || 0x44 <= op <= 0x6d || 0x90 <= op <= 0xaf || 0xd0 <= op <= 0xe2 then 2
    else 1
  }

  // ----- Array payloads -----

  /** The i-th byte of the units from base on, the low byte of each first. */
  function ByteAt(insns: seq<unit>, base: nat, i: nat): byte
    requires base + i / 2 < |insns|
  {
    var word: int := insns[base + i / 2];
    if i % 2 == 0 then word % 0x100 else word / 0x100
  }

  /** Bytes from to last of the units from base on. */
  function DataBytes(insns: seq<unit>, base: nat, from: nat, last: nat): (b: bytes)
    requires from <= last && base + (last + 1) / 2 <= |insns|
    ensures |b| == last - from
    decreases last - from
  {
    if from == last then []
    else
      [ByteAt(insns, base, from)] + DataBytes(insns, base, from + 1, last)
  }

  function LeValue(data: bytes): nat {
    if data == [] then 0 else data[0] + 0x100 * LeValue(data[1..])
  }

  /** signExtendArrayData: widths of 1, 2, 4 and 8 are signed; any other leaves the value of up to 8 bytes as it is. */
  function SignExtended(raw: nat, width: nat): int {
    if width == 1 then MachineInts.WrapTo(raw, 0x100)
    else if width == 2 then MachineInts.WrapTo(raw, 0x1_0000)
    else if width == 4 then MachineInts.WrapTo(raw, 0x1_0000_0000)
    else MachineInts.WrapTo(raw, 0x1_0000_0000_0000_0000)
  }

  function Element(data: bytes, width: nat): int
    requires |data| >= width
  {
    SignExtended(LeValue(data[..if width < 8 then width else 8]), width)
  }

  /** The whole elements of the data. */
  function Elements(data: bytes, width: nat): (vs: seq<int>)
    requires width > 0
    decreases |data|
  {
    if |data| < width then [] else [Element(data, width)] + Elements(data[width..], width)
  }

  function Times(count: nat, width: nat): nat {
    count * width
  }

  lemma TimesGrow(m: nat, n: nat, width: nat)
    ensures m <= n ==> Times(m, width) <= Times(n, width)
    ensures Times(m + 1, width) == Times(m, width) + width
  {
    if m <= n { assert (n - m) * width >= 0; }
  }

  /** As many bytes as the elements take, or as are left. */
  function DataSize(insns: seq<unit>, dataPc: nat, width: nat, size: nat): nat
    requires dataPc < |insns|
  {
    var available := (|insns| - dataPc) * 2;
    if Times(size, width) > available then available else Times(size, width)
  }

  function ArrayValues(insns: seq<unit>, dataPc: nat, width: nat, size: nat): seq<int> {
    if width == 0 || size == 0 || dataPc >= |insns| then []
    else Elements(DataBytes(insns, dataPc, 0, DataSize(insns, dataPc, width, size)), width)
  }

  /** readFillArrayPayload: accepted if all the announced elements are there. */
  function ReadArray(insns: seq<unit>, pc: int): Option<(nat, seq<int>)> {
    if pc < 0 || pc + 4 > |insns| || insns[pc] != ARRAY_DATA then None
    else
      var width, size := insns[pc + 1], Unsigned32(insns, pc + 2);
      var values := ArrayValues(insns, pc + 4, width, size);
      if |values| != size then None else Some((width, values))
  }

  // ----- Switch payloads -----

  function PackedKeys(first: int, from: nat, size: nat): (ks: seq<int>)
    requires from <= size
    ensures |ks| == size - from
    ensures forall i :: 0 <= i < |ks| ==> ks[i] == MachineInts.Wrap32(first + from + i)
    decreases size - from
  {
    if from == size then [] else [MachineInts.Wrap32(first + from)] + PackedKeys(first, from + 1, size)
  }

  /** Numbers from to size of a table of signed 32 bit numbers. */
  function Numbers(insns: seq<unit>, base: nat, from: nat, size: nat): (ns: seq<int>)
    requires from <= size && base + 2 * size <= |insns|
    ensures |ns| == size - from
    ensures forall i :: 0 <= i < |ns| ==> ns[i] == Signed32(insns, base + 2 * (from + i))
    decreases size - from
  {
    if from == size then [] else [Signed32(insns, base + 2 * from)] + Numbers(insns, base, from + 1, size)
  }

  /** Branch offsets from the switch as places in the code. */
  function Targets(switchPc: nat, offsets: seq<int>): (ts: seq<int>)
    ensures |ts| == |offsets|
    ensures forall i :: 0 <= i < |ts| ==> ts[i] == MachineInts.Wrap32(switchPc + offsets[i])
  {
    seq(|offsets|, i requires 0 <= i < |offsets| => MachineInts.Wrap32(switchPc + offsets[i]))
  }

  /** readPackedSwitchPayload. */
  function ReadPacked(insns: seq<unit>, switchPc: nat, pc: int): Option<(seq<int>, seq<int>)> {
    if pc < 0 || pc + 4 > |insns| || insns[pc] != PACKED_SWITCH then None
    else
      var size: nat := insns[pc + 1];
      if pc + 4 + size * 2 > |insns| then None
      else Some((PackedKeys(Signed32(insns, pc + 2), 0, size), Targets(switchPc, Numbers(insns, pc + 4, 0, size))))
  }

  /** readSparseSwitchPayload. */
  function ReadSparse(insns: seq<unit>, switchPc: nat, pc: int): Option<(seq<int>, seq<int>)> {
    if pc < 0 || pc + 2 > |insns| || insns[pc] != SPARSE_SWITCH then None
    else
      var size: nat := insns[pc + 1];
      if pc + 2 + size * 4 > |insns| then None
      else Some((Numbers(insns, pc + 2, 0, size), Targets(switchPc, Numbers(insns, pc + 2 + size * 2, 0, size))))
  }

  // ----- One instruction -----

  /** A unit behind pc, 0 past the end. */
  function UnitAt(insns: seq<unit>, i: nat): unit {
    if i < |insns| then insns[i] else 0
  }

  function UnitsAt(insns: seq<unit>, i: nat): nat {
    var lo: int, hi: int := UnitAt(insns, i), UnitAt(insns, i + 1);
    lo + 0x1_0000 * hi
  }

  /** The length of a payload, truncated to 32 bits; nothing for other units. */
  function PayloadLength(insns: seq<unit>, pc: nat): Option<nat>
    requires pc < |insns|
  {
    if insns[pc] == PACKED_SWITCH then Some(4 + 2 * UnitAt(insns, pc + 1))
    else if insns[pc] == SPARSE_SWITCH then Some(2 + 4 * UnitAt(insns, pc + 1))
    else if insns[pc] == ARRAY_DATA then
      Some((4 + (UnitsAt(insns, pc + 2) * UnitAt(insns, pc + 1) + 1) / 2) % 0x1_0000_0000)
    else None
  }

  /** The place an instruction with a 32 bit offset refers to. */
  function TargetOf(insns: seq<unit>, pc: nat): int {
    MachineInts.Wrap32(pc + MachineInts.Wrap32(UnitsAt(insns, pc + 1)))
  }

  function CasesOf(read: Option<(seq<int>, seq<int>)>): Data {
    match read
    case None => None_
    case Some((keys, targets)) => Cases(keys, targets)
  }

  function ValuesOf(read: Option<(nat, seq<int>)>): Data {
    match read
    case None => None_
    case Some((width, values)) => Values(width, values)
  }

  /** What decodeOne reads from payloads, from the instruction that uses one or at an array payload itself. */
  function DataOf(insns: seq<unit>, pc: nat): Data
    requires pc < |insns|
  {
    var op := insns[pc] % 0x100;
    if op == 0x26 then ValuesOf(ReadArray(insns, TargetOf(insns, pc)))
    else if op == 0x2b then CasesOf(ReadPacked(insns, pc, TargetOf(insns, pc)))
    else if op == 0x2c then CasesOf(ReadSparse(insns, pc, TargetOf(insns, pc)))
    else if insns[pc] == ARRAY_DATA then
      Values(UnitAt(insns, pc + 1), ArrayValues(insns, pc + 4, UnitAt(insns, pc + 1), UnitsAt(insns, pc + 2)))
    else None_
  }

  /** decodeOne. */
  function DecodeOne(insns: seq<unit>, pc: nat): Instruction
    requires pc < |insns|
  {
    var op := insns[pc] % 0x100;
    var length := match PayloadLength(insns, pc) case Some(n) => n case None => OpcodeLength(op);
    Instruction(pc, op, length, DataOf(insns, pc))
  }

  // ----- The sweep -----

  /** An instruction is at least one unit long and ends with the code at the latest. */
  function Fitted(ins: Instruction, left: nat): (r: Instruction)
    requires left > 0
    ensures 1 <= r.length <= left && r.offset == ins.offset
    ensures 1 <= ins.length <= left ==> r == ins
  {
    var n := if ins.length == 0 then 1 else ins.length;
    ins.(length := if n > left then left else n)
  }

  function DecodeFrom(insns: seq<unit>, pc: nat): seq<Instruction>
    requires pc <= |insns|
    decreases |insns| - pc
  {
    if pc == |insns| then []
    else
      var ins := Fitted(DecodeOne(insns, pc), |insns| - pc);
      [ins] + DecodeFrom(insns, pc + ins.length)
  }

  /** decodeInstructions, for the units of a method. */
  method DecodeInstructions(insns: seq<unit>) returns (out: seq<Instruction>)
    ensures out == DecodeFrom(insns, 0)
  {
    hide DecodeOne, DecodeFrom;
    out := [];
    var pc: nat := 0;
    assert [] + DecodeFrom(insns, 0) == DecodeFrom(insns, 0);
    while pc < |insns|
      invariant pc <= |insns|
      invariant DecodeFrom(insns, 0) == out + DecodeFrom(insns, pc)
      decreases |insns| - pc
    {
      DecodeStep(insns, pc, out);
      var ins := DecodeOne(insns, pc);
      if ins.length == 0 {
        ins := ins.(length := 1);
      }
      if ins.length > |insns| - pc {
        ins := ins.(length := |insns| - pc);
      }
      out := out + [ins];
      pc := pc + ins.length;
    }
    DecodeNothing(insns);
  }

  /** One more instruction of the sweep. */
  lemma DecodeStep(insns: seq<unit>, pc: nat, out: seq<Instruction>)
    requires pc < |insns|
    ensures var ins := Fitted(DecodeOne(insns, pc), |insns| - pc);
            out + DecodeFrom(insns, pc) == (out + [ins]) + DecodeFrom(insns, pc + ins.length)
  {
    hide DecodeOne, Fitted;
    var ins := Fitted(DecodeOne(insns, pc), |insns| - pc);
    assert out + ([ins] + DecodeFrom(insns, pc + ins.length)) == (out + [ins]) + DecodeFrom(insns, pc + ins.length);
  }

  lemma DecodeNothing(insns: seq<unit>)
    ensures DecodeFrom(insns, |insns|) == []
  {
  }

  // ----- The readers' loops -----

  method ReadPackedSwitchPayload(insns: seq<unit>, switchPc: nat, pc: int) returns (r: Option<(seq<int>, seq<int>)>)
    ensures r == ReadPacked(insns, switchPc, pc)
  {
    hide Signed32, MachineInts.Wrap32;
    if pc < 0 || pc + 4 > |insns| || insns[pc] != PACKED_SWITCH {
      return None;
    }
    var size: nat := insns[pc + 1];
    if pc + 4 + size * 2 > |insns| {
      return None;
    }
    var first := Signed32(insns, pc + 2);
    var keys: seq<int>, targets: seq<int> := [], [];
    var cursor := pc + 4;
    for i := 0 to size
      invariant cursor == pc + 4 + 2 * i && |keys| == i && |targets| == i
      invariant forall k :: 0 <= k < i ==> keys[k] == MachineInts.Wrap32(first + k)
      invariant forall k :: 0 <= k < i ==> targets[k] == MachineInts.Wrap32(switchPc + Signed32(insns, pc + 4 + 2 * k))
    {
      keys := keys + [MachineInts.Wrap32(first + i)];
      targets := targets + [MachineInts.Wrap32(switchPc + Signed32(insns, cursor))];
      cursor := cursor + 2;
    }
    assert keys == PackedKeys(first, 0, size) && targets == Targets(switchPc, Numbers(insns, pc + 4, 0, size));
    return Some((keys, targets));
  }

  method ReadSparseSwitchPayload(insns: seq<unit>, switchPc: nat, pc: int) returns (r: Option<(seq<int>, seq<int>)>)
    ensures r == ReadSparse(insns, switchPc, pc)
  {
    hide Signed32, MachineInts.Wrap32;
    if pc < 0 || pc + 2 > |insns| || insns[pc] != SPARSE_SWITCH {
      return None;
    }
    var size: nat := insns[pc + 1];
    if pc + 2 + size * 4 > |insns| {
      return None;
    }
    var keys: seq<int>, targets: seq<int> := [], [];
    var keyCursor := pc + 2;
    var targetCursor := keyCursor + size * 2;
    for i := 0 to size
      invariant keyCursor == pc + 2 + 2 * i && targetCursor == pc + 2 + size * 2 + 2 * i
      invariant |keys| == i && |targets| == i
      invariant forall k :: 0 <= k < i ==> keys[k] == Signed32(insns, pc + 2 + 2 * k)
      invariant forall k :: 0 <= k < i ==> targets[k] == MachineInts.Wrap32(switchPc + Signed32(insns, pc + 2 + size * 2 + 2 * k))
    {
      keys := keys + [Signed32(insns, keyCursor)];
      targets := targets + [MachineInts.Wrap32(switchPc + Signed32(insns, targetCursor))];
      keyCursor := keyCursor + 2;
      targetCursor := targetCursor + 2;
    }
    assert keys == Numbers(insns, pc + 2, 0, size);
    assert targets == Targets(switchPc, Numbers(insns, pc + 2 + size * 2, 0, size));
    return Some((keys, targets));
  }

  /** parseArrayDataValues: the bytes are taken apart first, and then put together element by element. */
  method ParseArrayDataValues(insns: seq<unit>, dataPc: nat, width: nat, size: nat) returns (values: seq<int>)
    ensures values == ArrayValues(insns, dataPc, width, size)
  {
    hide SignExtended, Times, LeValue, DataBytes, Elements;
    if width == 0 || size == 0 || dataPc >= |insns| {
      return [];
    }
    var need := DataSize(insns, dataPc, width, size);
    NeedFits(insns, dataPc, width, size);
    var data := CopyBytes(insns, dataPc, need);
    values := [];
    var i: nat := 0;
    NoTimes(width);
    assert data[0..] == data && [] + Elements(data, width) == Elements(data, width);
    while i + width <= |data| && |values| < size
      invariant i <= |data| && i == Times(|values|, width)
      invariant Elements(data, width) == values + Elements(data[i..], width)
      decreases |data| - i
    {
      ElementsStep(data, i, width, values);
      TimesGrow(|values|, size, width);
      var raw := LeNumber(data[i..], if width < 8 then width else 8);
      values := values + [SignExtended(raw, width)];
      i := i + width;
    }
    TimesGrow(size, |values|, width);
    ElementsEnd(data[i..], width);
  }

  /** One more element of the data. */
  lemma ElementsStep(data: bytes, i: nat, width: nat, values: seq<int>)
    requires width > 0 && i + width <= |data|
    ensures values + Elements(data[i..], width)
         == (values + [SignExtended(LeValue(data[i..][..if width < 8 then width else 8]), width)]) + Elements(data[i + width..], width)
  {
    hide SignExtended, LeValue;
    assert data[i..][width..] == data[i + width..];
  }

  lemma ElementsEnd(rest: bytes, width: nat)
    requires |rest| < width
    ensures Elements(rest, width) == []
  {
  }

  lemma NoTimes(width: nat)
    ensures Times(0, width) == 0
  {
  }

  lemma NeedFits(insns: seq<unit>, dataPc: nat, width: nat, size: nat)
    requires dataPc < |insns|
    ensures dataPc + (DataSize(insns, dataPc, width, size) + 1) / 2 <= |insns|
    ensures DataSize(insns, dataPc, width, size) <= Times(size, width)
  {
    hide Times;
  }

  method CopyBytes(insns: seq<unit>, base: nat, need: nat) returns (data: bytes)
    requires base + (need + 1) / 2 <= |insns|
    ensures data == DataBytes(insns, base, 0, need)
  {
    hide ByteAt;
    data := [];
    for i := 0 to need
      invariant DataBytes(insns, base, 0, need) == data + DataBytes(insns, base, i, need)
    {
      data := data + [ByteAt(insns, base, i)];
    }
  }

  method LeNumber(data: bytes, n: nat) returns (raw: nat)
    requires n <= |data|
    ensures raw == LeValue(data[..n])
  {
    raw := 0;
    for b := n downto 0
      invariant raw == LeValue(data[b..n])
    {
      assert data[b..n][1..] == data[b + 1..n];
      raw := data[b] + 0x100 * raw;
    }
    assert data[0..n] == data[..n];
  }
}
