/**
 Two's complement int and long arithmetic, as both the Dalvik instruction set and
 the Java language define it. All operations are total: division and remainder are
 not part of the recovered fragment.
 */
module MachineInts {
  type i32 = x: int | -0x8000_0000 <= x < 0x8000_0000
  type i64 = x: int | -0x8000_0000_0000_0000 <= x < 0x8000_0000_0000_0000

  datatype ArithOp = Add | Sub | Mul | And | Or | Xor | Shl | Shr | Ushr

  predicate IsShift(op: ArithOp) {
    op.Shl? || op.Shr? || op.Ushr?
  }

  function Wrap32(x: int): i32 {
    (x + 0x8000_0000) % 0x1_0000_0000 - 0x8000_0000
  }

  function Wrap64(x: int): i64 {
    (x + 0x8000_0000_0000_0000) % 0x1_0000_0000_0000_0000 - 0x8000_0000_0000_0000
  }

  function WrapTo(x: int, modulus: int): int
    requires modulus > 0
  {
    var r := x % modulus;
    if r >= modulus / 2 then r - modulus else r
  }

  function Pow2(n: nat): (p: int)
    ensures p > 0
  {
    if n == 0 then 1 else 2 * Pow2(n - 1)
  }

  /** The bit operation op, applied to the low n bits of x and y. */
  function Bitwise(op: ArithOp, x: nat, y: nat, n: nat): nat {
    if n == 0 then 0
    else
      var bit :=
        match op
        case And => x % 2 == 1 && y % 2 == 1
        case Or => x % 2 == 1 || y % 2 == 1
        case _ => x % 2 != y % 2;
      (if bit then 1 else 0) + 2 * Bitwise(op, x / 2, y / 2, n - 1)
  }

  /** The unwrapped result of op on operands of the given width in bits. */
  function Raw(op: ArithOp, a: int, b: int, bits: nat): int
    requires bits > 0
  {
    match op
    case Add => a + b
    case Sub => a - b
    case Mul => a * b
    case Shl => a * Pow2(b % bits)
    case Shr => a / Pow2(b % bits)
    case Ushr => (a % Pow2(bits)) / Pow2(b % bits)
    case _ => Bitwise(op, a % Pow2(bits), b % Pow2(bits), bits)
  }

  function Arith32(op: ArithOp, a: int, b: int): i32 {
    Wrap32(Raw(op, a, b, 32))
  }

  function Arith64(op: ArithOp, a: int, b: int): i64 {
    Wrap64(Raw(op, a, b, 64))
  }

  /** A Java value of the fragment. References, booleans and the narrow integer types are VInt, with 0 for null and false. */
  datatype Value = VInt(i: i32) | VLong(l: i64) {
    function Number(): int {
      match this
      case VInt(i) => i
      case VLong(l) => l
    }
  }

  datatype Rel = Eq | Ne | Lt | Ge | Gt | Le

  predicate Related(rel: Rel, a: int, b: int) {
    match rel
    case Eq => a == b
    case Ne => a != b
    case Lt => a < b
    case Ge => a >= b
    case Gt => a > b
    case Le => a <= b
  }

  function Sign(a: int, b: int): i32 {
    if a < b then -1 else if a == b then 0 else 1
  }
}
