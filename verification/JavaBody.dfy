/**
 The recovered Java bodies, as syntax trees, and what running one does.

 Operators carry no width: as in the printed text, + on two int operands is an
 int addition and + with a long operand is a long one. Evaluation therefore follows
 the Java rules for unary and binary numeric promotion and for the conditional operator.
 */
module JavaBody {
  import opened MachineInts
  import opened Options

  datatype UnaryJava = Negate | Complement | CastLong | CastInt | CastByte | CastChar | CastShort

  datatype Expr =
    | This
    | Param(index: nat)
    | RawLocal(reg: int)
    | IntLit(i: i32)
    | LongLit(l: i64)
    | Unary(un: UnaryJava, e: Expr)
    | Binary(op: ArithOp, left: Expr, right: Expr)
    | LongCompare(left: Expr, right: Expr)
    | Ternary(c: Cond, t: Expr, f: Expr)

  datatype Cond = Cond(rel: Rel, left: Expr, right: Expr)

  datatype FieldRef = FieldRef(cls: string, name: string, typ: string)
  datatype MethodRef = MethodRef(cls: string, name: string, params: seq<string>, ret: string)

  datatype Stmt =
    | Put(field: FieldRef, e: Expr)
    | CallStatic(target: MethodRef, args: seq<Expr>)
    | Throw(e: Expr)
    | Return(e: Expr)
    | ReturnNothing
    | ReturnIf(c: Cond, value: Option<Expr>)

  type Stmts = seq<Stmt>

  datatype Body =
    | Straight(stmts: Stmts)
    | IfThen(prefix: Stmts, c: Cond, thn: Stmts, rest: Stmts)
    | SwitchOn(prefix: Stmts, e: Expr, keys: seq<i32>, cases: seq<Stmts>, default: Stmts)

  // ----- One call of the method, and what it can be observed to do -----

  /** The arguments of one call, with the parameter descriptors they were passed for. */
  datatype Call = Call(descs: seq<string>, self: i32, args: seq<Value>)

  datatype Event = Stored(field: FieldRef, v: Value) | Called(target: MethodRef, args: seq<Value>)

  datatype End = Returned(v: Value) | ReturnedVoid | Thrown(v: Value)

  datatype Outcome = Outcome(trace: seq<Event>, end: End)

  function DescriptorRegisterWidth(desc: string): (w: nat)
    ensures w == 1 || w == 2
  {
    if desc == "J" || desc == "D" then 2 else 1
  }

  /** Arguments have the widths their descriptors say. */
  predicate Fits(call: Call) {
    && |call.descs| == |call.args|
    && forall i :: 0 <= i < |call.args| ==> (call.args[i].VLong? <==> DescriptorRegisterWidth(call.descs[i]) == 2)
  }

  /** The static type of an expression: long, or one of the types that promote to int. */
  predicate IsLong(e: Expr, descs: seq<string>) {
    match e
    case Param(i) => i < |descs| && DescriptorRegisterWidth(descs[i]) == 2
    case LongLit(_) => true
    case Unary(un, e) => un.CastLong? || ((un.Negate? || un.Complement?) && IsLong(e, descs))
    case Binary(op, l, r) => IsLong(l, descs) || (!IsShift(op) && IsLong(r, descs))
    case Ternary(_, t, f) => IsLong(t, descs) || IsLong(f, descs)
    case _ => false
  }

  function UnaryValue(un: UnaryJava, v: Value): Value {
    match un
    case Negate => if v.VLong? then VLong(Wrap64(0 - v.l)) else VInt(Wrap32(0 - v.i))
    case Complement => if v.VLong? then VLong(Wrap64(-1 - v.l)) else VInt(Wrap32(-1 - v.i))
    case CastLong => VLong(v.Number())
    case CastInt => VInt(Wrap32(v.Number()))
    case CastByte => VInt(WrapTo(v.Number(), 0x100))
    case CastChar => VInt(v.Number() % 0x1_0000)
    case CastShort => VInt(WrapTo(v.Number(), 0x1_0000))
  }

  function BinaryValue(op: ArithOp, l: Value, r: Value): Value {
    if l.VLong? || (!IsShift(op) && r.VLong?) then VLong(Arith64(op, l.Number(), r.Number()))
    else VInt(Arith32(op, l.Number(), r.Number()))
  }

  function Eval(e: Expr, call: Call): Value {
    match e
    case This => VInt(call.self)
    case Param(i) => if i < |call.args| then call.args[i] else VInt(0)
    case RawLocal(_) => VInt(0)
    case IntLit(i) => VInt(i)
    case LongLit(l) => VLong(l)
    case Unary(un, e) => UnaryValue(un, Eval(e, call))
    case Binary(op, l, r) => BinaryValue(op, Eval(l, call), Eval(r, call))
    case LongCompare(l, r) => VInt(Sign(Eval(l, call).Number(), Eval(r, call).Number()))
    case Ternary(c, t, f) =>
      var v := if Holds(c, call) then Eval(t, call) else Eval(f, call);
      if IsLong(e, call.descs) then VLong(v.Number()) else v
  }

  predicate Holds(c: Cond, call: Call) {
    Related(c.rel, Eval(c.left, call).Number(), Eval(c.right, call).Number())
  }

  function EvalAll(es: seq<Expr>, call: Call): (vs: seq<Value>)
    ensures |vs| == |es|
    ensures forall i :: 0 <= i < |es| ==> vs[i] == Eval(es[i], call)
  {
    if es == [] then [] else [Eval(es[0], call)] + EvalAll(es[1..], call)
  }

  // ----- Which bodies may be printed -----

  /**
   No unnamed register, no missing parameter, and both arms of every conditional
   expression equally wide. Bodies with unnamed registers are withheld by the writer;
   arms of one width are what the bytecode verifier's type merge at a join guarantees.
   */
  predicate Safe(e: Expr, descs: seq<string>) {
    match e
    case RawLocal(_) => false
    case Param(i) => i < |descs|
    case Unary(_, e) => Safe(e, descs)
    case Binary(_, l, r) => Safe(l, descs) && Safe(r, descs)
    case LongCompare(l, r) => Safe(l, descs) && Safe(r, descs)
    case Ternary(c, t, f) =>
      && SafeCond(c, descs) && Safe(t, descs) && Safe(f, descs)
      && IsLong(t, descs) == IsLong(f, descs)
    case _ => true
  }

  predicate SafeCond(c: Cond, descs: seq<string>) {
    Safe(c.left, descs) && Safe(c.right, descs)
  }

  predicate SafeStmt(s: Stmt, descs: seq<string>) {
    match s
    case Put(_, e) => Safe(e, descs)
    case CallStatic(_, args) => forall i :: 0 <= i < |args| ==> Safe(args[i], descs)
    case Throw(e) => Safe(e, descs)
    case Return(e) => Safe(e, descs)
    case ReturnNothing => true
    case ReturnIf(c, value) => SafeCond(c, descs) && (value.Some? ==> Safe(value.value, descs))
  }

  predicate SafeStmts(ss: Stmts, descs: seq<string>) {
    forall i :: 0 <= i < |ss| ==> SafeStmt(ss[i], descs)
  }

  predicate SafeBody(b: Body, descs: seq<string>) {
    match b
    case Straight(ss) => SafeStmts(ss, descs)
    case IfThen(prefix, c, thn, rest) =>
      && SafeStmts(prefix, descs) && SafeCond(c, descs)
      && SafeStmts(thn, descs) && SafeStmts(rest, descs)
    case SwitchOn(prefix, e, keys, cases, default) =>
      && SafeStmts(prefix, descs) && Safe(e, descs) && SafeStmts(default, descs)
      && forall k :: 0 <= k < |cases| ==> SafeStmts(cases[k], descs)
  }

  // ----- Running a body -----

  /** The effects of a statement list, and how it ended, if it did not run to its end. */
  datatype Ran = Ran(trace: seq<Event>, end: Option<End>)

  function Then(first: Ran, second: Ran): Ran {
    if first.end.Some? then first else Ran(first.trace + second.trace, second.end)
  }

  function RunStmt(s: Stmt, call: Call): Ran {
    match s
    case Put(field, e) => Ran([Stored(field, Eval(e, call))], None)
    case CallStatic(target, args) => Ran([Called(target, EvalAll(args, call))], None)
    case Throw(e) => Ran([], Some(Thrown(Eval(e, call))))
    case Return(e) => Ran([], Some(Returned(Eval(e, call))))
    case ReturnNothing => Ran([], Some(ReturnedVoid))
    case ReturnIf(c, value) =>
      if !Holds(c, call) then Ran([], None)
      else Ran([], Some(if value.Some? then Returned(Eval(value.value, call)) else ReturnedVoid))
  }

  function RunStmts(ss: Stmts, call: Call): Ran {
    if ss == [] then Ran([], None)
    else Then(RunStmt(ss[0], call), RunStmts(ss[1..], call))
  }

  /** The position of the first case with this label, or the number of cases for the default. */
  function CaseIndex(keys: seq<i32>, v: int): (k: nat)
    ensures k <= |keys|
    ensures k < |keys| ==> keys[k] == v
    ensures forall j :: 0 <= j < k ==> keys[j] != v
  {
    if keys == [] then 0
    else if keys[0] == v then 0
    else 1 + CaseIndex(keys[1..], v)
  }

  /** Runs a body; control that reaches the end of the body returns without a value. */
  function RunBody(b: Body, call: Call): Outcome {
    var ran :=
      match b
      case Straight(ss) => RunStmts(ss, call)
      case IfThen(prefix, c, thn, rest) =>
        Then(RunStmts(prefix, call),
             if Holds(c, call) then Then(RunStmts(thn, call), RunStmts(rest, call)) else RunStmts(rest, call))
      case SwitchOn(prefix, e, keys, cases, default) =>
        Then(RunStmts(prefix, call), RunCases(cases, default, CaseIndex(keys, Eval(e, call).Number()), call));
    Outcome(ran.trace, if ran.end.Some? then ran.end.value else ReturnedVoid)
  }

  /** Switch bodies fall through from one case to the next until a statement ends the method. */
  function RunCases(cases: seq<Stmts>, default: Stmts, k: nat, call: Call): Ran
    decreases if k < |cases| then |cases| - k else 0
  {
    if k < |cases| then Then(RunStmts(cases[k], call), RunCases(cases, default, k + 1, call))
    else RunStmts(default, call)
  }

  // ----- Facts about evaluation -----

  /** The static type computed from descriptors is the width every evaluation has. */
  lemma {:induction false} StaticTypeIsDynamic(e: Expr, call: Call)
    requires Fits(call)
    ensures Eval(e, call).VLong? <==> IsLong(e, call.descs)
  {
    match e
    case Unary(un, e1) => StaticTypeIsDynamic(e1, call);
    case Binary(op, l, r) =>
      StaticTypeIsDynamic(l, call);
      StaticTypeIsDynamic(r, call);
    case Ternary(c, t, f) =>
      StaticTypeIsDynamic(t, call);
      StaticTypeIsDynamic(f, call);
    case _ =>
  }

  /** With arms of one width the conditional operator yields the value of the chosen arm unchanged. */
  lemma TernaryPicks(c: Cond, t: Expr, f: Expr, call: Call)
    requires Fits(call)
    requires IsLong(t, call.descs) == IsLong(f, call.descs)
    ensures Eval(Ternary(c, t, f), call) == if Holds(c, call) then Eval(t, call) else Eval(f, call)
  {
    StaticTypeIsDynamic(t, call);
    StaticTypeIsDynamic(f, call);
  }

  lemma {:induction false} RunStmtsConcat(a: Stmts, b: Stmts, call: Call)
    ensures RunStmts(a + b, call) == Then(RunStmts(a, call), RunStmts(b, call))
  {
    hide Then, RunStmt;
    if a == [] {
      assert a + b == b;
      ThenNothing(RunStmts(b, call));
    } else {
      assert (a + b)[1..] == a[1..] + b;
      RunStmtsConcat(a[1..], b, call);
      ThenAssociates(RunStmt(a[0], call), RunStmts(a[1..], call), RunStmts(b, call));
    }
  }

  lemma ThenNothing(r: Ran)
    ensures Then(Ran([], None), r) == r
  {
    assert [] + r.trace == r.trace;
  }

  lemma ThenAssociates(a: Ran, b: Ran, c: Ran)
    ensures Then(a, Then(b, c)) == Then(Then(a, b), c)
  {
    assert a.trace + (b.trace + c.trace) == (a.trace + b.trace) + c.trace;
  }

  lemma SafeStmtsConcat(a: Stmts, b: Stmts, descs: seq<string>)
    ensures SafeStmts(a + b, descs) <==> SafeStmts(a, descs) && SafeStmts(b, descs)
  {
    if SafeStmts(a + b, descs) {
      assert forall i :: 0 <= i < |a| ==> (a + b)[i] == a[i];
      assert forall i :: 0 <= i < |b| ==> (a + b)[|a| + i] == b[i];
    }
  }
}
