/**
 Maps that evaluate alike on a call: where the first has an expression that may be printed, the second has one
 of the same value. What is printed from them then does the same.
 */
module AlikeValues {
  import opened MachineInts
  import opened JavaBody
  import opened DalvikMachine
  import opened RegisterLayout
  import opened LinearRecovery
  import opened BodyShapes
  import opened NamedRegisters
  import opened BodiesPreserved
  import opened FollowedPaths
  import opened TerminalSlices
  import opened Options

  ghost predicate Alike(m: Method, v: Values, w: Values, call: Call) {
    forall r: nat | Safe(ValueOf(m, v, r), call.descs) :: Eval(ValueOf(m, v, r), call) == Eval(ValueOf(m, w, r), call)
  }

  lemma AlikeAt(m: Method, v: Values, w: Values, call: Call, r: nat)
    requires Alike(m, v, w, call)
    ensures Safe(ValueOf(m, v, r), call.descs) ==> Eval(ValueOf(m, v, r), call) == Eval(ValueOf(m, w, r), call)
  {
  }

  lemma AlikeWrite(m: Method, v: Values, w: Values, call: Call, dst: nat, c: Carried, d: Carried)
    requires Alike(m, v, w, call)
    requires Safe(c.e, call.descs) ==> Eval(c.e, call) == Eval(d.e, call)
    ensures Alike(m, v[dst := c], w[dst := d], call)
  {
    var v', w' := v[dst := c], w[dst := d];
    forall r: nat | Safe(ValueOf(m, v', r), call.descs) ensures Eval(ValueOf(m, v', r), call) == Eval(ValueOf(m, w', r), call) {
      if r != dst {
        assert ValueOf(m, v', r) == ValueOf(m, v, r) && ValueOf(m, w', r) == ValueOf(m, w, r);
      }
    }
  }

  predicate AllSafe(es: seq<Expr>, descs: seq<string>) {
    forall k :: 0 <= k < |es| ==> Safe(es[k], descs)
  }

  lemma {:induction false} ArgumentsAlike(m: Method, words: seq<nat>, params: seq<string>, v: Values, w: Values, call: Call)
    requires Alike(m, v, w, call)
    requires AllSafe(ArgumentWalk(m, words, params, v), call.descs)
    ensures EvalAll(ArgumentWalk(m, words, params, v), call) == EvalAll(ArgumentWalk(m, words, params, w), call)
    decreases |params|
  {
    if params != [] && words != [] {
      var width := DescriptorRegisterWidth(params[0]);
      var rest := if width <= |words| then words[width..] else [];
      var es, tail := ArgumentWalk(m, words, params, v), ArgumentWalk(m, rest, params[1..], v);
      assert es == [ValueOf(m, v, words[0])] + tail;
      forall k | 0 <= k < |tail| ensures Safe(tail[k], call.descs) { assert es[k + 1] == tail[k]; }
      ArgumentsAlike(m, rest, params[1..], v, w, call);
      assert Safe(es[0], call.descs);
      assert es[1..] == tail;
    }
  }

  lemma CallAlike(m: Method, target: MethodRef, words: seq<nat>, v: Values, w: Values, call: Call)
    requires Alike(m, v, w, call)
    requires AllSafe(ArgumentExpressions(m, words, target.params, v), call.descs)
    ensures EvalAll(ArgumentExpressions(m, words, target.params, v), call) == EvalAll(ArgumentExpressions(m, words, target.params, w), call)
  {
    if target.params == [] {
      var es := ArgumentExpressions(m, words, [], v);
      forall k | 0 <= k < |words| ensures Eval(ValueOf(m, v, words[k]), call) == Eval(ValueOf(m, w, words[k]), call) {
        assert Safe(es[k], call.descs);
      }
    } else {
      ArgumentsAlike(m, words, target.params, v, w, call);
    }
  }

  /** One instruction keeps maps alike, and prints statements that do the same. */
  lemma StepAlike(m: Method, op: Op, v: Values, w: Values, call: Call)
    requires Alike(m, v, w, call) && IsSimple(op)
    requires Symbolic(m, op, v).Some? && SafeStmts(Symbolic(m, op, v).value.1, call.descs)
    ensures Symbolic(m, op, w).Some?
    ensures RunStmts(Symbolic(m, op, v).value.1, call) == RunStmts(Symbolic(m, op, w).value.1, call)
    ensures Alike(m, Symbolic(m, op, v).value.0, Symbolic(m, op, w).value.0, call)
  {
    hide Alike, RunStmts, ValueOf;
    var v', w' := Symbolic(m, op, v).value, Symbolic(m, op, w).value;
    match op {
      case StaticPut(field, src) =>
        assert SafeStmt(v'.1[0], call.descs);
        AlikeAt(m, v, w, call, src);
        RunOne(v'.1[0], call);
        RunOne(w'.1[0], call);
      case InvokeStatic(target, words) =>
        assert SafeStmt(v'.1[0], call.descs);
        CallAlike(m, target, words, v, w, call);
        RunOne(v'.1[0], call);
        RunOne(w'.1[0], call);
      case _ => ComputeAlike(m, op, v, w, call);
    }
  }

  lemma ComputeAlike(m: Method, op: Op, v: Values, w: Values, call: Call)
    requires Alike(m, v, w, call) && IsSimple(op) && !op.StaticPut? && !op.InvokeStatic?
    ensures Symbolic(m, op, v).Some? && Symbolic(m, op, w).Some?
    ensures Symbolic(m, op, v).value.1 == [] && Symbolic(m, op, w).value.1 == []
    ensures Alike(m, Symbolic(m, op, v).value.0, Symbolic(m, op, w).value.0, call)
  {
    hide Alike, UnaryValue, BinaryValue, JavaUnary;
    hide ValueOf;
    match op
    case ConstInt(dst, i) => AlikeWrite(m, v, w, call, dst, Carried(IntLit(i), ""), Carried(IntLit(i), ""));
    case ConstWide(dst, l) => AlikeWrite(m, v, w, call, dst, Carried(LongLit(l), ""), Carried(LongLit(l), ""));
    case Move(_, dst, src) =>
      AlikeAt(m, v, w, call, src);
      CarriedIs(m, v, src);
      CarriedIs(m, w, src);
      AlikeWrite(m, v, w, call, dst, CarriedBy(m, v, src), CarriedBy(m, w, src));
    case UnaryTo(un, dst, src) =>
      AlikeAt(m, v, w, call, src);
      AlikeWrite(m, v, w, call, dst, Carried(Unary(JavaUnary(un), ValueOf(m, v, src)), ""),
                 Carried(Unary(JavaUnary(un), ValueOf(m, w, src)), ""));
    case BinaryTo(arith, wide, dst, left, right) =>
      AlikeAt(m, v, w, call, left);
      AlikeAt(m, v, w, call, right);
      var desc := if wide then "J" else "I";
      AlikeWrite(m, v, w, call, dst, Carried(Binary(arith, ValueOf(m, v, left), ValueOf(m, v, right)), desc),
                 Carried(Binary(arith, ValueOf(m, w, left), ValueOf(m, w, right)), desc));
    case BinaryLit(arith, dst, src, i) =>
      AlikeAt(m, v, w, call, src);
      AlikeWrite(m, v, w, call, dst, Carried(Binary(arith, ValueOf(m, v, src), IntLit(i)), "I"),
                 Carried(Binary(arith, ValueOf(m, w, src), IntLit(i)), "I"));
    case ReverseSub(dst, src, i) =>
      AlikeAt(m, v, w, call, src);
      AlikeWrite(m, v, w, call, dst, Carried(Binary(Sub, IntLit(i), ValueOf(m, v, src)), "I"),
                 Carried(Binary(Sub, IntLit(i), ValueOf(m, w, src)), "I"));
    case CmpLong(dst, left, right) =>
      AlikeAt(m, v, w, call, left);
      AlikeAt(m, v, w, call, right);
      AlikeWrite(m, v, w, call, dst, Carried(LongCompare(ValueOf(m, v, left), ValueOf(m, v, right)), "I"),
                 Carried(LongCompare(ValueOf(m, w, left), ValueOf(m, w, right)), "I"));
  }

  lemma CarriedIs(m: Method, v: Values, r: nat)
    ensures CarriedBy(m, v, r).e == ValueOf(m, v, r)
  {
  }

  lemma {:induction false} LinearAlike(m: Method, a: nat, b: nat, v: Values, w: Values, call: Call)
    requires a <= b <= |m.code| && AllSimple(m, a, b) && Alike(m, v, w, call)
    requires SafeStmts(Linear(m, a, b, v).block.stmts, call.descs)
    ensures RunStmts(Linear(m, a, b, v).block.stmts, call) == RunStmts(Linear(m, a, b, w).block.stmts, call)
    ensures Alike(m, Linear(m, a, b, v).values, Linear(m, a, b, w).values, call)
    decreases b - a
  {
    hide Alike, Symbolic, IsSimple, RunStmts;
    if a < b {
      var op := m.code[a].op;
      assert IsSimple(op);
      SimplePasses(m, op, v, call);
      SimplePasses(m, op, w, call);
      var v', w' := Symbolic(m, op, v).value, Symbolic(m, op, w).value;
      var s, t := Linear(m, a + 1, b, v'.0).block.stmts, Linear(m, a + 1, b, w'.0).block.stmts;
      SafeStmtsConcat(v'.1, s, call.descs);
      StepAlike(m, op, v, w, call);
      LinearAlike(m, a + 1, b, v'.0, w'.0, call);
      RunStmtsConcat(v'.1, s, call);
      RunStmtsConcat(w'.1, t, call);
    }
  }

  /** A block that ends the method does the same, printed from either map. */
  lemma EndingAlike(m: Method, a: nat, b: nat, v: Values, w: Values, call: Call)
    requires a <= b <= |m.code| && Alike(m, v, w, call)
    requires Linear(m, a, b, v).ok && Linear(m, a, b, v).block.ends
    requires Linear(m, a, b, w).ok && Linear(m, a, b, w).block.ends
    requires SafeStmts(Closed(Linear(m, a, b, v).block, m.IsVoid()), call.descs)
    ensures RunStmts(Closed(Linear(m, a, b, v).block, m.IsVoid()), call) == RunStmts(Closed(Linear(m, a, b, w).block, m.IsVoid()), call)
  {
    hide Alike, Linear, RunStmts, TerminalBlock;
    LinearLast(m, a, b, v);
    LinearLast(m, a, b, w);
    LinearIffSimple(m, a, b - 1, v);
    var op := m.code[b - 1].op;
    var v', w' := Linear(m, a, b - 1, v), Linear(m, a, b - 1, w);
    ClosedIs(m, op, v'.block.stmts, v'.values);
    ClosedIs(m, op, w'.block.stmts, w'.values);
    var s, t := ClosedTail(m, op, v'.values), ClosedTail(m, op, w'.values);
    SafeStmtsConcat(v'.block.stmts, s, call.descs);
    LinearAlike(m, a, b - 1, v, w, call);
    ClosedTailAlike(m, op, v'.values, w'.values, call);
    RunStmtsConcat(v'.block.stmts, s, call);
    RunStmtsConcat(w'.block.stmts, t, call);
  }

  function ClosedTail(m: Method, op: Op, values: Values): Stmts
    requires IsTerminal(op)
  {
    match op
    case ReturnReg(src) => if m.IsVoid() then [] else [Return(ValueOf(m, values, src))]
    case ThrowReg(src) => [Throw(ValueOf(m, values, src))]
    case _ => []
  }

  lemma ClosedIs(m: Method, op: Op, front: Stmts, values: Values)
    requires IsTerminal(op)
    ensures var last := TerminalBlock(m, op, values);
            Closed(Block(front + last.stmts, last.expr, true), m.IsVoid()) == front + ClosedTail(m, op, values)
  {
    assert front + [] == front;
  }

  lemma ClosedTailAlike(m: Method, op: Op, v: Values, w: Values, call: Call)
    requires IsTerminal(op) && Alike(m, v, w, call) && SafeStmts(ClosedTail(m, op, v), call.descs)
    ensures RunStmts(ClosedTail(m, op, v), call) == RunStmts(ClosedTail(m, op, w), call)
  {
    hide Alike, RunStmts, ValueOf;
    var s, t := ClosedTail(m, op, v), ClosedTail(m, op, w);
    if s != [] {
      assert SafeStmt(s[0], call.descs);
      AlikeAt(m, v, w, call, op.src);
      RunOne(s[0], call);
      RunOne(t[0], call);
    }
  }

  lemma ConditionAlike(m: Method, op: Op, v: Values, w: Values, call: Call)
    requires IsIf(op) && Alike(m, v, w, call) && SafeCond(ConditionOf(m, op, v), call.descs)
    ensures Holds(ConditionOf(m, op, v), call) == Holds(ConditionOf(m, op, w), call)
  {
    hide Alike, ValueOf;
    match op
    case IfZero(_, src, _) => AlikeAt(m, v, w, call, src);
    case IfTwo(_, left, right, _) =>
      AlikeAt(m, v, w, call, left);
      AlikeAt(m, v, w, call, right);
  }

  /** A void tail with one guard does the same, printed from either map. */
  lemma VoidTailAlike(m: Method, a: nat, v: Values, w: Values, call: Call)
    requires a <= |m.code| && Alike(m, v, w, call)
    requires VoidTail(m, a, v).Some? && SafeStmts(VoidTail(m, a, v).value, call.descs)
    ensures VoidTail(m, a, w).Some?
    ensures RunStmts(VoidTail(m, a, v).value, call) == RunStmts(VoidTail(m, a, w).value, call)
  {
    hide Alike, Linear, RunStmts, ConditionOf, Holds;
    var last := |m.code| - 1;
    var g := NextIfTo(m, a, last, m.code[last].offset);
    var v1, w1 := Linear(m, a, g, v), Linear(m, a, g, w);
    LinearIffSimple(m, a, g, v);
    LinearIffSimple(m, a, g, w);
    LinearIffSimple(m, g + 1, last, v1.values);
    LinearIffSimple(m, g + 1, last, w1.values);
    var v2, w2 := Linear(m, g + 1, last, v1.values), Linear(m, g + 1, last, w1.values);
    var c, d := ConditionOf(m, m.code[g].op, v1.values), ConditionOf(m, m.code[g].op, w1.values);
    var x, y := [ReturnIf(c, None)], [ReturnIf(d, None)];
    assert v1.block.stmts + x + v2.block.stmts == v1.block.stmts + (x + v2.block.stmts);
    assert w1.block.stmts + y + w2.block.stmts == w1.block.stmts + (y + w2.block.stmts);
    SafeStmtsConcat(v1.block.stmts, x + v2.block.stmts, call.descs);
    SafeStmtsConcat(x, v2.block.stmts, call.descs);
    assert SafeStmt(x[0], call.descs);
    LinearAlike(m, a, g, v, w, call);
    ConditionAlike(m, m.code[g].op, v1.values, w1.values, call);
    LinearAlike(m, g + 1, last, v1.values, w1.values, call);
    RunStmtsConcat(v1.block.stmts, x + v2.block.stmts, call);
    RunStmtsConcat(w1.block.stmts, y + w2.block.stmts, call);
    GuardRuns(c, v2.block.stmts, call);
    GuardRuns(d, w2.block.stmts, call);
  }
}
