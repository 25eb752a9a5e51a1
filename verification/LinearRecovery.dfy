module LinearRecovery {
  // Symbolic evaluation of straight-line code: every register carries the expression of
  // its current value, and effects become statements.

  import opened MachineInts
  import opened JavaBody
  import opened DalvikMachine
  import opened RegisterLayout
  import opened Options

  /** A register's expression, with the type descriptor the recoverer attached to it, if any. */
  datatype Carried = Carried(e: Expr, desc: string)

  type Values = map<nat, Carried>

  datatype Block = Block(stmts: Stmts, expr: Option<Expr>, ends: bool)

  /** values is what the caller's map holds afterwards, also when the evaluation failed. */
  datatype Evaluated = Evaluated(values: Values, block: Block, ok: bool)

  function CarriedBy(m: Method, values: Values, r: nat): Carried {
    if r in values then values[r] else Carried(RegisterExpression(m, r), "")
  }

  function ValueOf(m: Method, values: Values, r: nat): Expr {
    CarriedBy(m, values, r).e
  }

  function JavaUnary(un: UnaryOp): UnaryJava {
    match un
    case NegInt => Negate
    case NegLong => Negate
    case NotInt => Complement
    case NotLong => Complement
    case IntToLong => CastLong
    case LongToInt => CastInt
    case IntToByte => CastByte
    case IntToChar => CastChar
    case IntToShort => CastShort
  }

  function ArgumentWalk(m: Method, words: seq<nat>, params: seq<string>, values: Values): (es: seq<Expr>)
    ensures |es| <= |params|
    decreases |params|
  {
    if params == [] || words == [] then []
    else
      var w := DescriptorRegisterWidth(params[0]);
      [ValueOf(m, values, words[0])]
      + ArgumentWalk(m, if w <= |words| then words[w..] else [], params[1..], values)
  }

  /** The arguments of a call: one expression for each parameter, read from its first word. */
  function ArgumentExpressions(m: Method, words: seq<nat>, params: seq<string>, values: Values): seq<Expr> {
    if params == [] then seq(|words|, i requires 0 <= i < |words| => ValueOf(m, values, words[i]))
    else ArgumentWalk(m, words, params, values)
  }

  /** argumentExpressions, as the loop over the parameters that it is. */
  method CollectArguments(m: Method, words: seq<nat>, params: seq<string>, values: Values) returns (es: seq<Expr>)
    ensures es == ArgumentExpressions(m, words, params, values)
  {
    es := [];
    if params == [] {
      es := CollectWords(m, words, values);
      return;
    }
    hide ArgumentWalk, CarriedBy, ValueOf, From;
    AllOf(words);
    var word := 0;
    assert params[0..] == params;
    for i := 0 to |params|
      invariant word >= 0
      invariant ArgumentWalk(m, words, params, values) == es + ArgumentWalk(m, From(words, word), params[i..], values)
    {
      if word >= |words| {
        ArgumentWalkEnd(m, params[i..], values);
        return;
      }
      ArgumentWalkStep(m, words, word, params, i, values);
      SeqAssociates(es, [ValueOf(m, values, words[word])],
                    ArgumentWalk(m, From(words, word + DescriptorRegisterWidth(params[i])), params[i + 1..], values));
      es := es + [ValueOf(m, values, words[word])];
      word := word + DescriptorRegisterWidth(params[i]);
    }
    ArgumentWalkDone(m, From(words, word), values);
  }

  method CollectWords(m: Method, words: seq<nat>, values: Values) returns (es: seq<Expr>)
    ensures es == ArgumentExpressions(m, words, [], values)
  {
    es := [];
    for i := 0 to |words|
      invariant es == ArgumentExpressions(m, words, [], values)[..i]
    {
      es := es + [ValueOf(m, values, words[i])];
    }
  }

  lemma AllOf(words: seq<nat>)
    ensures From(words, 0) == words
  {
  }

  lemma SeqAssociates<T>(a: seq<T>, b: seq<T>, c: seq<T>)
    ensures a + (b + c) == (a + b) + c
  {
  }

  lemma ArgumentWalkEnd(m: Method, params: seq<string>, values: Values)
    ensures ArgumentWalk(m, [], params, values) == []
  {
  }

  lemma ArgumentWalkDone(m: Method, words: seq<nat>, values: Values)
    ensures ArgumentWalk(m, words, [], values) == []
  {
  }

  function From(words: seq<nat>, word: nat): seq<nat> {
    if word <= |words| then words[word..] else []
  }

  lemma ArgumentWalkStep(m: Method, words: seq<nat>, word: nat, params: seq<string>, i: nat, values: Values)
    requires word < |words| && i < |params|
    ensures ArgumentWalk(m, From(words, word), params[i..], values)
         == [ValueOf(m, values, words[word])]
            + ArgumentWalk(m, From(words, word + DescriptorRegisterWidth(params[i])), params[i + 1..], values)
  {
    var w := DescriptorRegisterWidth(params[i]);
    assert params[i..][1..] == params[i + 1..];
    assert From(words, word + w) == if w <= |words[word..]| then words[word..][w..] else [];
  }

  predicate IsTerminal(op: Op) {
    op.ReturnReg? || op.ReturnVoid? || op.ThrowReg?
  }

  /** One straight-line instruction: the values after it and the statements it becomes; None when it is not supported. */
  function Symbolic(m: Method, op: Op, values: Values): Option<(Values, Stmts)> {
    match op
    case ConstInt(dst, i) => Some((values[dst := Carried(IntLit(i), "")], []))
    case ConstWide(dst, l) => Some((values[dst := Carried(LongLit(l), "")], []))
    case Move(_, dst, src) => Some((values[dst := CarriedBy(m, values, src)], []))
    case UnaryTo(un, dst, src) =>
      Some((values[dst := Carried(Unary(JavaUnary(un), ValueOf(m, values, src)), "")], []))
    case BinaryTo(arith, wide, dst, left, right) =>
      var e := Binary(arith, ValueOf(m, values, left), ValueOf(m, values, right));
      Some((values[dst := Carried(e, if wide then "J" else "I")], []))
    case BinaryLit(arith, dst, src, i) =>
      Some((values[dst := Carried(Binary(arith, ValueOf(m, values, src), IntLit(i)), "I")], []))
    case ReverseSub(dst, src, i) =>
      Some((values[dst := Carried(Binary(Sub, IntLit(i), ValueOf(m, values, src)), "I")], []))
    case CmpLong(dst, left, right) =>
      Some((values[dst := Carried(LongCompare(ValueOf(m, values, left), ValueOf(m, values, right)), "I")], []))
    case StaticPut(field, src) => Some((values, [Put(field, ValueOf(m, values, src))]))
    case InvokeStatic(target, words) =>
      if target.name in {"", "<init>", "<clinit>"} then None
      else Some((values, [CallStatic(target, ArgumentExpressions(m, words, target.params, values))]))
    case _ => None
  }

  function TerminalBlock(m: Method, op: Op, values: Values): (b: Block)
    requires IsTerminal(op)
    ensures b.ends
  {
    match op
    case ReturnReg(src) => Block([], Some(ValueOf(m, values, src)), true)
    case ThrowReg(src) => Block([Throw(ValueOf(m, values, src))], None, true)
    case _ => Block([], None, true)
  }

  /** The straight-line block at positions a up to b; a terminal instruction is accepted in last position only. */
  function Linear(m: Method, a: nat, b: nat, values: Values): Evaluated
    requires a <= b <= |m.code|
    decreases b - a
  {
    if a == b then Evaluated(values, Block([], None, false), true)
    else
      var op := m.code[a].op;
      if IsTerminal(op) then
        if a == b - 1 then Evaluated(values, TerminalBlock(m, op, values), true)
        else Evaluated(values, Block([], None, false), false)
      else
        var step := Symbolic(m, op, values);
        if step.None? then Evaluated(values, Block([], None, false), false)
        else
          var rest := Linear(m, a + 1, b, step.value.0);
          Evaluated(rest.values, Block(step.value.1 + rest.block.stmts, rest.block.expr, rest.block.ends), rest.ok)
  }

  /** evaluateLinearInstructions: one pass that updates the value map and appends statements. */
  method EvaluateLinearInstructions(m: Method, a: nat, b: nat, values0: Values, requireReturn: bool)
    returns (values: Values, block: Block, ok: bool)
    requires a <= b <= |m.code|
    ensures var r := Linear(m, a, b, values0);
            && values == r.values
            && ok == (r.ok && (requireReturn ==> r.block.ends))
            && (ok ==> block == r.block)
  {
    values := values0;
    hide Symbolic, TerminalBlock;
    var stmts: Stmts := [];
    for idx := a to b
      invariant var r := Linear(m, a, b, values0);
                var rest := Linear(m, idx, b, values);
                && r.values == rest.values && r.ok == rest.ok
                && r.block.stmts == stmts + rest.block.stmts
                && r.block.expr == rest.block.expr && r.block.ends == rest.block.ends
    {
      var op := m.code[idx].op;
      if IsTerminal(op) {
        var last := TerminalBlock(m, op, values);
        block := Block(stmts + last.stmts, last.expr, last.ends);
        return values, block, idx == b - 1;
      }
      var step := Symbolic(m, op, values);
      if step.None? {
        return values, Block(stmts, None, false), false;
      }
      values := step.value.0;
      stmts := stmts + step.value.1;
    }
    block := Block(stmts, None, false);
    ok := !requireReturn;
  }

  // ----- What the stored expressions mean -----

  /** Every readable register holds the value of the expression stored for it, if that expression may be printed. */
  ghost predicate Tracks(m: Method, values: Values, regs: Regs, call: Call) {
    forall r: nat | Peek(regs, r).Some? && Safe(ValueOf(m, values, r), call.descs) ::
      Eval(ValueOf(m, values, r), call) == Peek(regs, r).value
  }

  lemma EntryTracked(m: Method, call: Call)
    requires CallOf(m, call)
    ensures Tracks(m, map[], Entry(m, call), call)
  {
    ArgumentCellsLength(call);
    forall r: nat | Peek(Entry(m, call), r).Some?
      ensures Eval(ValueOf(m, map[], r), call) == Peek(Entry(m, call), r).value
    {
      EntryNames(m, call, r);
    }
  }

  lemma TracksWrite(m: Method, values: Values, regs: Regs, call: Call, dst: nat, v: Value, c: Carried)
    requires Tracks(m, values, regs, call)
    requires Write(regs, dst, v).Some?
    requires Safe(c.e, call.descs) ==> Eval(c.e, call) == v
    ensures Tracks(m, values[dst := c], Write(regs, dst, v).value, call)
  {
    var regs' := Write(regs, dst, v).value;
    forall r: nat | Peek(regs', r).Some? && Safe(ValueOf(m, values[dst := c], r), call.descs)
      ensures Eval(ValueOf(m, values[dst := c], r), call) == Peek(regs', r).value
    {
      if r != dst {
        assert ValueOf(m, values[dst := c], r) == ValueOf(m, values, r);
        assert Peek(regs', r) == Peek(regs, r);
      }
    }
  }

  lemma {:induction false} ArgumentsTracked(m: Method, values: Values, regs: Regs, call: Call, words: seq<nat>, params: seq<string>)
    requires Tracks(m, values, regs, call)
    requires PassArguments(regs, words, params).Some?
    requires forall i :: 0 <= i < |ArgumentWalk(m, words, params, values)| ==> Safe(ArgumentWalk(m, words, params, values)[i], call.descs)
    ensures EvalAll(ArgumentWalk(m, words, params, values), call) == PassArguments(regs, words, params).value
    decreases |params|
  {
    if params != [] {
      var w := DescriptorRegisterWidth(params[0]);
      var all := ArgumentWalk(m, words, params, values);
      var tail := ArgumentWalk(m, words[w..], params[1..], values);
      assert all == [ValueOf(m, values, words[0])] + tail;
      forall i | 0 <= i < |tail| ensures Safe(tail[i], call.descs) {
        assert all[i + 1] == tail[i];
      }
      ArgumentsTracked(m, values, regs, call, words[w..], params[1..]);
      assert all[1..] == tail;
      assert Safe(all[0], call.descs);
    }
  }

  lemma UnaryTracks(un: UnaryOp, v: Value, e: Expr, call: Call)
    requires UnaryResult(un, v).Some?
    requires Eval(e, call) == v
    ensures Eval(Unary(JavaUnary(un), e), call) == UnaryResult(un, v).value
  {
    match un
    case _ =>
  }

  /** The printed operator has no width; the operands' types give it the opcode's. */
  lemma BinaryTracks(arith: ArithOp, wide: bool, l: Value, r: Value, left: Expr, right: Expr, call: Call)
    requires BinaryResult(arith, wide, l, r).Some?
    requires Eval(left, call) == l && Eval(right, call) == r
    ensures Eval(Binary(arith, left, right), call) == BinaryResult(arith, wide, l, r).value
  {
  }

  lemma BinaryComputes(
    m: Method, values: Values, regs: Regs, call: Call, dst: nat, arith: ArithOp, wide: bool,
    x: Value, y: Value, left: Expr, right: Expr, desc: string)
    requires Tracks(m, values, regs, call)
    requires WriteResult(regs, dst, BinaryResult(arith, wide, x, y)).Some?
    requires Safe(left, call.descs) ==> Eval(left, call) == x
    requires Safe(right, call.descs) ==> Eval(right, call) == y
    ensures Tracks(m, values[dst := Carried(Binary(arith, left, right), desc)],
                   WriteResult(regs, dst, BinaryResult(arith, wide, x, y)).value.0, call)
  {
    var v := BinaryResult(arith, wide, x, y).value;
    var c := Carried(Binary(arith, left, right), desc);
    if Safe(c.e, call.descs) {
      BinaryTracks(arith, wide, x, y, left, right, call);
    }
    TracksWrite(m, values, regs, call, dst, v, c);
  }

  /** Instructions that compute a value keep the expressions tracking the registers. */
  lemma ComputeTracks(m: Method, op: Op, values: Values, regs: Regs, call: Call)
    requires Tracks(m, values, regs, call)
    requires !op.StaticPut? && !op.InvokeStatic?
    requires Symbolic(m, op, values).Some? && Execute(op, regs).Some?
    ensures Tracks(m, Symbolic(m, op, values).value.0, Execute(op, regs).value.0, call)
    ensures Symbolic(m, op, values).value.1 == [] && Execute(op, regs).value.1 == []
  {
    hide BinaryResult, UnaryResult, Write;
    match op
    case ConstInt(dst, i) => TracksWrite(m, values, regs, call, dst, VInt(i), Carried(IntLit(i), ""));
    case ConstWide(dst, l) => TracksWrite(m, values, regs, call, dst, VLong(l), Carried(LongLit(l), ""));
    case Move(_, dst, src) =>
      TracksWrite(m, values, regs, call, dst, Peek(regs, src).value, CarriedBy(m, values, src));
    case UnaryTo(un, dst, src) =>
      var x := Peek(regs, src).value;
      var c := Carried(Unary(JavaUnary(un), ValueOf(m, values, src)), "");
      if Safe(c.e, call.descs) { UnaryTracks(un, x, ValueOf(m, values, src), call); }
      TracksWrite(m, values, regs, call, dst, UnaryResult(un, x).value, c);
    case BinaryTo(arith, wide, dst, left, right) =>
      BinaryComputes(m, values, regs, call, dst, arith, wide, Peek(regs, left).value, Peek(regs, right).value,
                     ValueOf(m, values, left), ValueOf(m, values, right), if wide then "J" else "I");
    case BinaryLit(arith, dst, src, i) =>
      BinaryComputes(m, values, regs, call, dst, arith, false, Peek(regs, src).value, VInt(i),
                     ValueOf(m, values, src), IntLit(i), "I");
    case ReverseSub(dst, src, i) =>
      BinaryComputes(m, values, regs, call, dst, Sub, false, VInt(i), Peek(regs, src).value,
                     IntLit(i), ValueOf(m, values, src), "I");
    case CmpLong(dst, left, right) =>
      var x, y := Peek(regs, left).value, Peek(regs, right).value;
      TracksWrite(m, values, regs, call, dst, VInt(Sign(x.l, y.l)),
                  Carried(LongCompare(ValueOf(m, values, left), ValueOf(m, values, right)), "I"));
  }

  /**
   The symbolic evaluation invariant, for one instruction: if the instruction runs and the
   statements it becomes may be printed, they have its effects, and the expressions still track the registers.
   */
  lemma StepTracks(m: Method, op: Op, values: Values, regs: Regs, call: Call)
    requires Tracks(m, values, regs, call)
    requires Symbolic(m, op, values).Some? && Execute(op, regs).Some?
    requires SafeStmts(Symbolic(m, op, values).value.1, call.descs)
    ensures Tracks(m, Symbolic(m, op, values).value.0, Execute(op, regs).value.0, call)
    ensures RunStmts(Symbolic(m, op, values).value.1, call) == Ran(Execute(op, regs).value.1, None)
  {
    match op
    case StaticPut(field, src) =>
      var s := Put(field, ValueOf(m, values, src));
      assert SafeStmt([s][0], call.descs);
      RunOne(s, call);
    case InvokeStatic(target, words) =>
      var s := CallStatic(target, ArgumentExpressions(m, words, target.params, values));
      assert SafeStmt([s][0], call.descs);
      RunOne(s, call);
      if target.params == [] {
        assert s.args == [];
      } else {
        ArgumentsTracked(m, values, regs, call, words, target.params);
      }
    case _ => ComputeTracks(m, op, values, regs, call);
  }

  lemma RunOne(s: Stmt, call: Call)
    ensures RunStmts([s], call) == RunStmt(s, call)
  {
    assert RunStmts([s][1..], call) == Ran([], None);
  }

  // ----- Straight-line code against the machine -----

  /** The instructions that become statements or stored expressions. */
  predicate IsSimple(op: Op) {
    match op
    case IfZero(_, _, _) => false
    case IfTwo(_, _, _, _) => false
    case Goto(_) => false
    case Switch(_, _, _) => false
    case Unsupported => false
    case InvokeStatic(target, _) => target.name !in {"", "<init>", "<clinit>"}
    case _ => !IsTerminal(op)
  }

  lemma SymbolicIffSimple(m: Method, op: Op, values: Values)
    requires !IsTerminal(op)
    ensures Symbolic(m, op, values).Some? <==> IsSimple(op)
  {
  }

  predicate AllSimple(m: Method, a: nat, b: nat) {
    forall i :: a <= i < b && i < |m.code| ==> IsSimple(m.code[i].op)
  }

  /** A block that is recovered without ending the method consists of simple instructions, and conversely. */
  lemma {:induction false} LinearIffSimple(m: Method, a: nat, b: nat, values: Values)
    requires a <= b <= |m.code|
    ensures Linear(m, a, b, values).ok && !Linear(m, a, b, values).block.ends <==> AllSimple(m, a, b)
    decreases b - a
  {
    if a < b {
      var op := m.code[a].op;
      if !IsTerminal(op) {
        SymbolicIffSimple(m, op, values);
        if IsSimple(op) {
          LinearIffSimple(m, a + 1, b, Symbolic(m, op, values).value.0);
        }
      }
    }
  }

  /** The registers and effects after the straight-line code at positions a up to b. */
  function ExecuteAll(m: Method, a: nat, b: nat, regs: Regs): Option<(Regs, seq<Event>)>
    requires a <= b <= |m.code|
    decreases b - a
  {
    if a == b then Some((regs, []))
    else
      var next := Execute(m.code[a].op, regs);
      if next.None? then None
      else
        var rest := ExecuteAll(m, a + 1, b, next.value.0);
        if rest.None? then None else Some((rest.value.0, next.value.1 + rest.value.1))
  }

  /** The machine side: simple instructions run straight through, or get stuck. */
  lemma {:induction false} LinearRuns(m: Method, a: nat, b: nat, regs: Regs, fuel: nat)
    requires a <= b <= |m.code| && AllSimple(m, a, b)
    requires fuel >= b - a
    ensures RunFrom(m, a, regs, fuel)
         == match ExecuteAll(m, a, b, regs)
            case None => Stuck
            case Some(done) => Prepend(done.1, RunFrom(m, b, done.0, fuel - (b - a)))
    decreases b - a
  {
    hide Act, Execute, IsSimple;
    if a < b {
      var op := m.code[a].op;
      StepRuns(m, a, regs, fuel);
      if Execute(op, regs).Some? {
        var next := Execute(op, regs).value;
        LinearRuns(m, a + 1, b, next.0, fuel - 1);
        if ExecuteAll(m, a + 1, b, next.0).Some? {
          var done := ExecuteAll(m, a + 1, b, next.0).value;
          PrependTwice(next.1, done.1, RunFrom(m, b, done.0, fuel - (b - a)));
        }
      }
    } else {
      PrependNothing(RunFrom(m, b, regs, fuel));
    }
  }

  /**
   The symbolic evaluation invariant, for any run of straight-line code: the statements have exactly
   the effects of the instructions, in order, and the expressions track the registers.
   */
  lemma {:induction false} LinearTracks(m: Method, a: nat, b: nat, values: Values, regs: Regs, call: Call)
    requires a <= b <= |m.code|
    requires Tracks(m, values, regs, call)
    requires Linear(m, a, b, values).ok && !Linear(m, a, b, values).block.ends
    requires SafeStmts(Linear(m, a, b, values).block.stmts, call.descs)
    requires ExecuteAll(m, a, b, regs).Some?
    ensures RunStmts(Linear(m, a, b, values).block.stmts, call) == Ran(ExecuteAll(m, a, b, regs).value.1, None)
    ensures Tracks(m, Linear(m, a, b, values).values, ExecuteAll(m, a, b, regs).value.0, call)
    decreases b - a
  {
    hide Tracks, Symbolic, Execute;
    if a < b {
      var op := m.code[a].op;
      var step := Symbolic(m, op, values).value;
      var next := Execute(op, regs).value;
      var rest := Linear(m, a + 1, b, step.0);
      SafeStmtsConcat(step.1, rest.block.stmts, call.descs);
      StepTracks(m, op, values, regs, call);
      LinearTracks(m, a + 1, b, step.0, next.0, call);
      RunStmtsConcat(step.1, rest.block.stmts, call);
    }
  }

  lemma PrependNothing(run: Run)
    ensures Prepend([], run) == run
  {
    if run.Done? { assert [] + run.outcome.trace == run.outcome.trace; }
  }

  lemma PrependTwice(first: seq<Event>, second: seq<Event>, run: Run)
    ensures Prepend(first, Prepend(second, run)) == Prepend(first + second, run)
  {
    if run.Done? { assert first + (second + run.outcome.trace) == (first + second) + run.outcome.trace; }
  }

  /** A simple instruction only ever falls through. */
  lemma StepRuns(m: Method, pc: nat, regs: Regs, fuel: nat)
    requires pc < |m.code| && fuel > 0 && IsSimple(m.code[pc].op)
    ensures RunFrom(m, pc, regs, fuel)
         == match Execute(m.code[pc].op, regs)
            case None => Stuck
            case Some(next) => Prepend(next.1, RunFrom(m, pc + 1, next.0, fuel - 1))
  {
  }

  /** Passing a method its own parameters, register by register, passes p0 .. pn in order. */
  lemma {:induction false} OwnParameters(m: Method, k: nat, words: seq<nat>)
    requires WellLaidOut(m)
    requires k <= |m.params|
    requires |words| == Words(m.params[k..])
    requires forall i :: 0 <= i < |words| ==> words[i] == m.registers - |words| + i
    ensures var es := ArgumentWalk(m, words, m.params[k..], map[]);
            |es| == |m.params| - k && forall i :: 0 <= i < |es| ==> es[i] == Param(k + i)
    decreases |m.params| - k
  {
    if k < |m.params| {
      var w := DescriptorRegisterWidth(m.params[k]);
      assert m.params[k..][1..] == m.params[k + 1..];
      OwnParameters(m, k + 1, words[w..]);
      NamedParam(m, k, words[0]);
      var rest := ArgumentWalk(m, words[w..], m.params[k + 1..], map[]);
      assert ArgumentWalk(m, words, m.params[k..], map[]) == [Param(k)] + rest;
    }
  }

  lemma NamedParam(m: Method, k: nat, reg: nat)
    requires WellLaidOut(m)
    requires k < |m.params| && reg == m.registers - Words(m.params[k..])
    ensures RegisterExpression(m, reg) == Param(k)
  {
    WordsSplit(m.params, k);
    ParamAtStart(m.params, 0, m.registers - m.ins + ReceiverWords(m), k);
  }

  lemma {:induction false} WordsSplit(params: seq<string>, k: nat)
    requires k <= |params|
    ensures Words(params) == Words(params[..k]) + Words(params[k..])
  {
    if k > 0 {
      assert params[..k][1..] == params[1..][..k - 1];
      WordsSplit(params[1..], k - 1);
    }
  }

  lemma {:induction false} ParamAtStart(params: seq<string>, first: nat, cursor: int, k: nat)
    requires k < |params|
    ensures ParamAt(params, first, cursor, cursor + Words(params[..k])) == Some(first + k)
  {
    if k > 0 {
      var w := DescriptorRegisterWidth(params[0]);
      assert params[..k][1..] == params[1..][..k - 1];
      assert Words(params[..k]) == w + Words(params[1..][..k - 1]);
      ParamAtStart(params[1..], first + 1, cursor + w, k - 1);
    }
  }
}
