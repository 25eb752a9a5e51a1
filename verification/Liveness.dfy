module Liveness {
  // Which of the values a recovery starts from reach what it prints. The map that straight-line code starts
  // from matters only through the registers that are live there, and through each of them it does matter.

  import opened MachineInts
  import opened JavaBody
  import opened DalvikMachine
  import opened RegisterLayout
  import opened LinearRecovery
  import opened BodyShapes
  import opened BodiesPreserved
  import opened Options

  /** The words that become arguments: the first of each parameter. */
  function Picked(words: seq<nat>, params: seq<string>): set<nat>
    decreases |params|
  {
    if params == [] || words == [] then {}
    else
      var w := DescriptorRegisterWidth(params[0]);
      {words[0]} + Picked(if w <= |words| then words[w..] else [], params[1..])
  }

  /** The registers whose expressions an instruction takes up. */
  function Reads(op: Op): set<nat> {
    match op
    case Move(_, _, src) => {src}
    case UnaryTo(_, _, src) => {src}
    case BinaryTo(_, _, _, left, right) => {left, right}
    case BinaryLit(_, _, src, _) => {src}
    case ReverseSub(_, src, _) => {src}
    case CmpLong(_, left, right) => {left, right}
    case StaticPut(_, src) => {src}
    case InvokeStatic(target, words) => if target.params == [] then set w | w in words else Picked(words, target.params)
    case IfZero(_, src, _) => {src}
    case IfTwo(_, left, right, _) => {left, right}
    case ReturnReg(src) => {src}
    case ThrowReg(src) => {src}
    case _ => {}
  }

  function Writes(op: Op): set<nat> {
    match op
    case ConstInt(dst, _) => {dst}
    case ConstWide(dst, _) => {dst}
    case Move(_, dst, _) => {dst}
    case UnaryTo(_, dst, _) => {dst}
    case BinaryTo(_, _, dst, _, _) => {dst}
    case BinaryLit(_, dst, _, _) => {dst}
    case ReverseSub(dst, _, _) => {dst}
    case CmpLong(dst, _, _) => {dst}
    case _ => {}
  }

  /** Live in front of an instruction: what it reads, if its result is live or it has an effect, and what else was live. */
  function Before(op: Op, live: set<nat>): set<nat> {
    (live - Writes(op)) + (if Writes(op) <= live then Reads(op) else {})
  }

  /** The registers whose values at a reach an effect, a condition or the result at positions a up to b, or live behind them. */
  function LiveIn(m: Method, a: nat, b: nat, live: set<nat>): set<nat>
    requires a <= b <= |m.code|
    decreases b - a
  {
    if a == b then live else Before(m.code[a].op, LiveIn(m, a + 1, b, live))
  }

  lemma {:induction false} LiveSplit(m: Method, a: nat, b: nat, c: nat, live: set<nat>)
    requires a <= b <= c <= |m.code|
    ensures LiveIn(m, a, c, live) == LiveIn(m, a, b, LiveIn(m, b, c, live))
    decreases b - a
  {
    hide Before;
    if a < b { LiveSplit(m, a + 1, b, c, live); }
  }

  ghost predicate SameOn(m: Method, live: set<nat>, v: Values, w: Values) {
    forall r :: r in live ==> ValueOf(m, v, r) == ValueOf(m, w, r)
  }

  lemma {:induction false} ArgumentsSame(m: Method, words: seq<nat>, params: seq<string>, v: Values, w: Values)
    ensures ArgumentWalk(m, words, params, v) == ArgumentWalk(m, words, params, w)
       <==> SameOn(m, Picked(words, params), v, w)
    decreases |params|
  {
    if params != [] && words != [] {
      var width := DescriptorRegisterWidth(params[0]);
      var rest := if width <= |words| then words[width..] else [];
      ArgumentsSame(m, rest, params[1..], v, w);
      FirstAndRest(ValueOf(m, v, words[0]), ArgumentWalk(m, rest, params[1..], v),
                   ValueOf(m, w, words[0]), ArgumentWalk(m, rest, params[1..], w));
    }
  }

  lemma FirstAndRest(a: Expr, s: seq<Expr>, b: Expr, t: seq<Expr>)
    ensures [a] + s == [b] + t <==> a == b && s == t
  {
    if [a] + s == [b] + t { Cancel([a], s, [b], t); }
  }

  lemma Cancel<T>(a: seq<T>, s: seq<T>, b: seq<T>, t: seq<T>)
    requires a + s == b + t && |a| == |b|
    ensures a == b && s == t
  {
    assert (a + s)[..|a|] == a && (b + t)[..|b|] == b;
    assert (a + s)[|a|..] == s && (b + t)[|b|..] == t;
  }

  lemma CallSame(m: Method, target: MethodRef, words: seq<nat>, v: Values, w: Values)
    ensures ArgumentExpressions(m, words, target.params, v) == ArgumentExpressions(m, words, target.params, w)
       <==> SameOn(m, Reads(InvokeStatic(target, words)), v, w)
  {
    if target.params == [] {
      var s, t := ArgumentExpressions(m, words, [], v), ArgumentExpressions(m, words, [], w);
      if s == t {
        forall r | r in words ensures ValueOf(m, v, r) == ValueOf(m, w, r) {
          var k :| 0 <= k < |words| && words[k] == r;
          assert s[k] == t[k];
        }
      }
    } else {
      ArgumentsSame(m, words, target.params, v, w);
    }
  }

  /** What an instruction stores or prints is the same for two maps exactly if they agree on what it reads. */
  lemma StepSame(m: Method, op: Op, v: Values, w: Values)
    requires IsSimple(op)
    ensures Symbolic(m, op, v).Some? && Symbolic(m, op, w).Some?
    ensures var v', w' := Symbolic(m, op, v).value, Symbolic(m, op, w).value;
            (v'.1 == w'.1 && SameOn(m, Writes(op), v'.0, w'.0)) <==> SameOn(m, Reads(op), v, w)
    ensures |Symbolic(m, op, v).value.1| == |Symbolic(m, op, w).value.1|
  {
    match op
    case InvokeStatic(target, words) =>
      CallSame(m, target, words, v, w);
      var s := CallStatic(target, ArgumentExpressions(m, words, target.params, v));
      var t := CallStatic(target, ArgumentExpressions(m, words, target.params, w));
      assert [s] == [t] <==> s == t by { assert [s][0] == s && [t][0] == t; }
    case StaticPut(field, src) =>
      var s, t := Put(field, ValueOf(m, v, src)), Put(field, ValueOf(m, w, src));
      assert [s] == [t] <==> s == t by { assert [s][0] == s && [t][0] == t; }
    case _ =>
  }

  /** What an instruction does not write keeps its expression. */
  lemma StepKeeps(m: Method, op: Op, v: Values, r: nat)
    requires IsSimple(op) && r !in Writes(op)
    ensures Symbolic(m, op, v).Some? && ValueOf(m, Symbolic(m, op, v).value.0, r) == ValueOf(m, v, r)
  {
  }

  lemma StepLive(m: Method, op: Op, live: set<nat>, v: Values, w: Values)
    requires IsSimple(op)
    ensures Symbolic(m, op, v).Some? && Symbolic(m, op, w).Some?
    ensures var v', w' := Symbolic(m, op, v).value, Symbolic(m, op, w).value;
            (v'.1 == w'.1 && SameOn(m, live, v'.0, w'.0)) <==> SameOn(m, Before(op, live), v, w)
  {
    hide Symbolic, Reads, Writes, IsSimple, ValueOf;
    StepSame(m, op, v, w);
    WritesOneOrPrints(m, op, v, w);
    var v', w' := Symbolic(m, op, v).value, Symbolic(m, op, w).value;
    forall r | r in live && r !in Writes(op)
      ensures ValueOf(m, v'.0, r) == ValueOf(m, v, r) && ValueOf(m, w'.0, r) == ValueOf(m, w, r)
    {
      StepKeeps(m, op, v, r);
      StepKeeps(m, op, w, r);
    }
    if Writes(op) <= live {
      assert SameOn(m, live, v'.0, w'.0) <==> SameOn(m, live - Writes(op), v'.0, w'.0) && SameOn(m, Writes(op), v'.0, w'.0);
    }
  }

  lemma WritesOneOrPrints(m: Method, op: Op, v: Values, w: Values)
    requires IsSimple(op)
    ensures Symbolic(m, op, v).Some? && Symbolic(m, op, w).Some?
    ensures Writes(op) != {} ==> Symbolic(m, op, v).value.1 == [] && Symbolic(m, op, w).value.1 == []
    ensures forall live: set<nat> :: Writes(op) <= live || Writes(op) !! live
  {
  }

  /**
   Straight-line code prints the same from two maps, and leaves them alike on what is live behind it, exactly if they
   agree on what is live in front.
   */
  lemma {:induction false} LinearLive(m: Method, a: nat, b: nat, live: set<nat>, v: Values, w: Values)
    requires a <= b <= |m.code| && AllSimple(m, a, b)
    ensures var v', w' := Linear(m, a, b, v), Linear(m, a, b, w);
            && |v'.block.stmts| == |w'.block.stmts|
            && (v'.block.stmts == w'.block.stmts && SameOn(m, live, v'.values, w'.values)
                <==> SameOn(m, LiveIn(m, a, b, live), v, w))
    decreases b - a
  {
    hide Symbolic, IsSimple, Before, SameOn;
    if a < b {
      var op := m.code[a].op;
      assert IsSimple(op);
      SimpleIsNotTerminal(op);
      StepSame(m, op, v, w);
      var inner := LiveIn(m, a + 1, b, live);
      StepLive(m, op, inner, v, w);
      var v1, w1 := Symbolic(m, op, v).value, Symbolic(m, op, w).value;
      LinearLive(m, a + 1, b, live, v1.0, w1.0);
      var s, t := Linear(m, a + 1, b, v1.0).block.stmts, Linear(m, a + 1, b, w1.0).block.stmts;
      if v1.1 + s == w1.1 + t { Cancel(v1.1, s, w1.1, t); }
    }
  }

  lemma SimpleIsNotTerminal(op: Op)
    requires IsSimple(op)
    ensures !IsTerminal(op)
  {
  }

  lemma {:induction false} LinearKeeps(m: Method, a: nat, b: nat, v: Values, r: nat)
    requires a <= b <= |m.code| && AllSimple(m, a, b)
    requires forall p :: a <= p < b ==> r !in Writes(m.code[p].op)
    ensures ValueOf(m, Linear(m, a, b, v).values, r) == ValueOf(m, v, r)
    decreases b - a
  {
    hide Symbolic, IsSimple, Writes, ValueOf;
    if a < b {
      assert IsSimple(m.code[a].op);
      SimpleIsNotTerminal(m.code[a].op);
      StepKeeps(m, m.code[a].op, v, r);
      LinearKeeps(m, a + 1, b, Symbolic(m, m.code[a].op, v).value.0, r);
    }
  }

  /** A block that ends the method prints the same from two maps exactly if they agree on what is live in front of it. */
  lemma EndingLive(m: Method, a: nat, b: nat, v: Values, w: Values)
    requires a <= b <= |m.code|
    requires Linear(m, a, b, v).ok && Linear(m, a, b, v).block.ends
    ensures Linear(m, a, b, w).ok && Linear(m, a, b, w).block.ends
    ensures |Linear(m, a, b, v).block.stmts| == |Linear(m, a, b, w).block.stmts|
    ensures Linear(m, a, b, v).block == Linear(m, a, b, w).block <==> SameOn(m, LiveIn(m, a, b, {}), v, w)
  {
    hide Linear, Before, SameOn, TerminalBlock;
    LinearLast(m, a, b, v);
    LinearIffSimple(m, a, b - 1, v);
    LinearEnds(m, a, b, v);
    LinearEnds(m, a, b, w);
    var op := m.code[b - 1].op;
    var before := Before(op, {});
    LinearLive(m, a, b - 1, before, v, w);
    LiveSplit(m, a, b - 1, b, {});
    var v', w' := Linear(m, a, b - 1, v), Linear(m, a, b - 1, w);
    TerminalLive(m, op, v'.values, w'.values);
    var s, t := TerminalBlock(m, op, v'.values), TerminalBlock(m, op, w'.values);
    if v'.block.stmts + s.stmts == w'.block.stmts + t.stmts {
      Cancel(v'.block.stmts, s.stmts, w'.block.stmts, t.stmts);
    }
    assert LiveIn(m, b - 1, b, {}) == before;
  }

  lemma TerminalLive(m: Method, op: Op, v: Values, w: Values)
    requires IsTerminal(op)
    ensures |TerminalBlock(m, op, v).stmts| == |TerminalBlock(m, op, w).stmts|
    ensures TerminalBlock(m, op, v) == TerminalBlock(m, op, w) <==> SameOn(m, Before(op, {}), v, w)
  {
    if op.ThrowReg? {
      var s, t := Throw(ValueOf(m, v, op.src)), Throw(ValueOf(m, w, op.src));
      assert [s] == [t] <==> s == t by { assert [s][0] == s && [t][0] == t; }
    }
  }

  /** Simple instructions and then a terminal one are a block that ends the method. */
  lemma {:induction false} LinearEnds(m: Method, a: nat, b: nat, values: Values)
    requires a < b <= |m.code| && AllSimple(m, a, b - 1) && IsTerminal(m.code[b - 1].op)
    ensures Linear(m, a, b, values).ok && Linear(m, a, b, values).block.ends
    ensures var front := Linear(m, a, b - 1, values);
            var last := TerminalBlock(m, m.code[b - 1].op, front.values);
            Linear(m, a, b, values).block == Block(front.block.stmts + last.stmts, last.expr, true)
    decreases b - a
  {
    hide Symbolic;
    if a < b - 1 {
      SimpleIsNotTerminal(m.code[a].op);
      SymbolicIffSimple(m, m.code[a].op, values);
      LinearEnds(m, a + 1, b, Symbolic(m, m.code[a].op, values).value.0);
    }
    LinearLast(m, a, b, values);
  }

  /** A branch's condition is the same from two maps exactly if they agree on what it reads. */
  lemma ConditionSame(m: Method, op: Op, v: Values, w: Values)
    requires IsIf(op)
    ensures ConditionOf(m, op, v) == ConditionOf(m, op, w) <==> SameOn(m, Reads(op), v, w)
  {
  }

  /** Guarded chunks are accepted from any map, and print the same from two maps exactly if they agree on what is live. */
  lemma {:induction false} GuardedLive(m: Method, idx: nat, last: nat, v: Values, w: Values)
    requires idx <= last < |m.code| && GuardedFrom(m, idx, last, v).Some?
    ensures GuardedFrom(m, idx, last, w).Some?
    ensures |GuardedFrom(m, idx, last, v).value| == |GuardedFrom(m, idx, last, w).value|
    ensures GuardedFrom(m, idx, last, v) == GuardedFrom(m, idx, last, w) <==> SameOn(m, LiveIn(m, idx, last, {}), v, w)
    decreases last - idx
  {
    hide Linear, Before, SameOn, ConditionOf, Reads, Writes;
    if idx < last {
      var g := NextIf(m, idx, last);
      LinearIffSimple(m, idx, g, v);
      LinearIffSimple(m, idx, g, w);
      LinearLive(m, idx, g, LiveIn(m, g, last, {}), v, w);
      LiveSplit(m, idx, g, last, {});
      if g < last {
        var op := m.code[g].op;
        var v', w' := Linear(m, idx, g, v), Linear(m, idx, g, w);
        GuardedLive(m, g + 1, last, v'.values, w'.values);
        ConditionSame(m, op, v'.values, w'.values);
        BranchLive(m, op, LiveIn(m, g + 1, last, {}), v'.values, w'.values);
        var s, t := GuardedFrom(m, g + 1, last, v'.values).value, GuardedFrom(m, g + 1, last, w'.values).value;
        ChunkGuardRest(v'.block.stmts, ConditionOf(m, op, v'.values), s, w'.block.stmts, ConditionOf(m, op, w'.values), t);
      } else {
        NothingLive(m, Linear(m, idx, g, v).values, Linear(m, idx, g, w).values);
      }
    } else {
      NothingLive(m, v, w);
    }
  }

  lemma NothingLive(m: Method, v: Values, w: Values)
    ensures SameOn(m, {}, v, w)
  {
  }

  lemma BranchLive(m: Method, op: Op, live: set<nat>, v: Values, w: Values)
    requires IsIf(op)
    ensures SameOn(m, Before(op, live), v, w) <==> SameOn(m, live, v, w) && SameOn(m, Reads(op), v, w)
  {
    assert Before(op, live) == live + Reads(op);
  }

  lemma ChunkGuardRest(a: Stmts, c: Cond, s: Stmts, b: Stmts, d: Cond, t: Stmts)
    requires |a| == |b|
    ensures a + [ReturnIf(c, None)] + s == b + [ReturnIf(d, None)] + t <==> a == b && c == d && s == t
  {
    var x, y := ReturnIf(c, None), ReturnIf(d, None);
    if a + [x] + s == b + [y] + t {
      Cancel(a + [x], s, b + [y], t);
      Cancel(a, [x], b, [y]);
      assert [x][0] == [y][0];
    }
  }
}
