/**
 The shape matchers: each looks for a branch at position i whose paths are straight-line
 code, and prints a structured body for the whole method.
 */
module BodyShapes {
  import opened MachineInts
  import opened JavaBody
  import opened DalvikMachine
  import opened RegisterLayout
  import opened LinearRecovery
  import opened Options

  // ----- Blocks -----

  predicate IsIf(op: Op) {
    op.IfZero? || op.IfTwo?
  }

  function ConditionOf(m: Method, op: Op, values: Values): Cond
    requires IsIf(op)
  {
    match op
    case IfZero(rel, src, _) => Cond(rel, ValueOf(m, values, src), IntLit(0))
    case IfTwo(rel, left, right, _) => Cond(rel, ValueOf(m, values, left), ValueOf(m, values, right))
  }

  /** The statements a block is printed as. */
  function Printed(block: Block, isVoid: bool): Stmts {
    if block.expr.Some? && !isVoid then block.stmts + [Return(block.expr.value)]
    else if block.ends && isVoid && !(block.stmts != [] && block.stmts[|block.stmts| - 1].Throw?) then
      block.stmts + [ReturnNothing]
    else block.stmts
  }

  /** The position after the first terminal instruction at or after start. */
  function TerminalEnd(m: Method, start: nat): (end: nat)
    requires start <= |m.code|
    ensures start <= end <= |m.code|
    ensures forall i :: start <= i < end - 1 ==> !IsTerminal(m.code[i].op)
    ensures end == start || IsTerminal(m.code[end - 1].op) || end == |m.code|
    decreases |m.code| - start
  {
    if start == |m.code| then start
    else if IsTerminal(m.code[start].op) then start + 1
    else TerminalEnd(m, start + 1)
  }

  /** The first branch at positions a up to last, or last. */
  function NextIf(m: Method, a: nat, last: nat): (g: nat)
    requires a <= last <= |m.code|
    ensures a <= g <= last
    ensures g < last ==> IsIf(m.code[g].op)
    ensures forall i :: a <= i < g ==> !IsIf(m.code[i].op)
    decreases last - a
  {
    if a == last || IsIf(m.code[a].op) then a else NextIf(m, a + 1, last)
  }

  /** Straight-line chunks separated by branches to the final return: statements, or None. */
  function GuardedFrom(m: Method, idx: nat, last: nat, values: Values): Option<Stmts>
    requires idx <= last < |m.code|
    decreases last - idx
  {
    if idx == last then Some([])
    else
      var g := NextIf(m, idx, last);
      if g < last && m.code[g].op.to != m.code[last].offset then None
      else
        var chunk := Linear(m, idx, g, values);
        if !chunk.ok || chunk.block.ends then None
        else if g == last then Some(chunk.block.stmts)
        else
          var rest := GuardedFrom(m, g + 1, last, chunk.values);
          if rest.None? then None
          else Some(chunk.block.stmts + [ReturnIf(ConditionOf(m, m.code[g].op, chunk.values), None)] + rest.value)
  }

  function GuardedVoid(m: Method, a: nat, b: nat, values: Values): Option<Block>
    requires a < b <= |m.code|
  {
    if !m.code[b - 1].op.ReturnVoid? then None
    else
      var stmts := GuardedFrom(m, a, b - 1, values);
      if stmts.None? then None else Some(Block(stmts.value, None, true))
  }

  datatype Slice = NoSlice | Slice(block: Block, end: nat)

  /**
   The block from start to the first terminal instruction. In a void method whose slice is not
   straight-line, the guarded form is tried next, with the value map as the failed attempt left it.
   */
  function TerminalSlice(m: Method, start: nat, values: Values): (s: Slice)
    ensures s.Slice? ==> start < s.end <= |m.code| && s.end == TerminalEnd(m, start)
  {
    if start >= |m.code| then NoSlice
    else
      var end := TerminalEnd(m, start);
      var linear := Linear(m, start, end, values);
      if linear.ok && linear.block.ends then Slice(linear.block, end)
      else if m.IsVoid() then
        var guarded := GuardedVoid(m, start, end, linear.values);
        if guarded.Some? then Slice(guarded.value, end) else NoSlice
      else NoSlice
  }

  // ----- Single assignments -----

  function ChangedRegs(before: Values, after: Values): set<nat> {
    set r | r in after && !(r in before && before[r] == after[r])
  }

  lemma OneElement(s: set<nat>, x: nat, y: nat)
    requires |s| == 1 && x in s && y in s
    ensures x == y
  {
    assert |s - {x}| == 0;
    assert y !in s - {x};
  }

  function OnlyElement(s: set<nat>): (x: nat)
    requires |s| == 1
    ensures s == {x}
  {
    assert s != {};
    assert forall x, y | x in s && y in s :: x == y by {
      forall x, y | x in s && y in s ensures x == y { OneElement(s, x, y); }
    }
    var x :| x in s;
    x
  }

  /** The one register a straight-line block without effects changes, and what it then carries. */
  function SingleAssignment(m: Method, a: nat, b: nat, values: Values): (r: Option<(nat, Carried)>)
    requires a <= b <= |m.code|
    ensures r.Some? ==>
              var l := Linear(m, a, b, values);
              && l.ok && !l.block.ends && l.block.stmts == []
              && r.value.0 in l.values && l.values[r.value.0] == r.value.1
              && forall q :: q in l.values && q != r.value.0 ==> q in values && values[q] == l.values[q]
  {
    var l := Linear(m, a, b, values);
    var changed := ChangedRegs(values, l.values);
    if l.ok && !l.block.ends && l.block.stmts == [] && |changed| == 1 then
      var r := OnlyElement(changed);
      assert forall q :: q in l.values && q != r ==> q !in changed;
      Some((r, l.values[r]))
    else None
  }

  /** evaluateSingleAssignmentBlock: the changed register is found by scanning the map. */
  method EvaluateSingleAssignment(m: Method, a: nat, b: nat, values: Values) returns (r: Option<(nat, Carried)>)
    requires a <= b <= |m.code|
    ensures r == SingleAssignment(m, a, b, values)
  {
    var after, block, ok := EvaluateLinearInstructions(m, a, b, values, false);
    if !ok || block.ends || block.stmts != [] {
      return None;
    }
    var todo := after.Keys;
    ghost var changed := ChangedRegs(values, after);
    r := None;
    while todo != {}
      invariant todo <= after.Keys
      invariant r.None? ==> changed <= todo
      invariant r.Some? ==> r.value.0 in changed && r.value.0 !in todo && r.value.1 == after[r.value.0] && changed <= todo + {r.value.0}
      decreases |todo|
    {
      var q :| q in todo;
      todo := todo - {q};
      if !(q in values && values[q] == after[q]) {
        if r.Some? {
          assert |changed| != 1 by { if |changed| == 1 { OneElement(changed, q, r.value.0); } }
          return None;
        }
        r := Some((q, after[q]));
      }
    }
    if r.Some? {
      assert changed == {r.value.0};
    }
  }

  // ----- The matchers -----

  datatype Shape =
    | SwitchCases | IfTerminal | MultiBranch | ConditionalAssignment | IfGotoReturn | IfInitReturn | VoidGuard
    | VoidIfGoto | AssignedReturn | FallThroughReturn | GuardedReturn | PlainIfReturn

  /** A forward branch at i that skips at least one instruction. */
  predicate ForwardIf(m: Method, i: nat) {
    && i < |m.code| && IsIf(m.code[i].op) && m.code[i].op.to > m.code[i].offset
    && var target := IndexOf(m.code, m.code[i].op.to);
       target.Some? && target.value > i + 1
  }

  function TargetOf(m: Method, i: nat): (t: nat)
    requires ForwardIf(m, i)
    ensures i + 1 < t < |m.code|
  {
    IndexOf(m.code, m.code[i].op.to).value
  }

  predicate Opens(m: Method, i: nat)
    requires i <= |m.code|
  {
    Linear(m, 0, i, map[]).ok && !Linear(m, 0, i, map[]).block.ends
  }

  /** The first goto at positions a up to b whose target lies beyond bound, or beyond itself if bound is absent. */
  function ForwardGoto(m: Method, a: nat, b: nat, bound: Option<int>): (j: nat)
    requires a <= b <= |m.code|
    ensures a <= j <= b
    ensures j < b ==> m.code[j].op.Goto?
    decreases b - a
  {
    if a == b then a
    else if m.code[a].op.Goto? && m.code[a].op.to > (if bound.Some? then bound.value else m.code[a].offset) then a
    else ForwardGoto(m, a + 1, b, bound)
  }

  function CaseBlocks(m: Method, targets: seq<int>, values: Values): (r: Option<seq<Block>>)
    ensures r.Some? ==> |r.value| == |targets|
  {
    if targets == [] then Some([])
    else
      var start := IndexOf(m.code, targets[0]);
      if start.None? then None
      else
        var slice := TerminalSlice(m, start.value, values);
        var rest := CaseBlocks(m, targets[1..], values);
        if slice.NoSlice? || rest.None? then None else Some([slice.block] + rest.value)
  }

  function PrintAll(blocks: seq<Block>, isVoid: bool): (r: seq<Stmts>)
    ensures |r| == |blocks|
    ensures forall k :: 0 <= k < |blocks| ==> r[k] == Printed(blocks[k], isVoid)
  {
    seq(|blocks|, k requires 0 <= k < |blocks| => Printed(blocks[k], isVoid))
  }

  function SwitchAt(m: Method, i: nat): Option<Body> {
    if i >= |m.code| || m.IsInit() || !m.code[i].op.Switch? then None
    else
      var op := m.code[i].op;
      if op.keys == [] || |op.keys| != |op.targets| || !Opens(m, i) then None
      else
        var prefix := Linear(m, 0, i, map[]);
        var default := TerminalSlice(m, i + 1, prefix.values);
        var cases := CaseBlocks(m, op.targets, prefix.values);
        if default.NoSlice? || cases.None? then None
        else
          Some(SwitchOn(prefix.block.stmts, ValueOf(m, prefix.values, op.src), op.keys,
                        PrintAll(cases.value, m.IsVoid()), Printed(default.block, m.IsVoid())))
  }

  function IfTerminalAt(m: Method, i: nat): Option<Body> {
    if |m.code| < 4 || m.IsInit() || !ForwardIf(m, i) || !Opens(m, i) then None
    else
      var prefix := Linear(m, 0, i, map[]);
      var fall := TerminalSlice(m, i + 1, prefix.values);
      var target := TerminalSlice(m, TargetOf(m, i), prefix.values);
      if fall.NoSlice? || fall.end > TargetOf(m, i) || target.NoSlice? then None
      else
        Some(IfThen(prefix.block.stmts, ConditionOf(m, m.code[i].op, prefix.values),
                    Printed(target.block, m.IsVoid()), Printed(fall.block, m.IsVoid())))
  }

  function ConditionalAssignmentAt(m: Method, i: nat): Option<Body> {
    if |m.code| < 6 || m.IsInit() || !ForwardIf(m, i) || !Opens(m, i) then None
    else
      var t := TargetOf(m, i);
      var j := ForwardGoto(m, i + 1, t, Some(m.code[i].op.to));
      if j == t then None
      else
        var join := IndexOf(m.code, m.code[j].op.to);
        if join.None? || join.value <= t then None
        else
          var prefix := Linear(m, 0, i, map[]);
          var fall := SingleAssignment(m, i + 1, j, prefix.values);
          var target := SingleAssignment(m, t, join.value, prefix.values);
          if fall.None? || target.None? || fall.value.0 != target.value.0 then None
          else
            var values := prefix.values[fall.value.0 :=
              Joined(ConditionOf(m, m.code[i].op, prefix.values), target.value.1, fall.value.1)];
            var tail := Linear(m, join.value, |m.code|, values);
            if !tail.ok || !tail.block.ends then None
            else Some(Straight(prefix.block.stmts + Closed(tail.block, m.IsVoid())))
  }

  /** What a register carries where two assignments of it meet. */
  function Joined(c: Cond, target: Carried, fall: Carried): Carried {
    Carried(Ternary(c, target.e, fall.e), if target.desc == "" then fall.desc else target.desc)
  }

  /** A block printed at the end of a body, where return-void needs no statement. */
  function Closed(block: Block, isVoid: bool): Stmts {
    if block.expr.Some? && !isVoid then block.stmts + [Return(block.expr.value)] else block.stmts
  }

  function IfGotoReturnAt(m: Method, i: nat): Option<Body> {
    if |m.code| < 5 || m.IsVoid() || m.IsInit() || !ForwardIf(m, i) || TargetOf(m, i) >= |m.code| - 1 || !Opens(m, i) then None
    else
      var t := TargetOf(m, i);
      var j := ForwardGoto(m, i + 1, t, None);
      if j == t then None
      else
        var join := IndexOf(m.code, m.code[j].op.to);
        if join.None? || join.value <= t || !m.code[join.value].op.ReturnReg? then None
        else
          var prefix := Linear(m, 0, i, map[]);
          var fall := Linear(m, i + 1, j, prefix.values);
          var target := Linear(m, t, join.value, prefix.values);
          var reg := m.code[join.value].op.src;
          if !fall.ok || fall.block.ends || !target.ok || target.block.ends then None
          else
            Some(IfThen(prefix.block.stmts, ConditionOf(m, m.code[i].op, prefix.values),
                        target.block.stmts + [Return(ValueOf(m, target.values, reg))],
                        fall.block.stmts + [Return(ValueOf(m, fall.values, reg))]))
  }

  /** Both sides of a branch to a returning tail, the fall-through side with the tail behind it. */
  datatype Sides = NoSides | Sides(prefix: Evaluated, target: Evaluated, fall: Evaluated, fallTail: Evaluated)

  function ReturningSides(m: Method, i: nat): Sides
    requires ForwardIf(m, i)
  {
    var t := TargetOf(m, i);
    var prefix := Linear(m, 0, i, map[]);
    var target := Linear(m, t, |m.code|, prefix.values);
    var fall := Linear(m, i + 1, t, prefix.values);
    var fallTail := Linear(m, t, |m.code|, fall.values);
    if && Opens(m, i)
       && target.ok && target.block.ends && target.block.expr.Some?
       && fall.ok && !fall.block.ends
       && fallTail.ok && fallTail.block.ends && fallTail.block.expr.Some?
    then Sides(prefix, target, fall, fallTail)
    else NoSides
  }

  function SidesBody(m: Method, i: nat, s: Sides): Body
    requires ForwardIf(m, i)
    requires s.Sides? && s.target.block.expr.Some? && s.fallTail.block.expr.Some?
  {
    IfThen(s.prefix.block.stmts, ConditionOf(m, m.code[i].op, s.prefix.values),
           s.target.block.stmts + [Return(s.target.block.expr.value)],
           s.fall.block.stmts + (s.fallTail.block.stmts + [Return(s.fallTail.block.expr.value)]))
  }

  function IfInitReturnAt(m: Method, i: nat): Option<Body> {
    if |m.code| < 5 || m.IsVoid() || m.IsInit() || !ForwardIf(m, i) || ReturningSides(m, i).NoSides? then None
    else Some(SidesBody(m, i, ReturningSides(m, i)))
  }

  function FallThroughReturnAt(m: Method, i: nat): Option<Body> {
    if |m.code| < 3 || m.IsVoid() || m.IsInit() || !ForwardIf(m, i) || ReturningSides(m, i).NoSides? then None
    else
      var s := ReturningSides(m, i);
      if s.target.block.stmts == [] && s.fall.block.stmts == [] && s.fallTail.block.stmts == [] then
        var c := ConditionOf(m, m.code[i].op, s.prefix.values);
        Some(Straight(s.prefix.block.stmts + [Return(Ternary(c, s.target.block.expr.value, s.fallTail.block.expr.value))]))
      else Some(SidesBody(m, i, s))
  }

  function VoidGuardAt(m: Method, i: nat): Option<Body> {
    if |m.code| < 3 || !m.IsVoid() || m.IsInit() || !ForwardIf(m, i) || !Opens(m, i) then None
    else
      var t := TargetOf(m, i);
      var prefix := Linear(m, 0, i, map[]);
      var fall := Linear(m, i + 1, t, prefix.values);
      if !m.code[t].op.ReturnVoid? || t != |m.code| - 1 || !fall.ok || fall.block.ends then None
      else
        Some(IfThen(prefix.block.stmts, ConditionOf(m, m.code[i].op, prefix.values), [ReturnNothing], fall.block.stmts))
  }

  function VoidIfGotoAt(m: Method, i: nat): Option<Body> {
    if |m.code| < 5 || !m.IsVoid() || m.IsInit() || !ForwardIf(m, i) || TargetOf(m, i) >= |m.code| - 1 || !Opens(m, i) then None
    else
      var t := TargetOf(m, i);
      var j := ForwardGoto(m, i + 1, t, None);
      if j == t then None
      else
        var join := IndexOf(m.code, m.code[j].op.to);
        if join.None? || join.value <= t || !m.code[join.value].op.ReturnVoid? then None
        else
          var prefix := Linear(m, 0, i, map[]);
          var fall := Linear(m, i + 1, j, prefix.values);
          var target := Linear(m, t, join.value, prefix.values);
          if !fall.ok || fall.block.ends || !target.ok || target.block.ends then None
          else
            Some(IfThen(prefix.block.stmts, ConditionOf(m, m.code[i].op, prefix.values),
                        target.block.stmts + [ReturnNothing], fall.block.stmts))
  }

  function AssignedReturnAt(m: Method, i: nat): Option<Body> {
    if |m.code| < 4 || m.IsVoid() || m.IsInit() || !ForwardIf(m, i) || !Opens(m, i) then None
    else
      var t := TargetOf(m, i);
      if !m.code[t].op.ReturnReg? then None
      else
        var prefix := Linear(m, 0, i, map[]);
        var fall := Linear(m, i + 1, t, prefix.values);
        var targetExpr := ValueOf(m, prefix.values, m.code[t].op.src);
        var fallExpr := ValueOf(m, fall.values, m.code[t].op.src);
        if !fall.ok || fall.block.ends || (targetExpr == fallExpr && fall.block.stmts == []) then None
        else
          Some(IfThen(prefix.block.stmts, ConditionOf(m, m.code[i].op, prefix.values),
                      [Return(targetExpr)], fall.block.stmts + [Return(fallExpr)]))
  }

  function PlainIfReturnAt(m: Method, i: nat): Option<Body> {
    if m.IsVoid() || m.IsInit() || !ForwardIf(m, i) || !Opens(m, i) then None
    else
      var t := TargetOf(m, i);
      var prefix := Linear(m, 0, i, map[]);
      var fall := Linear(m, i + 1, t, prefix.values);
      var target := Linear(m, t, |m.code|, prefix.values);
      if !fall.ok || !fall.block.ends || !target.ok || !target.block.ends then None
      else
        Some(IfThen(prefix.block.stmts, ConditionOf(m, m.code[i].op, prefix.values),
                    target.block.stmts + [ReturnOf(target.block.expr)], fall.block.stmts + [ReturnOf(fall.block.expr)]))
  }

  function ReturnOf(e: Option<Expr>): Stmt {
    if e.Some? then Return(e.value) else ReturnNothing
  }

  // ----- Guarded returns -----

  /** The first branch to the given offset at positions a up to b, or b. */
  function NextIfTo(m: Method, a: nat, b: nat, to: int): (g: nat)
    requires a <= b <= |m.code|
    ensures a <= g <= b
    ensures g < b ==> IsIf(m.code[g].op) && m.code[g].op.to == to
    decreases b - a
  {
    if a == b || (IsIf(m.code[a].op) && m.code[a].op.to == to) then a else NextIfTo(m, a + 1, b, to)
  }

  /** guards counts the branches passed; faithful says that each of them jumps to code that returns the printed default. */
  datatype GuardLines = NoLines | GuardLines(stmts: Stmts, guards: nat, faithful: bool)

  /** Positions cursor up to t: chunks and branches to t, and then a block that ends the method. */
  function BuildGuards(m: Method, cursor: nat, t: nat, values: Values, default: Option<Expr>): GuardLines
    requires cursor <= t < |m.code|
    decreases t - cursor
  {
    var g := NextIfTo(m, cursor, t, m.code[t].offset);
    if g == t then
      var body := Linear(m, cursor, t, values);
      if cursor == t || !body.ok || !body.block.ends then NoLines
      else GuardLines(body.block.stmts + (if body.block.expr.Some? then [Return(body.block.expr.value)] else []), 0, true)
    else
      var prefix := Linear(m, cursor, g, values);
      if !prefix.ok || prefix.block.ends then NoLines
      else
        match BuildGuards(m, g + 1, t, prefix.values, default)
        case NoLines => NoLines
        case GuardLines(rest, guards, faithful) =>
          GuardLines(prefix.block.stmts + ([ReturnIf(ConditionOf(m, m.code[g].op, prefix.values), default)] + rest), guards + 1,
                     faithful && Linear(m, t, |m.code|, prefix.values).block.expr == default)
  }

  function GuardedReturnLines(m: Method, i: nat): GuardLines {
    if |m.code| < 4 || m.IsVoid() || m.IsInit() then NoLines
    else if i >= |m.code| || !IsIf(m.code[i].op) || m.code[i].op.to <= m.code[i].offset then NoLines
    else
      var target := IndexOf(m.code, m.code[i].op.to);
      if target.None? || target.value == 0 then NoLines
      else
        var default := Linear(m, target.value, |m.code|, map[]);
        if !default.ok || !default.block.ends || default.block.stmts != [] then NoLines
        else
          var lines := BuildGuards(m, 0, target.value, map[], default.block.expr);
          if lines.GuardLines? && lines.guards == 0 then NoLines else lines
  }

  /** The default block is evaluated as if no register had been assigned yet. */
  function GuardedReturnAt(m: Method, i: nat): Option<Body> {
    match GuardedReturnLines(m, i)
    case NoLines => None
    case GuardLines(stmts, _, _) => Some(Straight(stmts))
  }

  // ----- Nested choices of one assignment -----

  /** What a nest of branches assigns; faithful says that no code on the way to the join was passed over. */
  datatype Choice = NoChoice | Choice(reg: nat, carried: Carried, faithful: bool)

  function Assigned(r: Option<(nat, Carried)>, faithful: bool): Choice {
    if r.None? then NoChoice else Choice(r.value.0, r.value.1, faithful)
  }

  function NextGoto(m: Method, a: nat, b: nat): (g: nat)
    requires a <= b <= |m.code|
    ensures a <= g <= b
    ensures g < b ==> m.code[g].op.Goto?
    decreases b - a
  {
    if a == b || m.code[a].op.Goto? then a else NextGoto(m, a + 1, b)
  }

  /**
   The assignment on the path from start. A goto that is not to the join either ends the path, if the code before
   it already assigns, or moves it, and then the code before it is passed over.
   */
  function AssignmentPath(m: Method, start: nat, end: nat, join: nat, values: Values, depth: nat): (c: Choice)
    requires end <= join < |m.code|
    decreases 5 - depth
  {
    if depth > 4 || start >= end then NoChoice
    else
      var g := NextGoto(m, start, end);
      if g == end then Assigned(SingleAssignment(m, start, end, values), end == join)
      else if m.code[g].op.to == m.code[join].offset then Assigned(SingleAssignment(m, start, g, values), true)
      else
        var target := IndexOf(m.code, m.code[g].op.to);
        if target.None? || target.value <= g || target.value >= join then NoChoice
        else
          var here := SingleAssignment(m, start, g, values);
          if here.Some? then Assigned(here, false)
          else
            match AssignmentPath(m, target.value, join, join, values, depth + 1)
            case NoChoice => NoChoice
            case Choice(reg, carried, faithful) => Choice(reg, carried, faithful && g == start)
  }

  /** The choice made by the branches from start to join. */
  function ParseChoice(m: Method, start: nat, join: nat, values: Values, depth: nat): (c: Choice)
    requires join < |m.code|
    decreases 5 - depth
  {
    if depth > 4 || start >= join then NoChoice
    else if IsIf(m.code[start].op) then
      var target := IndexOf(m.code, m.code[start].op.to);
      if target.None? || target.value <= start + 1 || target.value >= join then NoChoice
      else
        var inner := ParseChoice(m, start + 1, join, values, depth + 1);
        var fall := if inner.Choice? then inner else AssignmentPath(m, start + 1, target.value, join, values, 0);
        var other := ParseChoice(m, target.value, join, values, depth + 1);
        var taken := if other.Choice? then other else AssignmentPath(m, target.value, join, join, values, 0);
        if fall.NoChoice? || taken.NoChoice? || fall.reg != taken.reg then NoChoice
        else
          Choice(fall.reg, Joined(ConditionOf(m, m.code[start].op, values), taken.carried, fall.carried),
                 fall.faithful && taken.faithful)
    else AssignmentPath(m, start, join, join, values, 0)
  }

  /** A void tail with one branch to the final return, evaluated with whatever values a failed straight attempt left. */
  function VoidTail(m: Method, a: nat, values: Values): Option<Stmts>
    requires a <= |m.code|
  {
    var n := |m.code|;
    if n - a < 3 || !m.code[n - 1].op.ReturnVoid? then None
    else
      var g := NextIfTo(m, a, n - 1, m.code[n - 1].offset);
      if g == n - 1 then None
      else
        var prefix := Linear(m, a, g, values);
        var fall := Linear(m, g + 1, n - 1, prefix.values);
        if !prefix.ok || prefix.block.ends || !fall.ok || fall.block.ends then None
        else Some(prefix.block.stmts + [ReturnIf(ConditionOf(m, m.code[g].op, prefix.values), None)] + fall.block.stmts)
  }

  function MultiBranchJoin(m: Method, i: nat, join: nat): Option<Body>
    requires i < |m.code| && join < |m.code| && Opens(m, i)
  {
    var prefix := Linear(m, 0, i, map[]);
    var choice := ParseChoice(m, i, join, prefix.values, 0);
    if choice.NoChoice? then None
    else
      var values := prefix.values[choice.reg := choice.carried];
      var tail := Linear(m, join, |m.code|, values);
      if tail.ok && tail.block.ends then Some(Straight(prefix.block.stmts + Closed(tail.block, m.IsVoid())))
      else if !m.IsVoid() then None
      else
        var voidTail := VoidTail(m, join, tail.values);
        if voidTail.None? then None else Some(Straight(prefix.block.stmts + voidTail.value))
  }

  /** The joins that forward gotos from position p on lead to, beyond the branch target t: the first that is accepted. */
  function FirstJoin(m: Method, i: nat, p: nat, t: nat): (r: Option<(nat, Body)>)
    requires i < |m.code| && Opens(m, i)
    ensures r.Some? ==> r.value.0 < |m.code| && r.value.0 > t && MultiBranchJoin(m, i, r.value.0) == Some(r.value.1)
    decreases |m.code| - p
  {
    if p >= |m.code| then None
    else
      var join := if m.code[p].op.Goto? && m.code[p].op.to > m.code[p].offset then IndexOf(m.code, m.code[p].op.to) else None;
      if join.Some? && join.value > t && MultiBranchJoin(m, i, join.value).Some? then
        Some((join.value, MultiBranchJoin(m, i, join.value).value))
      else FirstJoin(m, i, p + 1, t)
  }

  function MultiBranchAt(m: Method, i: nat): Option<Body> {
    if |m.code| < 6 || m.IsInit() || !ForwardIf(m, i) || !Opens(m, i) then None
    else
      var r := FirstJoin(m, i, i + 1, TargetOf(m, i));
      if r.None? then None else Some(r.value.1)
  }

  // ----- All shapes, and the order in which they are tried -----

  function MatchAt(shape: Shape, m: Method, i: nat): Option<Body> {
    match shape
    case SwitchCases => SwitchAt(m, i)
    case IfTerminal => IfTerminalAt(m, i)
    case MultiBranch => MultiBranchAt(m, i)
    case ConditionalAssignment => ConditionalAssignmentAt(m, i)
    case IfGotoReturn => IfGotoReturnAt(m, i)
    case IfInitReturn => IfInitReturnAt(m, i)
    case VoidGuard => VoidGuardAt(m, i)
    case VoidIfGoto => VoidIfGotoAt(m, i)
    case AssignedReturn => AssignedReturnAt(m, i)
    case FallThroughReturn => FallThroughReturnAt(m, i)
    case GuardedReturn => GuardedReturnAt(m, i)
    case PlainIfReturn => PlainIfReturnAt(m, i)
  }

  /** A method without branches. */
  function LinearBody(m: Method): Option<Body> {
    var r := Linear(m, 0, |m.code|, map[]);
    if r.ok && r.block.ends then
      Some(Straight(if r.block.expr.Some? then r.block.stmts + [Return(r.block.expr.value)] else r.block.stmts))
    else None
  }

  const ALL_SHAPES: seq<Shape> := [
    SwitchCases, IfTerminal, MultiBranch, ConditionalAssignment, IfGotoReturn, IfInitReturn, VoidGuard,
    VoidIfGoto, AssignedReturn, FallThroughReturn, GuardedReturn, PlainIfReturn]

  /** The first position from i on at which the shape matches. */
  function FirstMatch(shape: Shape, m: Method, i: nat): (r: Option<(nat, Body)>)
    ensures r.Some? ==> MatchAt(shape, m, r.value.0) == Some(r.value.1)
    decreases |m.code| - i
  {
    if i >= |m.code| then None
    else if MatchAt(shape, m, i).Some? then Some((i, MatchAt(shape, m, i).value))
    else FirstMatch(shape, m, i + 1)
  }

  /** The body of the first of the shapes that matches anywhere, or the straight-line body. */
  function Recovered(m: Method, shapes: seq<Shape>): Option<Body> {
    if shapes == [] then LinearBody(m)
    else
      var r := FirstMatch(shapes[0], m, 0);
      if r.Some? then Some(r.value.1) else Recovered(m, shapes[1..])
  }

  /** A tryWrite function: the scan for a position at which the shape matches. */
  method TryWrite(shape: Shape, m: Method) returns (body: Option<Body>)
    ensures body.Some? <==> FirstMatch(shape, m, 0).Some?
    ensures body.Some? ==> body.value == FirstMatch(shape, m, 0).value.1
  {
    for i := 0 to |m.code|
      invariant FirstMatch(shape, m, 0) == FirstMatch(shape, m, i)
    {
      body := MatchAt(shape, m, i);
      if body.Some? {
        return;
      }
    }
    body := None;
  }

  /** tryWriteSimpleJavaBody: every shape in turn, then the straight-line form. */
  method WriteBody(m: Method) returns (body: Option<Body>)
    ensures body == Recovered(m, ALL_SHAPES)
  {
    for k := 0 to |ALL_SHAPES|
      invariant Recovered(m, ALL_SHAPES) == Recovered(m, ALL_SHAPES[k..])
    {
      body := TryWrite(ALL_SHAPES[k], m);
      if body.Some? {
        return;
      }
    }
    body := LinearBody(m);
  }
}
