/**
 * The operand resolver (OperatorBuilder.cs): the fragments of one
 * expression are collected in order, the first operator among them becomes
 * the anchor, and every other fragment goes to the anchor's left, right or
 * third operand. A second, different operator on the right hands the
 * expression built so far, followed by the rest, to a fresh builder.
 */
module OperatorBuilders {

  import opened Wrappers
  import opened Faults
  import opened Expressions
  import opened OperatorTypes
  import O = Operators

  // ---- fragment lists ----

  /** The number of operator fragments. */
  function OperatorCount(frags: seq<Fragment>): nat
    decreases |frags|
  {
    if frags == [] then 0 else (if frags[0].OpFrag? then 1 else 0) + OperatorCount(frags[1..])
  }

  /** `OfType<Operator>().FirstOrDefault()`. */
  function FirstOperator(frags: seq<Fragment>): (r: Option<O.Operator>)
    decreases |frags|
  {
    if frags == [] then None
    else if frags[0].OpFrag? then Some(frags[0].op)
    else FirstOperator(frags[1..])
  }

  /** The value of the first unparsed token, if there is one. */
  function FirstUnparsed(frags: seq<Fragment>): (r: Option<string>)
    decreases |frags|
  {
    if frags == [] then None
    else if frags[0].Unparsed? then Some(frags[0].token.value)
    else FirstUnparsed(frags[1..])
  }

  lemma {:induction false} FirstOperatorMeans(frags: seq<Fragment>)
    ensures FirstOperator(frags).None? <==> forall i :: 0 <= i < |frags| ==> !frags[i].OpFrag?
    ensures FirstOperator(frags).Some? ==>
      exists k :: 0 <= k < |frags| && frags[k] == OpFrag(FirstOperator(frags).value) &&
        forall i :: 0 <= i < k ==> !frags[i].OpFrag?
    decreases |frags|
  {
    if frags != [] {
      FirstOperatorMeans(frags[1..]);
      assert forall i :: 0 < i < |frags| ==> frags[i] == frags[1..][i - 1];
      if !frags[0].OpFrag? && FirstOperator(frags).Some? {
        var k :| 0 <= k < |frags[1..]| && frags[1..][k] == OpFrag(FirstOperator(frags).value) &&
          forall i :: 0 <= i < k ==> !frags[1..][i].OpFrag?;
        assert frags[k + 1] == OpFrag(FirstOperator(frags).value);
      }
    }
  }

  lemma {:induction false} FirstUnparsedMeans(frags: seq<Fragment>)
    ensures FirstUnparsed(frags).None? <==> forall i :: 0 <= i < |frags| ==> !frags[i].Unparsed?
    decreases |frags|
  {
    if frags != [] {
      FirstUnparsedMeans(frags[1..]);
      assert forall i :: 0 < i < |frags| ==> frags[i] == frags[1..][i - 1];
    }
  }

  lemma {:induction false} OperatorCountAppend(a: seq<Fragment>, b: seq<Fragment>)
    ensures OperatorCount(a + b) == OperatorCount(a) + OperatorCount(b)
    decreases |a|
  {
    if a != [] {
      assert (a + b)[1..] == a[1..] + b;
      OperatorCountAppend(a[1..], b);
    } else {
      assert a + b == b;
    }
  }

  /** A different operator after the anchor has the anchor before it. */
  lemma {:induction false} AnchorPrecedes(frags: seq<Fragment>, op: O.Operator, index: nat)
    requires FirstOperator(frags) == Some(op)
    requires index < |frags| && frags[index].OpFrag? && frags[index].op != op
    ensures OperatorCount(frags[..index]) > 0
    decreases index
  {
    var before := frags[..index];
    if frags[0].OpFrag? {
      assert index > 0 && before[0] == frags[0];
      assert OperatorCount(before) == 1 + OperatorCount(before[1..]);
    } else {
      assert index > 0;
      var rest := frags[1..];
      assert FirstOperator(frags) == FirstOperator(rest);
      assert rest[index - 1] == frags[index];
      AnchorPrecedes(rest, op, index - 1);
      assert before[1..] == rest[..index - 1];
      assert OperatorCount(before) == OperatorCount(before[1..]);
    }
  }

  lemma {:induction false} OperatorCountSplit(frags: seq<Fragment>, index: nat)
    requires index <= |frags|
    ensures OperatorCount(frags) == OperatorCount(frags[..index]) + OperatorCount(frags[index..])
  {
    var before, after := frags[..index], frags[index..];
    assert frags == before + after;
    OperatorCountAppend(before, after);
  }

  lemma {:induction false} OperatorCountExprHead(b: seq<Fragment>, e: Expr)
    ensures OperatorCount([ExprFrag(e)] + b) == OperatorCount(b)
  {
    var head := [ExprFrag(e)];
    OperatorCountAppend(head, b);
    assert head[1..] == [];
  }

  /** Re-entry keeps strictly fewer operator fragments, so the recursion ends. */
  lemma {:induction false} ReentryReducesOperators(frags: seq<Fragment>, op: O.Operator, index: nat, e: Expr)
    requires FirstOperator(frags) == Some(op)
    requires index < |frags| && frags[index].OpFrag? && frags[index].op != op
    ensures OperatorCount([ExprFrag(e)] + frags[index..]) < OperatorCount(frags)
  {
    AnchorPrecedes(frags, op, index);
    OperatorCountSplit(frags, index);
    OperatorCountExprHead(frags[index..], e);
  }

  // ---- the specification of ToExpression ----

  /** `Parse`: an unparsed token is rejected, naming its value, the operator and the slot; anything else passes. */
  function Parse(f: Fragment, op: O.Operator, position: ArgumentPosition): (r: Result<Fragment, ParseError>)
    ensures r.Success? <==> !f.Unparsed?
    ensures r.Success? ==> r.value == f
    ensures r.Failure? ==> r.error == UnresolvedOperand(f.token.value, op.filter, position)
  {
    if f.Unparsed? then Failure(UnresolvedOperand(f.token.value, op.filter, position)) else Success(f)
  }

  /** An empty slot is a null operand, any other one expression over its fragments. */
  function Slot(xs: seq<Fragment>): (r: Option<Expr>)
    ensures r.None? <==> xs == []
    ensures r.Some? ==> r.value == Fragments(xs)
  {
    if xs == [] then None else Some(Fragments(xs))
  }

  /** `OperatorExpression`: the anchor's expression over the three slots. */
  function OperatorExpression(left: seq<Fragment>, right: seq<Fragment>, right1: seq<Fragment>, op: O.Operator): (e: Expr)
    ensures e.OpExpr? && e.op == op
    ensures e.lhs == Slot(left) && e.rhs == Slot(right) && e.rhs1 == Slot(right1)
  {
    OpExpr(op, Slot(left), Slot(right), Slot(right1))
  }

  /** The slot a fragment goes to on a function anchor after `commas` commas. */
  function Position(commas: nat): ArgumentPosition {
    if commas == 0 then Left else if commas == 1 then Right else Right1
  }

  /** What `ToExpression` returns for the fragments, or the parse error it raises. */
  function BuildExpr(frags: seq<Fragment>): Result<Expr, ParseError>
    decreases OperatorCount(frags), 1
  {
    match FirstOperator(frags)
    case None => Failure(MissingOperation)
    case Some(op) => Assign(frags, op, 0, op.operatorType != Function, 0, [], [], [])
  }

  /** The loop of `ToExpression` from position `index` on, with its flag, comma count and slots. */
  function Assign(frags: seq<Fragment>, op: O.Operator, index: nat, leftOf: bool, commas: nat,
                  left: seq<Fragment>, right: seq<Fragment>, right1: seq<Fragment>): Result<Expr, ParseError>
    requires FirstOperator(frags) == Some(op) && index <= |frags|
    decreases OperatorCount(frags), 0, |frags| - index
  {
    if index == |frags| then Success(OperatorExpression(left, right, right1, op))
    else
      var f := frags[index];
      if f == OpFrag(op) then Assign(frags, op, index + 1, false, commas, left, right, right1)
      else if leftOf then
        match Parse(f, op, Left)
        case Failure(e) => Failure(e)
        case Success(g) => Assign(frags, op, index + 1, leftOf, commas, left + [g], right, right1)
      else if f.CommaFrag? then Assign(frags, op, index + 1, leftOf, commas + 1, left, right, right1)
      else if f.OpFrag? then
        var e := OperatorExpression(left, right, right1, op);
        ReentryReducesOperators(frags, op, index, e);
        BuildExpr([ExprFrag(e)] + frags[index..])
      else if op.operatorType == Function then
        match Parse(f, op, Position(commas))
        case Failure(e) => Failure(e)
        case Success(g) =>
          if commas == 0 then Assign(frags, op, index + 1, leftOf, commas, left + [g], right, right1)
          else if commas == 1 then Assign(frags, op, index + 1, leftOf, commas, left, right + [g], right1)
          else Assign(frags, op, index + 1, leftOf, commas, left, right, right1 + [g])
      else
        match Parse(f, op, Right)
        case Failure(e) => Failure(e)
        case Success(g) => Assign(frags, op, index + 1, leftOf, commas, left, right + [g], right1)
  }

  // ---- the builder ----

  /** `OperatorBuilder`: the fragments added so far, in order. */
  class OperatorBuilder {

    var fragments: seq<Fragment>

    constructor ()
      ensures fragments == []
    {
      fragments := [];
    }

    /** `Add`: one more fragment at the end. */
    method Add(f: Fragment)
      modifies this
      ensures fragments == old(fragments) + [f]
    {
      fragments := fragments + [f];
    }

    /** `ToExpression`: the loop over the fragments, re-entering a fresh builder on a second operator. */
    method ToExpression() returns (r: Result<Expr, ParseError>)
      ensures r == BuildExpr(fragments)
      decreases OperatorCount(fragments)
    {
      var frags := fragments;
      var anchor := FirstOperator(frags);
      if anchor.None? {
        return Failure(MissingOperation);
      }
      var op := anchor.value;
      var left, right, right1 := [], [], [];
      var commaCount := 0;
      var leftOfOperator := op.operatorType != Function;
      var index := 0;
      while index < |frags|
        invariant index <= |frags|
        invariant Assign(frags, op, index, leftOfOperator, commaCount, left, right, right1) == BuildExpr(frags)
        decreases |frags| - index
      {
        var f := frags[index];
        if f == OpFrag(op) {
          leftOfOperator := false;
        } else if leftOfOperator {
          var parsed := Parse(f, op, Left);
          if parsed.Failure? {
            return Failure(parsed.error);
          }
          left := left + [parsed.value];
        } else if f.CommaFrag? {
          commaCount := commaCount + 1;
        } else if f.OpFrag? {
          var functionExpression := OperatorExpression(left, right, right1, op);
          var remaining := frags[index..];
          var builder := new OperatorBuilder();
          builder.Add(ExprFrag(functionExpression));
          for k := 0 to |remaining|
            invariant builder.fragments == [ExprFrag(functionExpression)] + remaining[..k]
          {
            builder.Add(remaining[k]);
            assert remaining[..k + 1] == remaining[..k] + [remaining[k]];
          }
          assert remaining[..|remaining|] == remaining;
          ReentryReducesOperators(frags, op, index, functionExpression);
          r := builder.ToExpression();
          return;
        } else if op.operatorType == Function {
          var parsed := Parse(f, op, Position(commaCount));
          if parsed.Failure? {
            return Failure(parsed.error);
          }
          if commaCount == 0 {
            left := left + [parsed.value];
          } else if commaCount == 1 {
            right := right + [parsed.value];
          } else {
            right1 := right1 + [parsed.value];
          }
        } else {
          var parsed := Parse(f, op, Right);
          if parsed.Failure? {
            return Failure(parsed.error);
          }
          right := right + [parsed.value];
        }
        index := index + 1;
      }
      r := Success(OperatorExpression(left, right, right1, op));
    }
  }
}

/**
 * What `ToExpression` promises: when it fails and why, and where each
 * fragment goes for an infix and for a function anchor, with and without
 * re-entry.
 */
module OperatorBuilderProperties {

  import opened Wrappers
  import opened Faults
  import opened Expressions
  import opened OperatorTypes
  import opened OperatorBuilders
  import O = Operators

  // ---- failure ----

  lemma {:induction false} FirstUnparsedStep(frags: seq<Fragment>, index: nat)
    requires index < |frags|
    ensures FirstUnparsed(frags[index..])
         == if frags[index].Unparsed? then Some(frags[index].token.value) else FirstUnparsed(frags[index + 1..])
  {
    assert frags[index..][1..] == frags[index + 1..];
  }

  lemma {:induction false} ReentryFragments(frags: seq<Fragment>, index: nat, e: Expr)
    requires index < |frags| && frags[index].OpFrag?
    ensures FirstOperator([ExprFrag(e)] + frags[index..]) == Some(frags[index].op)
    ensures FirstUnparsed([ExprFrag(e)] + frags[index..]) == FirstUnparsed(frags[index..])
  {
    var q := [ExprFrag(e)] + frags[index..];
    assert q[1..] == frags[index..];
  }

  /** From any point of the loop, it fails exactly at the first unparsed fragment left, naming its token. */
  lemma {:induction false} AssignOutcome(frags: seq<Fragment>, op: O.Operator, index: nat, leftOf: bool, commas: nat,
                                         left: seq<Fragment>, right: seq<Fragment>, right1: seq<Fragment>)
    requires FirstOperator(frags) == Some(op) && index <= |frags|
    ensures Assign(frags, op, index, leftOf, commas, left, right, right1).Success? <==> FirstUnparsed(frags[index..]).None?
    ensures Assign(frags, op, index, leftOf, commas, left, right, right1).Failure? ==>
      Assign(frags, op, index, leftOf, commas, left, right, right1).error.UnresolvedOperand? &&
      FirstUnparsed(frags[index..]) == Some(Assign(frags, op, index, leftOf, commas, left, right, right1).error.value)
    decreases OperatorCount(frags), 0, |frags| - index
  {
    if index < |frags| {
      var f := frags[index];
      FirstUnparsedStep(frags, index);
      if f == OpFrag(op) {
        AssignOutcome(frags, op, index + 1, false, commas, left, right, right1);
      } else if leftOf {
        if !f.Unparsed? {
          AssignOutcome(frags, op, index + 1, leftOf, commas, left + [f], right, right1);
        }
      } else if f.CommaFrag? {
        AssignOutcome(frags, op, index + 1, leftOf, commas + 1, left, right, right1);
      } else if f.OpFrag? {
        var e := OperatorExpression(left, right, right1, op);
        ReentryReducesOperators(frags, op, index, e);
        ReentryFragments(frags, index, e);
        BuildExprOutcome([ExprFrag(e)] + frags[index..]);
      } else if !f.Unparsed? {
        if op.operatorType == Function && commas == 0 {
          AssignOutcome(frags, op, index + 1, leftOf, commas, left + [f], right, right1);
        } else if op.operatorType == Function && commas == 1 {
          AssignOutcome(frags, op, index + 1, leftOf, commas, left, right + [f], right1);
        } else if op.operatorType == Function {
          AssignOutcome(frags, op, index + 1, leftOf, commas, left, right, right1 + [f]);
        } else {
          AssignOutcome(frags, op, index + 1, leftOf, commas, left, right + [f], right1);
        }
      }
    } else {
      assert frags[index..] == [];
    }
  }

  /**
   * "Missing operation" exactly when there is no operator; otherwise success
   * exactly when no fragment is unparsed, and on failure the error names the
   * first unparsed token.
   */
  lemma {:induction false} BuildExprOutcome(frags: seq<Fragment>)
    ensures BuildExpr(frags) == Failure(MissingOperation) <==> FirstOperator(frags).None?
    ensures FirstOperator(frags).Some? ==> (BuildExpr(frags).Success? <==> FirstUnparsed(frags).None?)
    ensures FirstOperator(frags).Some? && BuildExpr(frags).Failure? ==>
      BuildExpr(frags).error.UnresolvedOperand? && FirstUnparsed(frags) == Some(BuildExpr(frags).error.value)
    decreases OperatorCount(frags), 1
  {
    if FirstOperator(frags).Some? {
      var op := FirstOperator(frags).value;
      AssignOutcome(frags, op, 0, op.operatorType != Function, 0, [], [], []);
      assert frags[0..] == frags;
    }
  }

  /** `ToExpression` succeeds exactly when some fragment is an operator and none is an unparsed token. */
  lemma {:induction false} BuildExprSucceeds(frags: seq<Fragment>)
    ensures BuildExpr(frags).Success? <==>
      (exists i :: 0 <= i < |frags| && frags[i].OpFrag?) && forall i :: 0 <= i < |frags| ==> !frags[i].Unparsed?
  {
    BuildExprOutcome(frags);
    FirstOperatorMeans(frags);
    FirstUnparsedMeans(frags);
  }

  // ---- slots ----

  /** The fragments an infix anchor keeps on its right: all but commas and the anchor itself, in order. */
  function Kept(s: seq<Fragment>, op: O.Operator): seq<Fragment>
    decreases |s|
  {
    if s == [] then []
    else (if s[0].CommaFrag? || s[0] == OpFrag(op) then [] else [s[0]]) + Kept(s[1..], op)
  }

  /** The number of commas. */
  function CommaCount(s: seq<Fragment>): nat
    decreases |s|
  {
    if s == [] then 0 else (if s[0].CommaFrag? then 1 else 0) + CommaCount(s[1..])
  }

  /**
   * The fragments a function anchor puts in slot `pos` when `commas` commas
   * came before `s`: those, other than commas and the anchor, preceded by 0,
   * 1, or 2 and more commas for `Left`, `Right` and `Right1`.
   */
  function InSlot(s: seq<Fragment>, op: O.Operator, commas: nat, pos: ArgumentPosition): seq<Fragment>
    decreases |s|
  {
    if s == [] then []
    else if s[0] == OpFrag(op) then InSlot(s[1..], op, commas, pos)
    else if s[0].CommaFrag? then InSlot(s[1..], op, commas + 1, pos)
    else (if Position(commas) == pos then [s[0]] else []) + InSlot(s[1..], op, commas, pos)
  }

  /** No slot holds a comma or the anchor, and every fragment of a slot comes from the list. */
  lemma {:induction false} SlotContents(s: seq<Fragment>, op: O.Operator, commas: nat, pos: ArgumentPosition)
    ensures forall x :: x in Kept(s, op) ==> x in s && !x.CommaFrag? && x != OpFrag(op)
    ensures forall x :: x in InSlot(s, op, commas, pos) ==> x in s && !x.CommaFrag? && x != OpFrag(op)
    decreases |s|
  {
    if s != [] {
      SlotContents(s[1..], op, commas, pos);
      SlotContents(s[1..], op, commas + 1, pos);
      assert forall x :: x in s[1..] ==> x in s;
    }
  }

  /** The three function slots share out exactly the fragments an infix anchor would keep. */
  lemma {:induction false} SlotsPartition(s: seq<Fragment>, op: O.Operator, commas: nat)
    ensures |InSlot(s, op, commas, Left)| + |InSlot(s, op, commas, Right)| + |InSlot(s, op, commas, Right1)| == |Kept(s, op)|
    decreases |s|
  {
    if s != [] {
      SlotsPartition(s[1..], op, commas);
      SlotsPartition(s[1..], op, commas + 1);
    }
  }

  lemma {:induction false} SliceStep(frags: seq<Fragment>, index: nat, j: nat)
    requires index < j <= |frags|
    ensures frags[index..j][0] == frags[index] && frags[index..j][1..] == frags[index + 1..j]
  {
  }

  /** No operator before position `k` and an operator at `k`: that one is the anchor. */
  lemma {:induction false} FirstOperatorAt(frags: seq<Fragment>, k: nat)
    requires k < |frags| && frags[k].OpFrag?
    requires forall i :: 0 <= i < k ==> !frags[i].OpFrag?
    ensures FirstOperator(frags) == Some(frags[k].op)
    decreases k
  {
    if k > 0 {
      FirstOperatorAt(frags[1..], k - 1);
    }
  }

  /** Left of an infix anchor every fragment is taken as it is, commas included. */
  lemma {:induction false} LeftRun(frags: seq<Fragment>, op: O.Operator, index: nat, k: nat, left: seq<Fragment>)
    requires FirstOperator(frags) == Some(op) && index <= k <= |frags|
    requires forall i :: index <= i < k ==> !frags[i].OpFrag? && !frags[i].Unparsed?
    ensures Assign(frags, op, index, true, 0, left, [], []) == Assign(frags, op, k, true, 0, left + frags[index..k], [], [])
    decreases k - index
  {
    if index < k {
      var f := frags[index];
      LeftRun(frags, op, index + 1, k, left + [f]);
      assert left + [f] + frags[index + 1..k] == left + frags[index..k];
    } else {
      assert left + frags[index..k] == left;
    }
  }

  /** Right of an infix anchor commas and the anchor are dropped and the rest is taken in order. */
  lemma {:induction false} RightRun(frags: seq<Fragment>, op: O.Operator, index: nat, j: nat, commas: nat,
                                    left: seq<Fragment>, right: seq<Fragment>)
    requires FirstOperator(frags) == Some(op) && op.operatorType != Function && index <= j <= |frags|
    requires forall i :: index <= i < j ==> !frags[i].Unparsed? && (frags[i].OpFrag? ==> frags[i].op == op)
    ensures Assign(frags, op, index, false, commas, left, right, [])
         == Assign(frags, op, j, false, commas + CommaCount(frags[index..j]), left, right + Kept(frags[index..j], op), [])
    decreases j - index
  {
    if index < j {
      var f := frags[index];
      SliceStep(frags, index, j);
      var c := if f.CommaFrag? then 1 else 0;
      var r := if f.CommaFrag? || f == OpFrag(op) then right else right + [f];
      RightRun(frags, op, index + 1, j, commas + c, left, r);
      assert r + Kept(frags[index + 1..j], op) == right + Kept(frags[index..j], op);
    } else {
      assert right + Kept(frags[index..j], op) == right;
    }
  }

  /** On a function anchor each fragment goes to the slot its comma count names; commas are only counted. */
  lemma {:induction false} FunctionRun(frags: seq<Fragment>, op: O.Operator, index: nat, j: nat, commas: nat,
                                       left: seq<Fragment>, right: seq<Fragment>, right1: seq<Fragment>)
    requires FirstOperator(frags) == Some(op) && op.operatorType == Function && index <= j <= |frags|
    requires forall i :: index <= i < j ==> !frags[i].Unparsed? && (frags[i].OpFrag? ==> frags[i].op == op)
    ensures Assign(frags, op, index, false, commas, left, right, right1)
         == Assign(frags, op, j, false, commas + CommaCount(frags[index..j]),
                   left + InSlot(frags[index..j], op, commas, Left),
                   right + InSlot(frags[index..j], op, commas, Right),
                   right1 + InSlot(frags[index..j], op, commas, Right1))
    decreases j - index
  {
    if index < j {
      var f := frags[index];
      var s := frags[index..j];
      SliceStep(frags, index, j);
      if f == OpFrag(op) {
        FunctionRun(frags, op, index + 1, j, commas, left, right, right1);
      } else if f.CommaFrag? {
        FunctionRun(frags, op, index + 1, j, commas + 1, left, right, right1);
      } else {
        FunctionOperandStep(frags, op, index, commas, left, right, right1);
        FunctionRun(frags, op, index + 1, j, commas, AddTo(left, f, commas, Left),
                    AddTo(right, f, commas, Right), AddTo(right1, f, commas, Right1));
        InSlotHead(s, op, commas, Left, left);
        InSlotHead(s, op, commas, Right, right);
        InSlotHead(s, op, commas, Right1, right1);
      }
    } else {
      assert frags[index..j] == [];
      assert left + [] == left && right + [] == right && right1 + [] == right1;
    }
  }

  /** The slot `pos` with `f` appended when the comma count names `pos`. */
  function AddTo(slot: seq<Fragment>, f: Fragment, commas: nat, pos: ArgumentPosition): seq<Fragment> {
    if Position(commas) == pos then slot + [f] else slot
  }

  /** On a function anchor an operand goes to the slot its comma count names. */
  lemma {:induction false} FunctionOperandStep(frags: seq<Fragment>, op: O.Operator, index: nat, commas: nat,
                                               left: seq<Fragment>, right: seq<Fragment>, right1: seq<Fragment>)
    requires FirstOperator(frags) == Some(op) && op.operatorType == Function && index < |frags|
    requires !frags[index].Unparsed? && !frags[index].OpFrag? && !frags[index].CommaFrag?
    ensures Assign(frags, op, index, false, commas, left, right, right1)
         == Assign(frags, op, index + 1, false, commas, AddTo(left, frags[index], commas, Left),
                   AddTo(right, frags[index], commas, Right), AddTo(right1, frags[index], commas, Right1))
  {
  }

  /** An operand at the head of `s` is the first fragment of its slot. */
  lemma {:induction false} InSlotHead(s: seq<Fragment>, op: O.Operator, commas: nat, pos: ArgumentPosition, slot: seq<Fragment>)
    requires s != [] && s[0] != OpFrag(op) && !s[0].CommaFrag?
    ensures AddTo(slot, s[0], commas, pos) + InSlot(s[1..], op, commas, pos) == slot + InSlot(s, op, commas, pos)
  {
  }

  /**
   * An infix anchor at `k` with no other operator: the fragments before it
   * are the left operand, the rest, without commas and repeats of the
   * anchor, the right one, and there is no third operand.
   */
  lemma {:induction false} InfixSlots(frags: seq<Fragment>, op: O.Operator, k: nat)
    requires op.operatorType != Function && k < |frags| && frags[k] == OpFrag(op)
    requires forall i :: 0 <= i < k ==> !frags[i].OpFrag?
    requires forall i :: 0 <= i < |frags| ==> !frags[i].Unparsed? && (frags[i].OpFrag? ==> frags[i].op == op)
    ensures BuildExpr(frags) == Success(OpExpr(op, Slot(frags[..k]), Slot(Kept(frags[k + 1..], op)), None))
  {
    FirstOperatorAt(frags, k);
    LeftRun(frags, op, 0, k, []);
    assert [] + frags[0..k] == frags[..k];
    RightRun(frags, op, k + 1, |frags|, 0, frags[..k], []);
    assert frags[k + 1..|frags|] == frags[k + 1..];
    assert [] + Kept(frags[k + 1..], op) == Kept(frags[k + 1..], op);
  }

  /**
   * A different operator at `j` right of an infix anchor at `k`: the
   * expression built so far, then the fragments from `j` on, go to a new
   * builder.
   */
  lemma {:induction false} InfixReentry(frags: seq<Fragment>, op: O.Operator, k: nat, j: nat)
    requires op.operatorType != Function && k < j < |frags| && frags[k] == OpFrag(op)
    requires forall i :: 0 <= i < k ==> !frags[i].OpFrag?
    requires forall i :: 0 <= i < j ==> !frags[i].Unparsed? && (frags[i].OpFrag? ==> frags[i].op == op)
    requires frags[j].OpFrag? && frags[j].op != op
    ensures BuildExpr(frags)
         == BuildExpr([ExprFrag(OpExpr(op, Slot(frags[..k]), Slot(Kept(frags[k + 1..j], op)), None))] + frags[j..])
  {
    FirstOperatorAt(frags, k);
    LeftRun(frags, op, 0, k, []);
    assert [] + frags[0..k] == frags[..k];
    RightRun(frags, op, k + 1, j, 0, frags[..k], []);
    var kept := Kept(frags[k + 1..j], op);
    assert [] + kept == kept;
    var e := OperatorExpression(frags[..k], kept, [], op);
    assert Assign(frags, op, j, false, CommaCount(frags[k + 1..j]), frags[..k], kept, [])
        == BuildExpr([ExprFrag(e)] + frags[j..]);
  }

  /**
   * A function anchor with no other operator: each fragment goes to the left,
   * right or third operand after 0, 1, or 2 and more commas.
   */
  lemma {:induction false} FunctionSlots(frags: seq<Fragment>, op: O.Operator)
    requires op.operatorType == Function && FirstOperator(frags) == Some(op)
    requires forall i :: 0 <= i < |frags| ==> !frags[i].Unparsed? && (frags[i].OpFrag? ==> frags[i].op == op)
    ensures BuildExpr(frags) == Success(OpExpr(op, Slot(InSlot(frags, op, 0, Left)),
                                               Slot(InSlot(frags, op, 0, Right)),
                                               Slot(InSlot(frags, op, 0, Right1))))
  {
    var l, r, r1 := InSlot(frags, op, 0, Left), InSlot(frags, op, 0, Right), InSlot(frags, op, 0, Right1);
    assert BuildExpr(frags) == Assign(frags, op, 0, false, 0, [], [], []);
    FunctionRun(frags, op, 0, |frags|, 0, [], [], []);
    assert frags[0..|frags|] == frags;
    assert [] + l == l && [] + r == r && [] + r1 == r1;
    assert Assign(frags, op, |frags|, false, CommaCount(frags), l, r, r1) == Success(OperatorExpression(l, r, r1, op));
  }

  /** A different operator at `j` after a function anchor: the function so far, then the rest, go to a new builder. */
  lemma {:induction false} FunctionReentry(frags: seq<Fragment>, op: O.Operator, j: nat)
    requires op.operatorType == Function && FirstOperator(frags) == Some(op) && j < |frags|
    requires forall i :: 0 <= i < j ==> !frags[i].Unparsed? && (frags[i].OpFrag? ==> frags[i].op == op)
    requires frags[j].OpFrag? && frags[j].op != op
    ensures BuildExpr(frags)
         == BuildExpr([ExprFrag(OpExpr(op, Slot(InSlot(frags[..j], op, 0, Left)),
                                           Slot(InSlot(frags[..j], op, 0, Right)),
                                           Slot(InSlot(frags[..j], op, 0, Right1))))] + frags[j..])
  {
    var before := frags[..j];
    var l, r, r1 := InSlot(before, op, 0, Left), InSlot(before, op, 0, Right), InSlot(before, op, 0, Right1);
    assert BuildExpr(frags) == Assign(frags, op, 0, false, 0, [], [], []);
    FunctionRun(frags, op, 0, j, 0, [], [], []);
    assert frags[0..j] == before;
    assert [] + l == l && [] + r == r && [] + r1 == r1;
    var e := OperatorExpression(l, r, r1, op);
    assert Assign(frags, op, j, false, CommaCount(before), l, r, r1) == BuildExpr([ExprFrag(e)] + frags[j..]);
  }

  // ---- parameters ----

  lemma {:induction false} OperatorExpressionOccurrences(left: seq<Fragment>, right: seq<Fragment>, right1: seq<Fragment>, op: O.Operator)
    ensures Occurrences(OperatorExpression(left, right, right1, op))
         == ArgsOccurrences(left) + ArgsOccurrences(right) + ArgsOccurrences(right1)
  {
    assert forall xs :: OperandOccurrences(Slot(xs)) == ArgsOccurrences(xs);
  }

  /** The slots are filled strictly in order: left, then right, then the second right. */
  predicate SlotsInOrder(op: O.Operator, leftOf: bool, commas: nat, right: seq<Fragment>, right1: seq<Fragment>) {
    (leftOf ==> right == [] && right1 == []) &&
    (op.operatorType != Function ==> right1 == []) &&
    (op.operatorType == Function && commas == 0 ==> right == []) &&
    (op.operatorType == Function && commas <= 1 ==> right1 == [])
  }

  /** The parameters of the slots and then of the fragments from `index` on. */
  function Pending(frags: seq<Fragment>, index: nat, left: seq<Fragment>, right: seq<Fragment>, right1: seq<Fragment>): seq<P.Parameter>
    requires index <= |frags|
  {
    ArgsOccurrences(left) + ArgsOccurrences(right) + ArgsOccurrences(right1) + ArgsOccurrences(frags[index..])
  }

  lemma {:induction false} PendingHead(frags: seq<Fragment>, index: nat)
    requires index < |frags|
    ensures ArgsOccurrences(frags[index..]) == FragmentOccurrences(frags[index]) + ArgsOccurrences(frags[index + 1..])
  {
    assert frags[index..][0] == frags[index] && frags[index..][1..] == frags[index + 1..];
  }

  /** Moving the fragment at `index` into the left slot, while the others are empty, keeps the pending parameters. */
  lemma {:induction false} PendingToLeft(frags: seq<Fragment>, index: nat, left: seq<Fragment>)
    requires index < |frags|
    ensures Pending(frags, index, left, [], []) == Pending(frags, index + 1, left + [frags[index]], [], [])
  {
    PendingHead(frags, index);
    AppendOne(left, frags[index]);
    var l, fo, rest := ArgsOccurrences(left), FragmentOccurrences(frags[index]), ArgsOccurrences(frags[index + 1..]);
    assert ArgsOccurrences([]) == [];
    assert l + [] + [] + (fo + rest) == (l + fo) + [] + [] + rest;
  }

  /** Moving it into the right slot, while the second right slot is empty. */
  lemma {:induction false} PendingToRight(frags: seq<Fragment>, index: nat, left: seq<Fragment>, right: seq<Fragment>)
    requires index < |frags|
    ensures Pending(frags, index, left, right, []) == Pending(frags, index + 1, left, right + [frags[index]], [])
  {
    PendingHead(frags, index);
    AppendOne(right, frags[index]);
    var l, r, fo, rest := ArgsOccurrences(left), ArgsOccurrences(right), FragmentOccurrences(frags[index]), ArgsOccurrences(frags[index + 1..]);
    assert ArgsOccurrences([]) == [];
    assert l + r + [] + (fo + rest) == l + (r + fo) + [] + rest;
  }

  /** Moving it into the second right slot. */
  lemma {:induction false} PendingToRight1(frags: seq<Fragment>, index: nat, left: seq<Fragment>, right: seq<Fragment>, right1: seq<Fragment>)
    requires index < |frags|
    ensures Pending(frags, index, left, right, right1) == Pending(frags, index + 1, left, right, right1 + [frags[index]])
  {
    PendingHead(frags, index);
    AppendOne(right1, frags[index]);
    var l, r, r1, fo, rest := ArgsOccurrences(left), ArgsOccurrences(right), ArgsOccurrences(right1), FragmentOccurrences(frags[index]), ArgsOccurrences(frags[index + 1..]);
    assert l + r + r1 + (fo + rest) == l + r + (r1 + fo) + rest;
  }

  /** Dropping a fragment without parameters. */
  lemma {:induction false} PendingDrop(frags: seq<Fragment>, index: nat, left: seq<Fragment>, right: seq<Fragment>, right1: seq<Fragment>)
    requires index < |frags| && FragmentOccurrences(frags[index]) == []
    ensures Pending(frags, index, left, right, right1) == Pending(frags, index + 1, left, right, right1)
  {
    PendingHead(frags, index);
    assert [] + ArgsOccurrences(frags[index + 1..]) == ArgsOccurrences(frags[index + 1..]);
  }

  lemma {:induction false} AppendOne(slot: seq<Fragment>, f: Fragment)
    ensures ArgsOccurrences(slot + [f]) == ArgsOccurrences(slot) + FragmentOccurrences(f)
  {
    ArgsOccurrencesAppend(slot, [f]);
    assert [f][1..] == [];
  }

  /**
   * From any point of the loop, a successful build holds the parameters of
   * the slots and then of the fragments left, in order: no parameter is
   * dropped, repeated or moved.
   */
  lemma {:induction false} AssignOccurrences(frags: seq<Fragment>, op: O.Operator, index: nat, leftOf: bool, commas: nat,
                                             left: seq<Fragment>, right: seq<Fragment>, right1: seq<Fragment>)
    requires FirstOperator(frags) == Some(op) && index <= |frags|
    requires SlotsInOrder(op, leftOf, commas, right, right1)
    ensures Assign(frags, op, index, leftOf, commas, left, right, right1).Success? ==>
      Assign(frags, op, index, leftOf, commas, left, right, right1).value.OpExpr? &&
      Occurrences(Assign(frags, op, index, leftOf, commas, left, right, right1).value)
      == Pending(frags, index, left, right, right1)
    decreases OperatorCount(frags), 0, |frags| - index
  {
    if index == |frags| {
      OperatorExpressionOccurrences(left, right, right1, op);
      assert frags[index..] == [];
    } else {
      var f := frags[index];
      if f == OpFrag(op) {
        PendingDrop(frags, index, left, right, right1);
        AssignOccurrences(frags, op, index + 1, false, commas, left, right, right1);
      } else if leftOf {
        if !f.Unparsed? {
          PendingToLeft(frags, index, left);
          AssignOccurrences(frags, op, index + 1, leftOf, commas, left + [f], right, right1);
        }
      } else if f.CommaFrag? {
        PendingDrop(frags, index, left, right, right1);
        AssignOccurrences(frags, op, index + 1, leftOf, commas + 1, left, right, right1);
      } else if f.OpFrag? {
        var e := OperatorExpression(left, right, right1, op);
        ReentryReducesOperators(frags, op, index, e);
        ReentryOccurrences(frags, index, left, right, right1, op);
        BuildExprOccurrences([ExprFrag(e)] + frags[index..]);
      } else if !f.Unparsed? {
        if op.operatorType == Function && commas == 0 {
          PendingToLeft(frags, index, left);
          AssignOccurrences(frags, op, index + 1, leftOf, commas, left + [f], right, right1);
        } else if op.operatorType == Function && commas == 1 {
          PendingToRight(frags, index, left, right);
          AssignOccurrences(frags, op, index + 1, leftOf, commas, left, right + [f], right1);
        } else if op.operatorType == Function {
          PendingToRight1(frags, index, left, right, right1);
          AssignOccurrences(frags, op, index + 1, leftOf, commas, left, right, right1 + [f]);
        } else {
          PendingToRight(frags, index, left, right);
          AssignOccurrences(frags, op, index + 1, leftOf, commas, left, right + [f], right1);
        }
      }
    }
  }

  lemma {:induction false} ReentryOccurrences(frags: seq<Fragment>, index: nat, left: seq<Fragment>, right: seq<Fragment>,
                                              right1: seq<Fragment>, op: O.Operator)
    requires index <= |frags|
    ensures ArgsOccurrences([ExprFrag(OperatorExpression(left, right, right1, op))] + frags[index..])
         == Pending(frags, index, left, right, right1)
  {
    var e := OperatorExpression(left, right, right1, op);
    OperatorExpressionOccurrences(left, right, right1, op);
    ArgsOccurrencesAppend([ExprFrag(e)], frags[index..]);
    assert [ExprFrag(e)][1..] == [];
  }

  /** A successful `ToExpression` is an operator expression holding exactly the parameters of its fragments, in order. */
  lemma {:induction false} BuildExprOccurrences(frags: seq<Fragment>)
    ensures BuildExpr(frags).Success? ==>
      BuildExpr(frags).value.OpExpr? && Occurrences(BuildExpr(frags).value) == ArgsOccurrences(frags)
    decreases OperatorCount(frags), 1
  {
    if FirstOperator(frags).Some? {
      var op := FirstOperator(frags).value;
      AssignOccurrences(frags, op, 0, op.operatorType != Function, 0, [], [], []);
      assert frags[0..] == frags;
    }
  }
}
