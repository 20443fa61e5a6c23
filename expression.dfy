/**
 * Expressions and the fragments they are built from (Expression.cs):
 * operator expressions filled in from a template, parenthesised groups and
 * plain concatenations of fragments, their rendering by dialect and the
 * parameters they hold.
 */
module Expressions {

  import opened Wrappers
  import opened Strings
  import opened Rendering
  import opened Tokens
  import opened Identifiers
  import P = Parameters
  import O = Operators
  import opened Templates

  /** The text a comma fragment renders as. */
  const CommaText: string := ","

  /** What the compiler puts between an operator's operands: `ISqlFragment`. */
  datatype Fragment =
    | OpFrag(op: O.Operator)
    | CommaFrag
    | ParamFrag(param: P.Parameter)
    | IdentFrag(id: Identifier)
    | Unparsed(token: Token)
    | ExprFrag(expr: Expr)

  /**
   * `OperatorExpression` (an operand that is `None` is C# null),
   * `GroupExpression` and `SqlFragmentExpression`.
   */
  datatype Expr =
    | OpExpr(op: O.Operator, lhs: Option<Expr>, rhs: Option<Expr>, rhs1: Option<Expr>)
    | Group(inner: Expr)
    | Fragments(args: seq<Fragment>)

  /** The fragments that implement `IToSqlAndFilter`: operators, parameters and expressions. */
  predicate Renders(f: Fragment) {
    f.OpFrag? || f.ParamFrag? || f.ExprFrag?
  }

  /** What `Convert` hands back: a rendered text, or the object itself. */
  datatype Converted = Text(text: string) | Unchanged(fragment: Fragment)

  /** `Convert`: renders an `IToSqlAndFilter` for the dialect and returns every other object unchanged. */
  function Convert(f: Fragment, syntax: Syntax): (c: Converted)
    ensures c.Text? <==> Renders(f)
    ensures c.Unchanged? ==> c.fragment == f
    ensures f.OpFrag? ==> c == Text(O.ToString(f.op, syntax))
    ensures f.ParamFrag? ==> c == Text(P.ToString(f.param, syntax))
    decreases f, 1
  {
    match f
    case OpFrag(op) => Text(O.ToString(op, syntax))
    case ParamFrag(p) => Text(P.ToString(p, syntax))
    case ExprFrag(e) => Text(Render(e, syntax))
    case _ => Unchanged(f)
  }

  /** `ToString()` of the objects `Convert` leaves alone. */
  function PlainText(f: Fragment): string
    requires !Renders(f)
  {
    match f
    case IdentFrag(id) => id.ToString()
    case Unparsed(t) => "unparsed:" + t.value
    case CommaFrag => CommaText
  }

  /** One argument of a `SqlFragmentExpression` as `string.Join` sees it. */
  function ArgText(f: Fragment, syntax: Syntax): string
    decreases f, 2
  {
    match Convert(f, syntax)
    case Text(s) => s
    case Unchanged(g) => PlainText(g)
  }

  /** The arguments joined with no separator, in order. */
  function ArgsText(args: seq<Fragment>, syntax: Syntax): string
    decreases args
  {
    if args == [] then "" else ArgText(args[0], syntax) + ArgsText(args[1..], syntax)
  }

  /** A rendered operand; a null operand renders as empty text. */
  function OperandText(o: Option<Expr>, syntax: Syntax): string
    decreases o
  {
    match o
    case None => ""
    case Some(e) => Render(e, syntax)
  }

  /** The four replacements `OperatorExpression.ToString` applies to the template, in order. */
  function Fill(template: string, op: string, lhs: string, rhs: string, rhs1: string): string {
    ReplaceAll(ReplaceAll(ReplaceAll(ReplaceAll(template, "{op}", op), "{lhs}", lhs), "{rhs}", rhs), "{rhs1}", rhs1)
  }

  /** `ToString(syntax)` of the three expression kinds. */
  function Render(e: Expr, syntax: Syntax): string
    decreases e, 0
  {
    match e
    case OpExpr(op, lhs, rhs, rhs1) =>
      Fill(O.GetTemplate(op, rhs1.Some?).ToString(syntax), O.ToString(op, syntax),
           OperandText(lhs, syntax), OperandText(rhs, syntax), OperandText(rhs1, syntax))
    case Group(inner) => "(" + Render(inner, syntax) + ")"
    case Fragments(args) => ArgsText(args, syntax)
  }

  // ---- parameters ----

  predicate NoDuplicates<T(==)>(s: seq<T>) {
    forall i, j :: 0 <= i < j < |s| ==> s[i] != s[j]
  }

  /** `Union`'s de-duplication: each element once, at its first occurrence. */
  function Distinct(s: seq<P.Parameter>): (r: seq<P.Parameter>)
    ensures NoDuplicates(r)
    ensures forall x :: x in r <==> x in s
    ensures |r| <= |s|
  {
    if s == [] then []
    else
      var rest := Distinct(s[..|s| - 1]);
      if s[|s| - 1] in rest then rest else rest + [s[|s| - 1]]
  }

  /** `GetParameters()` of each kind of expression. */
  function Parameters(e: Expr): seq<P.Parameter>
    decreases e, 0
  {
    match e
    case OpExpr(_, lhs, rhs, rhs1) =>
      Distinct(OperandParameters(lhs) + OperandParameters(rhs) + OperandParameters(rhs1))
    case Group(inner) => Parameters(inner)
    case Fragments(args) => Distinct(NestedParameters(args) + DirectParameters(args))
  }

  function OperandParameters(o: Option<Expr>): seq<P.Parameter>
    decreases o
  {
    match o
    case None => []
    case Some(e) => Parameters(e)
  }

  /** The parameters of the arguments that are expressions, in argument order. */
  function NestedParameters(args: seq<Fragment>): seq<P.Parameter>
    decreases args
  {
    if args == [] then []
    else FragmentParameters(args[0]) + NestedParameters(args[1..])
  }

  function FragmentParameters(f: Fragment): seq<P.Parameter>
    decreases f
  {
    if f.ExprFrag? then Parameters(f.expr) else []
  }

  /** The arguments that are parameters, in order. */
  function DirectParameters(args: seq<Fragment>): (r: seq<P.Parameter>)
    ensures forall p :: p in r <==> ParamFrag(p) in args
  {
    if args == [] then []
    else (if args[0].ParamFrag? then [args[0].param] else []) + DirectParameters(args[1..])
  }

  /** Every parameter occurrence in an expression, without de-duplication: the reference for `Parameters`. */
  function Occurrences(e: Expr): seq<P.Parameter>
    decreases e, 0
  {
    match e
    case OpExpr(_, lhs, rhs, rhs1) => OperandOccurrences(lhs) + OperandOccurrences(rhs) + OperandOccurrences(rhs1)
    case Group(inner) => Occurrences(inner)
    case Fragments(args) => ArgsOccurrences(args)
  }

  function OperandOccurrences(o: Option<Expr>): seq<P.Parameter>
    decreases o
  {
    match o
    case None => []
    case Some(e) => Occurrences(e)
  }

  function ArgsOccurrences(args: seq<Fragment>): seq<P.Parameter>
    decreases args
  {
    if args == [] then []
    else
      FragmentOccurrences(args[0]) + ArgsOccurrences(args[1..])
  }

  function FragmentOccurrences(f: Fragment): seq<P.Parameter>
    decreases f
  {
    match f
    case ExprFrag(x) => Occurrences(x)
    case ParamFrag(p) => [p]
    case _ => []
  }

  lemma {:induction false} ArgsOccurrencesAppend(a: seq<Fragment>, b: seq<Fragment>)
    ensures ArgsOccurrences(a + b) == ArgsOccurrences(a) + ArgsOccurrences(b)
    decreases |a|
  {
    if a != [] {
      assert (a + b)[0] == a[0] && (a + b)[1..] == a[1..] + b;
      ArgsOccurrencesAppend(a[1..], b);
    } else {
      assert a + b == b;
    }
  }

  /**
   * `GetParameters` lists every parameter that occurs anywhere in the
   * expression, and each of them once.
   */
  lemma {:induction false} ParametersAreOccurrences(e: Expr)
    ensures NoDuplicates(Parameters(e))
    ensures forall p :: p in Parameters(e) <==> p in Occurrences(e)
    decreases e, 0
  {
    match e
    case OpExpr(_, lhs, rhs, rhs1) =>
      OperandParametersAreOccurrences(lhs);
      OperandParametersAreOccurrences(rhs);
      OperandParametersAreOccurrences(rhs1);
    case Group(inner) =>
      ParametersAreOccurrences(inner);
    case Fragments(args) =>
      ArgsParametersAreOccurrences(args);
  }

  lemma {:induction false} OperandParametersAreOccurrences(o: Option<Expr>)
    ensures forall p :: p in OperandParameters(o) <==> p in OperandOccurrences(o)
    decreases o
  {
    if o.Some? {
      ParametersAreOccurrences(o.value);
    }
  }

  lemma {:induction false} ArgsParametersAreOccurrences(args: seq<Fragment>)
    ensures forall p :: p in NestedParameters(args) + DirectParameters(args) <==> p in ArgsOccurrences(args)
    decreases args
  {
    if args != [] {
      var h, t := args[0], args[1..];
      ArgsParametersAreOccurrences(t);
      FragmentParametersAreOccurrences(h);
      var direct := if h.ParamFrag? then [h.param] else [];
      assert NestedParameters(args) == FragmentParameters(h) + NestedParameters(t);
      assert DirectParameters(args) == direct + DirectParameters(t);
      assert ArgsOccurrences(args) == FragmentOccurrences(h) + ArgsOccurrences(t);
      forall p ensures p in FragmentParameters(h) + direct <==> p in FragmentOccurrences(h) {
      }
    }
  }

  lemma {:induction false} FragmentParametersAreOccurrences(f: Fragment)
    ensures f.ExprFrag? ==> forall p :: p in FragmentParameters(f) <==> p in FragmentOccurrences(f)
    decreases f
  {
    if f.ExprFrag? {
      ParametersAreOccurrences(f.expr);
    }
  }

  /**
   * `Union` keeps first occurrences: de-duplicating `a + b` starts with the
   * de-duplicated `a`, and every later element comes from `b` and is not in `a`.
   */
  lemma {:induction false} DistinctPrefix(a: seq<P.Parameter>, b: seq<P.Parameter>)
    ensures Distinct(a) <= Distinct(a + b)
    ensures forall k :: |Distinct(a)| <= k < |Distinct(a + b)| ==> Distinct(a + b)[k] in b && Distinct(a + b)[k] !in a
    decreases |b|
  {
    if b == [] {
      assert a + b == a;
    } else {
      var init, x := b[..|b| - 1], b[|b| - 1];
      assert (a + b)[..|a + b| - 1] == a + init && (a + b)[|a + b| - 1] == x;
      DistinctPrefix(a, init);
      assert forall y :: y in init ==> y in b;
    }
  }

  /** A list without repeats is its own de-duplication. */
  lemma {:induction false} DistinctOfDistinct(s: seq<P.Parameter>)
    requires NoDuplicates(s)
    ensures Distinct(s) == s
    decreases |s|
  {
    if s != [] {
      var init := s[..|s| - 1];
      DistinctOfDistinct(init);
      assert s == init + [s[|s| - 1]];
    }
  }

  /**
   * `SqlFragmentExpression.GetParameters`: the parameters of the nested
   * expressions come first, each once and in argument order; every later one
   * is a direct parameter argument that no nested expression has.
   */
  lemma {:induction false} NestedBeforeDirect(args: seq<Fragment>)
    ensures Distinct(NestedParameters(args)) <= Parameters(Fragments(args))
    ensures forall k :: |Distinct(NestedParameters(args))| <= k < |Parameters(Fragments(args))| ==>
      ParamFrag(Parameters(Fragments(args))[k]) in args &&
      Parameters(Fragments(args))[k] !in NestedParameters(args)
  {
    DistinctPrefix(NestedParameters(args), DirectParameters(args));
  }

  /** An instance: a direct parameter written before a nested one comes after it. */
  lemma {:induction false} NestedBeforeDirectPair(p: P.Parameter, q: P.Parameter)
    requires p != q
    ensures Parameters(Fragments([ParamFrag(p), ExprFrag(Fragments([ParamFrag(q)]))])) == [q, p]
  {
    var inner := Fragments([ParamFrag(q)]);
    SingleParameter(q);
    var args := [ParamFrag(p), ExprFrag(inner)];
    var tail := args[1..];
    assert tail == [ExprFrag(inner)] && tail[1..] == [];
    assert NestedParameters(tail) == [q] + NestedParameters([]);
    assert NestedParameters(args) == [q] by {
      assert NestedParameters(args) == FragmentParameters(ParamFrag(p)) + NestedParameters(tail);
    }
    assert DirectParameters(args) == [p] by {
      assert DirectParameters(tail) == [] + DirectParameters([]);
      assert DirectParameters(args) == [p] + DirectParameters(tail);
    }
    DistinctPair(q, p);
  }

  /** Two different parameters keep their order. */
  lemma {:induction false} DistinctPair(q: P.Parameter, p: P.Parameter)
    requires p != q
    ensures Distinct([q] + [p]) == [q, p]
  {
    assert [q] + [p] == [q, p];
    assert [q, p][..1] == [q];
    assert [q][..0] == [];
    assert Distinct([q]) == [q];
  }

  /** An expression made of one parameter has just that parameter. */
  lemma {:induction false} SingleParameter(q: P.Parameter)
    ensures Parameters(Fragments([ParamFrag(q)])) == [q]
  {
    var one := [ParamFrag(q)];
    assert one[1..] == [];
    assert NestedParameters(one) == FragmentParameters(ParamFrag(q)) + NestedParameters([]);
    assert NestedParameters(one) == [];
    assert DirectParameters(one) == [q] + DirectParameters([]);
    assert [q][..0] == [];
    assert Distinct([q]) == [q];
    assert [] + [q] == [q];
  }

  /** A group has exactly the parameters of the expression it wraps. */
  lemma {:induction false} GroupParameters(inner: Expr)
    ensures Parameters(Group(inner)) == Parameters(inner)
    ensures Occurrences(Group(inner)) == Occurrences(inner)
  {
  }

  // ---- rendering ----

  /** `Fill` is the four substitution passes over brace-free inserted texts. */
  lemma {:induction false} FillPieces(ps: seq<Piece>, op: string, lhs: string, rhs: string, rhs1: string)
    requires WellFormed(ps) && NoBrace(op) && NoBrace(lhs) && NoBrace(rhs) && NoBrace(rhs1)
    ensures Fill(TemplateText(ps), op, lhs, rhs, rhs1)
         == TemplateText(Subst(Subst(Subst(Subst(ps, "op", op), "lhs", lhs), "rhs", rhs), "rhs1", rhs1))
  {
    assert Placeholder("op") == "{op}" && Placeholder("lhs") == "{lhs}";
    assert Placeholder("rhs") == "{rhs}" && Placeholder("rhs1") == "{rhs1}";
    SubstText(ps, "op", op);
    var p1 := Subst(ps, "op", op);
    SubstText(p1, "lhs", lhs);
    var p2 := Subst(p1, "lhs", lhs);
    SubstText(p2, "rhs", rhs);
    var p3 := Subst(p2, "rhs", rhs);
    SubstText(p3, "rhs1", rhs1);
  }

  /** The three template constants as piece lists. */
  const InfixPieces: seq<Piece> := [Hole("lhs"), Lit(" "), Hole("op"), Lit(" "), Hole("rhs")]
  const Function2Pieces: seq<Piece> := [Hole("op"), Lit("("), Hole("lhs"), Lit(","), Hole("rhs"), Lit(")")]
  const Function3Pieces: seq<Piece> :=
    [Hole("op"), Lit("("), Hole("lhs"), Lit(","), Hole("rhs"), Lit(","), Hole("rhs1"), Lit(")")]

  lemma {:induction false} InfixTemplate()
    ensures O.LhsOpRhs == TemplateText(InfixPieces)
    ensures WellFormed(InfixPieces)
  {
    InfixSpelled();
  }

  lemma {:induction false} InfixSpelled()
    ensures O.LhsOpRhs == TemplateText(InfixPieces)
  {
  }

  lemma {:induction false} Function2Template()
    ensures O.FuncLhsRhs == TemplateText(Function2Pieces)
    ensures WellFormed(Function2Pieces)
  {
    Function2Spelled();
  }

  lemma {:induction false} Function2Spelled()
    ensures O.FuncLhsRhs == TemplateText(Function2Pieces)
  {
  }

  lemma {:induction false} Function3Template()
    ensures O.FuncLhsRhsRhs1 == TemplateText(Function3Pieces)
    ensures WellFormed(Function3Pieces)
  {
    Function3Spelled();
    Function3WellFormed();
  }

  lemma {:induction false} Function3WellFormed()
    ensures WellFormed(Function3Pieces)
  {
  }

  lemma {:induction false} Function3Spelled()
    ensures O.FuncLhsRhsRhs1 == TemplateText(Function3Pieces)
  {
    Function3SpelledBy(Function3Pieces, O.FuncLhsRhsRhs1);
  }

  lemma {:induction false} Function3SpelledBy(ps: seq<Piece>, t: string)
    requires ps == Function3Pieces && t == O.FuncLhsRhsRhs1
    ensures t == TemplateText(ps)
  {
    var x, y := [Hole("op"), Lit("("), Hole("lhs"), Lit(",")], [Hole("rhs"), Lit(","), Hole("rhs1"), Lit(")")];
    assert ps == x + y;
    TextAppend(x, y);
    Function3SpelledFront();
    Function3SpelledBack();
    Function3Halves(t);
  }

  lemma {:induction false} Function3Halves(t: string)
    requires t == O.FuncLhsRhsRhs1
    ensures t == "{op}({lhs}," + "{rhs},{rhs1})"
  {
    assert t[..11] == "{op}({lhs},";
    assert t[11..] == "{rhs},{rhs1})";
    assert t == t[..11] + t[11..];
  }

  lemma {:induction false} Function3SpelledFront()
    ensures TemplateText([Hole("op"), Lit("("), Hole("lhs"), Lit(",")]) == "{op}({lhs},"
  {
  }

  lemma {:induction false} Function3SpelledBack()
    ensures TemplateText([Hole("rhs"), Lit(","), Hole("rhs1"), Lit(")")]) == "{rhs},{rhs1})"
  {
  }

  lemma {:induction false} InfixSubstituted(op: string, lhs: string, rhs: string, rhs1: string)
    ensures TemplateText(Subst(Subst(Subst(Subst(InfixPieces, "op", op), "lhs", lhs), "rhs", rhs), "rhs1", rhs1))
         == lhs + " " + op + " " + rhs
  {
    var r := Subst(Subst(Subst(Subst(InfixPieces, "op", op), "lhs", lhs), "rhs", rhs), "rhs1", rhs1);
    var x, y := [Lit(lhs), Lit(" "), Lit(op), Lit(" ")], [Lit(rhs)];
    assert r == x + y;
    TextAppend(x, y);
    SpellFour(lhs, " ", op, " ");
    SpellOne(rhs);
  }

  lemma {:induction false} Function2Substituted(op: string, lhs: string, rhs: string, rhs1: string)
    ensures TemplateText(Subst(Subst(Subst(Subst(Function2Pieces, "op", op), "lhs", lhs), "rhs", rhs), "rhs1", rhs1))
         == op + "(" + lhs + "," + rhs + ")"
  {
    var r := Subst(Subst(Subst(Subst(Function2Pieces, "op", op), "lhs", lhs), "rhs", rhs), "rhs1", rhs1);
    var x, y := [Lit(op), Lit("("), Lit(lhs), Lit(",")], [Lit(rhs), Lit(")")];
    assert r == x + y;
    TextAppend(x, y);
    SpellFour(op, "(", lhs, ",");
    SpellTwo(rhs, ")");
  }

  lemma {:induction false} Function3Substituted(op: string, lhs: string, rhs: string, rhs1: string)
    ensures TemplateText(Subst(Subst(Subst(Subst(Function3Pieces, "op", op), "lhs", lhs), "rhs", rhs), "rhs1", rhs1))
         == op + "(" + lhs + "," + rhs + "," + rhs1 + ")"
  {
    var r := Subst(Subst(Subst(Subst(Function3Pieces, "op", op), "lhs", lhs), "rhs", rhs), "rhs1", rhs1);
    var x, y := [Lit(op), Lit("("), Lit(lhs), Lit(",")], [Lit(rhs), Lit(","), Lit(rhs1), Lit(")")];
    assert r == x + y;
    TextAppend(x, y);
    SpellFour(op, "(", lhs, ",");
    SpellFour(rhs, ",", rhs1, ")");
  }

  /** The infix template fills to `lhs op rhs`, single-spaced, when no inserted text holds a brace. */
  lemma {:induction false} FillInfix(op: string, lhs: string, rhs: string, rhs1: string)
    requires NoBrace(op) && NoBrace(lhs) && NoBrace(rhs) && NoBrace(rhs1)
    ensures Fill(O.LhsOpRhs, op, lhs, rhs, rhs1) == lhs + " " + op + " " + rhs
  {
    InfixTemplate();
    FillPieces(InfixPieces, op, lhs, rhs, rhs1);
    InfixSubstituted(op, lhs, rhs, rhs1);
  }

  /** The two-operand function template fills to `op(lhs,rhs)`. */
  lemma {:induction false} FillFunction2(op: string, lhs: string, rhs: string, rhs1: string)
    requires NoBrace(op) && NoBrace(lhs) && NoBrace(rhs) && NoBrace(rhs1)
    ensures Fill(O.FuncLhsRhs, op, lhs, rhs, rhs1) == op + "(" + lhs + "," + rhs + ")"
  {
    Function2Template();
    FillPieces(Function2Pieces, op, lhs, rhs, rhs1);
    Function2Substituted(op, lhs, rhs, rhs1);
  }

  /** The three-operand function template fills to `op(lhs,rhs,rhs1)`: `{rhs}` does not clobber `{rhs1}`. */
  lemma {:induction false} FillFunction3(op: string, lhs: string, rhs: string, rhs1: string)
    requires NoBrace(op) && NoBrace(lhs) && NoBrace(rhs) && NoBrace(rhs1)
    ensures Fill(O.FuncLhsRhsRhs1, op, lhs, rhs, rhs1) == op + "(" + lhs + "," + rhs + "," + rhs1 + ")"
  {
    Function3Template();
    FillPieces(Function3Pieces, op, lhs, rhs, rhs1);
    Function3Substituted(op, lhs, rhs, rhs1);
  }

  /** An infix operator renders its operands around its spelling; a null operand leaves its side empty. */
  lemma {:induction false} RenderInfix(op: O.Operator, lhs: Option<Expr>, rhs: Option<Expr>, syntax: Syntax)
    requires op.filterTemplate == O.LhsOpRhs && op.sqlTemplate == O.LhsOpRhs
    requires NoBrace(O.ToString(op, syntax)) && NoBrace(OperandText(lhs, syntax)) && NoBrace(OperandText(rhs, syntax))
    ensures Render(OpExpr(op, lhs, rhs, None), syntax)
         == OperandText(lhs, syntax) + " " + O.ToString(op, syntax) + " " + OperandText(rhs, syntax)
  {
    FillInfix(O.ToString(op, syntax), OperandText(lhs, syntax), OperandText(rhs, syntax), "");
  }

  /**
   * An operator whose overload is the three-operand function template (in
   * the registry, `substring`) picks the overload when a third operand is
   * present and renders all three operands.
   */
  lemma {:induction false} RenderWithThirdOperand(op: O.Operator, lhs: Expr, rhs: Expr, rhs1: Expr, syntax: Syntax)
    requires op.filterTemplate == O.FuncLhsRhs && op.sqlTemplate == O.FuncLhsRhs
    requires op.overloadFilterTemplate == Some(O.FuncLhsRhsRhs1) && op.overloadSqlTemplate == Some(O.FuncLhsRhsRhs1)
    requires NoBrace(O.ToString(op, syntax))
    requires NoBrace(Render(lhs, syntax)) && NoBrace(Render(rhs, syntax)) && NoBrace(Render(rhs1, syntax))
    ensures Render(OpExpr(op, Some(lhs), Some(rhs), Some(rhs1)), syntax)
      == O.ToString(op, syntax) + "(" + Render(lhs, syntax) + "," + Render(rhs, syntax) + "," + Render(rhs1, syntax) + ")"
  {
    var name, l, r, r1 := O.ToString(op, syntax), Render(lhs, syntax), Render(rhs, syntax), Render(rhs1, syntax);
    OverloadTemplates(op, syntax);
    assert Render(OpExpr(op, Some(lhs), Some(rhs), Some(rhs1)), syntax) == Fill(O.FuncLhsRhsRhs1, name, l, r, r1);
    FillFunction3(name, l, r, r1);
  }

  /** Without a third operand the same operator falls back to the two-operand template. */
  lemma {:induction false} RenderWithoutThirdOperand(op: O.Operator, lhs: Expr, rhs: Expr, syntax: Syntax)
    requires op.filterTemplate == O.FuncLhsRhs && op.sqlTemplate == O.FuncLhsRhs
    requires op.overloadFilterTemplate == Some(O.FuncLhsRhsRhs1) && op.overloadSqlTemplate == Some(O.FuncLhsRhsRhs1)
    requires NoBrace(O.ToString(op, syntax))
    requires NoBrace(Render(lhs, syntax)) && NoBrace(Render(rhs, syntax))
    ensures Render(OpExpr(op, Some(lhs), Some(rhs), None), syntax)
      == O.ToString(op, syntax) + "(" + Render(lhs, syntax) + "," + Render(rhs, syntax) + ")"
  {
    var name, l, r := O.ToString(op, syntax), Render(lhs, syntax), Render(rhs, syntax);
    OverloadTemplates(op, syntax);
    assert Render(OpExpr(op, Some(lhs), Some(rhs), None), syntax) == Fill(O.FuncLhsRhs, name, l, r, "");
    FillFunction2(name, l, r, "");
  }

  /** The overload is chosen exactly when a third operand is supplied. */
  lemma {:induction false} OverloadTemplates(op: O.Operator, syntax: Syntax)
    requires op.filterTemplate == O.FuncLhsRhs && op.sqlTemplate == O.FuncLhsRhs
    requires op.overloadFilterTemplate == Some(O.FuncLhsRhsRhs1) && op.overloadSqlTemplate == Some(O.FuncLhsRhsRhs1)
    ensures O.GetTemplate(op, true).ToString(syntax) == O.FuncLhsRhsRhs1
    ensures O.GetTemplate(op, false).ToString(syntax) == O.FuncLhsRhs
  {
    assert !IsNullOrWhiteSpace(Some(O.FuncLhsRhsRhs1)) by {
      assert !IsWhiteSpace(O.FuncLhsRhsRhs1[0]);
    }
  }

  /** A group renders its inner expression in parentheses, so its text starts with `(` and ends with `)`. */
  lemma {:induction false} RenderGroup(inner: Expr, syntax: Syntax)
    ensures StartsWith(Render(Group(inner), syntax), "(") && EndsWith(Render(Group(inner), syntax), ")")
    ensures Render(Group(inner), syntax)[1..|Render(Group(inner), syntax)| - 1] == Render(inner, syntax)
  {
  }

  /** A fragment list renders as the concatenation of its parts, so rendering distributes over `+`. */
  lemma {:induction false} ArgsTextConcat(a: seq<Fragment>, b: seq<Fragment>, syntax: Syntax)
    ensures ArgsText(a + b, syntax) == ArgsText(a, syntax) + ArgsText(b, syntax)
  {
    if a == [] {
      assert a + b == b;
    } else {
      var ab := a + b;
      assert ab[0] == a[0];
      assert ab[1..] == a[1..] + b;
      ArgsTextConcat(a[1..], b, syntax);
      var h := ArgText(a[0], syntax);
      assert ArgsText(ab, syntax) == h + ArgsText(a[1..] + b, syntax);
      assert ArgsText(a, syntax) == h + ArgsText(a[1..], syntax);
    }
  }

  /** Identifiers and unparsed tokens are rendered by their own text, the same in every dialect. */
  lemma {:induction false} PlainFragmentsIgnoreSyntax(f: Fragment, s1: Syntax, s2: Syntax)
    requires f.IdentFrag? || f.Unparsed? || f.CommaFrag?
    ensures ArgText(f, s1) == ArgText(f, s2) == PlainText(f)
  {
  }
}
