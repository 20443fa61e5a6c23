/**
 * The criteria tree a filter compiles to (Criteria.cs): an And/Or node over
 * child criteria, a leaf holding one expression, or the empty criteria; its
 * parameters and its rendering. Criteria are values here: `Add` returns the
 * extended criteria instead of updating a shared object.
 */
module CriteriaTree {

  import opened Wrappers
  import opened Strings
  import opened Rendering
  import opened Expressions
  import opened Separators
  import P = Parameters
  import O = Operators

  datatype CriteriaType = Empty | Expression | And | Or

  /** A criteria node: its type, its children in order, and its expression (`None` is null). */
  datatype Criteria = Criteria(criteriaType: CriteriaType, children: seq<Criteria>, expression: Option<Expr>)

  /** The private constructor: a node of the given type with no children and no expression. */
  function NewCriteria(t: CriteriaType): (c: Criteria)
    ensures c.criteriaType == t && c.children == [] && c.expression.None?
  {
    Criteria(t, [], None)
  }

  /** `FromExpression`: an `Expression` node holding the expression and no children. */
  function FromExpression(e: Expr): (c: Criteria)
    ensures c.criteriaType == Expression && c.children == [] && c.expression == Some(e)
  {
    Criteria(Expression, [], Some(e))
  }

  /** `Add`: exactly one child appended at the end; type and expression unchanged. */
  function Add(c: Criteria, child: Criteria): (r: Criteria)
    ensures r.criteriaType == c.criteriaType && r.expression == c.expression
    ensures r.children == c.children + [child]
  {
    c.(children := c.children + [child])
  }

  /** `IsEmpty`: no children and no expression. */
  predicate IsEmpty(c: Criteria) {
    c.children == [] && c.expression.None?
  }

  /** A node of type `t` whose children are `cs` in order, built by appending them one by one. */
  method Combine(t: CriteriaType, cs: seq<Criteria>) returns (c: Criteria)
    ensures c.criteriaType == t && c.children == cs && c.expression.None?
  {
    c := NewCriteria(t);
    for i := 0 to |cs|
      invariant c.criteriaType == t && c.children == cs[..i] && c.expression.None?
    {
      c := Add(c, cs[i]);
      assert cs[..i + 1] == cs[..i] + [cs[i]];
    }
    assert cs[..|cs|] == cs;
  }

  /** `And(params ICriteria[])`. */
  method AndOf(cs: seq<Criteria>) returns (c: Criteria)
    ensures c.criteriaType == And && c.children == cs && c.expression.None?
  {
    c := Combine(And, cs);
  }

  /** `Or(params ICriteria[])`. */
  method OrOf(cs: seq<Criteria>) returns (c: Criteria)
    ensures c.criteriaType == Or && c.children == cs && c.expression.None?
  {
    c := Combine(Or, cs);
  }

  /** A node of type `t` with one `FromExpression` child per expression, in order. */
  method CombineExpressions(t: CriteriaType, es: seq<Expr>) returns (c: Criteria)
    ensures c.criteriaType == t && c.expression.None? && |c.children| == |es|
    ensures forall i :: 0 <= i < |es| ==> c.children[i] == FromExpression(es[i])
  {
    c := NewCriteria(t);
    for i := 0 to |es|
      invariant c.criteriaType == t && c.expression.None? && |c.children| == i
      invariant forall k :: 0 <= k < i ==> c.children[k] == FromExpression(es[k])
    {
      c := Add(c, FromExpression(es[i]));
    }
  }

  /** `And(params IExpression[])`. */
  method AndOfExpressions(es: seq<Expr>) returns (c: Criteria)
    ensures c.criteriaType == And && c.expression.None? && |c.children| == |es|
    ensures forall i :: 0 <= i < |es| ==> c.children[i] == FromExpression(es[i])
  {
    c := CombineExpressions(And, es);
  }

  /** `Or(params IExpression[])`. */
  method OrOfExpressions(es: seq<Expr>) returns (c: Criteria)
    ensures c.criteriaType == Or && c.expression.None? && |c.children| == |es|
    ensures forall i :: 0 <= i < |es| ==> c.children[i] == FromExpression(es[i])
  {
    c := CombineExpressions(Or, es);
  }

  /** A new node is empty; a node with an expression or with a child is not. */
  lemma {:induction false} EmptinessOfConstructions(t: CriteriaType, c: Criteria, child: Criteria, e: Expr)
    ensures IsEmpty(NewCriteria(t))
    ensures !IsEmpty(FromExpression(e))
    ensures !IsEmpty(Add(c, child))
  {
    assert Add(c, child).children[|c.children|] == child;
  }

  // ---- parameters ----

  /** `GetAllParameters`: the expression's parameters, then each child's, depth-first in child order. */
  function AllParameters(c: Criteria): seq<P.Parameter>
    decreases c
  {
    (if c.expression.Some? then Parameters(c.expression.value) else []) + ChildrenParameters(c.children)
  }

  function ChildrenParameters(cs: seq<Criteria>): seq<P.Parameter>
    decreases cs
  {
    if cs == [] then [] else AllParameters(cs[0]) + ChildrenParameters(cs[1..])
  }

  lemma {:induction false} ChildrenParametersAppend(cs: seq<Criteria>, child: Criteria)
    ensures ChildrenParameters(cs + [child]) == ChildrenParameters(cs) + AllParameters(child)
    decreases |cs|
  {
    if cs == [] {
      assert cs + [child] == [child];
      assert [child][1..] == [];
    } else {
      assert (cs + [child])[0] == cs[0];
      assert (cs + [child])[1..] == cs[1..] + [child];
      ChildrenParametersAppend(cs[1..], child);
    }
  }

  /** Appending a child appends its parameters, and nothing else changes. */
  lemma {:induction false} AllParametersOfAdd(c: Criteria, child: Criteria)
    ensures AllParameters(Add(c, child)) == AllParameters(c) + AllParameters(child)
  {
    var d := Add(c, child);
    var own := if c.expression.Some? then Parameters(c.expression.value) else [];
    var kids, extra := ChildrenParameters(c.children), AllParameters(child);
    assert AllParameters(c) == own + kids;
    ChildrenParametersAppend(c.children, child);
    assert AllParameters(d) == own + (kids + extra);
  }

  /** An expression node has exactly its expression's parameters. */
  lemma {:induction false} AllParametersOfExpression(e: Expr)
    ensures AllParameters(FromExpression(e)) == Parameters(e)
  {
    assert ChildrenParameters([]) == [];
    assert Parameters(e) + [] == Parameters(e);
  }

  /** The names of a parameter list. */
  function NameSet(s: seq<P.Parameter>): set<string>
    decreases |s|
  {
    if s == [] then {} else NameSet(s[..|s| - 1]) + {s[|s| - 1].name}
  }

  /** One parameter per name, the first one in list order: the reference for `GetDistinctParameters`. */
  function DistinctByName(s: seq<P.Parameter>): seq<P.Parameter>
    decreases |s|
  {
    if s == [] then []
    else
      var init := s[..|s| - 1];
      var last := s[|s| - 1];
      if last.name in NameSet(init) then DistinctByName(init) else DistinctByName(init) + [last]
  }

  lemma {:induction false} NameSetSnoc(s: seq<P.Parameter>, p: P.Parameter)
    ensures NameSet(s + [p]) == NameSet(s) + {p.name}
  {
    var q := s + [p];
    assert q[..|q| - 1] == s;
  }

  /** A name is in the set exactly when some parameter of the list carries it. */
  lemma {:induction false} NameSetMembers(s: seq<P.Parameter>)
    ensures forall i :: 0 <= i < |s| ==> s[i].name in NameSet(s)
    ensures forall n :: n in NameSet(s) ==> exists i :: 0 <= i < |s| && s[i].name == n
    decreases |s|
  {
    if s != [] {
      var init := s[..|s| - 1];
      NameSetMembers(init);
      assert forall i :: 0 <= i < |init| ==> init[i] == s[i];
    }
  }

  /** De-duplication keeps every name. */
  lemma {:induction false} DistinctByNameNames(s: seq<P.Parameter>)
    ensures NameSet(DistinctByName(s)) == NameSet(s)
    decreases |s|
  {
    if s != [] {
      var init, last := s[..|s| - 1], s[|s| - 1];
      DistinctByNameNames(init);
      if last.name !in NameSet(init) {
        NameSetSnoc(DistinctByName(init), last);
      }
    }
  }

  /** De-duplication keeps only parameters of the list. */
  lemma {:induction false} DistinctByNameSubset(s: seq<P.Parameter>)
    ensures forall i :: 0 <= i < |DistinctByName(s)| ==> DistinctByName(s)[i] in s
    decreases |s|
  {
    if s != [] {
      var init, last := s[..|s| - 1], s[|s| - 1];
      DistinctByNameSubset(init);
      var r := DistinctByName(init);
      assert forall i :: 0 <= i < |r| ==> r[i] in init;
      assert forall p :: p in init ==> p in s;
    }
  }

  /** De-duplication leaves each name once. */
  lemma {:induction false} DistinctByNameUnique(s: seq<P.Parameter>)
    ensures forall i, j :: 0 <= i < j < |DistinctByName(s)| ==> DistinctByName(s)[i].name != DistinctByName(s)[j].name
    decreases |s|
  {
    if s != [] {
      var init, last := s[..|s| - 1], s[|s| - 1];
      DistinctByNameUnique(init);
      var r := DistinctByName(init);
      if last.name !in NameSet(init) {
        DistinctByNameNames(init);
        NameSetMembers(r);
        var r' := r + [last];
        assert forall i :: 0 <= i < |r| ==> r'[i] == r[i];
      }
    }
  }

  /** De-duplicating a prefix gives a prefix of the de-duplicated list. */
  lemma {:induction false} DistinctByNamePrefix(s: seq<P.Parameter>, k: nat)
    requires k <= |s|
    ensures DistinctByName(s[..k]) <= DistinctByName(s)
    decreases |s| - k
  {
    if k < |s| {
      var t := s[..k + 1];
      assert t[..|t| - 1] == s[..k];
      DistinctByNamePrefix(s, k + 1);
    } else {
      assert s[..k] == s;
    }
  }

  /** The first parameter of each name is the one kept. */
  lemma {:induction false} DistinctKeepsFirst(s: seq<P.Parameter>, i: nat)
    requires i < |s| && s[i].name !in NameSet(s[..i])
    ensures s[i] in DistinctByName(s)
  {
    var t := s[..i + 1];
    assert t[..|t| - 1] == s[..i] && t[|t| - 1] == s[i];
    assert DistinctByName(t) == DistinctByName(s[..i]) + [s[i]];
    DistinctByNamePrefix(s, i + 1);
    assert DistinctByName(t)[|DistinctByName(s[..i])|] == s[i];
  }

  /** One more parameter is kept exactly when its name is new. */
  lemma {:induction false} DistinctByNameSnoc(s: seq<P.Parameter>, p: P.Parameter)
    ensures DistinctByName(s + [p]) == if p.name in NameSet(s) then DistinctByName(s) else DistinctByName(s) + [p]
    ensures NameSet(s + [p]) == NameSet(s) + {p.name}
  {
    var q := s + [p];
    assert q[..|q| - 1] == s && q[|q| - 1] == p;
  }

  /** One step of the dictionary loop, over the prefix of the list seen so far. */
  lemma {:induction false} DistinctStep(s: seq<P.Parameter>, i: nat)
    requires i < |s|
    ensures s[i].name in NameSet(s[..i]) ==> DistinctByName(s[..i + 1]) == DistinctByName(s[..i])
    ensures s[i].name !in NameSet(s[..i]) ==> DistinctByName(s[..i + 1]) == DistinctByName(s[..i]) + [s[i]]
    ensures NameSet(s[..i + 1]) == NameSet(s[..i]) + {s[i].name}
  {
    assert s[..i + 1] == s[..i] + [s[i]];
    DistinctByNameSnoc(s[..i], s[i]);
  }

  /** `GetDistinctParameters`: the dictionary keyed by name, filled in list order, then its values. */
  method DistinctParameters(c: Criteria) returns (ps: seq<P.Parameter>)
    ensures ps == DistinctByName(AllParameters(c))
  {
    var all := AllParameters(c);
    var parameters: map<string, P.Parameter> := map[];
    // The dictionary's values in insertion order.
    var values: seq<P.Parameter> := [];
    for i := 0 to |all|
      invariant values == DistinctByName(all[..i])
      invariant parameters.Keys == NameSet(all[..i])
    {
      var p := all[i];
      DistinctStep(all, i);
      if p.name !in parameters {
        parameters := parameters[p.name := p];
        values := values + [p];
      }
    }
    assert all[..|all|] == all;
    ps := values;
  }

  // ---- rendering ----

  /** The separator between children: the newline operator, a space, the connective, a space; every type but `And` uses `or`. */
  function SeparatorText(t: CriteriaType, syntax: Syntax): string {
    O.ToString(O.NewLine, syntax) + " " + (if t == And then O.ToString(O.And, syntax) else O.ToString(O.Or, syntax)) + " "
  }

  lemma {:induction false} SeparatorTexts(t: CriteriaType)
    ensures SeparatorText(t, Sql) == SeparatorText(t, SqlKata)
    ensures t == And ==> SeparatorText(t, Sql) == "\r\n AND " && SeparatorText(t, Filter) == " and "
    ensures t != And ==> SeparatorText(t, Sql) == "\r\n OR " && SeparatorText(t, Filter) == " or "
  {
  }

  /** `ToString(syntax)`: the expression's text, or the children's texts joined by the separator in parentheses. */
  function CriteriaText(c: Criteria, syntax: Syntax): string
    decreases c
  {
    if c.expression.Some? then Render(c.expression.value, syntax)
    else "(" + JoinWith(ChildTexts(c, syntax), SeparatorText(c.criteriaType, syntax)) + ")"
  }

  function ChildTexts(c: Criteria, syntax: Syntax): (r: seq<string>)
    ensures |r| == |c.children|
    decreases c, 0
  {
    seq(|c.children|, i requires 0 <= i < |c.children| => CriteriaText(c.children[i], syntax))
  }

  /** `ToString(syntax)` as written: the expression's text, or the children joined one at a time. */
  method ToText(c: Criteria, syntax: Syntax) returns (s: string)
    ensures s == CriteriaText(c, syntax)
    decreases c, 1
  {
    if c.expression.None? {
      var inner := JoinChildren(c, syntax);
      s := "(" + inner + ")";
    } else {
      s := Render(c.expression.value, syntax);
    }
  }

  /** The string builder loop: a separator object and each child's text, in child order. */
  method JoinChildren(c: Criteria, syntax: Syntax) returns (s: string)
    ensures s == JoinWith(ChildTexts(c, syntax), SeparatorText(c.criteriaType, syntax))
    decreases c, 0
  {
    var sep := SeparatorText(c.criteriaType, syntax);
    var separator := new Separator(sep);
    var texts := ChildTexts(c, syntax);
    s := "";
    for i := 0 to |c.children|
      invariant separator.Valid() && separator.calls == i && separator.separator == sep
      invariant s == JoinWith(texts[..i], sep)
    {
      var v := separator.Value();
      var t := ToText(c.children[i], syntax);
      assert t == texts[i];
      JoinWithPrefix(texts, i, sep);
      s := s + v + t;
    }
    assert texts[..|c.children|] == texts;
  }

  /** No expression and no children renders as `()`, whatever the type. */
  lemma {:induction false} EmptyText(t: CriteriaType, syntax: Syntax)
    ensures CriteriaText(NewCriteria(t), syntax) == "()"
  {
  }

  /** With an expression the criteria renders exactly as the expression does. */
  lemma {:induction false} ExpressionText(e: Expr, syntax: Syntax)
    ensures CriteriaText(FromExpression(e), syntax) == Render(e, syntax)
  {
  }

  lemma {:induction false} GroupText(c: Criteria, syntax: Syntax)
    requires c.expression.None?
    ensures CriteriaText(c, syntax) == "(" + JoinWith(ChildTexts(c, syntax), SeparatorText(c.criteriaType, syntax)) + ")"
  {
  }

  lemma {:induction false} TwoChildTexts(t: CriteriaType, a: Criteria, b: Criteria, syntax: Syntax)
    ensures ChildTexts(Criteria(t, [a, b], None), syntax) == [CriteriaText(a, syntax), CriteriaText(b, syntax)]
  {
    var texts := ChildTexts(Criteria(t, [a, b], None), syntax);
    assert texts[0] == CriteriaText(a, syntax) && texts[1] == CriteriaText(b, syntax);
  }

  /** Two children render in parentheses around the separator. */
  lemma {:induction false} TwoChildrenText(t: CriteriaType, a: Criteria, b: Criteria, syntax: Syntax)
    ensures CriteriaText(Criteria(t, [a, b], None), syntax)
         == "(" + CriteriaText(a, syntax) + SeparatorText(t, syntax) + CriteriaText(b, syntax) + ")"
  {
    var c := Criteria(t, [a, b], None);
    var x, y, sep := CriteriaText(a, syntax), CriteriaText(b, syntax), SeparatorText(t, syntax);
    TwoChildTexts(t, a, b, syntax);
    GroupText(c, syntax);
    JoinWithTwo(x, y, sep);
  }

  /** Adding a child appends the separator and the child's text inside the parentheses. */
  lemma {:induction false} AddText(c: Criteria, child: Criteria, syntax: Syntax)
    requires c.expression.None? && c.children != []
    ensures CriteriaText(Add(c, child), syntax)
         == "(" + JoinWith(ChildTexts(c, syntax), SeparatorText(c.criteriaType, syntax))
            + SeparatorText(c.criteriaType, syntax) + CriteriaText(child, syntax) + ")"
  {
    var d := Add(c, child);
    var sep, last := SeparatorText(c.criteriaType, syntax), CriteriaText(child, syntax);
    var texts, dtexts := ChildTexts(c, syntax), ChildTexts(d, syntax);
    assert dtexts == texts + [last];
    JoinWithSnoc(texts, last, sep);
  }

  // ---- from expressions ----

  /** `ToCriteria`: a group hands on to the expression it wraps, every other expression becomes an expression node. */
  function ToCriteria(e: Expr): (c: Criteria)
    ensures c.criteriaType == Expression && c.children == [] && c.expression.Some?
    ensures !c.expression.value.Group?
  {
    if e.Group? then ToCriteria(e.inner) else FromExpression(e)
  }

  /** Unwrapping groups keeps exactly the group's parameters. */
  lemma {:induction false} ToCriteriaParameters(e: Expr)
    ensures AllParameters(ToCriteria(e)) == Parameters(e)
  {
    if e.Group? {
      ToCriteriaParameters(e.inner);
      GroupParameters(e.inner);
    } else {
      AllParametersOfExpression(e);
    }
  }

  /** Unwrapping a group drops its parentheses from the rendering. */
  lemma {:induction false} ToCriteriaText(e: Expr, syntax: Syntax)
    requires e.Group?
    ensures CriteriaText(ToCriteria(e), syntax) == CriteriaText(ToCriteria(e.inner), syntax)
    ensures Render(e, syntax) == "(" + Render(e.inner, syntax) + ")"
  {
  }

  // ---- every parameter as made ----

  /** Every parameter the tree holds, repeats included: the expression's, then each child's, depth-first in child order. */
  function CriteriaOccurrences(c: Criteria): seq<P.Parameter>
    decreases c
  {
    (if c.expression.Some? then Occurrences(c.expression.value) else []) + ChildrenOccurrences(c.children)
  }

  function ChildrenOccurrences(cs: seq<Criteria>): seq<P.Parameter>
    decreases cs
  {
    if cs == [] then [] else CriteriaOccurrences(cs[0]) + ChildrenOccurrences(cs[1..])
  }

  lemma {:induction false} ChildrenOccurrencesAppend(cs: seq<Criteria>, child: Criteria)
    ensures ChildrenOccurrences(cs + [child]) == ChildrenOccurrences(cs) + CriteriaOccurrences(child)
    decreases |cs|
  {
    if cs == [] {
      assert cs + [child] == [child];
      assert [child][1..] == [];
    } else {
      assert (cs + [child])[0] == cs[0];
      assert (cs + [child])[1..] == cs[1..] + [child];
      ChildrenOccurrencesAppend(cs[1..], child);
    }
  }

  /** A new node holds no parameter, an expression node its expression's, and `Add` appends the child's. */
  lemma {:induction false} CriteriaOccurrencesOfConstructions(t: CriteriaType, e: Expr, c: Criteria, child: Criteria)
    ensures CriteriaOccurrences(NewCriteria(t)) == []
    ensures CriteriaOccurrences(FromExpression(e)) == Occurrences(e)
    ensures CriteriaOccurrences(Add(c, child)) == CriteriaOccurrences(c) + CriteriaOccurrences(child)
  {
    assert Occurrences(e) + [] == Occurrences(e);
    var own := if c.expression.Some? then Occurrences(c.expression.value) else [];
    ChildrenOccurrencesAppend(c.children, child);
    assert CriteriaOccurrences(Add(c, child)) == own + (ChildrenOccurrences(c.children) + CriteriaOccurrences(child));
  }

  /** Unwrapping groups keeps every parameter. */
  lemma {:induction false} ToCriteriaOccurrences(e: Expr)
    ensures CriteriaOccurrences(ToCriteria(e)) == Occurrences(e)
  {
    if e.Group? {
      ToCriteriaOccurrences(e.inner);
    } else {
      CriteriaOccurrencesOfConstructions(Empty, e, NewCriteria(Empty), NewCriteria(Empty));
    }
  }

  /** A repeat-free list drawn from a list without shared names has no shared names. */
  lemma {:induction false} UniqueNamesOfPart(s: seq<P.Parameter>, t: seq<P.Parameter>)
    requires P.UniqueNames(t) && NoDuplicates(s) && forall p :: p in s ==> p in t
    ensures P.UniqueNames(s)
  {
    forall i, j | 0 <= i < j < |s| ensures s[i].name != s[j].name {
      assert s[i] in t && s[j] in t;
      var a :| 0 <= a < |t| && t[a] == s[i];
      var b :| 0 <= b < |t| && t[b] == s[j];
      assert a != b;
    }
  }

  /** A list without shared names splits into two such lists that share no name. */
  lemma {:induction false} UniqueNamesSplit(a: seq<P.Parameter>, b: seq<P.Parameter>)
    requires P.UniqueNames(a + b)
    ensures P.UniqueNames(a) && P.UniqueNames(b)
    ensures forall i, j :: 0 <= i < |a| && 0 <= j < |b| ==> a[i].name != b[j].name
  {
    var ab := a + b;
    assert forall i :: 0 <= i < |a| ==> ab[i] == a[i];
    assert forall j :: 0 <= j < |b| ==> ab[|a| + j] == b[j];
  }

  /** Two lists without shared names, sharing no name between them, join into one. */
  lemma {:induction false} UniqueNamesJoin(a: seq<P.Parameter>, b: seq<P.Parameter>)
    requires P.UniqueNames(a) && P.UniqueNames(b)
    requires forall p, q :: p in a && q in b ==> p.name != q.name
    ensures P.UniqueNames(a + b)
  {
    var ab := a + b;
    forall i, j | 0 <= i < j < |ab| ensures ab[i].name != ab[j].name {
      if j < |a| {
        assert ab[i] == a[i] && ab[j] == a[j];
      } else if i < |a| {
        assert ab[i] == a[i] && ab[j] == b[j - |a|];
      } else {
        assert ab[i] == b[i - |a|] && ab[j] == b[j - |a|];
      }
    }
  }

  /**
   * When no two parameters the tree holds share a name, neither do those
   * `GetAllParameters` lists, and each of them is one the tree holds.
   */
  lemma {:induction false} AllParametersUnique(c: Criteria)
    requires P.UniqueNames(CriteriaOccurrences(c))
    ensures P.UniqueNames(AllParameters(c))
    ensures forall p :: p in AllParameters(c) ==> p in CriteriaOccurrences(c)
    decreases c
  {
    var own := if c.expression.Some? then Parameters(c.expression.value) else [];
    var ownOcc := if c.expression.Some? then Occurrences(c.expression.value) else [];
    UniqueNamesSplit(ownOcc, ChildrenOccurrences(c.children));
    if c.expression.Some? {
      ParametersAreOccurrences(c.expression.value);
    }
    UniqueNamesOfPart(own, ownOcc);
    ChildrenParametersUnique(c.children);
    forall p, q | p in own && q in ChildrenParameters(c.children) ensures p.name != q.name {
      assert p in ownOcc && q in ChildrenOccurrences(c.children);
    }
    UniqueNamesJoin(own, ChildrenParameters(c.children));
  }

  lemma {:induction false} ChildrenParametersUnique(cs: seq<Criteria>)
    requires P.UniqueNames(ChildrenOccurrences(cs))
    ensures P.UniqueNames(ChildrenParameters(cs))
    ensures forall p :: p in ChildrenParameters(cs) ==> p in ChildrenOccurrences(cs)
    decreases cs
  {
    if cs != [] {
      UniqueNamesSplit(CriteriaOccurrences(cs[0]), ChildrenOccurrences(cs[1..]));
      AllParametersUnique(cs[0]);
      ChildrenParametersUnique(cs[1..]);
      forall p, q | p in AllParameters(cs[0]) && q in ChildrenParameters(cs[1..]) ensures p.name != q.name {
        assert p in CriteriaOccurrences(cs[0]) && q in ChildrenOccurrences(cs[1..]);
      }
      UniqueNamesJoin(AllParameters(cs[0]), ChildrenParameters(cs[1..]));
    }
  }

  /** De-duplicating by name changes nothing when no two parameters share a name. */
  lemma {:induction false} DistinctByNameOfUnique(s: seq<P.Parameter>)
    requires P.UniqueNames(s)
    ensures DistinctByName(s) == s
    decreases |s|
  {
    if s != [] {
      var init, last := s[..|s| - 1], s[|s| - 1];
      assert P.UniqueNames(init) by {
        assert forall i :: 0 <= i < |init| ==> init[i] == s[i];
      }
      DistinctByNameOfUnique(init);
      NameSetMembers(init);
      assert last.name !in NameSet(init) by {
        assert forall i :: 0 <= i < |init| ==> init[i] == s[i] && init[i].name != last.name;
      }
      assert init + [last] == s;
    }
  }
}
