/**
 * The filter compiler (Criteria.Parse.cs): a filter text becomes tokens,
 * the tokens a syntax tree, and the tree a criteria tree whose leaves are
 * operator expressions.
 *
 * The tokenizer, the field and constant resolvers and the number
 * conversion are parameters. The counter that names the parameters
 * `Filter0`, `Filter1`, ... is threaded through every call as a natural
 * number: each step that may create a parameter returns its result
 * together with the counter after it.
 */
module CriteriaParse {

  import opened Wrappers
  import opened Strings
  import opened Tokens
  import opened Values
  import opened Identifiers
  import opened Faults
  import opened Expressions
  import opened CriteriaTree
  import S = SyntaxTrees
  import P = Parameters
  import O = Operators
  import B = OperatorBuilders

  /**
   * The caller's callbacks: `resolveField` (a field's identifier, `None`
   * for null), `resolveConstant`, and `GetValueAsNumber`.
   */
  datatype Resolvers = Resolvers(
    field: string -> Option<Identifier>,
    constant: string -> Option<Value>,
    number: string -> Option<Value>)

  /** A result and the counter after computing it. */
  datatype Counted<T> = Counted(value: T, counter: nat)

  /** The name `"Filter" + counter.Next()` gives when the counter stands at `n`. */
  function ParameterName(n: nat): string {
    "Filter" + NatToString(n)
  }

  /** A new parameter with the next name, and the counter moved on by one. */
  function NextParameter(v: Value, n: nat): Counted<Fragment> {
    Counted(ParamFrag(P.NewParameterWithValue(ParameterName(n), v)), n + 1)
  }

  // ---- classifying one token ----

  /** The keywords matched ignoring case after the callbacks. */
  function LiteralValue(v: string): Option<Value> {
    if EqualsIgnoreCase(v, "true") then Some(Bool(true))
    else if EqualsIgnoreCase(v, "false") then Some(Bool(false))
    else if EqualsIgnoreCase(v, "null") then Some(DbNull)
    else None
  }

  /**
   * `TokenToSqlFragment`, tried in this order: operator, comma, quoted
   * string, number, field, constant, `true`/`false`/`null`; otherwise the
   * token stays unparsed.
   */
  function TokenToSqlFragment(t: Token, r: Resolvers, n: nat): (res: Outcome<Counted<Fragment>>)
    ensures res.Success? ==> n <= res.value.counter <= n + 1
  {
    match O.Parse(t.value)
    case Some(op) => Success(Counted(OpFrag(op), n))
    case None => OperandFragment(t, r, n)
  }

  /** A token that names no operator; a quoted string shorter than two characters makes `Substring` throw. */
  function OperandFragment(t: Token, r: Resolvers, n: nat): (res: Outcome<Counted<Fragment>>)
    ensures res.Success? ==> n <= res.value.counter <= n + 1
  {
    var v := t.value;
    if v == "," then Success(Counted(CommaFrag, n))
    else if t.kind == QuotedString then
      if |v| < 2 then Failure(ArgumentOutOfRange) else Success(NextParameter(Str(v[1..|v| - 1]), n))
    else if r.number(v).Some? then Success(NextParameter(r.number(v).value, n))
    else if r.field(v).Some? then Success(Counted(IdentFrag(r.field(v).value), n))
    else if r.constant(v).Some? then Success(NextParameter(r.constant(v).value, n))
    else if LiteralValue(v).Some? then Success(NextParameter(LiteralValue(v).value, n))
    else Success(Counted(Unparsed(t), n))
  }

  /** What classifying a token promises. */
  predicate ClassifiedAsPromised(t: Token, n: nat, res: Outcome<Counted<Fragment>>, canFail: bool) {
    (res.Failure? <==> canFail) &&
    (res.Failure? ==> res.error == ArgumentOutOfRange) &&
    (res.Success? ==> (res.value.counter == n + 1 <==> res.value.value.ParamFrag?)) &&
    (res.Success? && res.value.value.ParamFrag? ==> res.value.value.param.name == ParameterName(n)) &&
    (res.Success? && res.value.value.Unparsed? ==> res.value.value.token == t) &&
    (res.Success? ==> !res.value.value.ExprFrag?)
  }

  lemma {:induction false} OperandFragmentMeans(t: Token, r: Resolvers, n: nat)
    ensures ClassifiedAsPromised(t, n, OperandFragment(t, r, n), t.value != "," && t.kind == QuotedString && |t.value| < 2)
  {
  }

  /**
   * Only a quoted string shorter than two characters fails; the counter
   * moves on exactly when a parameter is made, and that parameter takes the
   * counter's name; an unparsed fragment holds the token itself.
   */
  lemma {:induction false} TokenToSqlFragmentMeans(t: Token, r: Resolvers, n: nat)
    ensures ClassifiedAsPromised(t, n, TokenToSqlFragment(t, r, n),
      O.Parse(t.value).None? && t.value != "," && t.kind == QuotedString && |t.value| < 2)
  {
    if O.Parse(t.value).None? {
      OperandFragmentMeans(t, r, n);
    }
  }

  /** The fragments of a node's tokens, in order, or the first exception. */
  function TokenFragments(ts: seq<Token>, r: Resolvers, n: nat): Outcome<Counted<seq<Fragment>>>
    decreases |ts|
  {
    if ts == [] then Success(Counted([], n))
    else
      match TokenToSqlFragment(ts[0], r, n)
      case Failure(e) => Failure(e)
      case Success(Counted(f, m)) =>
        match TokenFragments(ts[1..], r, m)
        case Failure(e) => Failure(e)
        case Success(Counted(fs, k)) => Success(Counted([f] + fs, k))
  }

  /** One fragment per token, and the counter never goes back. */
  lemma {:induction false} TokenFragmentsShape(ts: seq<Token>, r: Resolvers, n: nat)
    ensures TokenFragments(ts, r, n).Success? ==>
      |TokenFragments(ts, r, n).value.value| == |ts| && TokenFragments(ts, r, n).value.counter >= n
    decreases |ts|
  {
    if ts != [] {
      var head := TokenToSqlFragment(ts[0], r, n);
      if head.Success? {
        var m := head.value.counter;
        TokenFragmentsShape(ts[1..], r, m);
        var rest := TokenFragments(ts[1..], r, m);
        if rest.Success? {
          assert TokenFragments(ts, r, n) == Success(Counted([head.value.value] + rest.value.value, rest.value.counter));
        }
      }
    }
  }

  // ---- flattening nodes into fragments ----

  /** The children of node `i` come after it. */
  lemma {:induction false} ChildrenAfter(ns: seq<S.Node>, i: nat)
    requires S.ArenaOk(ns) && i < |ns|
    ensures forall c :: c in ns[i].children ==> i < c < |ns|
  {
  }

  /**
   * `Flatten`: a `Group` node becomes one group expression of its
   * children; any other node gives its tokens' fragments, then for each
   * child either its expression (a `Group` child) or its own flattening.
   */
  function Flatten(ns: seq<S.Node>, i: nat, r: Resolvers, n: nat): (res: Outcome<Counted<seq<Fragment>>>)
    requires S.ArenaOk(ns) && i < |ns|
    ensures res.Success? ==> res.value.counter >= n
    decreases |ns| - i, 3, 0
  {
    var node := ns[i];
    ChildrenAfter(ns, i);
    if node.nodeType == S.NodeType.Group then
      match ToExpression(ns, node.children, i, r, n)
      case Failure(e) => Failure(e)
      case Success(Counted(e, m)) => Success(Counted([ExprFrag(Group(e))], m))
    else
      TokenFragmentsShape(node.tokens, r, n);
      match TokenFragments(node.tokens, r, n)
      case Failure(e) => Failure(e)
      case Success(Counted(fs, m)) =>
        match FlattenChildren(ns, node.children, i, r, m)
        case Failure(e) => Failure(e)
        case Success(Counted(gs, k)) => Success(Counted(fs + gs, k))
  }

  /** The fragments one child contributes to its parent's flattening. */
  function ChildFragments(ns: seq<S.Node>, c: nat, lo: int, r: Resolvers, n: nat): (res: Outcome<Counted<seq<Fragment>>>)
    requires S.ArenaOk(ns) && -1 <= lo < c < |ns|
    ensures res.Success? ==> res.value.counter >= n
    decreases |ns| - lo, 2, 0
  {
    if ns[c].nodeType == S.NodeType.Group then
      match ToExpression(ns, [c], lo, r, n)
      case Failure(e) => Failure(e)
      case Success(Counted(e, m)) => Success(Counted([ExprFrag(e)], m))
    else Flatten(ns, c, r, n)
  }

  /** The children's fragments, child by child. */
  function FlattenChildren(ns: seq<S.Node>, cs: seq<nat>, lo: int, r: Resolvers, n: nat): (res: Outcome<Counted<seq<Fragment>>>)
    requires S.ArenaOk(ns) && -1 <= lo && forall c :: c in cs ==> lo < c < |ns|
    ensures res.Success? ==> res.value.counter >= n
    decreases |ns| - lo, 2, |cs|
  {
    if cs == [] then Success(Counted([], n))
    else
      assert cs[0] in cs && forall c :: c in cs[1..] ==> c in cs;
      match ChildFragments(ns, cs[0], lo, r, n)
      case Failure(e) => Failure(e)
      case Success(Counted(fs, m)) =>
        match FlattenChildren(ns, cs[1..], lo, r, m)
        case Failure(e) => Failure(e)
        case Success(Counted(gs, k)) => Success(Counted(fs + gs, k))
  }

  /** `nodes.SelectMany(Flatten)`: the nodes' flattenings, one after the other. */
  function FlattenAll(ns: seq<S.Node>, cs: seq<nat>, lo: int, r: Resolvers, n: nat): (res: Outcome<Counted<seq<Fragment>>>)
    requires S.ArenaOk(ns) && -1 <= lo && forall c :: c in cs ==> lo < c < |ns|
    ensures res.Success? ==> res.value.counter >= n
    decreases |ns| - lo, 0, |cs|
  {
    if cs == [] then Success(Counted([], n))
    else
      assert cs[0] in cs && forall c :: c in cs[1..] ==> c in cs;
      match Flatten(ns, cs[0], r, n)
      case Failure(e) => Failure(e)
      case Success(Counted(fs, m)) =>
        match FlattenAll(ns, cs[1..], lo, r, m)
        case Failure(e) => Failure(e)
        case Success(Counted(gs, k)) => Success(Counted(fs + gs, k))
  }

  /** The single group expression `ToExpression` hands back as it is. */
  predicate LoneGroup(cs: seq<nat>, frags: seq<Fragment>) {
    |cs| == 1 && |frags| == 1 && frags[0].ExprFrag? && frags[0].expr.Group?
  }

  /**
   * `ToExpression(nodes)`: one node flattening to one group expression
   * gives that group; otherwise the operator builder assembles the
   * fragments, and its errors become parse failures.
   */
  function ToExpression(ns: seq<S.Node>, cs: seq<nat>, lo: int, r: Resolvers, n: nat): (res: Outcome<Counted<Expr>>)
    requires S.ArenaOk(ns) && -1 <= lo && forall c :: c in cs ==> lo < c < |ns|
    ensures res.Success? ==> res.value.counter >= n
    decreases |ns| - lo, 1, 0
  {
    match FlattenAll(ns, cs, lo, r, n)
    case Failure(e) => Failure(e)
    case Success(Counted(frags, m)) =>
      if LoneGroup(cs, frags) then Success(Counted(frags[0].expr, m))
      else
        match B.BuildExpr(frags)
        case Failure(pe) => Failure(ParseFailure(pe))
        case Success(e) => Success(Counted(e, m))
  }

  // ---- building criteria from nodes ----

  /** A node the descent of `GroupNode` passes: no tokens, no marker among its children and exactly one child. */
  predicate PassesThrough(ns: seq<S.Node>, k: nat)
    requires S.ArenaOk(ns) && k < |ns|
  {
    ns[k].tokens == [] && (forall c :: c in ns[k].children ==> ns[c].nodeType != S.Binary) && |ns[k].children| == 1
  }

  /** `g` is reached from `i` through nodes that each pass the descent on to their only child. */
  predicate OnlyChildPath(ns: seq<S.Node>, i: nat, g: nat)
    requires S.ArenaOk(ns) && i < |ns|
    decreases |ns| - i
  {
    i == g || (PassesThrough(ns, i) && assert ns[i].children[0] in ns[i].children; OnlyChildPath(ns, ns[i].children[0], g))
  }

  /**
   * `GroupNode`: down through token-less, marker-less single children; it
   * stops at the first node on that path that has tokens, a marker child,
   * or other than one child.
   */
  function GroupNode(ns: seq<S.Node>, i: nat): (g: nat)
    requires S.ArenaOk(ns) && i < |ns|
    ensures i <= g < |ns|
    ensures OnlyChildPath(ns, i, g) && !PassesThrough(ns, g)
    decreases |ns| - i
  {
    var node := ns[i];
    ChildrenAfter(ns, i);
    if node.tokens != [] then i
    else if exists c :: c in node.children && ns[c].nodeType == S.Binary then i
    else if |node.children| == 1 then
      assert node.children[0] in node.children;
      GroupNode(ns, node.children[0])
    else i
  }

  /** `FirstOrDefault(c => c.NodeType == Binary)`: the first marker among the children. */
  function FirstBinary(ns: seq<S.Node>, cs: seq<nat>): (b: Option<nat>)
    requires forall c :: c in cs ==> c < |ns|
    ensures b.None? <==> forall c :: c in cs ==> ns[c].nodeType != S.Binary
    ensures b.Some? ==> b.value in cs && ns[b.value].nodeType == S.Binary
    decreases |cs|
  {
    if cs == [] then None
    else if assert cs[0] in cs; ns[cs[0]].nodeType == S.Binary then Some(cs[0])
    else
      assert forall c :: c in cs[1..] ==> c in cs;
      FirstBinary(ns, cs[1..])
  }

  /** The marker `FirstBinary` returns is the first one: every child before it is not a marker. */
  lemma {:induction false} FirstBinaryIsFirst(ns: seq<S.Node>, cs: seq<nat>)
    requires forall c :: c in cs ==> c < |ns|
    requires forall i :: 0 <= i < |cs| ==> cs[i] < |ns|
    ensures FirstBinary(ns, cs).Some? ==>
      exists k :: 0 <= k < |cs| && cs[k] == FirstBinary(ns, cs).value &&
        forall j :: 0 <= j < k ==> ns[cs[j]].nodeType != S.Binary
    decreases |cs|
  {
    if cs != [] {
      assert cs[0] in cs;
      if ns[cs[0]].nodeType == S.Binary {
        assert cs[0] == FirstBinary(ns, cs).value;
      } else {
        var tail := cs[1..];
        assert forall c :: c in tail ==> c in cs;
        assert forall j :: 0 <= j < |tail| ==> tail[j] == cs[j + 1] && tail[j] < |ns|;
        FirstBinaryIsFirst(ns, tail);
        if FirstBinary(ns, tail).Some? {
          var k :| 0 <= k < |tail| && tail[k] == FirstBinary(ns, tail).value &&
            forall j :: 0 <= j < k ==> ns[tail[j]].nodeType != S.Binary;
          assert cs[k + 1] == FirstBinary(ns, cs).value;
        }
      }
    }
  }

  /** The connective of the first marker: `"and"` is `And`, anything else `Or`. */
  function Connective(t: Token): (c: CriteriaType)
    ensures c == And <==> t.value == "and"
    ensures c == And || c == Or
  {
    if t.value == "and" then And else Or
  }

  /**
   * `BuildCriteria(node)`: a token-less `Unknown` wrapper with one child is
   * its child; a `BinaryGroup` whose group node has a marker is an And or
   * Or criteria over the runs between markers; anything else is an
   * expression criteria.
   */
  function BuildCriteria(ns: seq<S.Node>, i: nat, r: Resolvers, n: nat): (res: Outcome<Counted<Criteria>>)
    requires S.ArenaOk(ns) && i < |ns|
    ensures res.Success? ==> res.value.counter >= n && res.value.value.criteriaType != Empty
    decreases |ns| - i, 2, 0
  {
    var node := ns[i];
    ChildrenAfter(ns, i);
    if node.tokens == [] && node.nodeType == S.NodeType.Unknown && |node.children| == 1 then
      assert node.children[0] in node.children;
      BuildCriteria(ns, node.children[0], r, n)
    else if node.nodeType == S.BinaryGroup && FirstBinary(ns, ns[GroupNode(ns, i)].children).Some? then
      var g := GroupNode(ns, i);
      ChildrenAfter(ns, g);
      var marker := ns[FirstBinary(ns, ns[g].children).value];
      if marker.tokens == [] then Failure(ArgumentOutOfRange)
      else AddRuns(ns, ns[g].children, 0, g, [], NewCriteria(Connective(marker.tokens[0])), r, n)
    else ExpressionCriteria(ns, i, r, n)
  }

  /** `FromExpression(ToExpression(node))`. */
  function ExpressionCriteria(ns: seq<S.Node>, i: nat, r: Resolvers, n: nat): (res: Outcome<Counted<Criteria>>)
    requires S.ArenaOk(ns) && i < |ns|
    ensures res.Success? ==> res.value.counter >= n && res.value.value.criteriaType == Expression
  {
    match ToExpression(ns, [i], i - 1, r, n)
    case Failure(e) => Failure(e)
    case Success(Counted(e, m)) => Success(Counted(FromExpression(e), m))
  }

  /** The criteria of one run: a single node's own, or that of the run's joint expression. */
  function RunCriteria(ns: seq<S.Node>, run: seq<nat>, lo: nat, r: Resolvers, n: nat): (res: Outcome<Counted<Criteria>>)
    requires S.ArenaOk(ns) && run != [] && forall c :: c in run ==> lo < c < |ns|
    ensures res.Success? ==> res.value.counter >= n
    decreases |ns| - lo, 0, 0
  {
    if |run| == 1 then
      assert run[0] in run;
      BuildCriteria(ns, run[0], r, n)
    else
      match ToExpression(ns, run, lo, r, n)
      case Failure(e) => Failure(e)
      case Success(Counted(e, m)) => Success(Counted(ToCriteria(e), m))
  }

  /** `CreateCriteriaFromNodes`: an empty run adds nothing, any other run adds its criteria. */
  function CreateFromNodes(ns: seq<S.Node>, run: seq<nat>, lo: nat, crit: Criteria, r: Resolvers, n: nat): (res: Outcome<Counted<Criteria>>)
    requires S.ArenaOk(ns) && forall c :: c in run ==> lo < c < |ns|
    ensures res.Success? ==> res.value.counter >= n
    ensures res.Success? ==> res.value.value.criteriaType == crit.criteriaType && res.value.value.expression == crit.expression
    decreases |ns| - lo, 0, 1
  {
    if run == [] then Success(Counted(crit, n))
    else
      match RunCriteria(ns, run, lo, r, n)
      case Failure(e) => Failure(e)
      case Success(Counted(c, m)) => Success(Counted(Add(crit, c), m))
  }

  /**
   * The partition loop over the group node's children from child `k` on,
   * with the run collected so far: a marker closes the pending run, any
   * other child joins it, and the last run is closed after the loop.
   */
  function AddRuns(ns: seq<S.Node>, cs: seq<nat>, k: nat, lo: nat, pending: seq<nat>, crit: Criteria, r: Resolvers, n: nat)
    : (res: Outcome<Counted<Criteria>>)
    requires S.ArenaOk(ns) && k <= |cs|
    requires forall c :: c in cs ==> lo < c < |ns|
    requires forall c :: c in pending ==> lo < c < |ns|
    ensures res.Success? ==> res.value.counter >= n
    ensures res.Success? ==> res.value.value.criteriaType == crit.criteriaType && res.value.value.expression == crit.expression
    decreases |ns| - lo, 1, |cs| - k
  {
    if k == |cs| then CreateFromNodes(ns, pending, lo, crit, r, n)
    else
      assert cs[k] in cs;
      if ns[cs[k]].nodeType == S.Binary then
        match CreateFromNodes(ns, pending, lo, crit, r, n)
        case Failure(e) => Failure(e)
        case Success(Counted(c, m)) => AddRuns(ns, cs, k + 1, lo, [], c, r, m)
      else AddRuns(ns, cs, k + 1, lo, pending + [cs[k]], crit, r, n)
  }

  // ---- the whole compile ----

  /** The text handed to the tokenizer: wrapped in parentheses unless it already starts with `(` and ends with `)`. */
  function Wrap(filter: string): string {
    if StartsWith(filter, "(") && EndsWith(filter, ")") then filter else "(" + filter + ")"
  }

  /** `BuildCriteria(tokens)`: the syntax tree, compiled from its root with a fresh counter. */
  function Compile(tokens: seq<Token>, r: Resolvers): (res: Outcome<Criteria>)
    ensures res.Success? ==> res.value.criteriaType != Empty
  {
    match S.SyntaxTree(tokens)
    case Failure(e) => Failure(e)
    case Success(ns) =>
      match BuildCriteria(ns, 0, r, 0)
      case Failure(e) => Failure(e)
      case Success(c) => Success(c.value)
  }

  /** `Parse`: a blank filter is the empty criteria; any other is wrapped, tokenized and compiled. */
  function ParseFilter(filter: Option<string>, tokenize: string -> seq<Token>, r: Resolvers): Outcome<Criteria> {
    if IsNullOrWhiteSpace(filter) then Success(NewCriteria(Empty))
    else Compile(tokenize(Wrap(filter.value)), r)
  }

  // ---- the methods ----

  /** `ToExpression(nodes)`: the flattened fragments fed one by one to a fresh operator builder. */
  method NodesToExpression(ns: seq<S.Node>, cs: seq<nat>, lo: int, r: Resolvers, n: nat) returns (res: Outcome<Counted<Expr>>)
    requires S.ArenaOk(ns) && -1 <= lo && forall c :: c in cs ==> lo < c < |ns|
    ensures res == ToExpression(ns, cs, lo, r, n)
  {
    var flattened := FlattenAll(ns, cs, lo, r, n);
    if flattened.Failure? {
      return Failure(flattened.error);
    }
    var frags, counter := flattened.value.value, flattened.value.counter;
    if LoneGroup(cs, frags) {
      return Success(Counted(frags[0].expr, counter));
    }
    var builder := new B.OperatorBuilder();
    for k := 0 to |frags|
      invariant builder.fragments == frags[..k]
    {
      builder.Add(frags[k]);
      assert frags[..k + 1] == frags[..k] + [frags[k]];
    }
    assert frags[..|frags|] == frags;
    var e := builder.ToExpression();
    if e.Failure? {
      return Failure(ParseFailure(e.error));
    }
    res := Success(Counted(e.value, counter));
  }

  /** `CreateCriteriaFromNodes`. */
  method CreateCriteriaFromNodes(ns: seq<S.Node>, run: seq<nat>, lo: nat, crit: Criteria, r: Resolvers, n: nat)
    returns (res: Outcome<Counted<Criteria>>)
    requires S.ArenaOk(ns) && forall c :: c in run ==> lo < c < |ns|
    ensures res == CreateFromNodes(ns, run, lo, crit, r, n)
    decreases |ns| - lo, 0, 1
  {
    if run == [] {
      return Success(Counted(crit, n));
    }
    if |run| == 1 {
      assert run[0] in run;
      var child := CompileNode(ns, run[0], r, n);
      if child.Failure? {
        return Failure(child.error);
      }
      return Success(Counted(Add(crit, child.value.value), child.value.counter));
    }
    var e := NodesToExpression(ns, run, lo, r, n);
    if e.Failure? {
      return Failure(e.error);
    }
    res := Success(Counted(Add(crit, ToCriteria(e.value.value)), e.value.counter));
  }

  /** `BuildCriteria(node)`, with the partition loop over the group node's children. */
  method CompileNode(ns: seq<S.Node>, i: nat, r: Resolvers, n: nat) returns (res: Outcome<Counted<Criteria>>)
    requires S.ArenaOk(ns) && i < |ns|
    ensures res == BuildCriteria(ns, i, r, n)
    decreases |ns| - i, 2, 0
  {
    var node := ns[i];
    ChildrenAfter(ns, i);
    if node.tokens == [] && node.nodeType == S.NodeType.Unknown && |node.children| == 1 {
      assert node.children[0] in node.children;
      res := CompileNode(ns, node.children[0], r, n);
      return;
    }
    if node.nodeType == S.BinaryGroup {
      var g := GroupNode(ns, i);
      ChildrenAfter(ns, g);
      var children := ns[g].children;
      var binary := FirstBinary(ns, children);
      if binary.Some? {
        var marker := ns[binary.value];
        if marker.tokens == [] {
          return Failure(ArgumentOutOfRange);
        }
        var criteria := NewCriteria(Connective(marker.tokens[0]));
        var counter := n;
        var nodes: seq<nat> := [];
        for k := 0 to |children|
          invariant forall c :: c in nodes ==> g < c < |ns|
          invariant AddRuns(ns, children, k, g, nodes, criteria, r, counter) == BuildCriteria(ns, i, r, n)
        {
          var child := children[k];
          assert child in children;
          if ns[child].nodeType == S.Binary {
            var added := CreateCriteriaFromNodes(ns, nodes, g, criteria, r, counter);
            if added.Failure? {
              return Failure(added.error);
            }
            criteria, counter := added.value.value, added.value.counter;
            nodes := [];
          } else {
            nodes := nodes + [child];
          }
        }
        res := CreateCriteriaFromNodes(ns, nodes, g, criteria, r, counter);
        return;
      }
    }
    var e := NodesToExpression(ns, [i], i - 1, r, n);
    if e.Failure? {
      return Failure(e.error);
    }
    res := Success(Counted(FromExpression(e.value.value), e.value.counter));
  }

  /** `Parse(filter, resolveField, resolveConstant)`. */
  method Parse(filter: Option<string>, tokenize: string -> seq<Token>, r: Resolvers) returns (res: Outcome<Criteria>)
    ensures res == ParseFilter(filter, tokenize, r)
  {
    if IsNullOrWhiteSpace(filter) {
      return Success(NewCriteria(Empty));
    }
    var text := filter.value;
    if !(StartsWith(text, "(") && EndsWith(text, ")")) {
      text := "(" + text + ")";
    }
    var tokens := tokenize(text);
    var tree := S.BuildTree(tokens);
    if tree.Failure? {
      return Failure(tree.error);
    }
    var built := CompileNode(tree.value, 0, r, 0);
    if built.Failure? {
      return Failure(built.error);
    }
    res := Success(built.value.value);
  }

  /** What `TryParse` hands back when no other exception escapes: the flag and the `out` criteria. */
  datatype TryParsed = TryParsed(parsed: bool, criteria: Option<Criteria>)

  /**
   * `TryParse`: true and the criteria when `Parse` completes, false and
   * null when it raises a parse error; any other exception passes through.
   */
  method TryParse(filter: Option<string>, tokenize: string -> seq<Token>, r: Resolvers) returns (res: Outcome<TryParsed>)
    ensures ParseFilter(filter, tokenize, r).Success? <==> res.Success? && res.value.parsed
    ensures ParseFilter(filter, tokenize, r).Success? ==> res == Success(TryParsed(true, Some(ParseFilter(filter, tokenize, r).value)))
    ensures ParseFilter(filter, tokenize, r).Failure? && ParseFilter(filter, tokenize, r).error.ParseFailure? ==>
      res == Success(TryParsed(false, None))
    ensures ParseFilter(filter, tokenize, r).Failure? && !ParseFilter(filter, tokenize, r).error.ParseFailure? ==>
      res == Failure(ParseFilter(filter, tokenize, r).error)
  {
    var parsed := Parse(filter, tokenize, r);
    match parsed
    case Success(c) => res := Success(TryParsed(true, Some(c)));
    case Failure(ParseFailure(_)) => res := Success(TryParsed(false, None));
    case Failure(e) => res := Failure(e);
  }
}

/**
 * What the compiler promises: the parameter names the counter hands out,
 * the text classification of quoted strings, the runs a binary group is
 * split into and the one child per run, and the outcomes of `Parse` and
 * `TryParse`.
 */
module CriteriaParseProperties {

  import opened Wrappers
  import opened Strings
  import opened Tokens
  import opened Values
  import opened Faults
  import opened Expressions
  import opened CriteriaTree
  import opened CriteriaParse
  import S = SyntaxTrees
  import P = Parameters
  import O = Operators
  import BP = OperatorBuilderProperties

  // ---- token classification ----

  /** An operator keyword wins over every other reading of the token, whatever its kind and whatever the callbacks say. */
  lemma {:induction false} OperatorComesFirst(t: Token, r: Resolvers, n: nat)
    requires O.Parse(t.value).Some?
    ensures TokenToSqlFragment(t, r, n) == Success(Counted(OpFrag(O.Parse(t.value).value), n))
  {
  }

  /**
   * A quoted string loses only its first and last characters: doubled
   * quotes inside are kept as they are.
   */
  lemma {:induction false} QuotedStringValue(t: Token, r: Resolvers, n: nat)
    requires O.Parse(t.value).None? && t.value != "," && t.kind == QuotedString && |t.value| >= 2
    ensures var res := TokenToSqlFragment(t, r, n);
      res.Success? && res.value.counter == n + 1 && res.value.value.ParamFrag? &&
      res.value.value.param.value == Str(t.value[1..|t.value| - 1]) &&
      [t.value[0]] + res.value.value.param.value.s + [t.value[|t.value| - 1]] == t.value
  {
    OperandQuoted(t, r, n);
    OperandOfNoOperator(t, r, n);
    OuterCharacters(t.value);
  }

  lemma {:induction false} OperandOfNoOperator(t: Token, r: Resolvers, n: nat)
    requires O.Parse(t.value).None?
    ensures TokenToSqlFragment(t, r, n) == OperandFragment(t, r, n)
  {
  }

  lemma {:induction false} OuterCharacters(v: string)
    requires |v| >= 2
    ensures [v[0]] + v[1..|v| - 1] + [v[|v| - 1]] == v
  {
  }

  lemma {:induction false} OperandQuoted(t: Token, r: Resolvers, n: nat)
    requires t.value != "," && t.kind == QuotedString && |t.value| >= 2
    ensures OperandFragment(t, r, n) == Success(NextParameter(Str(t.value[1..|t.value| - 1]), n))
  {
  }

  /** The readings after the operator lookup, in order, all fail. */
  predicate NoOperandReading(t: Token, r: Resolvers) {
    t.value != "," && t.kind != QuotedString &&
    r.number(t.value).None? && r.field(t.value).None? && r.constant(t.value).None? &&
    !EqualsIgnoreCase(t.value, "true") && !EqualsIgnoreCase(t.value, "false") && !EqualsIgnoreCase(t.value, "null")
  }

  lemma {:induction false} OperandUnparsedMeans(t: Token, r: Resolvers, n: nat)
    ensures OperandFragment(t, r, n) == Success(Counted(Unparsed(t), n)) <==> NoOperandReading(t, r)
  {
  }

  /** A token stays unparsed exactly when no reading applies. */
  lemma {:induction false} UnparsedMeans(t: Token, r: Resolvers, n: nat)
    ensures TokenToSqlFragment(t, r, n) == Success(Counted(Unparsed(t), n)) <==>
      O.Parse(t.value).None? && NoOperandReading(t, r)
  {
    if O.Parse(t.value).None? {
      assert TokenToSqlFragment(t, r, n) == OperandFragment(t, r, n);
      OperandUnparsedMeans(t, r, n);
    }
  }

  // ---- the names the counter hands out ----

  /** `Filter<first>`, ..., `Filter<last - 1>`. */
  function NameRange(first: nat, last: nat): (r: seq<string>)
    requires first <= last
    ensures |r| == last - first
    decreases last - first
  {
    if first == last then [] else [ParameterName(first)] + NameRange(first + 1, last)
  }

  lemma {:induction false} NameRangeMembers(first: nat, last: nat, s: string)
    requires first <= last
    ensures s in NameRange(first, last) <==> exists k :: first <= k < last && s == ParameterName(k)
    decreases last - first
  {
    if first < last {
      NameRangeMembers(first + 1, last, s);
    }
  }

  lemma {:induction false} ParameterNameInjective(a: nat, b: nat)
    requires ParameterName(a) == ParameterName(b)
    ensures a == b
  {
    var pa, pb := ParameterName(a), ParameterName(b);
    assert NatToString(a) == pa[6..] && NatToString(b) == pb[6..];
    NatToStringInjective(a, b);
  }

  /** The counter never hands out the same name twice. */
  lemma {:induction false} NameRangeDistinct(first: nat, last: nat)
    requires first <= last
    ensures forall i, j :: 0 <= i < j < last - first ==> NameRange(first, last)[i] != NameRange(first, last)[j]
    decreases last - first
  {
    if first < last {
      NameRangeDistinct(first + 1, last);
      var rest := NameRange(first + 1, last);
      forall j | 0 <= j < |rest| ensures rest[j] != ParameterName(first) {
        NameRangeMembers(first + 1, last, rest[j]);
        var k :| first + 1 <= k < last && rest[j] == ParameterName(k);
        if rest[j] == ParameterName(first) {
          ParameterNameInjective(k, first);
        }
      }
    }
  }

  /**
   * The parameters made from one node's tokens are named `Filter<n>`,
   * `Filter<n + 1>`, ... in token order, one name for each step of the
   * counter.
   */
  lemma {:induction false} FragmentNames(f: Fragment, fs: seq<Fragment>)
    requires !f.ExprFrag?
    ensures P.Names(ArgsOccurrences([f] + fs)) == (if f.ParamFrag? then [f.param.name] else []) + P.Names(ArgsOccurrences(fs))
  {
    assert ([f] + fs)[0] == f && ([f] + fs)[1..] == fs;
    P.NamesAppend(FragmentOccurrences(f), ArgsOccurrences(fs));
    assert P.Names(FragmentOccurrences(f)) == if f.ParamFrag? then [f.param.name] else [];
  }

  lemma {:induction false} TokenFragmentsNames(ts: seq<Token>, r: Resolvers, n: nat)
    requires TokenFragments(ts, r, n).Success?
    ensures TokenFragments(ts, r, n).value.counter >= n
    ensures P.Names(ArgsOccurrences(TokenFragments(ts, r, n).value.value)) == NameRange(n, TokenFragments(ts, r, n).value.counter)
    decreases |ts|
  {
    TokenFragmentsShape(ts, r, n);
    if ts != [] {
      var head := TokenToSqlFragment(ts[0], r, n);
      TokenToSqlFragmentMeans(ts[0], r, n);
      var f, m := head.value.value, head.value.counter;
      var rest := TokenFragments(ts[1..], r, m);
      TokenFragmentsNames(ts[1..], r, m);
      var fs, k := rest.value.value, rest.value.counter;
      assert TokenFragments(ts, r, n) == Success(Counted([f] + fs, k));
      FragmentNames(f, fs);
      if f.ParamFrag? {
        assert m == n + 1 && f.param.name == ParameterName(n);
        assert NameRange(n, k) == [ParameterName(n)] + NameRange(n + 1, k);
      } else {
        assert m == n;
        assert [] + NameRange(n, k) == NameRange(n, k);
      }
    }
  }

  lemma {:induction false} NameRangeAppend(a: nat, b: nat, c: nat)
    requires a <= b <= c
    ensures NameRange(a, b) + NameRange(b, c) == NameRange(a, c)
    decreases b - a
  {
    if a < b {
      NameRangeAppend(a + 1, b, c);
      assert NameRange(a, b) + NameRange(b, c) == [ParameterName(a)] + (NameRange(a + 1, b) + NameRange(b, c));
    }
  }

  /** The names of the parameters in one list, then in another, range over the counter from start to finish. */
  lemma {:induction false} NamesJoin(x: seq<P.Parameter>, y: seq<P.Parameter>, a: nat, b: nat, c: nat)
    requires a <= b <= c && P.Names(x) == NameRange(a, b) && P.Names(y) == NameRange(b, c)
    ensures P.Names(x + y) == NameRange(a, c)
  {
    P.NamesAppend(x, y);
    NameRangeAppend(a, b, c);
  }

  lemma {:induction false} ArgsOccurrencesJoin(x: seq<Fragment>, y: seq<Fragment>, a: nat, b: nat, c: nat)
    requires a <= b <= c && P.Names(ArgsOccurrences(x)) == NameRange(a, b) && P.Names(ArgsOccurrences(y)) == NameRange(b, c)
    ensures P.Names(ArgsOccurrences(x + y)) == NameRange(a, c)
  {
    ArgsOccurrencesAppend(x, y);
    NamesJoin(ArgsOccurrences(x), ArgsOccurrences(y), a, b, c);
  }

  lemma {:induction false} SingleOccurrences(e: Expr)
    ensures ArgsOccurrences([ExprFrag(e)]) == Occurrences(e)
  {
    assert [ExprFrag(e)][1..] == [];
  }

  // ---- each parameter of a compile is named once ----

  /**
   * Flattening a node names its parameters `Filter<n>`, `Filter<n + 1>`,
   * ... up to the counter it hands back, in fragment order.
   */
  lemma {:induction false} FlattenNames(ns: seq<S.Node>, i: nat, r: Resolvers, n: nat)
    requires S.ArenaOk(ns) && i < |ns|
    ensures Flatten(ns, i, r, n).Success? ==>
      P.Names(ArgsOccurrences(Flatten(ns, i, r, n).value.value)) == NameRange(n, Flatten(ns, i, r, n).value.counter)
    decreases |ns| - i, 3, 0
  {
    var node := ns[i];
    ChildrenAfter(ns, i);
    if node.nodeType == S.NodeType.Group {
      ToExpressionNames(ns, node.children, i, r, n);
      var e := ToExpression(ns, node.children, i, r, n);
      if e.Success? {
        SingleOccurrences(Group(e.value.value));
      }
    } else if TokenFragments(node.tokens, r, n).Success? {
      TokenFragmentsNames(node.tokens, r, n);
      var m := TokenFragments(node.tokens, r, n).value.counter;
      FlattenChildrenNames(ns, node.children, i, r, m);
      var gs := FlattenChildren(ns, node.children, i, r, m);
      if gs.Success? {
        ArgsOccurrencesJoin(TokenFragments(node.tokens, r, n).value.value, gs.value.value, n, m, gs.value.counter);
      }
    }
  }

  lemma {:induction false} ChildFragmentsNames(ns: seq<S.Node>, c: nat, lo: int, r: Resolvers, n: nat)
    requires S.ArenaOk(ns) && -1 <= lo < c < |ns|
    ensures ChildFragments(ns, c, lo, r, n).Success? ==>
      P.Names(ArgsOccurrences(ChildFragments(ns, c, lo, r, n).value.value)) == NameRange(n, ChildFragments(ns, c, lo, r, n).value.counter)
    decreases |ns| - lo, 2, 0
  {
    if ns[c].nodeType == S.NodeType.Group {
      ToExpressionNames(ns, [c], lo, r, n);
      var e := ToExpression(ns, [c], lo, r, n);
      if e.Success? {
        SingleOccurrences(e.value.value);
      }
    } else {
      FlattenNames(ns, c, r, n);
    }
  }

  lemma {:induction false} FlattenChildrenNames(ns: seq<S.Node>, cs: seq<nat>, lo: int, r: Resolvers, n: nat)
    requires S.ArenaOk(ns) && -1 <= lo && forall c :: c in cs ==> lo < c < |ns|
    ensures FlattenChildren(ns, cs, lo, r, n).Success? ==>
      P.Names(ArgsOccurrences(FlattenChildren(ns, cs, lo, r, n).value.value)) == NameRange(n, FlattenChildren(ns, cs, lo, r, n).value.counter)
    decreases |ns| - lo, 2, |cs|
  {
    if cs != [] {
      assert cs[0] in cs && forall c :: c in cs[1..] ==> c in cs;
      ChildFragmentsNames(ns, cs[0], lo, r, n);
      var head := ChildFragments(ns, cs[0], lo, r, n);
      if head.Success? {
        FlattenChildrenNames(ns, cs[1..], lo, r, head.value.counter);
        var rest := FlattenChildren(ns, cs[1..], lo, r, head.value.counter);
        if rest.Success? {
          ArgsOccurrencesJoin(head.value.value, rest.value.value, n, head.value.counter, rest.value.counter);
        }
      }
    }
  }

  lemma {:induction false} FlattenAllNames(ns: seq<S.Node>, cs: seq<nat>, lo: int, r: Resolvers, n: nat)
    requires S.ArenaOk(ns) && -1 <= lo && forall c :: c in cs ==> lo < c < |ns|
    ensures FlattenAll(ns, cs, lo, r, n).Success? ==>
      P.Names(ArgsOccurrences(FlattenAll(ns, cs, lo, r, n).value.value)) == NameRange(n, FlattenAll(ns, cs, lo, r, n).value.counter)
    decreases |ns| - lo, 0, |cs|
  {
    if cs != [] {
      assert cs[0] in cs && forall c :: c in cs[1..] ==> c in cs;
      FlattenNames(ns, cs[0], r, n);
      var head := Flatten(ns, cs[0], r, n);
      if head.Success? {
        FlattenAllNames(ns, cs[1..], lo, r, head.value.counter);
        var rest := FlattenAll(ns, cs[1..], lo, r, head.value.counter);
        if rest.Success? {
          ArgsOccurrencesJoin(head.value.value, rest.value.value, n, head.value.counter, rest.value.counter);
        }
      }
    }
  }

  /**
   * The expression of a list of nodes holds exactly the parameters of their
   * fragments, named `Filter<n>`, `Filter<n + 1>`, ... up to the counter it
   * hands back.
   */
  lemma {:induction false} ToExpressionNames(ns: seq<S.Node>, cs: seq<nat>, lo: int, r: Resolvers, n: nat)
    requires S.ArenaOk(ns) && -1 <= lo && forall c :: c in cs ==> lo < c < |ns|
    ensures ToExpression(ns, cs, lo, r, n).Success? ==>
      P.Names(Occurrences(ToExpression(ns, cs, lo, r, n).value.value)) == NameRange(n, ToExpression(ns, cs, lo, r, n).value.counter)
    decreases |ns| - lo, 1, 0
  {
    FlattenAllNames(ns, cs, lo, r, n);
    var all := FlattenAll(ns, cs, lo, r, n);
    if all.Success? {
      var frags := all.value.value;
      if LoneGroup(cs, frags) {
        assert frags == [ExprFrag(frags[0].expr)];
        SingleOccurrences(frags[0].expr);
      } else {
        BP.BuildExprOccurrences(frags);
      }
    }
  }

  /**
   * The expression of a list of nodes is a group exactly when they flatten
   * to a lone group expression, which it then is; otherwise it is the
   * operator builder's expression over the fragments, and when the builder
   * fails the compile fails with its error. The counter is the flattening's.
   */
  lemma {:induction false} ToExpressionShape(ns: seq<S.Node>, cs: seq<nat>, lo: int, r: Resolvers, n: nat)
    requires S.ArenaOk(ns) && -1 <= lo && forall c :: c in cs ==> lo < c < |ns|
    ensures FlattenAll(ns, cs, lo, r, n).Failure? ==> ToExpression(ns, cs, lo, r, n) == Failure(FlattenAll(ns, cs, lo, r, n).error)
    ensures FlattenAll(ns, cs, lo, r, n).Success? ==>
      var frags := FlattenAll(ns, cs, lo, r, n).value.value;
      var e := ToExpression(ns, cs, lo, r, n);
      (e.Success? ==> e.value.counter == FlattenAll(ns, cs, lo, r, n).value.counter &&
                      (e.value.value.Group? <==> LoneGroup(cs, frags)) &&
                      (LoneGroup(cs, frags) ==> [ExprFrag(e.value.value)] == frags) &&
                      (!LoneGroup(cs, frags) ==> B.BuildExpr(frags) == Success(e.value.value) && e.value.value.OpExpr?)) &&
      (e.Failure? <==> !LoneGroup(cs, frags) && B.BuildExpr(frags).Failure?) &&
      (e.Failure? ==> e.error == ParseFailure(B.BuildExpr(frags).error))
  {
    var all := FlattenAll(ns, cs, lo, r, n);
    if all.Success? {
      var frags := all.value.value;
      if LoneGroup(cs, frags) {
        assert frags == [ExprFrag(frags[0].expr)];
      } else {
        BP.BuildExprOccurrences(frags);
      }
    }
  }

  /**
   * A `Group` node flattens to one group expression; any other node to the
   * fragments of its tokens, one per token and in token order, followed by
   * those of its children.
   */
  lemma {:induction false} FlattenShape(ns: seq<S.Node>, i: nat, r: Resolvers, n: nat)
    requires S.ArenaOk(ns) && i < |ns|
    ensures Flatten(ns, i, r, n).Success? && ns[i].nodeType == S.NodeType.Group ==>
      |Flatten(ns, i, r, n).value.value| == 1 && Flatten(ns, i, r, n).value.value[0].ExprFrag? &&
      Flatten(ns, i, r, n).value.value[0].expr.Group?
    ensures Flatten(ns, i, r, n).Success? && ns[i].nodeType != S.NodeType.Group ==>
      TokenFragments(ns[i].tokens, r, n).Success? &&
      |ns[i].tokens| <= |Flatten(ns, i, r, n).value.value| &&
      Flatten(ns, i, r, n).value.value[..|ns[i].tokens|] == TokenFragments(ns[i].tokens, r, n).value.value
    ensures Flatten(ns, i, r, n).Success? && ns[i].nodeType != S.NodeType.Group ==>
      TokenFragments(ns[i].tokens, r, n).Success? &&
      (forall c :: c in ns[i].children ==> i < c < |ns|) &&
      FlattenChildren(ns, ns[i].children, i, r, TokenFragments(ns[i].tokens, r, n).value.counter).Success? &&
      Flatten(ns, i, r, n).value.value[|ns[i].tokens|..] ==
        FlattenChildren(ns, ns[i].children, i, r, TokenFragments(ns[i].tokens, r, n).value.counter).value.value &&
      Flatten(ns, i, r, n).value.counter ==
        FlattenChildren(ns, ns[i].children, i, r, TokenFragments(ns[i].tokens, r, n).value.counter).value.counter
  {
    ChildrenAfter(ns, i);
    if ns[i].nodeType != S.NodeType.Group && TokenFragments(ns[i].tokens, r, n).Success? {
      TokenFragmentsShape(ns[i].tokens, r, n);
      var fs := TokenFragments(ns[i].tokens, r, n).value.value;
      var gs := FlattenChildren(ns, ns[i].children, i, r, TokenFragments(ns[i].tokens, r, n).value.counter);
      if gs.Success? {
        assert (fs + gs.value.value)[..|fs|] == fs;
        assert (fs + gs.value.value)[|fs|..] == gs.value.value;
      }
    }
  }

  /** An expression criteria holds the parameters of its node's expression. */
  lemma {:induction false} ExpressionCriteriaNames(ns: seq<S.Node>, i: nat, r: Resolvers, n: nat)
    requires S.ArenaOk(ns) && i < |ns|
    ensures ExpressionCriteria(ns, i, r, n).Success? ==>
      P.Names(CriteriaOccurrences(ExpressionCriteria(ns, i, r, n).value.value)) == NameRange(n, ExpressionCriteria(ns, i, r, n).value.counter)
  {
    ToExpressionNames(ns, [i], i - 1, r, n);
    var e := ToExpression(ns, [i], i - 1, r, n);
    if e.Success? {
      CriteriaOccurrencesOfConstructions(Empty, e.value.value, NewCriteria(Empty), NewCriteria(Empty));
    }
  }

  /**
   * The criteria built from a node holds parameters named `Filter<n>`,
   * `Filter<n + 1>`, ... up to the counter it hands back, depth-first in
   * child order.
   */
  lemma {:induction false} BuildCriteriaNames(ns: seq<S.Node>, i: nat, r: Resolvers, n: nat)
    requires S.ArenaOk(ns) && i < |ns|
    ensures BuildCriteria(ns, i, r, n).Success? ==>
      P.Names(CriteriaOccurrences(BuildCriteria(ns, i, r, n).value.value)) == NameRange(n, BuildCriteria(ns, i, r, n).value.counter)
    decreases |ns| - i, 2, 0
  {
    var node := ns[i];
    ChildrenAfter(ns, i);
    if node.tokens == [] && node.nodeType == S.NodeType.Unknown && |node.children| == 1 {
      assert node.children[0] in node.children;
      BuildCriteriaNames(ns, node.children[0], r, n);
    } else if node.nodeType == S.BinaryGroup && FirstBinary(ns, ns[GroupNode(ns, i)].children).Some? {
      var g := GroupNode(ns, i);
      ChildrenAfter(ns, g);
      var marker := ns[FirstBinary(ns, ns[g].children).value];
      if marker.tokens != [] {
        var crit := NewCriteria(Connective(marker.tokens[0]));
        CriteriaOccurrencesOfConstructions(crit.criteriaType, Group(Fragments([])), crit, crit);
        AddRunsNames(ns, ns[g].children, 0, g, [], crit, r, n, n);
      }
    } else {
      ExpressionCriteriaNames(ns, i, r, n);
    }
  }

  lemma {:induction false} RunCriteriaNames(ns: seq<S.Node>, run: seq<nat>, lo: nat, r: Resolvers, n: nat)
    requires S.ArenaOk(ns) && run != [] && forall c :: c in run ==> lo < c < |ns|
    ensures RunCriteria(ns, run, lo, r, n).Success? ==>
      P.Names(CriteriaOccurrences(RunCriteria(ns, run, lo, r, n).value.value)) == NameRange(n, RunCriteria(ns, run, lo, r, n).value.counter)
    decreases |ns| - lo, 0, 0
  {
    if |run| == 1 {
      assert run[0] in run;
      BuildCriteriaNames(ns, run[0], r, n);
    } else {
      ToExpressionNames(ns, run, lo, r, n);
      var e := ToExpression(ns, run, lo, r, n);
      if e.Success? {
        ToCriteriaOccurrences(e.value.value);
      }
    }
  }

  /** A run adds a child holding the next names of the counter after those the criteria already holds. */
  lemma {:induction false} CreateFromNodesNames(ns: seq<S.Node>, run: seq<nat>, lo: nat, crit: Criteria, r: Resolvers, n: nat,
                                                base: nat)
    requires S.ArenaOk(ns) && forall c :: c in run ==> lo < c < |ns|
    requires base <= n && P.Names(CriteriaOccurrences(crit)) == NameRange(base, n)
    ensures CreateFromNodes(ns, run, lo, crit, r, n).Success? ==>
      P.Names(CriteriaOccurrences(CreateFromNodes(ns, run, lo, crit, r, n).value.value))
      == NameRange(base, CreateFromNodes(ns, run, lo, crit, r, n).value.counter)
    decreases |ns| - lo, 0, 1
  {
    if run != [] {
      RunCriteriaNames(ns, run, lo, r, n);
      var c := RunCriteria(ns, run, lo, r, n);
      if c.Success? {
        CriteriaOccurrencesOfConstructions(Empty, Group(Fragments([])), crit, c.value.value);
        NamesJoin(CriteriaOccurrences(crit), CriteriaOccurrences(c.value.value), base, n, c.value.counter);
      }
    }
  }

  /** The partition loop adds the children of the runs, each holding the next names of the counter. */
  lemma {:induction false} AddRunsNames(ns: seq<S.Node>, cs: seq<nat>, k: nat, lo: nat, pending: seq<nat>, crit: Criteria,
                                        r: Resolvers, n: nat, base: nat)
    requires S.ArenaOk(ns) && k <= |cs|
    requires forall c :: c in cs ==> lo < c < |ns|
    requires forall c :: c in pending ==> lo < c < |ns|
    requires base <= n && P.Names(CriteriaOccurrences(crit)) == NameRange(base, n)
    ensures AddRuns(ns, cs, k, lo, pending, crit, r, n).Success? ==>
      P.Names(CriteriaOccurrences(AddRuns(ns, cs, k, lo, pending, crit, r, n).value.value))
      == NameRange(base, AddRuns(ns, cs, k, lo, pending, crit, r, n).value.counter)
    decreases |ns| - lo, 1, |cs| - k
  {
    if k == |cs| {
      CreateFromNodesNames(ns, pending, lo, crit, r, n, base);
    } else {
      assert cs[k] in cs;
      if ns[cs[k]].nodeType == S.Binary {
        CreateFromNodesNames(ns, pending, lo, crit, r, n, base);
        var c := CreateFromNodes(ns, pending, lo, crit, r, n);
        if c.Success? {
          AddRunsNames(ns, cs, k + 1, lo, [], c.value.value, r, c.value.counter, base);
        }
      } else {
        AddRunsNames(ns, cs, k + 1, lo, pending + [cs[k]], crit, r, n, base);
      }
    }
  }

  /**
   * A compiled filter's parameters are named `Filter0`, `Filter1`, ... in
   * the order the tree holds them, so no two share a name: `GetAllParameters`
   * lists each under a name of its own, and `GetDistinctParameters` drops
   * none of them.
   */
  lemma {:induction false} CompileNames(tokens: seq<Token>, r: Resolvers)
    requires Compile(tokens, r).Success?
    ensures P.Names(CriteriaOccurrences(Compile(tokens, r).value)) == NameRange(0, |CriteriaOccurrences(Compile(tokens, r).value)|)
    ensures P.UniqueNames(AllParameters(Compile(tokens, r).value))
    ensures DistinctByName(AllParameters(Compile(tokens, r).value)) == AllParameters(Compile(tokens, r).value)
  {
    var ns := S.SyntaxTree(tokens).value;
    var built := BuildCriteria(ns, 0, r, 0);
    BuildCriteriaNames(ns, 0, r, 0);
    var c := built.value.value;
    var occ := CriteriaOccurrences(c);
    NameRangeDistinct(0, built.value.counter);
    assert P.UniqueNames(occ) by {
      forall i, j | 0 <= i < j < |occ| ensures occ[i].name != occ[j].name {
        assert P.Names(occ)[i] == occ[i].name && P.Names(occ)[j] == occ[j].name;
      }
    }
    AllParametersUnique(c);
    DistinctByNameOfUnique(AllParameters(c));
  }

  // ---- the runs of a binary group ----

  /** A pending run becomes a run only when it holds a node. */
  function NonEmpty(run: seq<nat>): seq<seq<nat>> {
    if run == [] then [] else [run]
  }

  /** The runs the partition loop closes from child `k` on, with `pending` collected so far. */
  function Runs(ns: seq<S.Node>, cs: seq<nat>, k: nat, pending: seq<nat>): seq<seq<nat>>
    requires k <= |cs| && forall c :: c in cs ==> c < |ns|
    decreases |cs| - k
  {
    if k == |cs| then NonEmpty(pending)
    else if assert cs[k] in cs; ns[cs[k]].nodeType == S.Binary then NonEmpty(pending) + Runs(ns, cs, k + 1, [])
    else Runs(ns, cs, k + 1, pending + [cs[k]])
  }

  /** The runs one after the other. */
  function Concat(runs: seq<seq<nat>>): seq<nat>
    decreases |runs|
  {
    if runs == [] then [] else runs[0] + Concat(runs[1..])
  }

  /** The children from `k` on that are not markers, in order. */
  function Unmarked(ns: seq<S.Node>, cs: seq<nat>, k: nat): seq<nat>
    requires k <= |cs| && forall c :: c in cs ==> c < |ns|
    decreases |cs| - k
  {
    if k == |cs| then []
    else if assert cs[k] in cs; ns[cs[k]].nodeType == S.Binary then Unmarked(ns, cs, k + 1)
    else [cs[k]] + Unmarked(ns, cs, k + 1)
  }

  lemma {:induction false} ConcatAppend(a: seq<seq<nat>>, b: seq<seq<nat>>)
    ensures Concat(a + b) == Concat(a) + Concat(b)
    decreases |a|
  {
    if a == [] {
      assert a + b == b;
    } else {
      assert (a + b)[0] == a[0] && (a + b)[1..] == a[1..] + b;
      ConcatAppend(a[1..], b);
    }
  }

  lemma {:induction false} ConcatNonEmpty(run: seq<nat>)
    ensures Concat(NonEmpty(run)) == run
  {
    if run != [] {
      assert [run][1..] == [];
    }
  }

  /** One after the other, the runs give exactly the unmarked children in order. */
  lemma {:induction false} RunsPartition(ns: seq<S.Node>, cs: seq<nat>, k: nat, pending: seq<nat>)
    requires k <= |cs| && forall c :: c in cs ==> c < |ns|
    ensures Concat(Runs(ns, cs, k, pending)) == pending + Unmarked(ns, cs, k)
    decreases |cs| - k
  {
    if k == |cs| {
      ConcatNonEmpty(pending);
      assert pending + [] == pending;
    } else {
      assert cs[k] in cs;
      if ns[cs[k]].nodeType == S.Binary {
        RunsPartition(ns, cs, k + 1, []);
        MarkerClosesRun(ns, cs, k, pending);
      } else {
        RunsPartition(ns, cs, k + 1, pending + [cs[k]]);
        ChildJoinsRun(ns, cs, k, pending);
      }
    }
  }

  /** A marker closes the pending run and is itself dropped. */
  lemma {:induction false} MarkerClosesRun(ns: seq<S.Node>, cs: seq<nat>, k: nat, pending: seq<nat>)
    requires k < |cs| && forall c :: c in cs ==> c < |ns|
    requires cs[k] < |ns| && ns[cs[k]].nodeType == S.Binary
    requires Concat(Runs(ns, cs, k + 1, [])) == [] + Unmarked(ns, cs, k + 1)
    ensures Concat(Runs(ns, cs, k, pending)) == pending + Unmarked(ns, cs, k)
  {
    var rest := Runs(ns, cs, k + 1, []);
    assert Runs(ns, cs, k, pending) == NonEmpty(pending) + rest;
    assert Unmarked(ns, cs, k) == Unmarked(ns, cs, k + 1);
    ConcatAppend(NonEmpty(pending), rest);
    ConcatNonEmpty(pending);
  }

  /** Any other child joins the pending run. */
  lemma {:induction false} ChildJoinsRun(ns: seq<S.Node>, cs: seq<nat>, k: nat, pending: seq<nat>)
    requires k < |cs| && forall c :: c in cs ==> c < |ns|
    requires cs[k] < |ns| && ns[cs[k]].nodeType != S.Binary
    requires Concat(Runs(ns, cs, k + 1, pending + [cs[k]])) == pending + [cs[k]] + Unmarked(ns, cs, k + 1)
    ensures Concat(Runs(ns, cs, k, pending)) == pending + Unmarked(ns, cs, k)
  {
    assert Runs(ns, cs, k, pending) == Runs(ns, cs, k + 1, pending + [cs[k]]);
    assert Unmarked(ns, cs, k) == [cs[k]] + Unmarked(ns, cs, k + 1);
    assert pending + [cs[k]] + Unmarked(ns, cs, k + 1) == pending + ([cs[k]] + Unmarked(ns, cs, k + 1));
  }

  /** No run is empty and none holds a marker. */
  lemma {:induction false} RunsUnmarked(ns: seq<S.Node>, cs: seq<nat>, k: nat, pending: seq<nat>)
    requires k <= |cs| && forall c :: c in cs ==> c < |ns|
    requires forall c :: c in pending ==> c < |ns| && ns[c].nodeType != S.Binary
    ensures forall j :: 0 <= j < |Runs(ns, cs, k, pending)| ==>
      Runs(ns, cs, k, pending)[j] != [] &&
      (forall c :: c in Runs(ns, cs, k, pending)[j] ==> c < |ns| && ns[c].nodeType != S.Binary)
    decreases |cs| - k
  {
    if k < |cs| {
      assert cs[k] in cs;
      if ns[cs[k]].nodeType == S.Binary {
        RunsUnmarked(ns, cs, k + 1, []);
      } else {
        RunsUnmarked(ns, cs, k + 1, pending + [cs[k]]);
      }
    }
  }

  /** Every node of every run lies strictly after `lo`. */
  predicate RunsAfter(ns: seq<S.Node>, runs: seq<seq<nat>>, lo: nat) {
    forall j :: 0 <= j < |runs| ==> forall c :: c in runs[j] ==> lo < c < |ns|
  }

  /** `CreateCriteriaFromNodes` applied to the runs in order. */
  function AddAll(ns: seq<S.Node>, runs: seq<seq<nat>>, lo: nat, crit: Criteria, r: Resolvers, n: nat): Outcome<Counted<Criteria>>
    requires S.ArenaOk(ns) && RunsAfter(ns, runs, lo)
    decreases |runs|
  {
    if runs == [] then Success(Counted(crit, n))
    else
      match CreateFromNodes(ns, runs[0], lo, crit, r, n)
      case Failure(e) => Failure(e)
      case Success(Counted(c, m)) => AddAll(ns, runs[1..], lo, c, r, m)
  }

  lemma {:induction false} RunsStayAfter(ns: seq<S.Node>, cs: seq<nat>, k: nat, lo: nat, pending: seq<nat>)
    requires k <= |cs| && forall c :: c in cs ==> lo < c < |ns|
    requires forall c :: c in pending ==> lo < c < |ns|
    ensures RunsAfter(ns, Runs(ns, cs, k, pending), lo)
    decreases |cs| - k
  {
    if k < |cs| {
      assert cs[k] in cs;
      if ns[cs[k]].nodeType == S.Binary {
        RunsStayAfter(ns, cs, k + 1, lo, []);
      } else {
        RunsStayAfter(ns, cs, k + 1, lo, pending + [cs[k]]);
      }
    }
  }

  /** The partition loop adds the runs' criteria, run after run. */
  lemma {:induction false} AddRunsIsAddAll(ns: seq<S.Node>, cs: seq<nat>, k: nat, lo: nat, pending: seq<nat>, crit: Criteria, r: Resolvers, n: nat)
    requires S.ArenaOk(ns) && k <= |cs|
    requires forall c :: c in cs ==> lo < c < |ns|
    requires forall c :: c in pending ==> lo < c < |ns|
    ensures RunsAfter(ns, Runs(ns, cs, k, pending), lo)
    ensures AddRuns(ns, cs, k, lo, pending, crit, r, n) == AddAll(ns, Runs(ns, cs, k, pending), lo, crit, r, n)
    decreases |cs| - k
  {
    RunsStayAfter(ns, cs, k, lo, pending);
    if k == |cs| {
      if pending != [] {
        assert [pending][1..] == [];
      }
    } else {
      assert cs[k] in cs;
      if ns[cs[k]].nodeType == S.Binary {
        var rest := Runs(ns, cs, k + 1, []);
        RunsStayAfter(ns, cs, k + 1, lo, []);
        if pending == [] {
          assert NonEmpty(pending) + rest == rest;
          AddRunsIsAddAll(ns, cs, k + 1, lo, [], crit, r, n);
        } else {
          var runs := [pending] + rest;
          assert runs[0] == pending && runs[1..] == rest;
          match CreateFromNodes(ns, pending, lo, crit, r, n)
          case Failure(e) =>
          case Success(Counted(c, m)) =>
            AddRunsIsAddAll(ns, cs, k + 1, lo, [], c, r, m);
        }
      } else {
        AddRunsIsAddAll(ns, cs, k + 1, lo, pending + [cs[k]], crit, r, n);
      }
    }
  }

  /**
   * The children from position `base` on are the runs' criteria, one per
   * run and in run order, the first compiled at counter `n` and each later
   * one at the counter the run before it left; `m` is the counter after the
   * last run.
   */
  predicate ChildPerRun(ns: seq<S.Node>, runs: seq<seq<nat>>, lo: nat, r: Resolvers, children: seq<Criteria>, base: nat, n: nat, m: nat)
    requires S.ArenaOk(ns) && RunsAfter(ns, runs, lo) && base + |runs| <= |children|
    requires forall j :: 0 <= j < |runs| ==> runs[j] != []
    decreases |runs|
  {
    if runs == [] then n == m
    else
      var first := RunCriteria(ns, runs[0], lo, r, n);
      assert forall j :: 0 <= j < |runs| - 1 ==> runs[1..][j] == runs[j + 1];
      first.Success? && first.value.value == children[base] &&
      ChildPerRun(ns, runs[1..], lo, r, children, base + 1, first.value.counter, m)
  }

  /**
   * Adding non-empty runs keeps the criteria's type, expression and earlier
   * children and adds exactly one child per run.
   */
  lemma {:induction false} AddAllShape(ns: seq<S.Node>, runs: seq<seq<nat>>, lo: nat, crit: Criteria, r: Resolvers, n: nat)
    requires S.ArenaOk(ns) && RunsAfter(ns, runs, lo)
    requires forall j :: 0 <= j < |runs| ==> runs[j] != []
    requires AddAll(ns, runs, lo, crit, r, n).Success?
    ensures var c := AddAll(ns, runs, lo, crit, r, n).value.value;
      c.criteriaType == crit.criteriaType && c.expression == crit.expression &&
      |c.children| == |crit.children| + |runs| && c.children[..|crit.children|] == crit.children
    decreases |runs|
  {
    if runs != [] {
      var first := RunCriteria(ns, runs[0], lo, r, n).value;
      var next := Add(crit, first.value);
      assert CreateFromNodes(ns, runs[0], lo, crit, r, n) == Success(Counted(next, first.counter));
      AddAllShape(ns, runs[1..], lo, next, r, first.counter);
      var c := AddAll(ns, runs, lo, crit, r, n).value.value;
      assert c == AddAll(ns, runs[1..], lo, next, r, first.counter).value.value;
      assert c.children[..|crit.children|] == c.children[..|next.children|][..|crit.children|];
    }
  }

  /**
   * The child added for each run, in run order, is that run's criteria
   * compiled at the counter the runs before it left.
   */
  lemma {:induction false} AddAllChildren(ns: seq<S.Node>, runs: seq<seq<nat>>, lo: nat, crit: Criteria, r: Resolvers, n: nat)
    requires S.ArenaOk(ns) && RunsAfter(ns, runs, lo)
    requires forall j :: 0 <= j < |runs| ==> runs[j] != []
    requires AddAll(ns, runs, lo, crit, r, n).Success?
    ensures |AddAll(ns, runs, lo, crit, r, n).value.value.children| == |crit.children| + |runs|
    ensures ChildPerRun(ns, runs, lo, r, AddAll(ns, runs, lo, crit, r, n).value.value.children, |crit.children|,
                        n, AddAll(ns, runs, lo, crit, r, n).value.counter)
    decreases |runs|
  {
    AddAllShape(ns, runs, lo, crit, r, n);
    if runs != [] {
      AddAllCons(ns, runs, lo, crit, r, n);
      var first := RunCriteria(ns, runs[0], lo, r, n).value;
      var next := Add(crit, first.value);
      AddAllShape(ns, runs[1..], lo, next, r, first.counter);
      AddAllChildren(ns, runs[1..], lo, next, r, first.counter);
      var c := AddAll(ns, runs[1..], lo, next, r, first.counter).value.value;
      var base := |crit.children|;
      assert c.children[..base + 1][base] == next.children[base] == first.value;
    }
  }

  /** The first run compiles, its criteria is added, and the remaining runs are added after it. */
  lemma {:induction false} AddAllCons(ns: seq<S.Node>, runs: seq<seq<nat>>, lo: nat, crit: Criteria, r: Resolvers, n: nat)
    requires S.ArenaOk(ns) && RunsAfter(ns, runs, lo) && runs != [] && runs[0] != []
    requires AddAll(ns, runs, lo, crit, r, n).Success?
    ensures RunsAfter(ns, runs[1..], lo)
    ensures RunCriteria(ns, runs[0], lo, r, n).Success?
    ensures AddAll(ns, runs, lo, crit, r, n)
         == AddAll(ns, runs[1..], lo, Add(crit, RunCriteria(ns, runs[0], lo, r, n).value.value), r,
                   RunCriteria(ns, runs[0], lo, r, n).value.counter)
  {
    assert forall j :: 0 <= j < |runs[1..]| ==> runs[1..][j] == runs[j + 1];
  }

  /** The node `GroupNode` stops at is the one node on the only-child path that does not pass the descent on. */
  lemma {:induction false} GroupNodeUnique(ns: seq<S.Node>, i: nat, h: nat)
    requires S.ArenaOk(ns) && i < |ns| && h < |ns|
    requires OnlyChildPath(ns, i, h) && !PassesThrough(ns, h)
    ensures GroupNode(ns, i) == h
    decreases |ns| - i
  {
    if i != h {
      assert ns[i].children[0] in ns[i].children;
      GroupNodeUnique(ns, ns[i].children[0], h);
    }
  }

  /** The children of the group node of node `i`, all after it. */
  function GroupChildren(ns: seq<S.Node>, i: nat): (cs: seq<nat>)
    requires S.ArenaOk(ns) && i < |ns|
    ensures forall c :: c in cs ==> GroupNode(ns, i) < c < |ns|
  {
    ChildrenAfter(ns, GroupNode(ns, i));
    ns[GroupNode(ns, i)].children
  }

  /**
   * A binary group with a marker compiles to a criteria of the first
   * marker's connective, with no expression and one child per non-empty
   * run; the runs hold exactly the group's non-marker children, in order.
   */
  lemma {:induction false} BinaryGroupCriteria(ns: seq<S.Node>, i: nat, r: Resolvers, n: nat)
    requires S.ArenaOk(ns) && i < |ns| && ns[i].nodeType == S.BinaryGroup
    requires FirstBinary(ns, ns[GroupNode(ns, i)].children).Some?
    requires BuildCriteria(ns, i, r, n).Success?
    ensures var g := GroupNode(ns, i);
      var cs := GroupChildren(ns, i);
      var runs := Runs(ns, cs, 0, []);
      var marker := ns[FirstBinary(ns, cs).value];
      var c := BuildCriteria(ns, i, r, n).value.value;
      marker.tokens != [] && c.criteriaType == Connective(marker.tokens[0]) && c.expression.None? &&
      Concat(runs) == Unmarked(ns, cs, 0) && |c.children| == |runs| &&
      RunsAfter(ns, runs, g) &&
      (forall j :: 0 <= j < |runs| ==> runs[j] != [] && forall c :: c in runs[j] ==> ns[c].nodeType != S.Binary) &&
      ChildPerRun(ns, runs, g, r, c.children, 0, n, BuildCriteria(ns, i, r, n).value.counter)
  {
    var g := GroupNode(ns, i);
    ChildrenAfter(ns, g);
    var cs := ns[g].children;
    var marker := ns[FirstBinary(ns, cs).value];
    var crit := NewCriteria(Connective(marker.tokens[0]));
    var runs := Runs(ns, cs, 0, []);
    assert BuildCriteria(ns, i, r, n) == AddRuns(ns, cs, 0, g, [], crit, r, n);
    AddRunsIsAddAll(ns, cs, 0, g, [], crit, r, n);
    RunsPartition(ns, cs, 0, []);
    assert [] + Unmarked(ns, cs, 0) == Unmarked(ns, cs, 0);
    RunsUnmarked(ns, cs, 0, []);
    AddAllChildren(ns, runs, g, crit, r, n);
  }

  /** The tokenizer always sees a parenthesised text. */
  lemma {:induction false} WrapParenthesised(filter: string)
    ensures StartsWith(Wrap(filter), "(") && EndsWith(Wrap(filter), ")")
    ensures StartsWith(filter, "(") && EndsWith(filter, ")") ==> Wrap(filter) == filter
    ensures !(StartsWith(filter, "(") && EndsWith(filter, ")")) ==> Wrap(filter) == "(" + filter + ")"
  {
    var w := "(" + filter + ")";
    assert w[..1] == "(" && w[|w| - 1..] == ")";
  }

  /** Wrapping twice is wrapping once. */
  lemma {:induction false} WrapIdempotent(filter: string)
    ensures Wrap(Wrap(filter)) == Wrap(filter)
  {
    WrapParenthesised(filter);
  }

  /** A blank filter, and only a blank one, parses to the empty criteria. */
  lemma {:induction false} ParseEmptyIffBlank(filter: Option<string>, tokenize: string -> seq<Token>, r: Resolvers)
    ensures IsNullOrWhiteSpace(filter) ==> ParseFilter(filter, tokenize, r) == Success(NewCriteria(Empty))
    ensures ParseFilter(filter, tokenize, r).Success? && ParseFilter(filter, tokenize, r).value.criteriaType == Empty
      ==> IsNullOrWhiteSpace(filter)
  {
  }
}
