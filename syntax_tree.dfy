/**
 * The provisional syntax tree the compiler builds from the tokens
 * (Criteria.Parse.cs): one left-to-right pass with a cursor node that
 * opens function and group nodes on `(`, closes them on `)`, inserts
 * binary markers on `and`/`or` and stores every other token in the cursor;
 * then one pass that removes the empty leaves.
 *
 * The nodes live in an arena: node `i` is `nodes[i]`, node 0 is the root,
 * and links are indices. A child is always added at the end, so a child's
 * index is larger than its parent's.
 */
module SyntaxTrees {

  import opened Wrappers
  import opened Tokens
  import opened Faults
  import O = Operators

  datatype NodeType = Unknown | Binary | BinaryGroup | Group | Function

  /** A node: its type, its parent (`None` is null), its tokens and its children, in order. */
  datatype Node = Node(nodeType: NodeType, parent: Option<nat>, tokens: seq<Token>, children: seq<nat>)

  /** Links point inside the arena, children after their parent and parents before their child. */
  predicate ArenaOk(nodes: seq<Node>) {
    |nodes| > 0 &&
    forall i :: 0 <= i < |nodes| ==>
      (forall c :: c in nodes[i].children ==> i < c < |nodes|) &&
      (nodes[i].parent.Some? ==> nodes[i].parent.value < i)
  }

  /** `AddChild`: a new node at the end of the arena, appended to the parent's children. */
  function AddChildTo(nodes: seq<Node>, parent: nat, t: NodeType, tokens: seq<Token>): (r: seq<Node>)
    requires parent < |nodes|
    ensures |r| == |nodes| + 1 && r[|nodes|] == Node(t, Some(parent), tokens, [])
    ensures r[parent].children == nodes[parent].children + [|nodes|]
    ensures r[parent].nodeType == nodes[parent].nodeType && r[parent].tokens == nodes[parent].tokens
    ensures r[parent].parent == nodes[parent].parent
    ensures forall i :: 0 <= i < |nodes| && i != parent ==> r[i] == nodes[i]
  {
    nodes[parent := nodes[parent].(children := nodes[parent].children + [|nodes|])] + [Node(t, Some(parent), tokens, [])]
  }

  lemma {:induction false} AddChildKeepsArena(nodes: seq<Node>, parent: nat, t: NodeType, tokens: seq<Token>)
    requires ArenaOk(nodes) && parent < |nodes|
    ensures ArenaOk(AddChildTo(nodes, parent, t, tokens))
  {
    var r := AddChildTo(nodes, parent, t, tokens);
    forall i | 0 <= i < |r|
      ensures (forall c :: c in r[i].children ==> i < c < |r|) && (r[i].parent.Some? ==> r[i].parent.value < i)
    {
      if i == parent {
        assert forall c :: c in r[i].children ==> c in nodes[i].children || c == |nodes|;
      }
    }
  }

  /** The cursor state of the token loop. */
  datatype Builder = Builder(nodes: seq<Node>, cursor: nat)

  predicate WellFormed(b: Builder) {
    ArenaOk(b.nodes) && b.cursor < |b.nodes|
  }

  /** The root and its first child, the first cursor. */
  function Start(): (b: Builder)
    ensures WellFormed(b)
  {
    Builder([Node(NodeType.Unknown, None, [], [1]), Node(NodeType.Unknown, Some(0), [], [])], 1)
  }

  // ---- IsAFunction and IsBinaryGroup ----

  /** `IsAFunction`: a word token whose value, compared case-sensitively, is a function keyword. */
  predicate IsAFunction(token: Option<Token>) {
    token.Some? && token.value.kind == Word && O.IsFunctionName(token.value.value)
  }

  /** The nesting change of one token. */
  function Delta(t: Token): int {
    if t.value == "(" then 1 else if t.value == ")" then -1 else 0
  }

  /** Opening minus closing parentheses. */
  function Depth(ts: seq<Token>): int
    decreases |ts|
  {
    if ts == [] then 0 else Delta(ts[0]) + Depth(ts[1..])
  }

  /**
   * The scan of `IsBinaryGroup` from nesting `nesting` on, as written: the
   * condition reads `(nesting == 0 && or) || and`.
   */
  function BinaryGroupFrom(ts: seq<Token>, nesting: int): bool
    decreases |ts|
  {
    if ts == [] then false
    else
      var v := ts[0].value;
      if v == "(" then BinaryGroupFrom(ts[1..], nesting + 1)
      else if v == ")" then BinaryGroupFrom(ts[1..], nesting - 1)
      else if (nesting == 0 && v == "or") || v == "and" then true
      else BinaryGroupFrom(ts[1..], nesting)
  }

  lemma {:induction false} DepthStep(ts: seq<Token>, i: nat)
    requires 0 < i <= |ts|
    ensures Depth(ts[..i]) == Delta(ts[0]) + Depth(ts[1..][..i - 1])
  {
    assert ts[..i][1..] == ts[1..][..i - 1];
  }

  /** An `and` anywhere makes the scan succeed. */
  lemma {:induction false} AndMakesBinary(ts: seq<Token>, nesting: int, i: nat)
    requires i < |ts| && ts[i].value == "and"
    ensures BinaryGroupFrom(ts, nesting)
    decreases i
  {
    if i > 0 && ts[0].value != "and" && !(nesting == 0 && ts[0].value == "or") {
      assert ts[1..][i - 1] == ts[i];
      AndMakesBinary(ts[1..], nesting + Delta(ts[0]), i - 1);
    }
  }

  /** An `or` at nesting 0 makes the scan succeed. */
  lemma {:induction false} OrMakesBinary(ts: seq<Token>, nesting: int, i: nat)
    requires i < |ts| && ts[i].value == "or" && nesting + Depth(ts[..i]) == 0
    ensures BinaryGroupFrom(ts, nesting)
    decreases i
  {
    if i == 0 {
      assert ts[..0] == [];
    } else if ts[0].value != "and" && !(nesting == 0 && ts[0].value == "or") {
      DepthStep(ts, i);
      assert ts[1..][i - 1] == ts[i];
      OrMakesBinary(ts[1..], nesting + Delta(ts[0]), i - 1);
    }
  }

  /** A successful scan stopped at an `and`, or at an `or` at nesting 0. */
  lemma {:induction false} BinaryHasWitness(ts: seq<Token>, nesting: int) returns (i: nat)
    requires BinaryGroupFrom(ts, nesting)
    ensures i < |ts| && (ts[i].value == "and" || (ts[i].value == "or" && nesting + Depth(ts[..i]) == 0))
    decreases |ts|
  {
    var v := ts[0].value;
    if v != "(" && v != ")" && ((nesting == 0 && v == "or") || v == "and") {
      assert ts[..0] == [];
      return 0;
    }
    var j := BinaryHasWitness(ts[1..], nesting + Delta(ts[0]));
    i := j + 1;
    DepthStep(ts, i);
    assert ts[1..][j] == ts[i];
  }

  /**
   * The scan finds a binary group exactly when some `and` occurs anywhere
   * after the `(`, even past its closing `)`, or some `or` occurs at
   * nesting 0.
   */
  lemma {:induction false} BinaryGroupFromMeans(ts: seq<Token>, nesting: int)
    ensures BinaryGroupFrom(ts, nesting) <==>
      (exists i :: 0 <= i < |ts| && ts[i].value == "and") ||
      (exists i :: 0 <= i < |ts| && ts[i].value == "or" && nesting + Depth(ts[..i]) == 0)
  {
    if BinaryGroupFrom(ts, nesting) {
      var i := BinaryHasWitness(ts, nesting);
    }
    if i :| 0 <= i < |ts| && ts[i].value == "and" {
      AndMakesBinary(ts, nesting, i);
    }
    if i :| 0 <= i < |ts| && ts[i].value == "or" && nesting + Depth(ts[..i]) == 0 {
      OrMakesBinary(ts, nesting, i);
    }
  }

  /** `IsBinaryGroup`: the nesting counter loop. */
  method IsBinaryGroup(tokens: seq<Token>) returns (b: bool)
    ensures b == BinaryGroupFrom(tokens, 0)
  {
    var nesting := 0;
    for i := 0 to |tokens|
      invariant BinaryGroupFrom(tokens[i..], nesting) == BinaryGroupFrom(tokens, 0)
    {
      var token := tokens[i];
      assert tokens[i..][0] == token && tokens[i..][1..] == tokens[i + 1..];
      if token.value == "(" {
        nesting := nesting + 1;
      } else if token.value == ")" {
        nesting := nesting - 1;
      } else if (nesting == 0 && token.value == "or") || token.value == "and" {
        return true;
      }
    }
    assert tokens[|tokens|..] == [];
    return false;
  }

  /** `GetGroupNodeType`: the type of a group opened at `index`, from the tokens after it. */
  function GroupNodeType(tokens: seq<Token>, index: nat): NodeType
    requires index < |tokens|
  {
    if BinaryGroupFrom(tokens[index + 1..], 0) then BinaryGroup else Group
  }

  // ---- the token loop ----

  /** The previous token: `ElementAtOrDefault(index - 1)`. */
  function Previous(tokens: seq<Token>, index: nat): Option<Token>
    requires index <= |tokens|
  {
    if index == 0 then None else Some(tokens[index - 1])
  }

  /**
   * `(` after a function name: the name, the cursor's last token, moves to a
   * new `Function` child, which becomes the cursor; `RemoveAt` throws on an
   * empty token list.
   */
  function OpenFunction(b: Builder, name: Token): (r: Outcome<Builder>)
    requires WellFormed(b)
    ensures r.Success? ==> WellFormed(r.value)
  {
    var ts := b.nodes[b.cursor].tokens;
    if ts == [] then Failure(ArgumentOutOfRange)
    else
      var removed := b.nodes[b.cursor := b.nodes[b.cursor].(tokens := ts[..|ts| - 1])];
      assert ArenaOk(removed);
      AddChildKeepsArena(removed, b.cursor, Function, [name]);
      Success(Builder(AddChildTo(removed, b.cursor, Function, [name]), |b.nodes|))
  }

  /** Any other `(`: a group child of type `t` and, inside it, a new `Unknown` cursor. */
  function OpenGroup(b: Builder, t: NodeType): (r: Builder)
    requires WellFormed(b)
    ensures WellFormed(r)
  {
    var n := |b.nodes|;
    var withGroup := AddChildTo(b.nodes, b.cursor, t, []);
    AddChildKeepsArena(b.nodes, b.cursor, t, []);
    AddChildKeepsArena(withGroup, n, NodeType.Unknown, []);
    Builder(AddChildTo(withGroup, n, NodeType.Unknown, []), n + 1)
  }

  /**
   * `)`: a function cursor continues in a new `Unknown` sibling; any other
   * cursor continues in a new `Unknown` child of its great-grandparent, and a
   * missing ancestor is a null dereference.
   */
  function CloseParen(b: Builder): (r: Outcome<Builder>)
    requires WellFormed(b)
    ensures r.Success? ==> WellFormed(r.value)
  {
    var nodes, n := b.nodes, |b.nodes|;
    var target :=
      if nodes[b.cursor].nodeType == Function then nodes[b.cursor].parent
      else match nodes[b.cursor].parent
        case None => None
        case Some(p) =>
          match nodes[p].parent
          case None => None
          case Some(g) => nodes[g].parent;
    match target
    case None => Failure(NullReference)
    case Some(p) =>
      AddChildKeepsArena(nodes, p, NodeType.Unknown, []);
      Success(Builder(AddChildTo(nodes, p, NodeType.Unknown, []), n))
  }

  /** `and`/`or`: a `Binary` marker holding the token, then a new `Unknown` cursor, both children of the cursor's parent. */
  function Connective(b: Builder, token: Token): (r: Outcome<Builder>)
    requires WellFormed(b)
    ensures r.Success? ==> WellFormed(r.value)
  {
    var nodes, n := b.nodes, |b.nodes|;
    match nodes[b.cursor].parent
    case None => Failure(NullReference)
    case Some(p) =>
      var withMarker := AddChildTo(nodes, p, Binary, [token]);
      AddChildKeepsArena(nodes, p, Binary, [token]);
      AddChildKeepsArena(withMarker, p, NodeType.Unknown, []);
      Success(Builder(AddChildTo(withMarker, p, NodeType.Unknown, []), n + 1))
  }

  /** Every other token is appended to the cursor's tokens. */
  function Append(b: Builder, token: Token): (r: Builder)
    requires WellFormed(b)
    ensures WellFormed(r)
  {
    var appended := b.nodes[b.cursor := b.nodes[b.cursor].(tokens := b.nodes[b.cursor].tokens + [token])];
    assert ArenaOk(appended);
    Builder(appended, b.cursor)
  }

  /** One pass of the loop body over token `index`, or the exception it raises. */
  function Step(b: Builder, tokens: seq<Token>, index: nat): (r: Outcome<Builder>)
    requires WellFormed(b) && index < |tokens|
    ensures r.Success? ==> WellFormed(r.value)
  {
    var token := tokens[index];
    var previous := Previous(tokens, index);
    if token.value == "(" then
      if IsAFunction(previous) then OpenFunction(b, previous.value)
      else Success(OpenGroup(b, GroupNodeType(tokens, index)))
    else if token.value == ")" then CloseParen(b)
    else if token.value == "and" || token.value == "or" then Connective(b, token)
    else Success(Append(b, token))
  }

  /** The loop over the first `k` tokens. */
  function Run(tokens: seq<Token>, k: nat): (r: Outcome<Builder>)
    requires k <= |tokens|
    ensures r.Success? ==> WellFormed(r.value)
    decreases k
  {
    if k == 0 then Success(Start())
    else
      match Run(tokens, k - 1)
      case Failure(e) => Failure(e)
      case Success(b) => Step(b, tokens, k - 1)
  }

  /** Once the loop has raised, the next pass keeps that exception. */
  lemma {:induction false} RunFailureStep(tokens: seq<Token>, k: nat)
    requires k < |tokens| && Run(tokens, k).Failure?
    ensures Run(tokens, k + 1) == Run(tokens, k)
  {
  }

  // ---- cleanup ----

  /**
   * `CleanupNodes` from node `i`: a node with no children, no tokens and a
   * parent is queued for removal; any other node passes the scan to its
   * children in order.
   */
  function Collect(nodes: seq<Node>, i: nat): seq<nat>
    requires ArenaOk(nodes) && i < |nodes|
    decreases |nodes| - i, 1
  {
    var node := nodes[i];
    if node.children == [] && node.tokens == [] && node.parent.Some? then [i]
    else CollectAll(nodes, node.children, i)
  }

  function CollectAll(nodes: seq<Node>, cs: seq<nat>, i: nat): seq<nat>
    requires ArenaOk(nodes) && i < |nodes|
    requires forall c :: c in cs ==> i < c < |nodes|
    decreases |nodes| - i, 0, |cs|
  {
    if cs == [] then []
    else
      assert cs[0] in cs && forall c :: c in cs[1..] ==> c in cs;
      Collect(nodes, cs[0]) + CollectAll(nodes, cs[1..], i)
  }

  /** Every node the scan queues had, at scan time, no children, no tokens and a parent. */
  lemma {:induction false} CollectedAreEmptyLeaves(nodes: seq<Node>, i: nat)
    requires ArenaOk(nodes) && i < |nodes|
    ensures forall k :: k in Collect(nodes, i) ==>
      k < |nodes| && nodes[k].children == [] && nodes[k].tokens == [] && nodes[k].parent.Some?
    decreases |nodes| - i, 1
  {
    var node := nodes[i];
    if !(node.children == [] && node.tokens == [] && node.parent.Some?) {
      CollectAllAreEmptyLeaves(nodes, node.children, i);
    }
  }

  lemma {:induction false} CollectAllAreEmptyLeaves(nodes: seq<Node>, cs: seq<nat>, i: nat)
    requires ArenaOk(nodes) && i < |nodes|
    requires forall c :: c in cs ==> i < c < |nodes|
    ensures forall k :: k in CollectAll(nodes, cs, i) ==>
      k < |nodes| && nodes[k].children == [] && nodes[k].tokens == [] && nodes[k].parent.Some?
    decreases |nodes| - i, 0, |cs|
  {
    if cs != [] {
      assert cs[0] in cs && forall c :: c in cs[1..] ==> c in cs;
      CollectedAreEmptyLeaves(nodes, cs[0]);
      CollectAllAreEmptyLeaves(nodes, cs[1..], i);
    }
  }

  /** `List.Remove`: the first occurrence of `x` is dropped. */
  function RemoveFirst(s: seq<nat>, x: nat): (r: seq<nat>)
    decreases |s|
  {
    if s == [] then [] else if s[0] == x then s[1..] else [s[0]] + RemoveFirst(s[1..], x)
  }

  /** Removal drops only `x`: every other element stays, and nothing is added. */
  lemma {:induction false} RemoveFirstMembers(s: seq<nat>, x: nat)
    ensures forall c :: c in RemoveFirst(s, x) ==> c in s
    ensures forall c :: c in s && c != x ==> c in RemoveFirst(s, x)
    decreases |s|
  {
    if s != [] {
      var rest := s[1..];
      assert forall c :: c in s ==> c == s[0] || c in rest;
      assert forall c :: c in rest ==> c in s;
      if s[0] != x {
        RemoveFirstMembers(rest, x);
      }
    }
  }

  /** One queued action: `node.Parent.Children.Remove(node)`. */
  function RemoveChild(nodes: seq<Node>, k: nat): (r: seq<Node>)
    ensures |r| == |nodes|
  {
    if k < |nodes| && nodes[k].parent.Some? && nodes[k].parent.value < |nodes| then
      var p := nodes[k].parent.value;
      nodes[p := nodes[p].(children := RemoveFirst(nodes[p].children, k))]
    else nodes
  }

  /** The queued actions run in order. */
  function RemoveAll(nodes: seq<Node>, ks: seq<nat>): (r: seq<Node>)
    ensures |r| == |nodes|
    decreases |ks|
  {
    if ks == [] then nodes else RemoveChild(RemoveAll(nodes, ks[..|ks| - 1]), ks[|ks| - 1])
  }

  /** `GetRootNode`: the tree after the one-shot cleanup. */
  function Pruned(nodes: seq<Node>): seq<Node>
    requires ArenaOk(nodes)
  {
    RemoveAll(nodes, Collect(nodes, 0))
  }

  /** The same nodes, except that exactly the children queued for removal are gone. */
  ghost predicate KeepsAllButRemoved(before: seq<Node>, after: seq<Node>, ks: seq<nat>) {
    |after| == |before| &&
    forall i :: 0 <= i < |before| ==>
      after[i].nodeType == before[i].nodeType && after[i].parent == before[i].parent &&
      after[i].tokens == before[i].tokens &&
      forall c :: c in after[i].children <==> c in before[i].children && c !in ks
  }

  /** The same nodes, except that children may be gone. */
  predicate Shrunk(before: seq<Node>, after: seq<Node>) {
    |after| == |before| &&
    forall i :: 0 <= i < |before| ==>
      after[i].nodeType == before[i].nodeType && after[i].parent == before[i].parent &&
      after[i].tokens == before[i].tokens &&
      forall c :: c in after[i].children ==> c in before[i].children
  }

  /** No child is listed twice. */
  predicate NoRepeats(s: seq<nat>) {
    forall a, b :: 0 <= a < b < |s| ==> s[a] != s[b]
  }

  /** Node `i` lists each child once, and each child's parent is node `i`. */
  predicate BackLinkedAt(nodes: seq<Node>, i: nat)
    requires i < |nodes|
  {
    NoRepeats(nodes[i].children) &&
    forall c :: c in nodes[i].children ==> c < |nodes| && nodes[c].parent == Some(i)
  }

  /** Every node lists each child once, and each child's parent is the node that lists it. */
  predicate BackLinked(nodes: seq<Node>) {
    forall i :: 0 <= i < |nodes| ==> BackLinkedAt(nodes, i)
  }

  /** Node `k`, unless it is the root, has a parent that lists it among its children. */
  predicate ListedAt(nodes: seq<Node>, k: nat)
    requires k < |nodes|
  {
    0 < k ==> nodes[k].parent.Some? && nodes[k].parent.value < |nodes| && k in nodes[nodes[k].parent.value].children
  }

  /** `BackLinkedAt`, one child at a time: each of `cs` is a node whose parent is `i`, listed once. */
  predicate ChildrenOf(nodes: seq<Node>, cs: seq<nat>, i: nat)
    decreases |cs|
  {
    cs == [] || (cs[0] < |nodes| && nodes[cs[0]].parent == Some(i) && cs[0] !in cs[1..] && ChildrenOf(nodes, cs[1..], i))
  }

  lemma {:induction false} ChildrenOfMeans(nodes: seq<Node>, cs: seq<nat>, i: nat)
    ensures ChildrenOf(nodes, cs, i) <==> NoRepeats(cs) && forall c :: c in cs ==> c < |nodes| && nodes[c].parent == Some(i)
    decreases |cs|
  {
    if cs != [] {
      ChildrenOfMeans(nodes, cs[1..], i);
      assert forall c :: c in cs <==> c == cs[0] || c in cs[1..];
      if NoRepeats(cs) {
        forall a, b | 0 <= a < b < |cs[1..]| ensures cs[1..][a] != cs[1..][b] {
          assert cs[1..][a] == cs[a + 1] && cs[1..][b] == cs[b + 1];
        }
      }
      if cs[0] !in cs[1..] && NoRepeats(cs[1..]) {
        forall a, b | 0 <= a < b < |cs| ensures cs[a] != cs[b] {
          if a == 0 {
            assert cs[b] == cs[1..][b - 1];
          } else {
            assert cs[a] == cs[1..][a - 1] && cs[b] == cs[1..][b - 1];
          }
        }
      }
    }
  }

  /** The first `n` nodes are back-linked and listed by their parents. */
  predicate LinkedBelow(nodes: seq<Node>, n: nat)
    requires n <= |nodes|
  {
    n == 0 || (LinkedBelow(nodes, n - 1) && ChildrenOf(nodes, nodes[n - 1].children, n - 1) && ListedAt(nodes, n - 1))
  }

  /**
   * The links `Node.AddChild` keeps: a sound arena, back-links, and every
   * node but the root listed among its parent's children.
   */
  predicate Linked(nodes: seq<Node>) {
    ArenaOk(nodes) && LinkedBelow(nodes, |nodes|)
  }

  lemma {:induction false} LinkedBelowMeans(nodes: seq<Node>, n: nat)
    requires n <= |nodes|
    ensures LinkedBelow(nodes, n) <==> forall j :: 0 <= j < n ==> BackLinkedAt(nodes, j) && ListedAt(nodes, j)
  {
    if n > 0 {
      LinkedBelowMeans(nodes, n - 1);
      ChildrenOfMeans(nodes, nodes[n - 1].children, n - 1);
      assert BackLinkedAt(nodes, n - 1) <==> ChildrenOf(nodes, nodes[n - 1].children, n - 1);
      assert (forall j :: 0 <= j < n ==> BackLinkedAt(nodes, j) && ListedAt(nodes, j))
        <==> BackLinkedAt(nodes, n - 1) && ListedAt(nodes, n - 1) && forall j :: 0 <= j < n - 1 ==> BackLinkedAt(nodes, j) && ListedAt(nodes, j);
    }
  }

  /** What `Linked` says, node by node. */
  lemma {:induction false} LinkedMeans(nodes: seq<Node>)
    ensures Linked(nodes) <==> ArenaOk(nodes) && BackLinked(nodes) && forall k :: 0 <= k < |nodes| ==> ListedAt(nodes, k)
  {
    LinkedBelowMeans(nodes, |nodes|);
  }

  /** On a list without repeats, `List.Remove` drops exactly `x`, and no repeat appears. */
  lemma {:induction false} RemoveFirstExactly(s: seq<nat>, x: nat)
    requires NoRepeats(s)
    ensures forall c :: c in RemoveFirst(s, x) <==> c in s && c != x
    ensures NoRepeats(RemoveFirst(s, x))
    decreases |s|
  {
    RemoveFirstMembers(s, x);
    if s != [] {
      var rest := s[1..];
      assert forall a, b :: 0 <= a < b < |rest| ==> rest[a] == s[a + 1] && rest[b] == s[b + 1];
      assert forall a :: 0 <= a < |rest| ==> rest[a] == s[a + 1];
      if s[0] != x {
        RemoveFirstExactly(rest, x);
        var t := RemoveFirst(rest, x);
        assert s[0] !in rest;
        assert RemoveFirst(s, x) == [s[0]] + t;
      }
    }
  }

  lemma {:induction false} RemoveAllShrinks(nodes: seq<Node>, ks: seq<nat>)
    ensures Shrunk(nodes, RemoveAll(nodes, ks))
    decreases |ks|
  {
    if ks != [] {
      var init, k := ks[..|ks| - 1], ks[|ks| - 1];
      RemoveAllShrinks(nodes, init);
      var mid := RemoveAll(nodes, init);
      if k < |mid| && mid[k].parent.Some? && mid[k].parent.value < |mid| {
        RemoveFirstMembers(mid[mid[k].parent.value].children, k);
      }
    }
  }

  /** One removal drops the child from the one list that holds it. */
  lemma {:induction false} RemoveChildExactly(nodes: seq<Node>, k: nat)
    requires BackLinked(nodes)
    ensures KeepsAllButRemoved(nodes, RemoveChild(nodes, k), [k])
    ensures BackLinked(RemoveChild(nodes, k))
  {
    var after := RemoveChild(nodes, k);
    if k < |nodes| && nodes[k].parent.Some? && nodes[k].parent.value < |nodes| {
      var p := nodes[k].parent.value;
      assert BackLinkedAt(nodes, p);
      RemoveFirstExactly(nodes[p].children, k);
      forall i | 0 <= i < |nodes| && i != p
        ensures forall c :: c in after[i].children <==> c in nodes[i].children && c !in [k]
      {
        assert BackLinkedAt(nodes, i);
        assert after[i] == nodes[i];
      }
      forall i | 0 <= i < |nodes| ensures BackLinkedAt(after, i) {
        assert BackLinkedAt(nodes, i);
      }
    } else {
      assert after == nodes;
      forall i | 0 <= i < |nodes|
        ensures forall c :: c in nodes[i].children ==> c !in [k]
      {
        assert BackLinkedAt(nodes, i);
      }
    }
  }

  /** With back-links, the queued removals drop exactly the queued children. */
  lemma {:induction false} RemoveAllKeeps(nodes: seq<Node>, ks: seq<nat>)
    requires BackLinked(nodes)
    ensures KeepsAllButRemoved(nodes, RemoveAll(nodes, ks), ks)
    ensures BackLinked(RemoveAll(nodes, ks))
    decreases |ks|
  {
    if ks != [] {
      var init, k := ks[..|ks| - 1], ks[|ks| - 1];
      assert ks == init + [k];
      RemoveAllKeeps(nodes, init);
      var mid := RemoveAll(nodes, init);
      RemoveChildExactly(mid, k);
    }
  }

  lemma {:induction false} RemoveAllKeepsArena(nodes: seq<Node>, ks: seq<nat>)
    requires ArenaOk(nodes)
    ensures ArenaOk(RemoveAll(nodes, ks))
  {
    RemoveAllShrinks(nodes, ks);
  }

  /** A child's scan is part of its parent's. */
  lemma {:induction false} CollectAllHas(nodes: seq<Node>, cs: seq<nat>, i: nat, c: nat)
    requires ArenaOk(nodes) && i < |nodes|
    requires (forall x :: x in cs ==> i < x < |nodes|) && c in cs
    ensures forall x :: x in Collect(nodes, c) ==> x in CollectAll(nodes, cs, i)
    decreases |cs|
  {
    assert cs[0] in cs && forall x :: x in cs[1..] ==> x in cs;
    if cs[0] != c {
      CollectAllHas(nodes, cs[1..], i, c);
    }
  }

  /** The scan from the root covers the scan of every node. */
  lemma {:induction false} ScanFromRoot(nodes: seq<Node>, k: nat)
    requires Linked(nodes) && k < |nodes|
    ensures forall x :: x in Collect(nodes, k) ==> x in Collect(nodes, 0)
    decreases k
  {
    LinkedMeans(nodes);
    if k > 0 {
      assert ListedAt(nodes, k);
      var q := nodes[k].parent.value;
      CollectAllHas(nodes, nodes[q].children, q, k);
      ScanFromRoot(nodes, q);
    }
  }

  /** The scan from the root queues exactly the nodes other than the root with no children and no tokens. */
  lemma {:induction false} CollectExactly(nodes: seq<Node>)
    requires Linked(nodes)
    ensures forall k :: k in Collect(nodes, 0) <==> 0 < k < |nodes| && nodes[k].children == [] && nodes[k].tokens == []
  {
    LinkedMeans(nodes);
    CollectedAreEmptyLeaves(nodes, 0);
    forall k | 0 < k < |nodes| && nodes[k].children == [] && nodes[k].tokens == []
      ensures k in Collect(nodes, 0)
    {
      assert ListedAt(nodes, k);
      assert Collect(nodes, k) == [k];
      ScanFromRoot(nodes, k);
    }
  }

  /**
   * The cleanup removes exactly the childless, token-less nodes from their
   * parents' children: every node keeps its type, parent and tokens, and a
   * child stays exactly when it has children or tokens.
   */
  lemma {:induction false} PrunedKeeps(nodes: seq<Node>)
    requires Linked(nodes)
    ensures KeepsAllButRemoved(nodes, Pruned(nodes), Collect(nodes, 0))
    ensures ArenaOk(Pruned(nodes))
    ensures forall i, c :: 0 <= i < |nodes| ==>
      (c in Pruned(nodes)[i].children <==> c in nodes[i].children && (nodes[c].children != [] || nodes[c].tokens != []))
  {
    LinkedMeans(nodes);
    RemoveAllKeeps(nodes, Collect(nodes, 0));
    RemoveAllKeepsArena(nodes, Collect(nodes, 0));
    CollectExactly(nodes);
  }

  /** The arena after the token loop and the cleanup, or the exception the loop raised. */
  function SyntaxTree(tokens: seq<Token>): (r: Outcome<seq<Node>>)
    ensures r.Success? ==> ArenaOk(r.value)
  {
    match Run(tokens, |tokens|)
    case Failure(e) => Failure(e)
    case Success(b) =>
      RemoveAllKeepsArena(b.nodes, Collect(b.nodes, 0));
      Success(Pruned(b.nodes))
  }

  // ---- the arena object ----

  /** The nodes of one tree, updated in place as `Node.AddChild` and the token lists do. */
  class Arena {

    var nodes: seq<Node>

    /** The root and its first child. */
    constructor ()
      ensures nodes == Start().nodes
    {
      nodes := Start().nodes;
    }

    /** `Node.AddChild`: the new child's index. */
    method AddChild(parent: nat, t: NodeType, tokens: seq<Token>) returns (child: nat)
      requires parent < |nodes|
      modifies this
      ensures nodes == AddChildTo(old(nodes), parent, t, tokens) && child == |old(nodes)|
    {
      child := |nodes|;
      nodes := AddChildTo(nodes, parent, t, tokens);
    }

    /** The `(` case after a function name; the new cursor. */
    method OpenFunctionAt(cursor: nat, name: Token) returns (r: Outcome<nat>)
      requires WellFormed(Builder(nodes, cursor))
      modifies this
      ensures OpenFunction(Builder(old(nodes), cursor), name) == WithCursor(nodes, r)
    {
      var ts := nodes[cursor].tokens;
      if ts == [] {
        return Failure(ArgumentOutOfRange);
      }
      nodes := nodes[cursor := nodes[cursor].(tokens := ts[..|ts| - 1])];
      var functionNode := AddChild(cursor, Function, [name]);
      return Success(functionNode);
    }

    /** The `(` case of a group; the new cursor. */
    method OpenGroupAt(cursor: nat, t: NodeType) returns (c: nat)
      requires WellFormed(Builder(nodes, cursor))
      modifies this
      ensures OpenGroup(Builder(old(nodes), cursor), t) == Builder(nodes, c)
    {
      var groupNode := AddChild(cursor, t, []);
      c := AddChild(groupNode, NodeType.Unknown, []);
    }

    /** The `)` case; the new cursor. */
    method CloseParenAt(cursor: nat) returns (r: Outcome<nat>)
      requires WellFormed(Builder(nodes, cursor))
      modifies this
      ensures CloseParen(Builder(old(nodes), cursor)) == WithCursor(nodes, r)
    {
      var target: Option<nat>;
      if nodes[cursor].nodeType == Function {
        target := nodes[cursor].parent;
      } else {
        var parent := nodes[cursor].parent;
        if parent.None? || nodes[parent.value].parent.None? {
          return Failure(NullReference);
        }
        var groupNode := nodes[parent.value].parent.value;
        target := nodes[groupNode].parent;
      }
      if target.None? {
        return Failure(NullReference);
      }
      var c := AddChild(target.value, NodeType.Unknown, []);
      return Success(c);
    }

    /** The `and`/`or` case; the new cursor. */
    method ConnectiveAt(cursor: nat, token: Token) returns (r: Outcome<nat>)
      requires WellFormed(Builder(nodes, cursor))
      modifies this
      ensures Connective(Builder(old(nodes), cursor), token) == WithCursor(nodes, r)
    {
      var parent := nodes[cursor].parent;
      if parent.None? {
        return Failure(NullReference);
      }
      var _ := AddChild(parent.value, Binary, [token]);
      var c := AddChild(parent.value, NodeType.Unknown, []);
      return Success(c);
    }

    /** `Tokens.Add` on the cursor. */
    method AppendAt(cursor: nat, token: Token)
      requires WellFormed(Builder(nodes, cursor))
      modifies this
      ensures Append(Builder(old(nodes), cursor), token) == Builder(nodes, cursor)
    {
      nodes := nodes[cursor := nodes[cursor].(tokens := nodes[cursor].tokens + [token])];
    }

    /** One pass of the token loop: the case the token selects; the new cursor. */
    method StepAt(cursor: nat, tokens: seq<Token>, index: nat) returns (next: Outcome<nat>)
      requires WellFormed(Builder(nodes, cursor)) && index < |tokens|
      modifies this
      ensures Step(Builder(old(nodes), cursor), tokens, index) == WithCursor(nodes, next)
    {
      var token := tokens[index];
      var previous := Previous(tokens, index);
      if token.value == "(" {
        if IsAFunction(previous) {
          next := OpenFunctionAt(cursor, previous.value);
        } else {
          var isBinary := IsBinaryGroup(tokens[index + 1..]);
          var nodeType := if isBinary then BinaryGroup else Group;
          var c := OpenGroupAt(cursor, nodeType);
          next := Success(c);
        }
      } else if token.value == ")" {
        next := CloseParenAt(cursor);
      } else if token.value == "and" || token.value == "or" {
        next := ConnectiveAt(cursor, token);
      } else {
        AppendAt(cursor, token);
        next := Success(cursor);
      }
    }

    /** `CleanupNodes`: appends to `actions` the nodes the scan from `i` queues. */
    method CleanupNodes(actions: seq<nat>, i: nat) returns (queued: seq<nat>)
      requires ArenaOk(nodes) && i < |nodes|
      ensures queued == actions + Collect(nodes, i)
      decreases |nodes| - i
    {
      var node := nodes[i];
      if node.children == [] && node.tokens == [] && node.parent.Some? {
        return actions + [i];
      }
      queued := actions;
      assert forall c :: c in node.children ==> i < c < |nodes|;
      for j := 0 to |node.children|
        invariant forall c :: c in node.children[..j] ==> c in node.children
        invariant queued == actions + CollectAll(nodes, node.children[..j], i)
      {
        var child := node.children[j];
        assert child in node.children;
        queued := CleanupNodes(queued, child);
        CollectAllSnoc(nodes, node.children[..j], child, i);
        assert node.children[..j + 1] == node.children[..j] + [child];
      }
      assert node.children[..|node.children|] == node.children;
    }

    /** `GetRootNode`: queue the removals in one scan, then run them in order. */
    method GetRootNode()
      requires ArenaOk(nodes)
      modifies this
      ensures nodes == Pruned(old(nodes))
    {
      var actions := CleanupNodes([], 0);
      ghost var before := nodes;
      for j := 0 to |actions|
        invariant nodes == RemoveAll(before, actions[..j])
      {
        var k := actions[j];
        if k < |nodes| && nodes[k].parent.Some? && nodes[k].parent.value < |nodes| {
          var p := nodes[k].parent.value;
          nodes := nodes[p := nodes[p].(children := RemoveFirst(nodes[p].children, k))];
        }
        assert actions[..j + 1][..j] == actions[..j];
      }
      assert actions[..|actions|] == actions;
    }
  }

  lemma {:induction false} CollectAllSnoc(nodes: seq<Node>, cs: seq<nat>, c: nat, i: nat)
    requires ArenaOk(nodes) && i < |nodes|
    requires (forall x :: x in cs ==> i < x < |nodes|) && i < c < |nodes|
    ensures CollectAll(nodes, cs + [c], i) == CollectAll(nodes, cs, i) + Collect(nodes, c)
    decreases |cs|
  {
    if cs == [] {
      assert [c][1..] == [];
    } else {
      assert (cs + [c])[1..] == cs[1..] + [c];
      assert forall x :: x in cs[1..] ==> x in cs;
      CollectAllSnoc(nodes, cs[1..], c, i);
    }
  }

  /** A cursor outcome paired with the arena it points into. */
  function WithCursor(nodes: seq<Node>, r: Outcome<nat>): Outcome<Builder> {
    match r
    case Success(c) => Success(Builder(nodes, c))
    case Failure(e) => Failure(e)
  }

  /** The token loop and the cleanup (the first half of `BuildCriteria(tokens)`). */
  method BuildTree(tokens: seq<Token>) returns (r: Outcome<seq<Node>>)
    ensures r == SyntaxTree(tokens)
  {
    var arena := new Arena();
    var cursor: nat := 1;
    for index := 0 to |tokens|
      invariant Run(tokens, index) == Success(Builder(arena.nodes, cursor))
    {
      var next := arena.StepAt(cursor, tokens, index);
      assert Run(tokens, index + 1) == WithCursor(arena.nodes, next);
      if next.Failure? {
        // The exception ends the loop: every later pass of the specification keeps it.
        for rest := index + 1 to |tokens|
          invariant Run(tokens, rest) == Failure(next.error)
        {
          RunFailureStep(tokens, rest);
        }
        return Failure(next.error);
      }
      cursor := next.value;
    }
    arena.GetRootNode();
    r := Success(arena.nodes);
  }
}

/**
 * What the token loop keeps: every token but the parentheses is stored
 * exactly once, the token a function name leaves in the cursor is the one
 * `RemoveAt` takes back, and the cursor moves as each case says.
 */
module SyntaxTreeProperties {

  import opened Wrappers
  import opened Tokens
  import opened Faults
  import opened SyntaxTrees
  import O = Operators

  /** The tokens of all nodes, in arena order. */
  function StoredTokens(nodes: seq<Node>): seq<Token>
    decreases |nodes|
  {
    if nodes == [] then [] else StoredTokens(nodes[..|nodes| - 1]) + nodes[|nodes| - 1].tokens
  }

  /** The input tokens other than `(` and `)`. */
  function NonParen(ts: seq<Token>): seq<Token>
    decreases |ts|
  {
    if ts == [] then []
    else
      var last := ts[|ts| - 1];
      NonParen(ts[..|ts| - 1]) + (if last.value == "(" || last.value == ")" then [] else [last])
  }

  /** The token values the loop treats specially. */
  predicate Structural(v: string) {
    v == "(" || v == ")" || v == "and" || v == "or"
  }

  /** After an ordinary token, that token is the cursor's last. */
  predicate CursorEndsWithLast(b: Builder, tokens: seq<Token>, k: nat)
    requires WellFormed(b) && k <= |tokens|
  {
    var ts := b.nodes[b.cursor].tokens;
    k > 0 && !Structural(tokens[k - 1].value) ==> ts != [] && ts[|ts| - 1] == tokens[k - 1]
  }

  lemma {:induction false} StoredSameTokens(a: seq<Node>, b: seq<Node>)
    requires |a| == |b| && forall i :: 0 <= i < |a| ==> a[i].tokens == b[i].tokens
    ensures StoredTokens(a) == StoredTokens(b)
    decreases |a|
  {
    if a != [] {
      StoredSameTokens(a[..|a| - 1], b[..|b| - 1]);
    }
  }

  lemma {:induction false} StoredSnoc(nodes: seq<Node>, n: Node)
    ensures StoredTokens(nodes + [n]) == StoredTokens(nodes) + n.tokens
  {
    assert (nodes + [n])[..|nodes|] == nodes;
  }

  /** Replacing one node's tokens replaces them in the multiset of stored tokens. */
  lemma {:induction false} StoredUpdate(nodes: seq<Node>, c: nat, n: Node)
    requires c < |nodes|
    ensures multiset(StoredTokens(nodes[c := n])) + multiset(nodes[c].tokens)
         == multiset(StoredTokens(nodes)) + multiset(n.tokens)
    decreases |nodes|
  {
    var u := nodes[c := n];
    var m := |nodes| - 1;
    assert StoredTokens(u) == StoredTokens(u[..m]) + u[m].tokens;
    assert StoredTokens(nodes) == StoredTokens(nodes[..m]) + nodes[m].tokens;
    if c == m {
      assert u[..m] == nodes[..m];
    } else {
      assert u[..m] == nodes[..m][c := n] && u[m] == nodes[m];
      StoredUpdate(nodes[..m], c, n);
      var before, after := multiset(StoredTokens(nodes[..m])), multiset(StoredTokens(u[..m]));
      var rest, was, now := multiset(nodes[m].tokens), multiset(nodes[c].tokens), multiset(n.tokens);
      assert multiset(StoredTokens(u)) == after + rest;
      assert multiset(StoredTokens(nodes)) == before + rest;
      forall t ensures (after + rest + was)[t] == (before + rest + now)[t] {
        assert (after + was)[t] == (before + now)[t];
      }
      assert after + rest + was == before + rest + now;
    }
  }

  /** Adding a child stores exactly the child's tokens. */
  lemma {:induction false} StoredAddChild(nodes: seq<Node>, p: nat, t: NodeType, ts: seq<Token>)
    requires p < |nodes|
    ensures StoredTokens(AddChildTo(nodes, p, t, ts)) == StoredTokens(nodes) + ts
  {
    var linked := nodes[p := nodes[p].(children := nodes[p].children + [|nodes|])];
    StoredSameTokens(linked, nodes);
    StoredSnoc(linked, Node(t, Some(p), ts, []));
  }

  lemma {:induction false} NonParenSnoc(tokens: seq<Token>, k: nat)
    requires k < |tokens|
    ensures NonParen(tokens[..k + 1])
         == NonParen(tokens[..k]) + (if tokens[k].value == "(" || tokens[k].value == ")" then [] else [tokens[k]])
  {
    assert tokens[..k + 1][..k] == tokens[..k];
  }

  /** The name a function call leaves in the cursor moves into the new `Function` node. */
  lemma {:induction false} OpenFunctionStores(b: Builder, name: Token)
    requires WellFormed(b)
    requires var ts := b.nodes[b.cursor].tokens; ts != [] && ts[|ts| - 1] == name
    ensures OpenFunction(b, name).Success?
    ensures multiset(StoredTokens(OpenFunction(b, name).value.nodes)) == multiset(StoredTokens(b.nodes))
  {
    var nodes, cursor := b.nodes, b.cursor;
    var ts := nodes[cursor].tokens;
    var shorter := nodes[cursor].(tokens := ts[..|ts| - 1]);
    var removed := nodes[cursor := shorter];
    var r := AddChildTo(removed, cursor, Function, [name]);
    assert OpenFunction(b, name) == Success(Builder(r, |nodes|));
    StoredUpdate(nodes, cursor, shorter);
    assert ts == ts[..|ts| - 1] + [name];
    assert multiset(ts) == multiset(shorter.tokens) + multiset{name};
    StoredAddChild(removed, cursor, Function, [name]);
    var before, mid := multiset(StoredTokens(nodes)), multiset(StoredTokens(removed));
    assert multiset(StoredTokens(r)) == mid + multiset{name};
    forall t ensures (mid + multiset{name})[t] == before[t] {
      assert (mid + multiset(ts))[t] == (before + multiset(shorter.tokens))[t];
    }
  }

  lemma {:induction false} OpenGroupStores(b: Builder, t: NodeType)
    requires WellFormed(b)
    ensures StoredTokens(OpenGroup(b, t).nodes) == StoredTokens(b.nodes)
  {
    StoredAddChild(b.nodes, b.cursor, t, []);
    StoredAddChild(AddChildTo(b.nodes, b.cursor, t, []), |b.nodes|, NodeType.Unknown, []);
  }

  lemma {:induction false} CloseParenStores(b: Builder)
    requires WellFormed(b) && CloseParen(b).Success?
    ensures StoredTokens(CloseParen(b).value.nodes) == StoredTokens(b.nodes)
  {
    var r := CloseParen(b).value.nodes;
    var p := r[|b.nodes|].parent.value;
    assert r == AddChildTo(b.nodes, p, NodeType.Unknown, []);
    StoredAddChild(b.nodes, p, NodeType.Unknown, []);
  }

  lemma {:induction false} ConnectiveStores(b: Builder, token: Token)
    requires WellFormed(b) && Connective(b, token).Success?
    ensures StoredTokens(Connective(b, token).value.nodes) == StoredTokens(b.nodes) + [token]
  {
    var p := b.nodes[b.cursor].parent.value;
    var withMarker := AddChildTo(b.nodes, p, Binary, [token]);
    StoredAddChild(b.nodes, p, Binary, [token]);
    StoredAddChild(withMarker, p, NodeType.Unknown, []);
    assert StoredTokens(withMarker) + [] == StoredTokens(withMarker);
  }

  lemma {:induction false} AppendStores(b: Builder, token: Token)
    requires WellFormed(b)
    ensures multiset(StoredTokens(Append(b, token).nodes)) == multiset(StoredTokens(b.nodes)) + multiset{token}
  {
    var ts := b.nodes[b.cursor].tokens;
    var appended := b.nodes[b.cursor].(tokens := ts + [token]);
    assert Append(b, token).nodes == b.nodes[b.cursor := appended];
    StoredUpdate(b.nodes, b.cursor, appended);
    var before, after := multiset(StoredTokens(b.nodes)), multiset(StoredTokens(b.nodes[b.cursor := appended]));
    assert multiset(appended.tokens) == multiset(ts) + multiset{token};
    forall t ensures after[t] == (before + multiset{token})[t] {
      assert (after + multiset(ts))[t] == (before + multiset(appended.tokens))[t];
    }
  }

  /** What one step keeps: the cursor condition, and the stored tokens grow by the step's token unless it is a parenthesis. */
  predicate StepKept(b: Builder, tokens: seq<Token>, k: nat, r: Outcome<Builder>)
    requires WellFormed(b) && k < |tokens| && (r.Success? ==> WellFormed(r.value))
  {
    r != Failure(ArgumentOutOfRange) &&
    (r.Success? ==>
      CursorEndsWithLast(r.value, tokens, k + 1) &&
      multiset(StoredTokens(r.value.nodes))
        == multiset(StoredTokens(b.nodes)) + multiset(if tokens[k].value == "(" || tokens[k].value == ")" then [] else [tokens[k]]))
  }

  /** A function name is neither a parenthesis nor a connective. */
  lemma {:induction false} FunctionNameIsOrdinary(t: Option<Token>)
    requires IsAFunction(t)
    ensures !Structural(t.value.value)
  {
    O.PunctuationIsNotAFunction();
    O.IsFunctionNameMeans(t.value.value);
  }

  lemma {:induction false} OpenFunctionKeeps(b: Builder, tokens: seq<Token>, k: nat)
    requires WellFormed(b) && k < |tokens| && CursorEndsWithLast(b, tokens, k)
    requires tokens[k].value == "(" && IsAFunction(Previous(tokens, k))
    ensures StepKept(b, tokens, k, Step(b, tokens, k))
  {
    var name := tokens[k - 1];
    FunctionNameIsOrdinary(Previous(tokens, k));
    OpenFunctionStores(b, name);
    var r := Step(b, tokens, k);
    assert r == OpenFunction(b, name);
    assert Structural(tokens[k].value);
    assert multiset(StoredTokens(r.value.nodes)) == multiset(StoredTokens(b.nodes)) + multiset([]);
  }

  lemma {:induction false} OpenGroupKeeps(b: Builder, tokens: seq<Token>, k: nat)
    requires WellFormed(b) && k < |tokens| && tokens[k].value == "(" && !IsAFunction(Previous(tokens, k))
    ensures StepKept(b, tokens, k, Step(b, tokens, k))
  {
    var t := GroupNodeType(tokens, k);
    OpenGroupStores(b, t);
    assert Step(b, tokens, k) == Success(OpenGroup(b, t));
  }

  lemma {:induction false} CloseKeeps(b: Builder, tokens: seq<Token>, k: nat)
    requires WellFormed(b) && k < |tokens| && tokens[k].value == ")"
    ensures StepKept(b, tokens, k, Step(b, tokens, k))
  {
    assert Step(b, tokens, k) == CloseParen(b);
    if CloseParen(b).Success? {
      CloseParenStores(b);
    }
  }

  lemma {:induction false} ConnectiveKeeps(b: Builder, tokens: seq<Token>, k: nat)
    requires WellFormed(b) && k < |tokens| && (tokens[k].value == "and" || tokens[k].value == "or")
    ensures StepKept(b, tokens, k, Step(b, tokens, k))
  {
    assert Step(b, tokens, k) == Connective(b, tokens[k]);
    if Connective(b, tokens[k]).Success? {
      ConnectiveStores(b, tokens[k]);
    }
  }

  lemma {:induction false} AppendKeeps(b: Builder, tokens: seq<Token>, k: nat)
    requires WellFormed(b) && k < |tokens| && !Structural(tokens[k].value)
    ensures StepKept(b, tokens, k, Step(b, tokens, k))
  {
    assert Step(b, tokens, k) == Success(Append(b, tokens[k]));
    AppendStores(b, tokens[k]);
  }

  /** The invariant across one step. */
  lemma {:induction false} StepKeeps(b: Builder, tokens: seq<Token>, k: nat)
    requires WellFormed(b) && k < |tokens| && CursorEndsWithLast(b, tokens, k)
    ensures StepKept(b, tokens, k, Step(b, tokens, k))
  {
    var v := tokens[k].value;
    if v == "(" && IsAFunction(Previous(tokens, k)) {
      OpenFunctionKeeps(b, tokens, k);
    } else if v == "(" {
      OpenGroupKeeps(b, tokens, k);
    } else if v == ")" {
      CloseKeeps(b, tokens, k);
    } else if v == "and" || v == "or" {
      ConnectiveKeeps(b, tokens, k);
    } else {
      AppendKeeps(b, tokens, k);
    }
  }

  // ---- links ----

  /** `Node.AddChild` sets the child's parent and lists it once, so the links stay consistent. */
  lemma {:induction false} AddChildLinked(nodes: seq<Node>, p: nat, t: NodeType, ts: seq<Token>)
    requires Linked(nodes) && p < |nodes|
    ensures Linked(AddChildTo(nodes, p, t, ts))
  {
    var r := AddChildTo(nodes, p, t, ts);
    AddChildKeepsArena(nodes, p, t, ts);
    LinkedMeans(nodes);
    LinkedMeans(r);
    forall i | 0 <= i < |r| ensures BackLinkedAt(r, i) {
      AddChildBackLinked(nodes, p, t, ts, i);
    }
    forall k | 0 <= k < |r| ensures ListedAt(r, k) {
      AddChildListed(nodes, p, t, ts, k);
    }
  }

  lemma {:induction false} AddChildBackLinked(nodes: seq<Node>, p: nat, t: NodeType, ts: seq<Token>, i: nat)
    requires Linked(nodes) && p < |nodes| && i <= |nodes|
    ensures BackLinkedAt(AddChildTo(nodes, p, t, ts), i)
  {
    LinkedMeans(nodes);
    var r := AddChildTo(nodes, p, t, ts);
    var n := |nodes|;
    if i == p {
      var was := nodes[p].children;
      assert BackLinkedAt(nodes, p);
      assert r[p].children == was + [n];
      assert n !in was;
    } else if i < n {
      assert BackLinkedAt(nodes, i);
      assert r[i] == nodes[i];
    }
  }

  lemma {:induction false} AddChildListed(nodes: seq<Node>, p: nat, t: NodeType, ts: seq<Token>, k: nat)
    requires Linked(nodes) && p < |nodes| && k <= |nodes|
    ensures ListedAt(AddChildTo(nodes, p, t, ts), k)
  {
    LinkedMeans(nodes);
    if k < |nodes| {
      assert ListedAt(nodes, k);
    }
  }

  /** Changing one node's tokens leaves the links alone. */
  lemma {:induction false} RetokenLinked(nodes: seq<Node>, c: nat, ts: seq<Token>)
    requires Linked(nodes) && c < |nodes|
    ensures Linked(nodes[c := nodes[c].(tokens := ts)])
  {
    var r := nodes[c := nodes[c].(tokens := ts)];
    LinkedMeans(nodes);
    LinkedMeans(r);
    forall i | 0 <= i < |r| ensures BackLinkedAt(r, i) && ListedAt(r, i) {
      assert BackLinkedAt(nodes, i) && ListedAt(nodes, i);
    }
  }

  lemma {:induction false} OpenFunctionLinked(b: Builder, name: Token)
    requires WellFormed(b) && Linked(b.nodes)
    ensures OpenFunction(b, name).Success? ==> Linked(OpenFunction(b, name).value.nodes)
  {
    var nodes := b.nodes;
    var ts := nodes[b.cursor].tokens;
    if ts != [] {
      var removed := nodes[b.cursor := nodes[b.cursor].(tokens := ts[..|ts| - 1])];
      RetokenLinked(nodes, b.cursor, ts[..|ts| - 1]);
      AddChildLinked(removed, b.cursor, Function, [name]);
    }
  }

  lemma {:induction false} OpenGroupLinked(b: Builder, t: NodeType)
    requires WellFormed(b) && Linked(b.nodes)
    ensures Linked(OpenGroup(b, t).nodes)
  {
    AddChildLinked(b.nodes, b.cursor, t, []);
    AddChildLinked(AddChildTo(b.nodes, b.cursor, t, []), |b.nodes|, NodeType.Unknown, []);
  }

  lemma {:induction false} CloseParenLinked(b: Builder)
    requires WellFormed(b) && Linked(b.nodes)
    ensures CloseParen(b).Success? ==> Linked(CloseParen(b).value.nodes)
  {
    if CloseParen(b).Success? {
      var p := CloseParen(b).value.nodes[|b.nodes|].parent.value;
      assert CloseParen(b).value.nodes == AddChildTo(b.nodes, p, NodeType.Unknown, []);
      AddChildLinked(b.nodes, p, NodeType.Unknown, []);
    }
  }

  lemma {:induction false} ConnectiveLinked(b: Builder, token: Token)
    requires WellFormed(b) && Linked(b.nodes)
    ensures Connective(b, token).Success? ==> Linked(Connective(b, token).value.nodes)
  {
    if b.nodes[b.cursor].parent.Some? {
      var p := b.nodes[b.cursor].parent.value;
      AddChildLinked(b.nodes, p, Binary, [token]);
      AddChildLinked(AddChildTo(b.nodes, p, Binary, [token]), p, NodeType.Unknown, []);
    }
  }

  /** One step of the token loop keeps the links. */
  lemma {:induction false} StepLinked(b: Builder, tokens: seq<Token>, k: nat)
    requires WellFormed(b) && Linked(b.nodes) && k < |tokens|
    ensures Step(b, tokens, k).Success? ==> Linked(Step(b, tokens, k).value.nodes)
  {
    var v := tokens[k].value;
    var previous := Previous(tokens, k);
    if v == "(" && IsAFunction(previous) {
      assert Step(b, tokens, k) == OpenFunction(b, previous.value);
      OpenFunctionLinked(b, previous.value);
    } else if v == "(" {
      assert Step(b, tokens, k) == Success(OpenGroup(b, GroupNodeType(tokens, k)));
      OpenGroupLinked(b, GroupNodeType(tokens, k));
    } else if v == ")" {
      assert Step(b, tokens, k) == CloseParen(b);
      CloseParenLinked(b);
    } else if v == "and" || v == "or" {
      assert Step(b, tokens, k) == Connective(b, tokens[k]);
      ConnectiveLinked(b, tokens[k]);
    } else {
      assert Step(b, tokens, k) == Success(Append(b, tokens[k]));
      RetokenLinked(b.nodes, b.cursor, b.nodes[b.cursor].tokens + [tokens[k]]);
    }
  }

  /** The root and its first child are linked. */
  lemma {:induction false} StartLinked()
    ensures Linked(Start().nodes)
  {
    var nodes := Start().nodes;
    LinkedMeans(nodes);
    assert nodes[0].children == [1] && nodes[1].parent == Some(0);
    assert BackLinkedAt(nodes, 0) && BackLinkedAt(nodes, 1);
    assert ListedAt(nodes, 0) && ListedAt(nodes, 1);
  }

  /** Every tree the token loop builds is linked. */
  lemma {:induction false} RunLinked(tokens: seq<Token>, k: nat)
    requires k <= |tokens|
    ensures Run(tokens, k).Success? ==> Linked(Run(tokens, k).value.nodes)
    decreases k
  {
    if k == 0 {
      StartLinked();
    } else {
      RunLinked(tokens, k - 1);
      RunStepLinked(tokens, k);
    }
  }

  lemma {:induction false} RunStepLinked(tokens: seq<Token>, k: nat)
    requires 0 < k <= |tokens|
    requires Run(tokens, k - 1).Success? ==> Linked(Run(tokens, k - 1).value.nodes)
    ensures Run(tokens, k).Success? ==> Linked(Run(tokens, k).value.nodes)
  {
    var previous := Run(tokens, k - 1);
    if previous.Success? {
      StepLinked(previous.value, tokens, k - 1);
      assert Run(tokens, k) == Step(previous.value, tokens, k - 1);
    }
  }

  /**
   * The tree `BuildCriteria(tokens)` compiles is the loop's linked tree with
   * exactly its childless, token-less non-root nodes unlinked from their
   * parents.
   */
  lemma {:induction false} SyntaxTreeCleaned(tokens: seq<Token>)
    requires SyntaxTree(tokens).Success?
    ensures Run(tokens, |tokens|).Success? && Linked(Run(tokens, |tokens|).value.nodes)
    ensures SyntaxTree(tokens).value == Pruned(Run(tokens, |tokens|).value.nodes)
  {
    RunLinked(tokens, |tokens|);
  }

  /**
   * After any prefix of the tokens the tree stores exactly the tokens read
   * so far other than the parentheses, and the `RemoveAt` of a function
   * name never fails.
   */
  lemma {:induction false} RunKeeps(tokens: seq<Token>, k: nat)
    requires k <= |tokens|
    ensures Run(tokens, k) != Failure(ArgumentOutOfRange)
    ensures Run(tokens, k).Success? ==>
      CursorEndsWithLast(Run(tokens, k).value, tokens, k) &&
      multiset(StoredTokens(Run(tokens, k).value.nodes)) == multiset(NonParen(tokens[..k]))
    decreases k
  {
    if k == 0 {
      var s := Start().nodes;
      assert s[..1] == [s[0]] && s[..1][..0] == [];
    } else {
      RunKeeps(tokens, k - 1);
      NonParenSnoc(tokens, k - 1);
      if Run(tokens, k - 1).Success? {
        StepKeeps(Run(tokens, k - 1).value, tokens, k - 1);
      }
    }
  }
}
