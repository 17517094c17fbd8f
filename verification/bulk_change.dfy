/**
 * The `bulkchange` user command: moves every non-group node of a user from
 * one server (or world) to another.
 *
 * The command is modelled as a pure function from its three arguments and
 * the user's node set to a command result, the new node set and the count it
 * reports. Matches are taken from a snapshot of the node set, and all
 * removals are applied before all additions.
 */
module BulkChange {
  import opened Wrappers
  import opened Ascii
  import opened Nodes

  datatype Scope = WorldScope | ServerScope

  datatype CommandResult = Success | Failure

  datatype Outcome = Outcome(result: CommandResult, nodes: set<Node>, count: nat)

  /** The first argument, matched case-insensitively against `world` and `server`. */
  function ParseScope(arg: string): (r: Option<Scope>)
    ensures r == Some(WorldScope) <==> EqualsIgnoreCase(arg, "world")
    ensures r == Some(ServerScope) <==> EqualsIgnoreCase(arg, "server")
  {
    LowerOfLowerCase("world");
    LowerOfLowerCase("server");
    var t := Lower(arg);
    if t == "world" then Some(WorldScope)
    else if t == "server" then Some(ServerScope)
    else None
  }

  /** What an absent field reads as: a node without a world is in world `null`, one without a server is `global`. */
  function Sentinel(scope: Scope): string {
    match scope
    case WorldScope => "null"
    case ServerScope => "global"
  }

  function Field(scope: Scope, n: Node): Option<string> {
    match scope
    case WorldScope => n.world
    case ServerScope => n.server
  }

  /** The field's value as the command compares it with `from`. */
  function ReadBack(scope: Scope, n: Node): string {
    Field(scope, n).GetOr(Sentinel(scope))
  }

  /** The literal argument `null` clears the field instead of setting it. */
  function Target(to: string): Option<string> {
    if to == "null" then None else Some(to)
  }

  /** A node the command moves: not a group node, and its field reads as `from`. */
  predicate Selected(scope: Scope, from: string, n: Node) {
    !n.IsGroupNode() && ReadBack(scope, n) == from
  }

  /** A copy of `n` that differs from it in the rewritten field only. */
  function Rewrite(scope: Scope, n: Node, target: Option<string>): (m: Node)
    ensures Field(scope, m) == target
    ensures m.permission == n.permission && m.value == n.value
    ensures m.contexts == n.contexts && m.expiry == n.expiry
    ensures scope == WorldScope ==> m.server == n.server
    ensures scope == ServerScope ==> m.world == n.world
  {
    match scope
    case WorldScope => n.(world := target)
    case ServerScope => n.(server := target)
  }

  function Selection(scope: Scope, from: string, nodes: set<Node>): set<Node> {
    set n | n in nodes && Selected(scope, from, n)
  }

  function Image(scope: Scope, target: Option<string>, s: set<Node>): set<Node> {
    set n | n in s :: Rewrite(scope, n, target)
  }

  function Rewritten(scope: Scope, from: string, target: Option<string>, nodes: set<Node>): set<Node> {
    Image(scope, target, Selection(scope, from, nodes))
  }

  /**
   * `UserBulkChange.execute`. An unknown scope fails and leaves the node set
   * alone. Otherwise every selected node is replaced by its rewrite, every
   * other node stays, and the count is the number of distinct rewritten nodes.
   */
  function Execute(scopeArg: string, from: string, to: string, nodes: set<Node>): (o: Outcome)
    ensures ParseScope(scopeArg).None? ==> o == Outcome(Failure, nodes, 0)
    ensures ParseScope(scopeArg).Some? ==> o.result == Success
    ensures forall n :: n in nodes && n.IsGroupNode() ==> n in o.nodes
    ensures ParseScope(scopeArg).Some? ==>
      var scope := ParseScope(scopeArg).value;
      && (forall n :: n in nodes && !Selected(scope, from, n) ==> n in o.nodes)
      && (forall n :: n in nodes && Selected(scope, from, n) ==> Rewrite(scope, n, Target(to)) in o.nodes)
      && (forall m :: m in o.nodes ==>
            (m in nodes && !Selected(scope, from, m))
            || exists n :: n in nodes && Selected(scope, from, n) && m == Rewrite(scope, n, Target(to)))
      && o.count == |Rewritten(scope, from, Target(to), nodes)|
      && o.count <= |Selection(scope, from, nodes)|
      && (o.count == 0 <==> Selection(scope, from, nodes) == {})
  {
    match ParseScope(scopeArg)
    case None => Outcome(Failure, nodes, 0)
    case Some(scope) =>
      var toRemove := Selection(scope, from, nodes);
      var toAdd := Rewritten(scope, from, Target(to), nodes);
      RewrittenSizeBound(scope, Target(to), toRemove);
      Outcome(Success, (nodes - toRemove) + toAdd, |toAdd|)
  }

  /** The rewrites of a finite set of nodes are no more numerous than the nodes. */
  lemma {:induction false} RewrittenSizeBound(scope: Scope, target: Option<string>, s: set<Node>)
    ensures |Image(scope, target, s)| <= |s|
    ensures Image(scope, target, s) == {} <==> s == {}
    decreases |s|
  {
    if s != {} {
      var x :| x in s;
      var rest := s - {x};
      RewrittenSizeBound(scope, target, rest);
      assert Image(scope, target, s) == Image(scope, target, rest) + {Rewrite(scope, x, target)};
    }
  }

  /** Rewrites of a set on which rewriting is injective are exactly as numerous as the nodes. */
  lemma {:induction false} RewrittenSizeInjective(scope: Scope, target: Option<string>, s: set<Node>)
    requires forall x, y :: x in s && y in s && Rewrite(scope, x, target) == Rewrite(scope, y, target) ==> x == y
    ensures |Image(scope, target, s)| == |s|
    decreases |s|
  {
    if s != {} {
      var x :| x in s;
      var rest := s - {x};
      RewrittenSizeInjective(scope, target, rest);
      assert Image(scope, target, s) == Image(scope, target, rest) + {Rewrite(scope, x, target)};
      forall y | y in rest ensures Rewrite(scope, y, target) != Rewrite(scope, x, target) {
        assert y != x;
      }
    }
  }

  /**
   * When `from` is a real server or world name rather than the name an absent
   * field reads as, distinct selected nodes have distinct rewrites, so the
   * count is the number of nodes moved.
   */
  lemma CountIsNumberMoved(scopeArg: string, from: string, to: string, nodes: set<Node>)
    requires ParseScope(scopeArg).Some?
    requires from != Sentinel(ParseScope(scopeArg).value)
    ensures Execute(scopeArg, from, to, nodes).count
         == |Selection(ParseScope(scopeArg).value, from, nodes)|
  {
    var scope := ParseScope(scopeArg).value;
    var sel := Selection(scope, from, nodes);
    forall x, y | x in sel && y in sel && Rewrite(scope, x, Target(to)) == Rewrite(scope, y, Target(to))
      ensures x == y
    {
      assert Field(scope, x) == Some(from) && Field(scope, y) == Some(from);
    }
    RewrittenSizeInjective(scope, Target(to), sel);
  }

  /**
   * Moving nodes from a server (or world) to itself changes nothing, as long
   * as that name is not the one an absent field reads as.
   */
  lemma SameSourceAndTargetIsNoop(scopeArg: string, from: string, nodes: set<Node>)
    requires ParseScope(scopeArg).Some?
    requires from != "null" && from != Sentinel(ParseScope(scopeArg).value)
    ensures Execute(scopeArg, from, from, nodes).nodes == nodes
  {
    var scope := ParseScope(scopeArg).value;
    var sel := Selection(scope, from, nodes);
    forall n | n in sel
      ensures Rewrite(scope, n, Target(from)) == n
    {
      assert Field(scope, n) == Some(from);
    }
    assert Rewritten(scope, from, Target(from), nodes) == sel;
    assert (nodes - sel) + sel == nodes;
  }

  /** A one-node server move from `from` to `to`, when the node's server reads as `from`. */
  lemma MoveOne(n: Node, from: string, to: string)
    requires Selected(ServerScope, from, n)
    ensures Execute("server", from, to, {n}).nodes == {n.(server := Target(to))}
  {
  }

  /**
   * The exclusions above are needed in this model: moving the server an
   * absent field reads as (`global`) onto itself gives a server-less node the
   * server `global`, and moving server `null` onto itself clears the server.
   */
  lemma SentinelSourceIsNotNoop()
    ensures var n := Make("x");
      Execute("server", "global", "global", {n}).nodes == {n.(server := Some("global"))} != {n}
    ensures var n := Make("x").(server := Some("null"));
      Execute("server", "null", "null", {n}).nodes == {n.(server := None)} != {n}
  {
    var n := Make("x");
    MoveOne(n, "global", "global");
    assert n.(server := Some("global")) !in {n};
    var m := Make("x").(server := Some("null"));
    MoveOne(m, "null", "null");
    assert m.(server := None) !in {m};
  }

  /** What a rewritten node's field reads back as. */
  function TargetReadBack(scope: Scope, to: string): string {
    Target(to).GetOr(Sentinel(scope))
  }

  /**
   * Applying the same change twice is the same as applying it once whenever
   * the rewritten field no longer reads as `from`; the second run moves nothing.
   */
  lemma ExecuteIdempotent(scopeArg: string, from: string, to: string, nodes: set<Node>)
    requires ParseScope(scopeArg).Some?
    requires TargetReadBack(ParseScope(scopeArg).value, to) != from
    ensures var once := Execute(scopeArg, from, to, nodes);
      Execute(scopeArg, from, to, once.nodes) == Outcome(Success, once.nodes, 0)
  {
    var scope := ParseScope(scopeArg).value;
    var once := Execute(scopeArg, from, to, nodes);
    forall m | m in once.nodes
      ensures !Selected(scope, from, m)
    {
      if !(m in nodes && !Selected(scope, from, m)) {
        var n :| n in nodes && Selected(scope, from, n) && m == Rewrite(scope, n, Target(to));
        assert ReadBack(scope, m) == TargetReadBack(scope, to);
      }
    }
    assert Selection(scope, from, once.nodes) == {};
  }

  /**
   * The command's pass over a snapshot of the node set: collects the nodes
   * to remove and the nodes to add.
   */
  method CollectMoves(scope: Scope, from: string, target: Option<string>, nodes: set<Node>)
    returns (toRemove: set<Node>, toAdd: set<Node>)
    ensures toRemove == Selection(scope, from, nodes)
    ensures toAdd == Rewritten(scope, from, target, nodes)
  {
    toAdd := {};
    toRemove := {};
    var remaining := nodes;
    var visited: set<Node> := {};
    while remaining != {}
      invariant remaining <= nodes && visited == nodes - remaining
      invariant toRemove == Selection(scope, from, visited)
      invariant toAdd == Image(scope, target, toRemove)
      decreases |remaining|
    {
      var element :| element in remaining;
      VisitOne(scope, from, target, visited, element);
      if Selected(scope, from, element) {
        toRemove := toRemove + {element};
        toAdd := toAdd + {Rewrite(scope, element, target)};
      }
      visited := visited + {element};
      remaining := remaining - {element};
    }
    assert visited == nodes;
  }

  /**
   * The command as the source runs it: one pass collecting the nodes to
   * remove and to add, then all removals, then all additions.
   */
  method ExecuteInPlace(scopeArg: string, from: string, to: string, nodes: set<Node>)
    returns (result: CommandResult, updated: set<Node>, count: nat)
    ensures Outcome(result, updated, count) == Execute(scopeArg, from, to, nodes)
  {
    var scope := ParseScope(scopeArg);
    if scope.None? {
      return Failure, nodes, 0;
    }
    var toRemove, toAdd := CollectMoves(scope.value, from, Target(to), nodes);
    updated := (nodes - toRemove) + toAdd;
    return Success, updated, |toAdd|;
  }

  /** Visiting one more node extends the selection and its image by that node alone, if selected. */
  lemma VisitOne(scope: Scope, from: string, target: Option<string>, visited: set<Node>, e: Node)
    ensures Selected(scope, from, e) ==>
      && Selection(scope, from, visited + {e}) == Selection(scope, from, visited) + {e}
      && Image(scope, target, Selection(scope, from, visited) + {e})
         == Image(scope, target, Selection(scope, from, visited)) + {Rewrite(scope, e, target)}
    ensures !Selected(scope, from, e) ==> Selection(scope, from, visited + {e}) == Selection(scope, from, visited)
  {
  }

  /** Moving `a.b` from server `foo` to `baz` leaves `c.d` on server `bar` alone. */
  lemma ServerMoveExample()
    ensures
      var ab := Make("a.b").(server := Some("foo"));
      var cd := Make("c.d").(server := Some("bar"));
      Execute("server", "foo", "baz", {ab, cd})
        == Outcome(Success, {ab.(server := Some("baz")), cd}, 1)
  {
    var ab := Make("a.b").(server := Some("foo"));
    var cd := Make("c.d").(server := Some("bar"));
    assert Lower("server") == "server";
    assert !ab.IsGroupNode() by { assert ab.permission[0] == 'a'; }
    assert Selection(ServerScope, "foo", {ab, cd}) == {ab};
    assert Rewritten(ServerScope, "foo", Some("baz"), {ab, cd}) == {ab.(server := Some("baz"))};
  }
}
