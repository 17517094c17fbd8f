/**
 * The BungeePerms importer: BungeePerms groups and users, read from the
 * foreign plugin's back end, become LuckPerms holders whose node sets are
 * built from the records' permissions, per-server and per-world
 * permissions, inheritances, prefixes and suffixes.
 *
 * Group weights come from BungeePerms ranks (a lower rank is a more
 * important group): the base weight is the largest rank, at least 0, plus 5,
 * and a group's weight is the base minus its rank. The arithmetic is Java
 * `int` arithmetic and is modelled with explicit 32-bit wrap-around.
 *
 * Holders are node sets; storage is a map from holder name (or UUID) to its
 * node set, and loading a holder that is not stored yields an empty set.
 */
module BungeeMigration {
  import opened Wrappers
  import opened JavaInt
  import opened Nodes
  import opened MigrationUtils

  datatype BpWorld = BpWorld(perms: seq<string>)

  datatype BpServer = BpServer(perms: seq<string>, worlds: seq<(string, BpWorld)>)

  datatype BpGroup = BpGroup(
    name: string,
    rank: int32,
    perms: seq<string>,
    servers: seq<(string, BpServer)>,
    inheritances: seq<string>,
    prefix: Option<string>,
    suffix: Option<string>)

  /** A user whose UUID the back end could not parse has `uuid == None`. */
  datatype BpUser = BpUser(
    name: string,
    uuid: Option<string>,
    perms: seq<string>,
    servers: seq<(string, BpServer)>,
    groups: seq<string>,
    prefix: Option<string>,
    suffix: Option<string>)

  // ---------------------------------------------------------------- weights

  /** The largest rank of any group, and at least 0. */
  function MaxRank(groups: seq<BpGroup>): (r: int)
    ensures 0 <= r <= MaxInt
    ensures forall g :: g in groups ==> g.rank as int <= r
    ensures r == 0 || exists g :: g in groups && g.rank as int == r
  {
    if groups == [] then 0
    else
      var rest := MaxRank(groups[1..]);
      assert forall g :: g in groups[1..] ==> g in groups;
      if groups[0].rank as int > rest then groups[0].rank as int else rest
  }

  /** The weight base for groups: the largest rank plus 5, in 32-bit arithmetic. */
  function BaseWeight(groups: seq<BpGroup>): (r: int32)
    ensures MaxRank(groups) + 5 <= MaxInt ==> r as int == MaxRank(groups) + 5
    ensures MaxRank(groups) + 5 > MaxInt ==> r < 0
  {
    Wrap(MaxRank(groups) + 5)
  }

  /** The weight of a group of rank `rank` over weight base `base`: the base minus the rank, in 32-bit arithmetic. */
  function WeightFrom(base: int32, rank: int32): int32 {
    Wrap(base as int - rank as int)
  }

  /** A group's weight. */
  function GroupWeight(groups: seq<BpGroup>, g: BpGroup): int32 {
    WeightFrom(BaseWeight(groups), g.rank)
  }

  /** The weight of user prefixes and suffixes: five above the group base, in 32-bit arithmetic. */
  function UserWeight(groups: seq<BpGroup>): int32 {
    Wrap(BaseWeight(groups) as int + 5)
  }

  /** Neither the group base nor any group weight overflows a Java `int`. */
  predicate GroupsNoOverflow(groups: seq<BpGroup>) {
    && MaxRank(groups) + 5 <= MaxInt
    && forall g :: g in groups ==> MaxRank(groups) + 5 - g.rank as int <= MaxInt
  }

  /** No weight computation overflows a Java `int`, the user weight included. */
  predicate NoOverflow(groups: seq<BpGroup>) {
    GroupsNoOverflow(groups) && MaxRank(groups) + 10 <= MaxInt
  }

  /** Without overflow, every group's weight is its base minus its rank, so at least 5. */
  lemma GroupWeightBounds(groups: seq<BpGroup>, g: BpGroup)
    requires g in groups && GroupsNoOverflow(groups)
    ensures GroupWeight(groups, g) as int == MaxRank(groups) + 5 - g.rank as int
    ensures GroupWeight(groups, g) >= 5
  {
  }

  /** Without overflow, a lower rank gives a strictly higher weight, and conversely. */
  lemma RankOrder(groups: seq<BpGroup>, g1: BpGroup, g2: BpGroup)
    requires g1 in groups && g2 in groups && GroupsNoOverflow(groups)
    ensures g1.rank < g2.rank <==> GroupWeight(groups, g1) > GroupWeight(groups, g2)
  {
    GroupWeightBounds(groups, g1);
    GroupWeightBounds(groups, g2);
  }

  /**
   * Without overflow, user meta is five above the base, so it outweighs
   * exactly the groups whose rank is above -5.
   */
  lemma UserWeightAboveGroups(groups: seq<BpGroup>, g: BpGroup)
    requires g in groups && NoOverflow(groups)
    ensures UserWeight(groups) as int == MaxRank(groups) + 10
    ensures UserWeight(groups) > GroupWeight(groups, g) <==> g.rank > -5
  {
    GroupWeightBounds(groups, g);
  }

  /** A single group of rank `MinInt` has base 5 and a weight that wraps to a negative value. */
  lemma WeightWrapExample()
    ensures var g := BpGroup("g", MinInt as int32, [], [], [], None, None);
      GroupWeight([g], g) as int == MinInt + 5
  {
    var g := BpGroup("g", MinInt as int32, [], [], [], None, None);
    assert MaxRank([g]) == 0;
    var w := GroupWeight([g], g);
    assert (w as int - (5 - MinInt)) % Modulus == 0;
  }

  // ---------------------------------------------------------------- nodes

  /** A raw BungeePerms permission with the given server and world scope. */
  function Scoped(raw: string, server: Option<string>, world: Option<string>): Node {
    ParseNode(raw, true).(server := server, world := world)
  }

  /** The nodes of a permission list with one scope; empty strings produce no node. */
  function PermNodes(perms: seq<string>, server: Option<string>, world: Option<string>): set<Node> {
    set p | p in perms && p != "" :: Scoped(p, server, world)
  }

  /**
   * Each non-empty permission string yields its node in the given scope,
   * and every node comes from a non-empty string, with at most its sign
   * character removed.
   */
  lemma PermNodesFacts(perms: seq<string>, server: Option<string>, world: Option<string>)
    ensures forall n :: n in PermNodes(perms, server, world) ==>
      n.server == server && n.world == world && n.contexts == {} && n.expiry.None?
    ensures forall p :: p in perms && p != "" ==> Scoped(p, server, world) in PermNodes(perms, server, world)
    ensures forall n :: n in PermNodes(perms, server, world) ==>
      exists p :: p in perms && p != "" && (n.permission == p || n.permission == p[1..])
  {
  }

  /** Appending an empty permission string adds no node. */
  lemma EmptyPermissionIgnored(perms: seq<string>, server: Option<string>, world: Option<string>)
    ensures PermNodes(perms + [""], server, world) == PermNodes(perms, server, world)
  {
    assert forall p :: p in perms + [""] && p != "" <==> p in perms && p != "";
  }

  /** The per-world permissions of the server `key`. */
  function WorldNodes(key: string, worlds: seq<(string, BpWorld)>): set<Node> {
    if worlds == [] then {}
    else PermNodes(worlds[0].1.perms, Some(key), Some(worlds[0].0)) + WorldNodes(key, worlds[1..])
  }

  /** Per-world permissions get the server key as server and the world key as world. */
  lemma {:induction false} WorldNodesFacts(key: string, worlds: seq<(string, BpWorld)>)
    ensures forall n :: n in WorldNodes(key, worlds) ==>
      n.server == Some(key) && n.world.Some? && exists kv :: kv in worlds && kv.0 == n.world.value
    ensures forall kv, p :: kv in worlds && p in kv.1.perms && p != "" ==> Scoped(p, Some(key), Some(kv.0)) in WorldNodes(key, worlds)
  {
    if worlds != [] {
      WorldNodesFacts(key, worlds[1..]);
      PermNodesFacts(worlds[0].1.perms, Some(key), Some(worlds[0].0));
      assert forall kv :: kv in worlds[1..] ==> kv in worlds;
      assert forall kv :: kv in worlds ==> kv == worlds[0] || kv in worlds[1..];
    }
  }

  /**
   * The per-server and per-world permissions. As written, a per-server
   * permission gets the server key as its world, and no server.
   */
  function ServerNodes(servers: seq<(string, BpServer)>): set<Node> {
    if servers == [] then {}
    else
      var (key, server) := servers[0];
      PermNodes(server.perms, None, Some(key)) + WorldNodes(key, server.worlds) + ServerNodes(servers[1..])
  }

  /**
   * Every per-server node has the server key as its world and no server;
   * every per-world node has the server key as server and a world key of
   * that server as world; and every non-empty string yields its node.
   */
  lemma {:induction false} ServerNodesFacts(servers: seq<(string, BpServer)>)
    ensures forall n :: n in ServerNodes(servers) ==> n.world.Some?
    ensures forall n :: n in ServerNodes(servers) && n.server.None? ==> exists kv :: kv in servers && kv.0 == n.world.value
    ensures forall n :: n in ServerNodes(servers) && n.server.Some? ==>
      exists kv :: kv in servers && kv.0 == n.server.value && exists w :: w in kv.1.worlds && w.0 == n.world.value
    ensures forall kv, p :: kv in servers && p in kv.1.perms && p != "" ==> Scoped(p, None, Some(kv.0)) in ServerNodes(servers)
    ensures forall kv, w, p :: kv in servers && w in kv.1.worlds && p in w.1.perms && p != "" ==>
      Scoped(p, Some(kv.0), Some(w.0)) in ServerNodes(servers)
  {
    if servers != [] {
      var (key, server) := servers[0];
      ServerNodesFacts(servers[1..]);
      PermNodesFacts(server.perms, None, Some(key));
      WorldNodesFacts(key, server.worlds);
      assert forall kv :: kv in servers[1..] ==> kv in servers;
      assert forall kv :: kv in servers ==> kv == servers[0] || kv in servers[1..];
    }
  }

  /** Inheritances and memberships: each non-empty name becomes membership of its standardised group. */
  function ParentNodes(names: seq<string>): set<Node> {
    set x | x in names && x != "" :: MakeGroupNode(StandardizeName(x))
  }

  /**
   * Every non-empty name yields membership of its standardised group, and
   * every node is a plain membership node naming an already standardised
   * group.
   */
  lemma ParentNodesFacts(names: seq<string>)
    ensures forall x :: x in names && x != "" ==> MakeGroupNode(StandardizeName(x)) in ParentNodes(names)
    ensures forall n :: n in ParentNodes(names) ==>
      && n.IsGroupNode() && n == Make(n.permission)
      && StandardizeName(n.permission[|GroupPrefix|..]) == n.permission[|GroupPrefix|..]
  {
    forall n | n in ParentNodes(names)
      ensures StandardizeName(n.permission[|GroupPrefix|..]) == n.permission[|GroupPrefix|..]
    {
      var x :| x in names && x != "" && n == MakeGroupNode(StandardizeName(x));
      assert n.permission[|GroupPrefix|..] == StandardizeName(x);
      StandardizeNameIdempotent(x);
    }
  }

  /** Appending an empty name adds no node. */
  lemma EmptyNameIgnored(names: seq<string>)
    ensures ParentNodes(names + [""]) == ParentNodes(names)
  {
    assert forall x :: x in names + [""] && x != "" <==> x in names && x != "";
  }

  /** A prefix or suffix is migrated only when present and non-empty. */
  predicate Present(text: Option<string>) {
    text.Some? && text.value != ""
  }

  /** The prefix and suffix nodes at `weight`. */
  function MetaNodes(weight: int, prefix: Option<string>, suffix: Option<string>): set<Node> {
    (if Present(prefix) then {MakePrefixNode(weight, prefix.value)} else {})
      + (if Present(suffix) then {MakeSuffixNode(weight, suffix.value)} else {})
  }

  /**
   * There is a prefix node for text `x` exactly when the prefix is present,
   * non-empty and equal to `x`, and likewise for the suffix; nothing else.
   */
  lemma MetaNodesFacts(weight: int, prefix: Option<string>, suffix: Option<string>)
    ensures |MetaNodes(weight, prefix, suffix)| <= 2
    ensures forall x :: MakePrefixNode(weight, x) in MetaNodes(weight, prefix, suffix) <==> Present(prefix) && x == prefix.value
    ensures forall x :: MakeSuffixNode(weight, x) in MetaNodes(weight, prefix, suffix) <==> Present(suffix) && x == suffix.value
    ensures forall n :: n in MetaNodes(weight, prefix, suffix) ==> !n.IsGroupNode() && !n.IsWeightNode()
  {
    var p: set<Node> := if Present(prefix) then {MakePrefixNode(weight, prefix.value)} else {};
    var s: set<Node> := if Present(suffix) then {MakeSuffixNode(weight, suffix.value)} else {};
    assert MetaNodes(weight, prefix, suffix) == p + s;
    forall x ensures MakePrefixNode(weight, x) !in s && MakeSuffixNode(weight, x) !in p {
      if Present(suffix) {
        MetaNodesDistinct(weight, x, suffix.value);
      }
      if Present(prefix) {
        MetaNodesDistinct(weight, prefix.value, x);
      }
    }
    forall x | Present(prefix) && MakePrefixNode(weight, x) == MakePrefixNode(weight, prefix.value)
      ensures x == prefix.value
    {
      PrefixNodeInjective(weight, x, prefix.value);
    }
    forall x | Present(suffix) && MakeSuffixNode(weight, x) == MakeSuffixNode(weight, suffix.value)
      ensures x == suffix.value
    {
      SuffixNodeInjective(weight, x, suffix.value);
    }
    FactoryNamespaces(weight, prefix.GetOr(""), "", "");
    FactoryNamespaces(weight, suffix.GetOr(""), "", "");
  }

  lemma MetaNodesDistinct(weight: int, x: string, y: string)
    ensures MakePrefixNode(weight, x) != MakeSuffixNode(weight, y)
  {
    assert MakePrefixNode(weight, x).permission[0] == 'p';
    assert MakeSuffixNode(weight, y).permission[0] == 's';
  }

  lemma {:induction false} SameHeadSameTail(h: string, x: string, y: string)
    requires h + x == h + y
    ensures x == y
  {
    assert x == (h + x)[|h|..];
    assert y == (h + y)[|h|..];
  }

  lemma PrefixNodeInjective(weight: int, x: string, y: string)
    requires MakePrefixNode(weight, x) == MakePrefixNode(weight, y)
    ensures x == y
  {
    SameHeadSameTail("prefix." + IntToString(weight) + ".", x, y);
  }

  lemma SuffixNodeInjective(weight: int, x: string, y: string)
    requires MakeSuffixNode(weight, x) == MakeSuffixNode(weight, y)
    ensures x == y
  {
    SameHeadSameTail("suffix." + IntToString(weight) + ".", x, y);
  }

  // ---------------------------------------------------------------- holders

  /** Every node a BungeePerms group contributes, at its weight. */
  function GroupNodes(weight: int, g: BpGroup): set<Node> {
    PermNodes(g.perms, None, None) + ServerNodes(g.servers) + ParentNodes(g.inheritances)
      + MetaNodes(weight, g.prefix, g.suffix)
  }

  /** Every node a BungeePerms user contributes; prefix and suffix at the user weight. */
  function UserNodes(weight: int, u: BpUser): set<Node> {
    PermNodes(u.perms, None, None) + ServerNodes(u.servers) + ParentNodes(u.groups)
      + MetaNodes(weight, u.prefix, u.suffix)
  }

  /** Empty permission strings and empty inheritance or membership names change nothing. */
  lemma EmptyEntriesIgnored(weight: int, g: BpGroup, u: BpUser)
    ensures GroupNodes(weight, g.(perms := g.perms + [""], inheritances := g.inheritances + [""])) == GroupNodes(weight, g)
    ensures UserNodes(weight, u.(perms := u.perms + [""], groups := u.groups + [""])) == UserNodes(weight, u)
  {
    EmptyPermissionIgnored(g.perms, None, None);
    EmptyNameIgnored(g.inheritances);
    EmptyPermissionIgnored(u.perms, None, None);
    EmptyNameIgnored(u.groups);
  }

  /**
   * One group migrated onto the nodes its LuckPerms group already has:
   * the weight is replaced first, then the translated nodes are added.
   */
  function MigrateGroup(existing: set<Node>, weight: int, translated: set<Node>): (r: set<Node>)
    ensures translated <= r
    ensures MakeWeightNode(weight) in r
    ensures forall n :: n in existing && !n.IsWeightNode() ==> n in r
    ensures forall n :: n in r ==> n in existing || n in translated || n == MakeWeightNode(weight)
    ensures forall n :: n in r && n.IsWeightNode() ==> n == MakeWeightNode(weight) || n in translated
  {
    SetGroupWeight(existing, weight) + translated
  }

  /**
   * With `setPermission` as set union, a group granting `x` and denying `-x`
   * holds both nodes; a holder that declines a node it already holds up to
   * its value would keep only the first.
   */
  lemma BothValuesKept()
    ensures var g := BpGroup("g", 0, ["x", "-x"], [], [], None, None);
      Make("x") in MigrateGroup({}, 5, GroupNodes(5, g)) && Make("x").(value := false) in MigrateGroup({}, 5, GroupNodes(5, g))
  {
    var g := BpGroup("g", 0, ["x", "-x"], [], [], None, None);
    assert ("-x")[1..] == "x";
    assert Scoped("x", None, None) == Make("x");
    assert Scoped("-x", None, None) == Make("x").(value := false);
    PermNodesFacts(g.perms, None, None);
  }

  type Store = map<string, set<Node>>

  function Load(store: Store, key: string): set<Node> {
    if key in store then store[key] else {}
  }

  /** Migrating one group: the LuckPerms group it is stored under, its weight, and the nodes it contributes. */
  datatype GroupStep = GroupStep(name: string, weight: int, nodes: set<Node>)

  function StepOf(base: int32, g: BpGroup): GroupStep {
    var weight := WeightFrom(base, g.rank) as int;
    GroupStep(StandardizeName(g.name), weight, GroupNodes(weight, g))
  }

  /** Storage after one step: the group stored under the step's name, migrated. */
  function ApplyGroup(store: Store, s: GroupStep): Store {
    store[s.name := MigrateGroup(Load(store, s.name), s.weight, s.nodes)]
  }

  /** The steps in order; steps whose names are equal act on one LuckPerms group. */
  function ApplyGroups(steps: seq<GroupStep>, store: Store): Store {
    if steps == [] then store
    else ApplyGroups(steps[1..], ApplyGroup(store, steps[0]))
  }

  function Names(steps: seq<GroupStep>): set<string> {
    set s | s in steps :: s.name
  }

  /** Group migration stores exactly the groups already stored and one group per name. */
  lemma {:induction false} ApplyGroupsKeys(steps: seq<GroupStep>, store: Store)
    ensures ApplyGroups(steps, store).Keys == store.Keys + Names(steps)
  {
    if steps != [] {
      var s := steps[0];
      ApplyGroupsKeys(steps[1..], ApplyGroup(store, s));
      assert Names(steps) == {s.name} + Names(steps[1..]) by {
        assert steps == [s] + steps[1..];
      }
    }
  }

  /** A group that no step names is left exactly as stored. */
  lemma {:induction false} ApplyGroupsUntouched(steps: seq<GroupStep>, store: Store, k: string)
    requires k !in Names(steps)
    ensures k in ApplyGroups(steps, store) <==> k in store
    ensures k in store ==> ApplyGroups(steps, store)[k] == store[k]
  {
    if steps != [] {
      var s := steps[0];
      assert s in steps;
      assert k !in Names(steps[1..]) by {
        forall t | t in steps[1..] ensures t.name != k {
          assert t in steps;
        }
      }
      ApplyGroupsUntouched(steps[1..], ApplyGroup(store, s), k);
    }
  }

  /** Group migration never loses a stored node, except weight nodes it replaces. */
  lemma {:induction false} ApplyGroupsKeeps(steps: seq<GroupStep>, store: Store)
    ensures forall k, n :: k in store && n in store[k] && !n.IsWeightNode() ==>
      k in ApplyGroups(steps, store) && n in ApplyGroups(steps, store)[k]
  {
    if steps != [] {
      ApplyGroupsKeeps(steps[1..], ApplyGroup(store, steps[0]));
    }
  }

  /** Every group ends up holding every non-weight node a step for its name contributes. */
  lemma {:induction false} ApplyGroupsAdds(steps: seq<GroupStep>, store: Store)
    ensures forall s, n :: s in steps && n in s.nodes && !n.IsWeightNode() ==>
      s.name in ApplyGroups(steps, store) && n in ApplyGroups(steps, store)[s.name]
  {
    if steps != [] {
      var s := steps[0];
      var next := ApplyGroup(store, s);
      ApplyGroupsAdds(steps[1..], next);
      ApplyGroupsKeeps(steps[1..], next);
      forall t, n | t in steps && n in t.nodes && !n.IsWeightNode()
        ensures t.name in ApplyGroups(steps, store) && n in ApplyGroups(steps, store)[t.name]
      {
        if t != s {
          assert t in steps[1..] by { assert steps == [s] + steps[1..]; }
        }
      }
    }
  }

  /** A node a step may leave in the group it names: one it contributes, or its weight node. */
  predicate FromStep(s: GroupStep, k: string, n: Node) {
    s.name == k && (n in s.nodes || n == MakeWeightNode(s.weight))
  }

  /** Group migration adds nothing else: every stored node was stored before or comes from a step for its group. */
  lemma {:induction false} ApplyGroupsOnly(steps: seq<GroupStep>, store: Store)
    ensures forall k, n :: k in ApplyGroups(steps, store) && n in ApplyGroups(steps, store)[k] ==>
      (k in store && n in store[k]) || exists i :: 0 <= i < |steps| && FromStep(steps[i], k, n)
  {
    if steps != [] {
      var s := steps[0];
      var next := ApplyGroup(store, s);
      var r := ApplyGroups(steps, store);
      assert r == ApplyGroups(steps[1..], next);
      ApplyGroupsOnly(steps[1..], next);
      forall k, n | k in r && n in r[k]
        ensures (k in store && n in store[k]) || exists i :: 0 <= i < |steps| && FromStep(steps[i], k, n)
      {
        if j :| 0 <= j < |steps[1..]| && FromStep(steps[1..][j], k, n) {
          assert steps[j + 1] == steps[1..][j];
        } else {
          assert k in next && n in next[k];
          if k == s.name && n !in Load(store, k) {
            assert FromStep(steps[0], k, n);
          }
        }
      }
    }
  }

  /** The step is the last one acting on its group. */
  predicate LastOfName(steps: seq<GroupStep>, i: int) {
    0 <= i < |steps| && forall j :: i < j < |steps| ==> steps[j].name != steps[i].name
  }

  /**
   * The last step for a name decides the group's weight: the group holds
   * that step's weight node, and any other weight node it holds is one the
   * step's own nodes carry.
   */
  lemma {:induction false} ApplyGroupsLastWeight(steps: seq<GroupStep>, store: Store, i: int)
    requires LastOfName(steps, i)
    ensures var s := steps[i]; var r := ApplyGroups(steps, store);
      && s.name in r && MakeWeightNode(s.weight) in r[s.name]
      && forall n :: n in r[s.name] && n.IsWeightNode() ==> n == MakeWeightNode(s.weight) || n in s.nodes
  {
    var s := steps[0];
    var next := ApplyGroup(store, s);
    if i == 0 {
      assert s.name !in Names(steps[1..]) by {
        forall t | t in steps[1..] ensures t.name != s.name {
          var j :| 0 <= j < |steps[1..]| && steps[1..][j] == t;
          assert steps[j + 1] == t;
        }
      }
      ApplyGroupsUntouched(steps[1..], next, s.name);
    } else {
      assert steps[1..][i - 1] == steps[i];
      assert LastOfName(steps[1..], i - 1) by {
        forall j | i - 1 < j < |steps[1..]| ensures steps[1..][j].name != steps[1..][i - 1].name {
          assert steps[1..][j] == steps[j + 1];
        }
      }
      ApplyGroupsLastWeight(steps[1..], next, i - 1);
    }
  }

  function GroupSteps(base: int32, groups: seq<BpGroup>): (r: seq<GroupStep>)
    ensures |r| == |groups|
    ensures forall i :: 0 <= i < |groups| ==> r[i] == StepOf(base, groups[i])
  {
    seq(|groups|, i requires 0 <= i < |groups| => StepOf(base, groups[i]))
  }

  /** Every BungeePerms group migrated in order. */
  function MigrateGroups(groups: seq<BpGroup>, store: Store): Store {
    ApplyGroups(GroupSteps(BaseWeight(groups), groups), store)
  }

  lemma StepsAdd(base: int32, groups: seq<BpGroup>, store: Store)
    ensures forall g, n :: g in groups && n in GroupNodes(WeightFrom(base, g.rank) as int, g) && !n.IsWeightNode() ==>
      StandardizeName(g.name) in ApplyGroups(GroupSteps(base, groups), store)
      && n in ApplyGroups(GroupSteps(base, groups), store)[StandardizeName(g.name)]
  {
    var steps := GroupSteps(base, groups);
    ApplyGroupsAdds(steps, store);
    forall g, n | g in groups && n in GroupNodes(WeightFrom(base, g.rank) as int, g) && !n.IsWeightNode()
      ensures StandardizeName(g.name) in ApplyGroups(steps, store) && n in ApplyGroups(steps, store)[StandardizeName(g.name)]
    {
      var i :| 0 <= i < |groups| && groups[i] == g;
      assert steps[i] in steps && n in steps[i].nodes;
    }
  }

  /** A node a BungeePerms group may leave in the LuckPerms group `k`: one it contributes, or its weight node. */
  predicate FromGroup(groups: seq<BpGroup>, g: BpGroup, k: string, n: Node) {
    && StandardizeName(g.name) == k
    && (n in GroupNodes(GroupWeight(groups, g) as int, g) || n == MakeWeightNode(GroupWeight(groups, g) as int))
  }

  /** What a group's step leaves in storage is what the group contributes. */
  lemma StepFromGroup(groups: seq<BpGroup>, g: BpGroup, k: string, n: Node)
    requires FromStep(StepOf(BaseWeight(groups), g), k, n)
    ensures FromGroup(groups, g, k, n)
  {
  }

  lemma StepsOnly(groups: seq<BpGroup>, store: Store)
    ensures forall k, n :: k in MigrateGroups(groups, store) && n in MigrateGroups(groups, store)[k] ==>
      (k in store && n in store[k]) || exists g :: g in groups && FromGroup(groups, g, k, n)
  {
    var steps := GroupSteps(BaseWeight(groups), groups);
    var r := ApplyGroups(steps, store);
    assert r == MigrateGroups(groups, store);
    ApplyGroupsOnly(steps, store);
    forall k, n | k in r && n in r[k] && !(k in store && n in store[k])
      ensures exists g :: g in groups && FromGroup(groups, g, k, n)
    {
      var i :| 0 <= i < |steps| && FromStep(steps[i], k, n);
      assert steps[i] == StepOf(BaseWeight(groups), groups[i]);
      StepFromGroup(groups, groups[i], k, n);
      assert groups[i] in groups;
    }
  }

  /**
   * After group migration, every group's standardised name holds every
   * non-weight node the group contributes, and nothing is stored that was
   * not stored before or contributed by a group of that name (its nodes or
   * its weight node).
   */
  lemma MigrateGroupsAdds(groups: seq<BpGroup>, store: Store)
    ensures forall g, n :: g in groups && n in GroupNodes(GroupWeight(groups, g) as int, g) && !n.IsWeightNode() ==>
      StandardizeName(g.name) in MigrateGroups(groups, store) && n in MigrateGroups(groups, store)[StandardizeName(g.name)]
    ensures forall k, n :: k in MigrateGroups(groups, store) && n in MigrateGroups(groups, store)[k] ==>
      (k in store && n in store[k]) || exists g :: g in groups && FromGroup(groups, g, k, n)
  {
    StepsAdd(BaseWeight(groups), groups, store);
    StepsOnly(groups, store);
  }

  /**
   * The last BungeePerms group migrated under a name decides that group's
   * weight: the LuckPerms group holds `weight.<its weight>`, and any other
   * weight node is one of its own translated permissions.
   */
  lemma MigrateGroupsWeight(groups: seq<BpGroup>, store: Store, i: int)
    requires 0 <= i < |groups|
    requires forall j :: i < j < |groups| ==> StandardizeName(groups[j].name) != StandardizeName(groups[i].name)
    ensures var name := StandardizeName(groups[i].name);
      var w := GroupWeight(groups, groups[i]) as int;
      var r := MigrateGroups(groups, store);
      && name in r && MakeWeightNode(w) in r[name]
      && forall n :: n in r[name] && n.IsWeightNode() ==> n == MakeWeightNode(w) || n in GroupNodes(w, groups[i])
  {
    var steps := GroupSteps(BaseWeight(groups), groups);
    assert LastOfName(steps, i);
    ApplyGroupsLastWeight(steps, store, i);
  }

  /** What migrating one user does to storage: its UUID, if any, and the nodes it contributes. */
  datatype UserStep = UserStep(uuid: Option<string>, nodes: set<Node>)

  /** The steps in order: a step without a UUID is skipped and not counted. */
  function ApplyUsers(steps: seq<UserStep>, store: Store): (Store, nat) {
    if steps == [] then (store, 0)
    else
      var s := steps[0];
      if s.uuid.None? then ApplyUsers(steps[1..], store)
      else
        var rest := ApplyUsers(steps[1..], store[s.uuid.value := Load(store, s.uuid.value) + s.nodes]);
        (rest.0, rest.1 + 1)
  }

  function Uuids(steps: seq<UserStep>): set<string> {
    set s | s in steps && s.uuid.Some? :: s.uuid.value
  }

  function CountWithUuid(steps: seq<UserStep>): (r: nat)
    ensures r <= |steps|
  {
    if steps == [] then 0 else (if steps[0].uuid.Some? then 1 else 0) + CountWithUuid(steps[1..])
  }

  /** User migration stores the users already stored and every user with a UUID, and counts the latter. */
  lemma {:induction false} ApplyUsersCount(steps: seq<UserStep>, store: Store)
    ensures ApplyUsers(steps, store).0.Keys == store.Keys + Uuids(steps)
    ensures ApplyUsers(steps, store).1 == CountWithUuid(steps)
  {
    if steps != [] {
      var s := steps[0];
      assert steps == [s] + steps[1..];
      if s.uuid.None? {
        ApplyUsersCount(steps[1..], store);
        assert Uuids(steps) == Uuids(steps[1..]);
      } else {
        ApplyUsersCount(steps[1..], store[s.uuid.value := Load(store, s.uuid.value) + s.nodes]);
        assert Uuids(steps) == {s.uuid.value} + Uuids(steps[1..]);
      }
    }
  }

  /** User migration keeps every stored node and adds every node a user with a UUID contributes. */
  lemma {:induction false} ApplyUsersNodes(steps: seq<UserStep>, store: Store)
    ensures forall k, n :: k in store && n in store[k] ==>
      k in ApplyUsers(steps, store).0 && n in ApplyUsers(steps, store).0[k]
    ensures forall s, n :: s in steps && s.uuid.Some? && n in s.nodes ==>
      s.uuid.value in ApplyUsers(steps, store).0 && n in ApplyUsers(steps, store).0[s.uuid.value]
  {
    if steps != [] {
      var s := steps[0];
      assert steps == [s] + steps[1..];
      if s.uuid.None? {
        ApplyUsersNodes(steps[1..], store);
      } else {
        var next := store[s.uuid.value := Load(store, s.uuid.value) + s.nodes];
        ApplyUsersNodes(steps[1..], next);
        assert ApplyUsers(steps, store).0 == ApplyUsers(steps[1..], next).0;
        forall k, n | k in store && n in store[k]
          ensures k in ApplyUsers(steps, store).0 && n in ApplyUsers(steps, store).0[k]
        {
          assert n in next[k];
        }
        forall t, n | t in steps && t.uuid.Some? && n in t.nodes
          ensures t.uuid.value in ApplyUsers(steps, store).0 && n in ApplyUsers(steps, store).0[t.uuid.value]
        {
          if t != s {
            assert t in steps[1..];
          } else {
            assert n in next[t.uuid.value];
          }
        }
      }
    }
  }

  /** User migration adds nothing else: every stored node was stored before or comes from a step with that UUID. */
  lemma {:induction false} ApplyUsersOnly(steps: seq<UserStep>, store: Store)
    ensures forall k, n :: k in ApplyUsers(steps, store).0 && n in ApplyUsers(steps, store).0[k] ==>
      (k in store && n in store[k]) || exists s :: s in steps && s.uuid == Some(k) && n in s.nodes
  {
    if steps != [] {
      var s := steps[0];
      assert steps == [s] + steps[1..];
      if s.uuid.None? {
        ApplyUsersOnly(steps[1..], store);
      } else {
        var next := store[s.uuid.value := Load(store, s.uuid.value) + s.nodes];
        var r := ApplyUsers(steps, store).0;
        ApplyUsersOnly(steps[1..], next);
        assert r == ApplyUsers(steps[1..], next).0;
        forall k, n | k in r && n in r[k]
          ensures (k in store && n in store[k]) || exists t :: t in steps && t.uuid == Some(k) && n in t.nodes
        {
          if t :| t in steps[1..] && t.uuid == Some(k) && n in t.nodes {
            assert t in steps;
          } else {
            assert k in next && n in next[k];
            if k == s.uuid.value && n !in Load(store, k) {
              assert s in steps && n in s.nodes;
            }
          }
        }
      }
    }
  }

  function UserSteps(weight: int, users: seq<BpUser>): (r: seq<UserStep>)
    ensures |r| == |users|
    ensures forall i :: 0 <= i < |users| ==> r[i].uuid == users[i].uuid
  {
    seq(|users|, i requires 0 <= i < |users| => UserStep(users[i].uuid, UserNodes(weight, users[i])))
  }

  /** Every BungeePerms user migrated in order, with the number migrated. */
  function MigrateUsers(groups: seq<BpGroup>, users: seq<BpUser>, store: Store): (Store, nat) {
    ApplyUsers(UserSteps(UserWeight(groups) as int, users), store)
  }

  lemma StepsStoreUsers(weight: int, users: seq<BpUser>, store: Store)
    ensures forall u, n :: u in users && u.uuid.Some? && n in UserNodes(weight, u) ==>
      u.uuid.value in ApplyUsers(UserSteps(weight, users), store).0
      && n in ApplyUsers(UserSteps(weight, users), store).0[u.uuid.value]
    ensures forall k, n :: k in store && n in store[k] ==>
      k in ApplyUsers(UserSteps(weight, users), store).0 && n in ApplyUsers(UserSteps(weight, users), store).0[k]
  {
    var steps := UserSteps(weight, users);
    ApplyUsersNodes(steps, store);
    forall u | u in users ensures UserStep(u.uuid, UserNodes(weight, u)) in steps {
      var i :| 0 <= i < |users| && users[i] == u;
      assert steps[i] == UserStep(u.uuid, UserNodes(weight, u));
    }
  }

  lemma StepsOnlyUsers(weight: int, users: seq<BpUser>, store: Store)
    ensures forall k, n :: k in ApplyUsers(UserSteps(weight, users), store).0 && n in ApplyUsers(UserSteps(weight, users), store).0[k] ==>
      (k in store && n in store[k]) || exists u :: u in users && u.uuid == Some(k) && n in UserNodes(weight, u)
  {
    var steps := UserSteps(weight, users);
    var r := ApplyUsers(steps, store).0;
    ApplyUsersOnly(steps, store);
    forall k, n | k in r && n in r[k] && !(k in store && n in store[k])
      ensures exists u :: u in users && u.uuid == Some(k) && n in UserNodes(weight, u)
    {
      var t :| t in steps && t.uuid == Some(k) && n in t.nodes;
      var i :| 0 <= i < |steps| && steps[i] == t;
      assert users[i] in users && n in UserNodes(weight, users[i]);
    }
  }

  /**
   * After user migration, every user with a UUID holds every node it
   * contributes, stored nodes are kept, and nothing else is stored: a node
   * under a key was stored there before or is contributed by a user with
   * that UUID.
   */
  lemma MigrateUsersNodes(groups: seq<BpGroup>, users: seq<BpUser>, store: Store)
    ensures forall u, n :: u in users && u.uuid.Some? && n in UserNodes(UserWeight(groups) as int, u) ==>
      u.uuid.value in MigrateUsers(groups, users, store).0 && n in MigrateUsers(groups, users, store).0[u.uuid.value]
    ensures forall k, n :: k in store && n in store[k] ==>
      k in MigrateUsers(groups, users, store).0 && n in MigrateUsers(groups, users, store).0[k]
    ensures forall k, n :: k in MigrateUsers(groups, users, store).0 && n in MigrateUsers(groups, users, store).0[k] ==>
      (k in store && n in store[k]) || exists u :: u in users && u.uuid == Some(k) && n in UserNodes(UserWeight(groups) as int, u)
  {
    var w := UserWeight(groups) as int;
    StepsStoreUsers(w, users, store);
    StepsOnlyUsers(w, users, store);
    assert MigrateUsers(groups, users, store) == ApplyUsers(UserSteps(w, users), store);
  }

  /** For each step, whether it carries a UUID. */
  function UuidFlags(steps: seq<UserStep>): seq<bool> {
    seq(|steps|, i requires 0 <= i < |steps| => steps[i].uuid.Some?)
  }

  /** The count is the number of steps that carry a UUID. */
  lemma {:induction false} CountIsFlags(steps: seq<UserStep>)
    ensures CountWithUuid(steps) == multiset(UuidFlags(steps))[true]
  {
    if steps != [] {
      CountIsFlags(steps[1..]);
      assert UuidFlags(steps) == [steps[0].uuid.Some?] + UuidFlags(steps[1..]);
    }
  }

  /** Appending a user without a UUID changes neither storage nor the count. */
  lemma {:induction false} UserWithoutUuidSkipped(steps: seq<UserStep>, nodes: set<Node>, store: Store)
    ensures ApplyUsers(steps + [UserStep(None, nodes)], store) == ApplyUsers(steps, store)
  {
    if steps == [] {
      assert ([UserStep(None, nodes)])[1..] == [];
    } else {
      var s := steps[0];
      assert (steps + [UserStep(None, nodes)])[1..] == steps[1..] + [UserStep(None, nodes)];
      if s.uuid.None? {
        UserWithoutUuidSkipped(steps[1..], nodes, store);
      } else {
        UserWithoutUuidSkipped(steps[1..], nodes, store[s.uuid.value := Load(store, s.uuid.value) + s.nodes]);
      }
    }
  }

  lemma ExecuteStores(b: BackEnd, groupStore: Store, userStore: Store)
    ensures MigrateGroups(b.groups, groupStore).Keys == groupStore.Keys + (set g | g in b.groups :: StandardizeName(g.name))
    ensures MigrateUsers(b.groups, b.users, userStore).0.Keys == userStore.Keys + (set u | u in b.users && u.uuid.Some? :: u.uuid.value)
    ensures MigrateUsers(b.groups, b.users, userStore).1 == multiset(UserFlags(b.users))[true]
  {
    GroupNamesStored(b.groups, groupStore);
    UserKeysStored(b.groups, b.users, userStore);
    UserCount(b.groups, b.users, userStore);
  }

  /** The names of steps that are named after a sequence of values, one by one. */
  lemma {:induction false} NamesAfter<T>(xs: seq<T>, steps: seq<GroupStep>, f: T -> string)
    requires |steps| == |xs|
    requires forall i :: 0 <= i < |xs| ==> steps[i].name == f(xs[i])
    ensures Names(steps) == set x | x in xs :: f(x)
  {
    forall k | k in Names(steps) ensures exists x :: x in xs && f(x) == k {
      var s :| s in steps && s.name == k;
      var i :| 0 <= i < |steps| && steps[i] == s;
      assert xs[i] in xs;
    }
    forall x | x in xs ensures f(x) in Names(steps) {
      var i :| 0 <= i < |xs| && xs[i] == x;
      assert steps[i] in steps;
    }
  }

  /** The name a BungeePerms group is stored under. */
  function GroupName(g: BpGroup): string {
    StandardizeName(g.name)
  }

  lemma StepNames(base: int32, groups: seq<BpGroup>)
    ensures Names(GroupSteps(base, groups)) == (set g | g in groups :: StandardizeName(g.name))
  {
    NamesAfter(groups, GroupSteps(base, groups), GroupName);
    assert (set g | g in groups :: GroupName(g)) == (set g | g in groups :: StandardizeName(g.name));
  }

  /** Group migration stores the groups already stored and one group per standardised name. */
  lemma GroupNamesStored(groups: seq<BpGroup>, store: Store)
    ensures MigrateGroups(groups, store).Keys == store.Keys + (set g | g in groups :: StandardizeName(g.name))
  {
    ApplyGroupsKeys(GroupSteps(BaseWeight(groups), groups), store);
    StepNames(BaseWeight(groups), groups);
  }

  /** For each user, whether it has a UUID. */
  function UserFlags(users: seq<BpUser>): (r: seq<bool>)
    ensures |r| == |users|
  {
    seq(|users|, i requires 0 <= i < |users| => users[i].uuid.Some?)
  }

  lemma UserUuids(weight: int, users: seq<BpUser>)
    ensures Uuids(UserSteps(weight, users)) == (set u | u in users && u.uuid.Some? :: u.uuid.value)
  {
    var usteps := UserSteps(weight, users);
    forall u | u in users && u.uuid.Some? ensures u.uuid.value in Uuids(usteps) {
      var i :| 0 <= i < |users| && users[i] == u;
      assert usteps[i] in usteps;
    }
    forall k | k in Uuids(usteps) ensures exists u :: u in users && u.uuid == Some(k) {
      var s :| s in usteps && s.uuid == Some(k);
      var i :| 0 <= i < |usteps| && usteps[i] == s;
      assert users[i] in users;
    }
  }

  /** User migration stores the users already stored and every user with a UUID. */
  lemma UserKeysStored(groups: seq<BpGroup>, users: seq<BpUser>, userStore: Store)
    ensures MigrateUsers(groups, users, userStore).0.Keys == userStore.Keys + (set u | u in users && u.uuid.Some? :: u.uuid.value)
  {
    ApplyUsersCount(UserSteps(UserWeight(groups) as int, users), userStore);
    UserUuids(UserWeight(groups) as int, users);
  }

  lemma StepsCount(weight: int, users: seq<BpUser>, userStore: Store)
    ensures ApplyUsers(UserSteps(weight, users), userStore).1 == multiset(UserFlags(users))[true]
  {
    var usteps := UserSteps(weight, users);
    ApplyUsersCount(usteps, userStore);
    CountIsFlags(usteps);
    assert UuidFlags(usteps) == UserFlags(users);
  }

  /** The user count is the number of users with a UUID. */
  lemma UserCount(groups: seq<BpGroup>, users: seq<BpUser>, userStore: Store)
    ensures MigrateUsers(groups, users, userStore).1 == multiset(UserFlags(users))[true]
  {
    StepsCount(UserWeight(groups) as int, users, userStore);
  }

  datatype BackEnd = BackEnd(groups: seq<BpGroup>, users: seq<BpUser>)

  datatype MigrationResult = StateError | Success

  datatype Outcome = Outcome(result: MigrationResult, groups: Store, groupCount: nat, users: Store, userCount: nat)

  /**
   * The migration command. Without a loaded BungeePerms instance it reports
   * a state error and changes nothing; otherwise every group and then every
   * user with a UUID is migrated.
   */
  function Execute(bp: Option<BackEnd>, groupStore: Store, userStore: Store): (o: Outcome)
    ensures bp.None? <==> o.result == StateError
    ensures bp.None? ==> o.groups == groupStore && o.users == userStore && o.groupCount == 0 && o.userCount == 0
    ensures bp.Some? ==> o.groupCount == |bp.value.groups| && o.userCount <= |bp.value.users|
    ensures bp.Some? ==> o.groups.Keys == groupStore.Keys + (set g | g in bp.value.groups :: StandardizeName(g.name))
    ensures bp.Some? ==> o.users.Keys == userStore.Keys + (set u | u in bp.value.users && u.uuid.Some? :: u.uuid.value)
    ensures bp.Some? ==> o.userCount == multiset(UserFlags(bp.value.users))[true]
  {
    match bp
    case None => Outcome(StateError, groupStore, 0, userStore, 0)
    case Some(b) =>
      ExecuteStores(b, groupStore, userStore);
      var (users, userCount) := MigrateUsers(b.groups, b.users, userStore);
      Outcome(Success, MigrateGroups(b.groups, groupStore), |b.groups|, users, userCount)
  }
}
