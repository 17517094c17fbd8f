/**
 * Permission nodes and the node encodings the migration code builds through
 * the node factory.
 *
 * A node is a permission string with a value, optional server and world
 * scopes, extra contexts and an optional expiry. The factory's encodings of
 * weight, prefix, suffix and meta nodes follow the raw node format
 * `weight.<N>`, `prefix.<N>.<text>`, `suffix.<N>.<text>`, `meta.<key>.<value>`.
 */
module Nodes {
  import opened Wrappers
  import JavaInt

  /** A context set: a multimap of key/value pairs, order-free. */
  type ContextSet = set<(string, string)>

  datatype Node = Node(
    permission: string,
    value: bool,
    server: Option<string>,
    world: Option<string>,
    contexts: ContextSet,
    expiry: Option<int>)
  {
    /** Group membership is expressed by a node whose permission starts with `group.`. */
    predicate IsGroupNode() {
      GroupPrefix <= permission
    }

    predicate IsWeightNode() {
      WeightPrefix <= permission
    }
  }

  const GroupPrefix := "group."
  const WeightPrefix := "weight."

  /** `NodeFactory.make` / `newBuilder(p).build()`: a permanent, global, granted node. */
  function Make(permission: string): Node {
    Node(permission, true, None, None, {}, None)
  }

  /** `Node.Builder.withExtraContext`: the node additionally carries every pair of `context`. */
  function WithExtraContext(n: Node, context: ContextSet): Node {
    n.(contexts := n.contexts + context)
  }

  function MakeGroupNode(group: string): Node {
    Make(GroupPrefix + group)
  }

  function MakeWeightNode(weight: int): Node {
    Make(WeightPrefix + JavaInt.IntToString(weight))
  }

  function MakePrefixNode(weight: int, prefix: string): Node {
    Make("prefix." + JavaInt.IntToString(weight) + "." + prefix)
  }

  function MakeSuffixNode(weight: int, suffix: string): Node {
    Make("suffix." + JavaInt.IntToString(weight) + "." + suffix)
  }

  function MakeMetaNode(key: string, value: string): Node {
    Make("meta." + key + "." + value)
  }

  /** The factory's encodings never collide with group membership or with each other's namespace. */
  lemma FactoryNamespaces(w: int, text: string, k: string, v: string)
    ensures MakeWeightNode(w).IsWeightNode() && !MakeWeightNode(w).IsGroupNode()
    ensures !MakePrefixNode(w, text).IsGroupNode() && !MakePrefixNode(w, text).IsWeightNode()
    ensures !MakeSuffixNode(w, text).IsGroupNode() && !MakeSuffixNode(w, text).IsWeightNode()
    ensures !MakeMetaNode(k, v).IsGroupNode() && !MakeMetaNode(k, v).IsWeightNode()
    ensures MakePrefixNode(w, text) != MakeSuffixNode(w, text)
    ensures MakeGroupNode(k).IsGroupNode() && !MakeGroupNode(k).IsWeightNode()
  {
    assert MakePrefixNode(w, text).permission[0] == 'p';
    assert MakeSuffixNode(w, text).permission[0] == 's';
    assert MakeMetaNode(k, v).permission[0] == 'm';
    assert MakeWeightNode(w).permission[0] == 'w';
    assert MakeGroupNode(k).permission[0] == 'g';
  }
}
