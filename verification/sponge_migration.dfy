/**
 * Migration of Sponge permission subjects into LuckPerms holders.
 *
 * A Sponge subject's data maps context sets to permissions (name to
 * boolean), options (key to value) and parent subjects. Sponge context
 * sets and LuckPerms context sets are both modelled as sets of key/value
 * pairs, so the context conversion is the identity. Holders are node sets.
 */
module SpongeMigration {
  import opened Wrappers
  import opened Ascii
  import opened JavaInt
  import opened Nodes
  import opened MigrationUtils

  /** A subject: the identifier of its containing collection, and its own identifier. */
  datatype Subject = Subject(collection: string, identifier: string)

  datatype SubjectData = SubjectData(
    permissions: seq<(ContextSet, seq<(string, bool)>)>,
    options: seq<(ContextSet, seq<(string, string)>)>,
    parents: seq<(ContextSet, seq<Subject>)>)

  /** The identifier of the group subject collection. */
  const GroupCollection := "group"

  datatype HolderKind = GroupHolder | UserHolder

  // ---------------------------------------------------------------- migrateSubject

  /** One permission entry: the permission with the entry's value, carrying the section's contexts. */
  function PermissionNode(context: ContextSet, entry: (string, bool)): Node {
    WithExtraContext(Make(entry.0), context).(value := entry.1)
  }

  function PermissionNodes(perms: seq<(ContextSet, seq<(string, bool)>)>): set<Node> {
    set e, kv | e in perms && kv in e.1 && kv.0 != "" :: PermissionNode(e.0, kv)
  }

  /**
   * Every entry with a non-empty name yields one node with that name, that
   * value and the section's contexts, and nothing else is produced.
   */
  lemma PermissionNodesFacts(perms: seq<(ContextSet, seq<(string, bool)>)>)
    ensures forall e, kv :: e in perms && kv in e.1 && kv.0 != "" ==>
      Node(kv.0, kv.1, None, None, e.0, None) in PermissionNodes(perms)
    ensures forall n :: n in PermissionNodes(perms) ==>
      && n.permission != "" && n.server.None? && n.world.None? && n.expiry.None?
      && exists e :: e in perms && n.contexts == e.0 && (n.permission, n.value) in e.1
  {
    forall e, kv | e in perms && kv in e.1 && kv.0 != ""
      ensures Node(kv.0, kv.1, None, None, e.0, None) in PermissionNodes(perms)
    {
      assert PermissionNode(e.0, kv) == Node(kv.0, kv.1, None, None, e.0, None);
    }
    forall n | n in PermissionNodes(perms)
      ensures exists e :: e in perms && n.contexts == e.0 && (n.permission, n.value) in e.1
    {
      var e, kv :| e in perms && kv in e.1 && kv.0 != "" && n == PermissionNode(e.0, kv);
      assert (n.permission, n.value) == kv;
    }
  }

  /**
   * One option entry: key `prefix` or `suffix`, in any case, becomes a
   * prefix or suffix node at `priority`; any other key a meta node. Each is
   * granted and carries the section's contexts.
   */
  function OptionNode(priority: int, context: ContextSet, entry: (string, string)): Node {
    var (key, value) := entry;
    var base :=
      if EqualsIgnoreCase(key, "prefix") then MakePrefixNode(priority, value)
      else if EqualsIgnoreCase(key, "suffix") then MakeSuffixNode(priority, value)
      else MakeMetaNode(key, value);
    WithExtraContext(base, context).(value := true)
  }

  function OptionNodes(priority: int, opts: seq<(ContextSet, seq<(string, string)>)>): set<Node> {
    set e, kv | e in opts && kv in e.1 && kv.0 != "" && kv.1 != "" :: OptionNode(priority, e.0, kv)
  }

  /** The case of the key `prefix` or `suffix` does not matter. */
  lemma OptionKeyIgnoresCase(priority: int, context: ContextSet, key: string, value: string)
    requires EqualsIgnoreCase(key, "prefix") || EqualsIgnoreCase(key, "suffix")
    ensures OptionNode(priority, context, (key, value)) == OptionNode(priority, context, (Lower(key), value))
  {
    LowerIsLowerCase(key);
  }

  /**
   * Option nodes are granted, never group memberships or weights, carry
   * the contexts of their section and come from entries whose key and value
   * are both non-empty; and each such entry yields its node.
   */
  lemma OptionNodesFacts(priority: int, opts: seq<(ContextSet, seq<(string, string)>)>)
    ensures forall e, kv :: e in opts && kv in e.1 && kv.0 != "" && kv.1 != "" ==>
      OptionNode(priority, e.0, kv) in OptionNodes(priority, opts)
    ensures forall n :: n in OptionNodes(priority, opts) ==>
      && n.value && !n.IsGroupNode() && !n.IsWeightNode()
      && exists e, kv :: e in opts && kv in e.1 && kv.0 != "" && kv.1 != "" && n.contexts == e.0
  {
    forall n | n in OptionNodes(priority, opts)
      ensures n.value && !n.IsGroupNode() && !n.IsWeightNode()
    {
      var e, kv :| e in opts && kv in e.1 && kv.0 != "" && kv.1 != "" && n == OptionNode(priority, e.0, kv);
      FactoryNamespaces(priority, kv.1, kv.0, kv.1);
    }
  }

  /** A parent entry: membership of the standardised group, carrying the section's contexts. */
  function ParentNode(context: ContextSet, s: Subject): Node {
    WithExtraContext(MakeGroupNode(StandardizeName(s.identifier)), context)
  }

  predicate IsGroupSubject(s: Subject) {
    EqualsIgnoreCase(s.collection, GroupCollection)
  }

  function ParentNodes(parents: seq<(ContextSet, seq<Subject>)>): set<Node> {
    set e, s | e in parents && s in e.1 && IsGroupSubject(s) :: ParentNode(e.0, s)
  }

  /**
   * Parents from the group collection (in any case) yield membership of
   * their standardised group in the section's contexts; every node is such
   * a membership, granted and naming an already standardised group.
   */
  lemma ParentNodesFacts(parents: seq<(ContextSet, seq<Subject>)>)
    ensures forall e, s :: e in parents && s in e.1 && IsGroupSubject(s) ==>
      ParentNode(e.0, s) in ParentNodes(parents)
    ensures forall n :: n in ParentNodes(parents) ==>
      && n.IsGroupNode() && n.value
      && StandardizeName(n.permission[|GroupPrefix|..]) == n.permission[|GroupPrefix|..]
  {
    forall n | n in ParentNodes(parents)
      ensures n.IsGroupNode() && StandardizeName(n.permission[|GroupPrefix|..]) == n.permission[|GroupPrefix|..]
    {
      var e, s :| e in parents && s in e.1 && IsGroupSubject(s) && n == ParentNode(e.0, s);
      assert n.permission[|GroupPrefix|..] == StandardizeName(s.identifier);
      StandardizeNameIdempotent(s.identifier);
    }
  }

  /** A parent from another collection contributes nothing. */
  lemma OtherCollectionDropped(parents: seq<(ContextSet, seq<Subject>)>, context: ContextSet, s: Subject)
    requires !IsGroupSubject(s)
    ensures ParentNodes(parents + [(context, [s])]) == ParentNodes(parents)
  {
    forall n | n in ParentNodes(parents + [(context, [s])]) ensures n in ParentNodes(parents) {
      var e, t :| e in parents + [(context, [s])] && t in e.1 && IsGroupSubject(t) && n == ParentNode(e.0, t);
      assert e in parents;
    }
  }

  /** Every node a subject's data contributes. */
  function Translation(data: SubjectData, priority: int): set<Node> {
    PermissionNodes(data.permissions) + OptionNodes(priority, data.options) + ParentNodes(data.parents)
  }

  /** The holder's nodes before translation: a group's weight is set to `priority`, a user's nodes are left alone. */
  function Prepared(kind: HolderKind, nodes: set<Node>, priority: int): (r: set<Node>)
    ensures forall n :: n in nodes && !n.IsWeightNode() ==> n in r
    ensures kind == UserHolder ==> r == nodes
    ensures kind == GroupHolder ==> MakeWeightNode(priority) in r
    ensures kind == GroupHolder ==> forall n :: n in r ==> n in nodes || n == MakeWeightNode(priority)
    ensures kind == GroupHolder ==> forall n :: n in r && n.IsWeightNode() ==> n == MakeWeightNode(priority)
  {
    if kind == GroupHolder then
      var r := SetGroupWeight(nodes, priority);
      assert forall n :: n in r && n.IsWeightNode() ==> n in (set m | m in r && m.IsWeightNode());
      r
    else nodes
  }

  /**
   * `migrateSubject`: a group holder first has its weight set to
   * `priority`; then every translated node is added.
   */
  function MigrateSubject(data: SubjectData, kind: HolderKind, nodes: set<Node>, priority: int): (r: set<Node>)
    ensures Translation(data, priority) <= r
    ensures forall n :: n in nodes && !n.IsWeightNode() ==> n in r
    ensures kind == UserHolder ==> nodes <= r
    ensures kind == GroupHolder ==> MakeWeightNode(priority) in r
    ensures forall n :: n in r ==>
      n in Translation(data, priority) || n in nodes || (kind == GroupHolder && n == MakeWeightNode(priority))
    ensures kind == GroupHolder ==> forall n :: n in r && n.IsWeightNode() ==>
      n == MakeWeightNode(priority) || n in Translation(data, priority)
  {
    Prepared(kind, nodes, priority) + Translation(data, priority)
  }

  // ---------------------------------------------------------------- migrateSubjectData

  datatype Tristate = True | False | Undefined

  function FromBoolean(b: bool): (t: Tristate)
    ensures t != Undefined
    ensures t == True <==> b
  {
    if b then True else False
  }

  /** The calls `migrateSubjectData` makes on the target subject data. */
  datatype Call =
    | SetPermission(context: ContextSet, permission: string, state: Tristate)
    | SetOption(context: ContextSet, key: string, value: string)
    | AddParent(context: ContextSet, parent: Subject)

  function PermissionCall(context: ContextSet, entry: (string, bool)): Call {
    SetPermission(context, entry.0, FromBoolean(entry.1))
  }

  function OptionCall(context: ContextSet, entry: (string, string)): Call {
    SetOption(context, entry.0, entry.1)
  }

  function ParentCall(context: ContextSet, s: Subject): Call {
    AddParent(context, s)
  }

  /** The number of entries over all sections. */
  function Entries<V>(sections: seq<(ContextSet, seq<V>)>): nat {
    if sections == [] then 0 else |sections[0].1| + Entries(sections[1..])
  }

  /** One call per entry, section by section, entry by entry. */
  function Calls<V>(sections: seq<(ContextSet, seq<V>)>, call: (ContextSet, V) -> Call): (r: seq<Call>)
    ensures |r| == Entries(sections)
  {
    if sections == [] then []
    else
      var e := sections[0];
      seq(|e.1|, i requires 0 <= i < |e.1| => call(e.0, e.1[i])) + Calls(sections[1..], call)
  }

  /** Every entry's call is issued, and every call issued is some entry's. */
  lemma {:induction false} CallsFacts<V>(sections: seq<(ContextSet, seq<V>)>, call: (ContextSet, V) -> Call)
    ensures forall e, v :: e in sections && v in e.1 ==> call(e.0, v) in Calls(sections, call)
    ensures forall c :: c in Calls(sections, call) ==> exists e, v :: e in sections && v in e.1 && c == call(e.0, v)
  {
    if sections != [] {
      var e := sections[0];
      var here := seq(|e.1|, i requires 0 <= i < |e.1| => call(e.0, e.1[i]));
      var rest := Calls(sections[1..], call);
      CallsFacts(sections[1..], call);
      assert Calls(sections, call) == here + rest;
      forall f, v | f in sections && v in f.1 ensures call(f.0, v) in here + rest {
        if f == e {
          var i :| 0 <= i < |e.1| && e.1[i] == v;
          assert here[i] == call(e.0, v);
        } else {
          assert f in sections[1..];
        }
      }
      forall c | c in here + rest ensures exists f, v :: f in sections && v in f.1 && c == call(f.0, v) {
        if c in here {
          var i :| 0 <= i < |here| && here[i] == c;
          assert e.1[i] in e.1;
        } else {
          var f, v :| f in sections[1..] && v in f.1 && c == call(f.0, v);
          assert f in sections;
        }
      }
    }
  }

  /**
   * `migrateSubjectData`: one `setPermission` per permission entry, then
   * one `setOption` per option entry, then one `addParent` per parent, each
   * with the entry's context set.
   */
  function MigrateSubjectData(from: SubjectData): (calls: seq<Call>)
    ensures |calls| == Entries(from.permissions) + Entries(from.options) + Entries(from.parents)
  {
    Calls(from.permissions, PermissionCall) + Calls(from.options, OptionCall) + Calls(from.parents, ParentCall)
  }

  lemma PermissionCallsKind(sections: seq<(ContextSet, seq<(string, bool)>)>)
    ensures forall c :: c in Calls(sections, PermissionCall) ==> c.SetPermission?
  {
    CallsFacts(sections, PermissionCall);
  }

  lemma OptionCallsKind(sections: seq<(ContextSet, seq<(string, string)>)>)
    ensures forall c :: c in Calls(sections, OptionCall) ==> c.SetOption?
  {
    CallsFacts(sections, OptionCall);
  }

  lemma ParentCallsKind(sections: seq<(ContextSet, seq<Subject>)>)
    ensures forall c :: c in Calls(sections, ParentCall) ==> c.AddParent?
  {
    CallsFacts(sections, ParentCall);
  }

  /** The calls come in three runs: permissions, then options, then parents. */
  lemma MigrateSubjectDataOrder(from: SubjectData)
    ensures var calls := MigrateSubjectData(from);
      && (forall i :: 0 <= i < Entries(from.permissions) ==> calls[i].SetPermission?)
      && (forall i :: Entries(from.permissions) <= i < Entries(from.permissions) + Entries(from.options) ==> calls[i].SetOption?)
      && (forall i :: Entries(from.permissions) + Entries(from.options) <= i < |calls| ==> calls[i].AddParent?)
  {
    var p := Calls(from.permissions, PermissionCall);
    var o := Calls(from.options, OptionCall);
    var q := Calls(from.parents, ParentCall);
    var r := p + o + q;
    assert MigrateSubjectData(from) == r;
    PermissionCallsKind(from.permissions);
    OptionCallsKind(from.options);
    ParentCallsKind(from.parents);
    forall i | 0 <= i < |p| ensures r[i].SetPermission? {
      assert r[i] == p[i] && p[i] in p;
    }
    forall i | |p| <= i < |p| + |o| ensures r[i].SetOption? {
      assert r[i] == o[i - |p|] && o[i - |p|] in o;
    }
    forall i | |p| + |o| <= i < |r| ensures r[i].AddParent? {
      assert r[i] == q[i - |p| - |o|] && q[i - |p| - |o|] in q;
    }
  }

  /**
   * The copy is faithful in both directions: every entry of the source data
   * is copied with its context set, and every call copies some entry.
   */
  lemma MigrateSubjectDataCopies(from: SubjectData)
    ensures forall e, kv :: e in from.permissions && kv in e.1 ==>
      SetPermission(e.0, kv.0, FromBoolean(kv.1)) in MigrateSubjectData(from)
    ensures forall e, kv :: e in from.options && kv in e.1 ==> SetOption(e.0, kv.0, kv.1) in MigrateSubjectData(from)
    ensures forall e, s :: e in from.parents && s in e.1 ==> AddParent(e.0, s) in MigrateSubjectData(from)
    ensures forall c :: c in MigrateSubjectData(from) ==>
      || (exists e, kv :: e in from.permissions && kv in e.1 && c == SetPermission(e.0, kv.0, FromBoolean(kv.1)))
      || (exists e, kv :: e in from.options && kv in e.1 && c == SetOption(e.0, kv.0, kv.1))
      || (exists e, s :: e in from.parents && s in e.1 && c == AddParent(e.0, s))
  {
    var p := Calls(from.permissions, PermissionCall);
    var o := Calls(from.options, OptionCall);
    var q := Calls(from.parents, ParentCall);
    CallsFacts(from.permissions, PermissionCall);
    CallsFacts(from.options, OptionCall);
    CallsFacts(from.parents, ParentCall);
    assert MigrateSubjectData(from) == p + o + q;
    forall c | c in MigrateSubjectData(from)
      ensures
        || (exists e, kv :: e in from.permissions && kv in e.1 && c == SetPermission(e.0, kv.0, FromBoolean(kv.1)))
        || (exists e, kv :: e in from.options && kv in e.1 && c == SetOption(e.0, kv.0, kv.1))
        || (exists e, s :: e in from.parents && s in e.1 && c == AddParent(e.0, s))
    {
      if c in p {
        var e, kv :| e in from.permissions && kv in e.1 && c == PermissionCall(e.0, kv);
      } else if c in o {
        var e, kv :| e in from.options && kv in e.1 && c == OptionCall(e.0, kv);
      } else {
        assert c in q;
        var e, s :| e in from.parents && s in e.1 && c == ParentCall(e.0, s);
      }
    }
  }
}
