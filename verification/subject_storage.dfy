/**
 * The on-disk form of a Sponge subject's data: for each context set, its
 * permissions (name to value), its options (key to value) and its parents
 * (references to other subjects), converted to and from a JSON object
 * `{"permissions": [...], "options": [...], "parents": [...]}` whose arrays
 * hold sections `{"context": <context set>, "data": <section data>}`.
 *
 * Each of the three maps is an immutable map: an association list in
 * insertion order whose keys are distinct. Context sets are written and read
 * by a codec, and sections and keys are sorted by comparators, all of which
 * are parameters of the model:
 *   - `ser`/`de` stand for the context-set serialiser and deserialiser and
 *     are assumed to round-trip (`ContextCodec`);
 *   - `le` stands for the context-set comparator and `leKey` for the string
 *     comparator, each as its "less than or equal" relation, assumed to be
 *     total orders where ordering is claimed.
 */
module SubjectStorage {
  import opened Wrappers
  import opened Json
  import opened Ordering
  import opened Nodes

  datatype SubjectRef = SubjectRef(collection: string, subject: string)

  datatype StorageModel = StorageModel(
    permissions: seq<(ContextSet, seq<(string, bool)>)>,
    options: seq<(ContextSet, seq<(string, string)>)>,
    parents: seq<(ContextSet, seq<SubjectRef>)>)

  /** Every inner association list of a section list has distinct keys. */
  predicate InnerDistinct<V(==)>(es: seq<(ContextSet, seq<(string, V)>)>) {
    forall e :: e in es ==> DistinctKeys(e.1)
  }

  /** The shape of the immutable maps the model holds. */
  predicate Valid(m: StorageModel) {
    && DistinctKeys(m.permissions) && InnerDistinct(m.permissions)
    && DistinctKeys(m.options) && InnerDistinct(m.options)
    && DistinctKeys(m.parents)
  }

  /** The assumption on the context-set codec: it writes an object and reads back what it wrote. */
  ghost predicate ContextCodec(ser: ContextSet -> Json, de: Json -> ContextSet) {
    forall c :: ser(c).JObject? && de(ser(c)) == c
  }

  // ---------------------------------------------------------------- reading

  /** What reading one array element does: abort the whole read, skip the element, or take a value. */
  datatype Step<T> = Fail | Skip | Take(value: T)

  /** `ImmutableMap.Builder.build`: refuses repeated keys. */
  function BuildMap<K(==), V>(xs: seq<(K, V)>): (r: Option<seq<(K, V)>>)
    ensures r.Some? <==> DistinctKeys(xs)
    ensures r.Some? ==> r.value == xs
  {
    if DistinctKeys(xs) then Some(xs) else None
  }

  /** Reads every member of a data object with `decode`; fails if any value cannot be read. */
  function DecodeMembers<V>(members: seq<(string, Json)>, decode: Json -> Option<V>): (r: Option<seq<(string, V)>>)
    ensures r.Some? ==> |r.value| == |members|
    ensures r.Some? ==> forall i :: 0 <= i < |members| ==> r.value[i].0 == members[i].0
  {
    if members == [] then Some([])
    else
      match (decode(members[0].1), DecodeMembers(members[1..], decode))
      case (Some(v), Some(rest)) => Some([(members[0].0, v)] + rest)
      case _ => None
  }

  /** The data of a permission or option section: anything but an object is skipped. */
  function ReadObjectData<V>(data: Json, decode: Json -> Option<V>): Step<seq<(string, V)>> {
    if !data.JObject? then Skip
    else
      match DecodeMembers(data.members, decode)
      case None => Fail
      case Some(xs) => if BuildMap(xs).Some? then Take(xs) else Fail
  }

  function ReadPermissionData(data: Json): Step<seq<(string, bool)>> {
    ReadObjectData(data, AsBoolean)
  }

  function ReadOptionData(data: Json): Step<seq<(string, string)>> {
    ReadObjectData(data, AsString)
  }

  /**
   * The references of a parent section: non-objects are skipped; a missing
   * or unreadable `collection` or `subject` aborts the read.
   */
  function ReadParentList(items: seq<Json>): Option<seq<SubjectRef>> {
    if items == [] then Some([])
    else
      var rest := ReadParentList(items[1..]);
      var p := items[0];
      if !p.JObject? then rest
      else
        var collection := Get(p.members, "collection");
        var subject := Get(p.members, "subject");
        if collection.None? || subject.None? then None
        else
          match (AsString(collection.value), AsString(subject.value), rest)
          case (Some(c), Some(s), Some(refs)) => Some([SubjectRef(c, s)] + refs)
          case _ => None
  }

  /** The data of a parent section: anything but an array is skipped. */
  function ReadParentData(data: Json): Step<seq<SubjectRef>> {
    if !data.JArray? then Skip
    else
      match ReadParentList(data.items)
      case None => Fail
      case Some(refs) => Take(refs)
  }

  /**
   * One element of a section array. A non-object, a non-object `context` or
   * data of the wrong shape is skipped; a missing `context` or `data`
   * aborts the read.
   */
  function ReadSection<D>(e: Json, de: Json -> ContextSet, readData: Json -> Step<D>): Step<(ContextSet, D)> {
    if !e.JObject? then Skip
    else
      match Get(e.members, "context")
      case None => Fail
      case Some(context) =>
        if !context.JObject? then Skip
        else
          match Get(e.members, "data")
          case None => Fail
          case Some(data) =>
            match readData(data)
            case Fail => Fail
            case Skip => Skip
            case Take(d) => Take((de(context), d))
  }

  function ReadSections<D>(items: seq<Json>, de: Json -> ContextSet, readData: Json -> Step<D>): Option<seq<(ContextSet, D)>> {
    if items == [] then Some([])
    else
      match (ReadSection(items[0], de, readData), ReadSections(items[1..], de, readData))
      case (Fail, _) => None
      case (_, None) => None
      case (Skip, Some(rest)) => Some(rest)
      case (Take(s), Some(rest)) => Some([s] + rest)
  }

  /** A section array read into an immutable map: two sections for the same context set abort the read. */
  function ReadMap<D>(items: seq<Json>, de: Json -> ContextSet, readData: Json -> Step<D>): (r: Option<seq<(ContextSet, D)>>)
    ensures r.Some? ==> DistinctKeys(r.value)
  {
    match ReadSections(items, de, readData)
    case None => None
    case Some(sections) => BuildMap(sections)
  }

  predicate IsArrayMember(members: seq<(string, Json)>, key: string) {
    Get(members, key).Some? && Get(members, key).value.JArray?
  }

  /**
   * The JSON constructor. It fails unless `permissions`, `options` and
   * `parents` are all arrays, and whenever reading a section aborts.
   */
  function FromJson(root: Json, de: Json -> ContextSet): (r: Option<StorageModel>)
    requires root.JObject?
    ensures !IsArrayMember(root.members, "permissions") ==> r.None?
    ensures !IsArrayMember(root.members, "options") ==> r.None?
    ensures !IsArrayMember(root.members, "parents") ==> r.None?
    ensures r.Some? ==> DistinctKeys(r.value.permissions) && DistinctKeys(r.value.options) && DistinctKeys(r.value.parents)
  {
    if !IsArrayMember(root.members, "permissions") || !IsArrayMember(root.members, "options")
      || !IsArrayMember(root.members, "parents") then None
    else
      var permissions := ReadMap(Get(root.members, "permissions").value.items, de, ReadPermissionData);
      var options := ReadMap(Get(root.members, "options").value.items, de, ReadOptionData);
      var parents := ReadMap(Get(root.members, "parents").value.items, de, ReadParentData);
      if permissions.None? || options.None? || parents.None? then None
      else Some(StorageModel(permissions.value, options.value, parents.value))
  }

  /** Data whose object repeats a member name is refused, as the immutable-map builder refuses repeated keys. */
  lemma RepeatedDataMemberFails<V>(data: Json, decode: Json -> Option<V>)
    requires data.JObject? && !DistinctKeys(data.members)
    ensures ReadObjectData(data, decode) == Fail
  {
  }

  /** One element that aborts aborts the whole array. */
  lemma {:induction false} FailingSectionFails<D>(items: seq<Json>, de: Json -> ContextSet, readData: Json -> Step<D>, i: int)
    requires 0 <= i < |items| && ReadSection(items[i], de, readData) == Fail
    ensures ReadSections(items, de, readData).None?
  {
    if i > 0 {
      assert items[1..][i - 1] == items[i];
      FailingSectionFails(items[1..], de, readData, i - 1);
    }
  }

  /** The elements of the array member `key` of a root object that has it. */
  function Items(root: Json, key: string): seq<Json>
    requires root.JObject? && IsArrayMember(root.members, key)
  {
    Get(root.members, key).value.items
  }

  /** The three array members of the JSON root are present. */
  predicate HasArrays(root: Json) {
    && root.JObject?
    && IsArrayMember(root.members, "permissions")
    && IsArrayMember(root.members, "options")
    && IsArrayMember(root.members, "parents")
  }

  /** Two sections of one array whose contexts decode to the same context set abort the read. */
  lemma RepeatedContextRejected(root: Json, de: Json -> ContextSet)
    requires HasArrays(root)
    ensures var ps := ReadSections(Items(root, "permissions"), de, ReadPermissionData);
      ps.Some? && !DistinctKeys(ps.value) ==> FromJson(root, de).None?
    ensures var os := ReadSections(Items(root, "options"), de, ReadOptionData);
      os.Some? && !DistinctKeys(os.value) ==> FromJson(root, de).None?
    ensures var qs := ReadSections(Items(root, "parents"), de, ReadParentData);
      qs.Some? && !DistinctKeys(qs.value) ==> FromJson(root, de).None?
  {
  }

  /**
   * A permission or option section whose data object repeats a member name
   * aborts the read, wherever it stands in its array.
   */
  lemma RepeatedMemberRejected(root: Json, de: Json -> ContextSet, key: string, i: int, data: Json)
    requires HasArrays(root)
    requires key == "permissions" || key == "options"
    requires 0 <= i < |Items(root, key)| && Items(root, key)[i].JObject?
    requires var e := Items(root, key)[i].members;
      Get(e, "context").Some? && Get(e, "context").value.JObject? && Get(e, "data") == Some(data)
    requires data.JObject? && !DistinctKeys(data.members)
    ensures FromJson(root, de).None?
  {
    if key == "permissions" {
      RepeatedDataMemberFails(data, AsBoolean);
      FailingSectionFails(Items(root, key), de, ReadPermissionData, i);
    } else {
      RepeatedDataMemberFails(data, AsString);
      FailingSectionFails(Items(root, key), de, ReadOptionData, i);
    }
  }

  // ---------------------------------------------------------------- writing

  function WritePermissionData(xs: seq<(string, bool)>): Json {
    JObject(seq(|xs|, i requires 0 <= i < |xs| => (xs[i].0, JBool(xs[i].1))))
  }

  function WriteOptionData(xs: seq<(string, string)>): Json {
    JObject(seq(|xs|, i requires 0 <= i < |xs| => (xs[i].0, JString(xs[i].1))))
  }

  /** A parent reference as the source writes it: `subject` is filled from the collection. */
  function WriteParentDataAsWritten(refs: seq<SubjectRef>): Json {
    JArray(seq(|refs|, i requires 0 <= i < |refs| =>
      JObject([("collection", JString(refs[i].collection)), ("subject", JString(refs[i].collection))])))
  }

  /** A parent reference as intended: `subject` is the referenced subject. */
  function WriteParentData(refs: seq<SubjectRef>): Json {
    JArray(seq(|refs|, i requires 0 <= i < |refs| =>
      JObject([("collection", JString(refs[i].collection)), ("subject", JString(refs[i].subject))])))
  }

  function WriteSection<D>(e: (ContextSet, D), ser: ContextSet -> Json, writeData: D -> Json): Json {
    JObject([("context", ser(e.0)), ("data", writeData(e.1))])
  }

  function WriteSections<D>(es: seq<(ContextSet, D)>, ser: ContextSet -> Json, writeData: D -> Json): (r: seq<Json>)
    ensures |r| == |es|
  {
    if es == [] then [] else [WriteSection(es[0], ser, writeData)] + WriteSections(es[1..], ser, writeData)
  }

  /** `sortContextMap`: the entries in the order of the reversed context-set comparator. */
  function SortContextMap<D(==)>(es: seq<(ContextSet, D)>, le: (ContextSet, ContextSet) -> bool): seq<(ContextSet, D)> {
    SortByKey(es, Reverse(le))
  }

  /** The sections of a permission or option map that are written: non-empty ones, keys sorted. */
  function EmitObjectSections<V(==)>(es: seq<(ContextSet, seq<(string, V)>)>, leKey: (string, string) -> bool)
    : (r: seq<(ContextSet, seq<(string, V)>)>)
    ensures forall i :: 0 <= i < |r| ==> |r[i].1| > 0
    ensures |r| <= |es|
  {
    if es == [] then []
    else if es[0].1 == [] then EmitObjectSections(es[1..], leKey)
    else [(es[0].0, SortByKey(es[0].1, leKey))] + EmitObjectSections(es[1..], leKey)
  }

  /** The sections of the parent map that are written: non-empty ones. */
  function EmitParentSections(es: seq<(ContextSet, seq<SubjectRef>)>): (r: seq<(ContextSet, seq<SubjectRef>)>)
    ensures forall i :: 0 <= i < |r| ==> |r[i].1| > 0
    ensures |r| <= |es|
  {
    if es == [] then []
    else if es[0].1 == [] then EmitParentSections(es[1..])
    else [es[0]] + EmitParentSections(es[1..])
  }

  function PermissionSections(m: StorageModel, le: (ContextSet, ContextSet) -> bool, leKey: (string, string) -> bool)
    : seq<(ContextSet, seq<(string, bool)>)>
  {
    EmitObjectSections(SortContextMap(m.permissions, le), leKey)
  }

  function OptionSections(m: StorageModel, le: (ContextSet, ContextSet) -> bool, leKey: (string, string) -> bool)
    : seq<(ContextSet, seq<(string, string)>)>
  {
    EmitObjectSections(SortContextMap(m.options, le), leKey)
  }

  function ParentSections(m: StorageModel, le: (ContextSet, ContextSet) -> bool): seq<(ContextSet, seq<SubjectRef>)> {
    EmitParentSections(SortContextMap(m.parents, le))
  }

  /** The three-member root object both writers produce. */
  function Root(permissions: seq<Json>, options: seq<Json>, parents: seq<Json>): Json {
    JObject([("permissions", JArray(permissions)), ("options", JArray(options)), ("parents", JArray(parents))])
  }

  lemma RootMembers(permissions: seq<Json>, options: seq<Json>, parents: seq<Json>)
    ensures Get(Root(permissions, options, parents).members, "permissions") == Some(JArray(permissions))
    ensures Get(Root(permissions, options, parents).members, "options") == Some(JArray(options))
    ensures Get(Root(permissions, options, parents).members, "parents") == Some(JArray(parents))
  {
    var ms := Root(permissions, options, parents).members;
    assert "options"[0] != "permissions"[0];
    assert "parents"[1] != "permissions"[1];
    assert "parents"[0] != "options"[0];
    assert Get(ms[2..], "parents") == Some(JArray(parents));
    assert ms[1..][1..] == ms[2..];
  }

  /**
   * `toJson` as written: parent sections are appended to the `options`
   * array with `subject` filled from the collection, and the `parents`
   * array stays empty.
   */
  function ToJson(m: StorageModel, ser: ContextSet -> Json, le: (ContextSet, ContextSet) -> bool, leKey: (string, string) -> bool)
    : (r: Json)
    ensures r.JObject? && Get(r.members, "parents") == Some(JArray([]))
    ensures IsArrayMember(r.members, "permissions") && IsArrayMember(r.members, "options")
    ensures |Get(r.members, "permissions").value.items| <= |m.permissions|
    ensures |Get(r.members, "options").value.items| <= |m.options| + |m.parents|
  {
    var permissions := WriteSections(PermissionSections(m, le, leKey), ser, WritePermissionData);
    var options := WriteSections(OptionSections(m, le, leKey), ser, WriteOptionData)
                   + WriteSections(ParentSections(m, le), ser, WriteParentDataAsWritten);
    RootMembers(permissions, options, []);
    Root(permissions, options, [])
  }

  /** `toJson` as evidently intended: parent sections go to `parents` and carry the subject. */
  function ToJsonCorrected(m: StorageModel, ser: ContextSet -> Json, le: (ContextSet, ContextSet) -> bool, leKey: (string, string) -> bool)
    : (r: Json)
    ensures r.JObject?
    ensures IsArrayMember(r.members, "permissions") && IsArrayMember(r.members, "options") && IsArrayMember(r.members, "parents")
    ensures |Get(r.members, "parents").value.items| <= |m.parents|
  {
    var permissions := WriteSections(PermissionSections(m, le, leKey), ser, WritePermissionData);
    var options := WriteSections(OptionSections(m, le, leKey), ser, WriteOptionData);
    var parents := WriteSections(ParentSections(m, le), ser, WriteParentData);
    RootMembers(permissions, options, parents);
    Root(permissions, options, parents)
  }

  // ---------------------------------------------------------------- data round trips

  lemma {:induction false} DecodeWrittenBooleans(xs: seq<(string, bool)>)
    ensures DecodeMembers(WritePermissionData(xs).members, AsBoolean) == Some(xs)
  {
    if xs != [] {
      var ms := WritePermissionData(xs).members;
      DecodeWrittenBooleans(xs[1..]);
      assert ms[0] == (xs[0].0, JBool(xs[0].1));
      assert ms[1..] == WritePermissionData(xs[1..]).members;
      assert DecodeMembers(ms, AsBoolean) == Some([(xs[0].0, xs[0].1)] + xs[1..]);
      assert [xs[0]] + xs[1..] == xs;
    }
  }

  lemma {:induction false} DecodeWrittenStrings(xs: seq<(string, string)>)
    ensures DecodeMembers(WriteOptionData(xs).members, AsString) == Some(xs)
  {
    if xs != [] {
      var ms := WriteOptionData(xs).members;
      DecodeWrittenStrings(xs[1..]);
      assert ms[0] == (xs[0].0, JString(xs[0].1));
      assert ms[1..] == WriteOptionData(xs[1..]).members;
      assert DecodeMembers(ms, AsString) == Some([(xs[0].0, xs[0].1)] + xs[1..]);
      assert [xs[0]] + xs[1..] == xs;
    }
  }

  /** A permission section's data reads back as written. */
  lemma ReadWrittenPermissionData(xs: seq<(string, bool)>)
    requires DistinctKeys(xs)
    ensures ReadPermissionData(WritePermissionData(xs)) == Take(xs)
  {
    DecodeWrittenBooleans(xs);
  }

  /** An option section's data reads back as written. */
  lemma ReadWrittenOptionData(xs: seq<(string, string)>)
    requires DistinctKeys(xs)
    ensures ReadOptionData(WriteOptionData(xs)) == Take(xs)
  {
    DecodeWrittenStrings(xs);
  }

  lemma RefMembers(collection: string, subject: string)
    ensures Get([("collection", JString(collection)), ("subject", JString(subject))], "collection") == Some(JString(collection))
    ensures Get([("collection", JString(collection)), ("subject", JString(subject))], "subject") == Some(JString(subject))
  {
    assert "subject"[0] != "collection"[0];
  }

  /** A parent section's data, written as intended, reads back as written. */
  lemma {:induction false} ReadWrittenParentData(refs: seq<SubjectRef>)
    ensures ReadParentData(WriteParentData(refs)) == Take(refs)
  {
    if refs != [] {
      ReadWrittenParentData(refs[1..]);
      assert WriteParentData(refs).items[1..] == WriteParentData(refs[1..]).items;
      RefMembers(refs[0].collection, refs[0].subject);
      assert [refs[0]] + refs[1..] == refs;
    }
  }

  /** Every reference with its subject replaced by its collection. */
  function Collapsed(refs: seq<SubjectRef>): (r: seq<SubjectRef>)
    ensures |r| == |refs|
    ensures forall i :: 0 <= i < |r| ==> r[i].collection == refs[i].collection == r[i].subject
  {
    seq(|refs|, i requires 0 <= i < |refs| => SubjectRef(refs[i].collection, refs[i].collection))
  }

  /** Parent data as the source writes it reads back with every subject replaced by its collection. */
  lemma {:induction false} ReadAsWrittenParentData(refs: seq<SubjectRef>)
    ensures ReadParentData(WriteParentDataAsWritten(refs)) == Take(Collapsed(refs))
  {
    if refs != [] {
      var c := refs[0].collection;
      var items := WriteParentDataAsWritten(refs).items;
      ReadAsWrittenParentData(refs[1..]);
      assert items[1..] == WriteParentDataAsWritten(refs[1..]).items;
      assert items[0] == JObject([("collection", JString(c)), ("subject", JString(c))]);
      RefMembers(c, c);
      assert ReadParentList(items) == Some([SubjectRef(c, c)] + Collapsed(refs[1..]));
      assert Collapsed(refs) == [SubjectRef(c, c)] + Collapsed(refs[1..]);
    }
  }

  // ---------------------------------------------------------------- section arrays

  lemma SectionMembers<D>(e: (ContextSet, D), ser: ContextSet -> Json, writeData: D -> Json)
    ensures Get(WriteSection(e, ser, writeData).members, "context") == Some(ser(e.0))
    ensures Get(WriteSection(e, ser, writeData).members, "data") == Some(writeData(e.1))
  {
    assert "data"[0] != "context"[0];
  }

  /** Sections whose data reads back as written read back, in order, as written. */
  lemma {:induction false} ReadWrittenSections<D>(es: seq<(ContextSet, D)>, ser: ContextSet -> Json, de: Json -> ContextSet,
                                                  writeData: D -> Json, readData: Json -> Step<D>)
    requires ContextCodec(ser, de)
    requires forall i :: 0 <= i < |es| ==> readData(writeData(es[i].1)) == Take(es[i].1)
    ensures ReadSections(WriteSections(es, ser, writeData), de, readData) == Some(es)
  {
    if es != [] {
      var ws := WriteSections(es, ser, writeData);
      ReadWrittenSections(es[1..], ser, de, writeData, readData);
      assert ws[1..] == WriteSections(es[1..], ser, writeData);
      SectionMembers(es[0], ser, writeData);
      assert ser(es[0].0).JObject? && de(ser(es[0].0)) == es[0].0;
      assert ReadSection(ws[0], de, readData) == Take(es[0]);
      assert [es[0]] + es[1..] == es;
    }
  }

  /** Sections whose data the reader skips are all skipped. */
  lemma {:induction false} ReadSkippedSections<D, E>(es: seq<(ContextSet, E)>, ser: ContextSet -> Json, de: Json -> ContextSet,
                                                     writeData: E -> Json, readData: Json -> Step<D>)
    requires ContextCodec(ser, de)
    requires forall i :: 0 <= i < |es| ==> readData(writeData(es[i].1)) == Skip
    ensures ReadSections(WriteSections(es, ser, writeData), de, readData) == Some([])
  {
    if es != [] {
      var ws := WriteSections(es, ser, writeData);
      ReadSkippedSections(es[1..], ser, de, writeData, readData);
      assert ws[1..] == WriteSections(es[1..], ser, writeData);
      SectionMembers(es[0], ser, writeData);
      assert ser(es[0].0).JObject?;
      assert ReadSection(ws[0], de, readData) == Skip;
    }
  }

  /** Reading a concatenation of arrays reads each part; it fails exactly when one part fails. */
  lemma {:induction false} ReadSectionsAppend<D>(a: seq<Json>, b: seq<Json>, de: Json -> ContextSet, readData: Json -> Step<D>)
    ensures ReadSections(a + b, de, readData) ==
      if ReadSections(a, de, readData).Some? && ReadSections(b, de, readData).Some?
      then Some(ReadSections(a, de, readData).value + ReadSections(b, de, readData).value)
      else None
  {
    if a == [] {
      assert a + b == b;
      if ReadSections(b, de, readData).Some? {
        assert [] + ReadSections(b, de, readData).value == ReadSections(b, de, readData).value;
      }
    } else {
      ReadSectionsAppend(a[1..], b, de, readData);
      assert (a + b)[0] == a[0];
      assert (a + b)[1..] == a[1..] + b;
      match ReadSection(a[0], de, readData)
      case Fail =>
      case Skip =>
      case Take(s) =>
        if ReadSections(a[1..], de, readData).Some? && ReadSections(b, de, readData).Some? {
          var x := ReadSections(a[1..], de, readData).value;
          var y := ReadSections(b, de, readData).value;
          assert [s] + (x + y) == ([s] + x) + y;
        }
    }
  }

  /** An element the reader skips can be dropped from an array without changing what is read. */
  lemma SkippedElementIsIgnored<D>(a: seq<Json>, e: Json, b: seq<Json>, de: Json -> ContextSet, readData: Json -> Step<D>)
    requires ReadSection(e, de, readData) == Skip
    ensures ReadSections(a + [e] + b, de, readData) == ReadSections(a + b, de, readData)
  {
    ReadSectionsAppend(a, [e] + b, de, readData);
    ReadSectionsAppend(a, b, de, readData);
    assert ([e] + b)[1..] == b;
    assert a + [e] + b == a + ([e] + b);
  }

  // ---------------------------------------------------------------- what is written

  /** The nested map a permission or option section list denotes. */
  function Table<V>(es: seq<(ContextSet, seq<(string, V)>)>): (r: map<ContextSet, map<string, V>>)
    ensures r.Keys == KeySet(es)
  {
    var t := ToMap(es);
    map c | c in t :: ToMap(t[c])
  }

  /** The entries of `t` whose value is not `empty`. */
  function NonEmptyPart<W(==)>(t: map<ContextSet, W>, empty: W): (r: map<ContextSet, W>)
    ensures r.Keys <= t.Keys
    ensures forall c :: c in r ==> r[c] == t[c] != empty
  {
    map c | c in t && t[c] != empty :: t[c]
  }

  lemma TableCons<V>(x: (ContextSet, seq<(string, V)>), rest: seq<(ContextSet, seq<(string, V)>)>)
    ensures Table([x] + rest) == Table(rest)[x.0 := ToMap(x.1)]
  {
    assert ([x] + rest)[1..] == rest;
  }

  lemma ToMapNonEmpty<K, V>(xs: seq<(K, V)>)
    ensures ToMap(xs) == map[] <==> xs == []
  {
    if xs != [] {
      assert xs[0].0 in KeySet(xs);
    }
  }

  /** The written sections come from the input, keep its distinct keys and have distinct keys inside. */
  lemma {:induction false} EmitObjectShape<V>(es: seq<(ContextSet, seq<(string, V)>)>, leKey: (string, string) -> bool)
    requires DistinctKeys(es) && InnerDistinct(es)
    ensures KeySet(EmitObjectSections(es, leKey)) <= KeySet(es)
    ensures DistinctKeys(EmitObjectSections(es, leKey)) && InnerDistinct(EmitObjectSections(es, leKey))
  {
    if es != [] {
      var x, rest := es[0], es[1..];
      assert es == [x] + rest;
      DistinctCons(x, rest);
      assert InnerDistinct(rest) by {
        forall e | e in rest ensures DistinctKeys(e.1) {
          assert e in es;
        }
      }
      EmitObjectShape(rest, leKey);
      KeySetCons(x, rest);
      if x.1 != [] {
        var s := SortByKey(x.1, leKey);
        SortDistinct(x.1, leKey);
        KeySetCons((x.0, s), EmitObjectSections(rest, leKey));
        DistinctCons((x.0, s), EmitObjectSections(rest, leKey));
      }
    }
  }

  lemma NonEmptyPartUpdate<W>(t: map<ContextSet, W>, k: ContextSet, v: W, empty: W)
    requires k !in t
    ensures v == empty ==> NonEmptyPart(t[k := v], empty) == NonEmptyPart(t, empty)
    ensures v != empty ==> NonEmptyPart(t[k := v], empty) == NonEmptyPart(t, empty)[k := v]
  {
  }

  /** Writing keeps exactly the non-empty sections, with their contents. */
  lemma {:induction false} EmitObjectTable<V>(es: seq<(ContextSet, seq<(string, V)>)>, leKey: (string, string) -> bool)
    requires DistinctKeys(es) && InnerDistinct(es)
    ensures Table(EmitObjectSections(es, leKey)) == NonEmptyPart(Table(es), map[])
  {
    if es != [] {
      var x, rest := es[0], es[1..];
      assert es == [x] + rest;
      DistinctCons(x, rest);
      assert InnerDistinct(rest) by {
        forall e | e in rest ensures DistinctKeys(e.1) {
          assert e in es;
        }
      }
      var tail := EmitObjectSections(rest, leKey);
      EmitObjectTable(rest, leKey);
      TableCons(x, rest);
      ToMapNonEmpty(x.1);
      NonEmptyPartUpdate(Table(rest), x.0, ToMap(x.1), map[]);
      if x.1 != [] {
        var s := SortByKey(x.1, leKey);
        assert EmitObjectSections(es, leKey) == [(x.0, s)] + tail;
        TableCons((x.0, s), tail);
        assert DistinctKeys(x.1) by { assert x in es; }
        SortKeepsMap(x.1, leKey);
      } else {
        assert EmitObjectSections(es, leKey) == tail;
      }
    }
  }

  lemma SortedCons<K, V>(y: (K, V), tail: seq<(K, V)>, lt: (K, K) -> bool)
    requires SortedByKey(tail, lt)
    requires forall k :: k in KeySet(tail) ==> lt(y.0, k)
    ensures SortedByKey([y] + tail, lt)
  {
    var r := [y] + tail;
    forall i, j | 0 <= i < j < |r| ensures lt(r[i].0, r[j].0) {
      assert r[j] == tail[j - 1];
      if i > 0 {
        assert r[i] == tail[i - 1];
      } else {
        assert tail[j - 1].0 in KeySet(tail);
      }
    }
  }

  lemma SortedHead<K, V>(es: seq<(K, V)>, lt: (K, K) -> bool)
    requires es != [] && SortedByKey(es, lt)
    ensures SortedByKey(es[1..], lt)
    ensures forall k :: k in KeySet(es[1..]) ==> lt(es[0].0, k)
  {
    forall k | k in KeySet(es[1..]) ensures lt(es[0].0, k) {
      var i :| 0 <= i < |es[1..]| && es[1..][i].0 == k;
      assert es[1..][i] == es[i + 1];
    }
    forall i, j | 0 <= i < j < |es[1..]| ensures lt(es[1..][i].0, es[1..][j].0) {
      assert es[1..][i] == es[i + 1] && es[1..][j] == es[j + 1];
    }
  }

  /** Writing keeps the order of the sections it keeps. */
  lemma {:induction false} EmitObjectOrder<V>(es: seq<(ContextSet, seq<(string, V)>)>, leKey: (string, string) -> bool,
                                              lt: (ContextSet, ContextSet) -> bool)
    requires DistinctKeys(es) && InnerDistinct(es)
    requires SortedByKey(es, lt)
    ensures SortedByKey(EmitObjectSections(es, leKey), lt)
  {
    if es != [] {
      var x, rest := es[0], es[1..];
      assert es == [x] + rest;
      DistinctCons(x, rest);
      assert InnerDistinct(rest) by {
        forall e | e in rest ensures DistinctKeys(e.1) {
          assert e in es;
        }
      }
      SortedHead(es, lt);
      EmitObjectOrder(rest, leKey, lt);
      if x.1 != [] {
        EmitObjectShape(rest, leKey);
        SortedCons((x.0, SortByKey(x.1, leKey)), EmitObjectSections(rest, leKey), lt);
      }
    }
  }

  /** Every written section has its keys sorted. */
  lemma {:induction false} EmitObjectKeysSorted<V(!new)>(es: seq<(ContextSet, seq<(string, V)>)>, leKey: (string, string) -> bool)
    requires TotalOrder(leKey)
    ensures forall i :: 0 <= i < |EmitObjectSections(es, leKey)| ==> SortedByKey(EmitObjectSections(es, leKey)[i].1, leKey)
  {
    if es != [] {
      EmitObjectKeysSorted(es[1..], leKey);
      if es[0].1 != [] {
        SortSorted(es[0].1, leKey);
      }
    }
  }

  /** The parent sections written come from the input and keep its distinct keys. */
  lemma {:induction false} EmitParentShape(es: seq<(ContextSet, seq<SubjectRef>)>)
    requires DistinctKeys(es)
    ensures KeySet(EmitParentSections(es)) <= KeySet(es)
    ensures DistinctKeys(EmitParentSections(es))
  {
    if es != [] {
      var x, rest := es[0], es[1..];
      assert es == [x] + rest;
      DistinctCons(x, rest);
      EmitParentShape(rest);
      KeySetCons(x, rest);
      if x.1 != [] {
        KeySetCons(x, EmitParentSections(rest));
        DistinctCons(x, EmitParentSections(rest));
      }
    }
  }

  /** Writing keeps exactly the non-empty parent sections. */
  lemma {:induction false} EmitParentMap(es: seq<(ContextSet, seq<SubjectRef>)>)
    requires DistinctKeys(es)
    ensures ToMap(EmitParentSections(es)) == NonEmptyPart(ToMap(es), [])
  {
    if es != [] {
      var x, rest := es[0], es[1..];
      assert es == [x] + rest;
      DistinctCons(x, rest);
      var tail := EmitParentSections(rest);
      EmitParentMap(rest);
      assert ToMap(es) == ToMap(rest)[x.0 := x.1];
      NonEmptyPartUpdate(ToMap(rest), x.0, x.1, []);
      if x.1 != [] {
        assert EmitParentSections(es) == [x] + tail;
        assert ([x] + tail)[1..] == tail;
        assert ToMap([x] + tail) == ToMap(tail)[x.0 := x.1];
      } else {
        assert EmitParentSections(es) == tail;
      }
    }
  }

  /** `sortContextMap` keeps the map and its shape. */
  lemma SortContextMapKeeps<V>(es: seq<(ContextSet, seq<(string, V)>)>, le: (ContextSet, ContextSet) -> bool)
    requires DistinctKeys(es) && InnerDistinct(es)
    ensures Table(SortContextMap(es, le)) == Table(es)
    ensures DistinctKeys(SortContextMap(es, le)) && InnerDistinct(SortContextMap(es, le))
  {
    var r := SortContextMap(es, le);
    SortKeepsMap(es, Reverse(le));
    SortDistinct(es, Reverse(le));
    forall e | e in r ensures DistinctKeys(e.1) {
      assert e in multiset(r);
    }
  }

  /**
   * The permission sections `toJson` writes: in the reversed order of the
   * context-set comparator, each non-empty, each with its keys in the order
   * of the string comparator, and together denoting the non-empty part of
   * the model's permission map.
   */
  lemma PermissionSectionsWritten(m: StorageModel, le: (ContextSet, ContextSet) -> bool, leKey: (string, string) -> bool)
    requires Valid(m) && TotalOrder(le) && TotalOrder(leKey)
    ensures SortedByKey(PermissionSections(m, le, leKey), Reverse(le))
    ensures forall i :: 0 <= i < |PermissionSections(m, le, leKey)| ==>
      |PermissionSections(m, le, leKey)[i].1| > 0 && SortedByKey(PermissionSections(m, le, leKey)[i].1, leKey)
    ensures Table(PermissionSections(m, le, leKey)) == NonEmptyPart(Table(m.permissions), map[])
  {
    var sorted := SortContextMap(m.permissions, le);
    SortContextMapKeeps(m.permissions, le);
    ReverseTotalOrder(le);
    SortSorted(m.permissions, Reverse(le));
    EmitObjectOrder(sorted, leKey, Reverse(le));
    EmitObjectKeysSorted(sorted, leKey);
    EmitObjectTable(sorted, leKey);
  }

  /** The option sections `toJson` writes, as for permissions. */
  lemma OptionSectionsWritten(m: StorageModel, le: (ContextSet, ContextSet) -> bool, leKey: (string, string) -> bool)
    requires Valid(m) && TotalOrder(le) && TotalOrder(leKey)
    ensures SortedByKey(OptionSections(m, le, leKey), Reverse(le))
    ensures forall i :: 0 <= i < |OptionSections(m, le, leKey)| ==>
      |OptionSections(m, le, leKey)[i].1| > 0 && SortedByKey(OptionSections(m, le, leKey)[i].1, leKey)
    ensures Table(OptionSections(m, le, leKey)) == NonEmptyPart(Table(m.options), map[])
  {
    var sorted := SortContextMap(m.options, le);
    SortContextMapKeeps(m.options, le);
    ReverseTotalOrder(le);
    SortSorted(m.options, Reverse(le));
    EmitObjectOrder(sorted, leKey, Reverse(le));
    EmitObjectKeysSorted(sorted, leKey);
    EmitObjectTable(sorted, leKey);
  }

  /** Sorting then writing a permission or option map keeps its non-empty part and its shape. */
  lemma ObjectSectionsDenote<V>(es: seq<(ContextSet, seq<(string, V)>)>, le: (ContextSet, ContextSet) -> bool,
                                leKey: (string, string) -> bool)
    requires DistinctKeys(es) && InnerDistinct(es)
    ensures var w := EmitObjectSections(SortContextMap(es, le), leKey);
      && Table(w) == NonEmptyPart(Table(es), map[])
      && DistinctKeys(w) && InnerDistinct(w)
  {
    var sorted := SortContextMap(es, le);
    SortContextMapKeeps(es, le);
    EmitObjectShape(sorted, leKey);
    EmitObjectTable(sorted, leKey);
  }

  /** Sorting then writing the parent map keeps its non-empty part and distinct keys. */
  lemma ParentSectionsDenote(m: StorageModel, le: (ContextSet, ContextSet) -> bool)
    requires Valid(m)
    ensures ToMap(ParentSections(m, le)) == NonEmptyPart(ToMap(m.parents), [])
    ensures DistinctKeys(ParentSections(m, le))
  {
    var sorted := SortContextMap(m.parents, le);
    SortKeepsMap(m.parents, Reverse(le));
    SortDistinct(m.parents, Reverse(le));
    EmitParentShape(sorted);
    EmitParentMap(sorted);
  }

  lemma ReadWrittenPermissionSections(ps: seq<(ContextSet, seq<(string, bool)>)>, ser: ContextSet -> Json, de: Json -> ContextSet)
    requires ContextCodec(ser, de) && InnerDistinct(ps)
    ensures ReadSections(WriteSections(ps, ser, WritePermissionData), de, ReadPermissionData) == Some(ps)
  {
    forall i | 0 <= i < |ps| ensures ReadPermissionData(WritePermissionData(ps[i].1)) == Take(ps[i].1) {
      assert ps[i] in ps;
      ReadWrittenPermissionData(ps[i].1);
    }
    ReadWrittenSections(ps, ser, de, WritePermissionData, ReadPermissionData);
  }

  lemma ReadWrittenOptionSections(os: seq<(ContextSet, seq<(string, string)>)>, ser: ContextSet -> Json, de: Json -> ContextSet)
    requires ContextCodec(ser, de) && InnerDistinct(os)
    ensures ReadSections(WriteSections(os, ser, WriteOptionData), de, ReadOptionData) == Some(os)
  {
    forall i | 0 <= i < |os| ensures ReadOptionData(WriteOptionData(os[i].1)) == Take(os[i].1) {
      assert os[i] in os;
      ReadWrittenOptionData(os[i].1);
    }
    ReadWrittenSections(os, ser, de, WriteOptionData, ReadOptionData);
  }

  lemma FromJsonOfRoot(p: seq<Json>, o: seq<Json>, q: seq<Json>, de: Json -> ContextSet)
    requires ReadMap(p, de, ReadPermissionData).Some?
    requires ReadMap(o, de, ReadOptionData).Some?
    requires ReadMap(q, de, ReadParentData).Some?
    ensures FromJson(Root(p, o, q), de) == Some(StorageModel(ReadMap(p, de, ReadPermissionData).value,
                                                             ReadMap(o, de, ReadOptionData).value,
                                                             ReadMap(q, de, ReadParentData).value))
  {
    RootMembers(p, o, q);
  }

  lemma PermissionsReadBack(m: StorageModel, ser: ContextSet -> Json, de: Json -> ContextSet,
                            le: (ContextSet, ContextSet) -> bool, leKey: (string, string) -> bool)
    requires Valid(m) && ContextCodec(ser, de)
    ensures ReadMap(WriteSections(PermissionSections(m, le, leKey), ser, WritePermissionData), de, ReadPermissionData)
         == Some(PermissionSections(m, le, leKey))
  {
    ObjectSectionsDenote(m.permissions, le, leKey);
    ReadWrittenPermissionSections(PermissionSections(m, le, leKey), ser, de);
  }

  lemma OptionsReadBack(m: StorageModel, ser: ContextSet -> Json, de: Json -> ContextSet,
                        le: (ContextSet, ContextSet) -> bool, leKey: (string, string) -> bool)
    requires Valid(m) && ContextCodec(ser, de)
    ensures ReadMap(WriteSections(OptionSections(m, le, leKey), ser, WriteOptionData), de, ReadOptionData)
         == Some(OptionSections(m, le, leKey))
  {
    ObjectSectionsDenote(m.options, le, leKey);
    ReadWrittenOptionSections(OptionSections(m, le, leKey), ser, de);
  }

  /** The as-written `options` array: option sections followed by parent sections, which the reader skips. */
  lemma MixedOptionsReadBack(m: StorageModel, ser: ContextSet -> Json, de: Json -> ContextSet,
                             le: (ContextSet, ContextSet) -> bool, leKey: (string, string) -> bool)
    requires Valid(m) && ContextCodec(ser, de)
    ensures ReadMap(WriteSections(OptionSections(m, le, leKey), ser, WriteOptionData)
                    + WriteSections(ParentSections(m, le), ser, WriteParentDataAsWritten), de, ReadOptionData)
         == Some(OptionSections(m, le, leKey))
  {
    var os, qs := OptionSections(m, le, leKey), ParentSections(m, le);
    var ow := WriteSections(os, ser, WriteOptionData);
    var qw := WriteSections(qs, ser, WriteParentDataAsWritten);
    OptionsReadBack(m, ser, de, le, leKey);
    ReadSkippedSections(qs, ser, de, WriteParentDataAsWritten, ReadOptionData);
    ReadSectionsAppend(ow, qw, de, ReadOptionData);
    assert os + [] == os;
  }

  /** What reading back the as-written form yields: the sections written, and no parents. */
  lemma ReadAsWritten(m: StorageModel, ser: ContextSet -> Json, de: Json -> ContextSet,
                      le: (ContextSet, ContextSet) -> bool, leKey: (string, string) -> bool)
    requires Valid(m) && ContextCodec(ser, de)
    ensures FromJson(ToJson(m, ser, le, leKey), de) == Some(StorageModel(PermissionSections(m, le, leKey), OptionSections(m, le, leKey), []))
  {
    var pw := WriteSections(PermissionSections(m, le, leKey), ser, WritePermissionData);
    var ow := WriteSections(OptionSections(m, le, leKey), ser, WriteOptionData)
              + WriteSections(ParentSections(m, le), ser, WriteParentDataAsWritten);
    PermissionsReadBack(m, ser, de, le, leKey);
    MixedOptionsReadBack(m, ser, de, le, leKey);
    assert ReadMap([], de, ReadParentData) == Some([]);
    assert ToJson(m, ser, le, leKey) == Root(pw, ow, []);
    FromJsonOfRoot(pw, ow, [], de);
  }

  /**
   * Reading back what `toJson` writes, as written. Permissions and options
   * come back as the sections written, denoting the non-empty part of the
   * model's maps; the parents come back empty whatever the model held.
   */
  lemma RoundTripAsWritten(m: StorageModel, ser: ContextSet -> Json, de: Json -> ContextSet,
                           le: (ContextSet, ContextSet) -> bool, leKey: (string, string) -> bool)
    requires Valid(m) && ContextCodec(ser, de)
    ensures FromJson(ToJson(m, ser, le, leKey), de).Some?
    ensures var back := FromJson(ToJson(m, ser, le, leKey), de).value;
      && back.permissions == PermissionSections(m, le, leKey)
      && back.options == OptionSections(m, le, leKey)
      && Table(back.permissions) == NonEmptyPart(Table(m.permissions), map[])
      && Table(back.options) == NonEmptyPart(Table(m.options), map[])
      && back.parents == []
  {
    ReadAsWritten(m, ser, de, le, leKey);
    ObjectSectionsDenote(m.permissions, le, leKey);
    ObjectSectionsDenote(m.options, le, leKey);
  }

  /** Whatever parents a model holds, the as-written form loses them. */
  lemma ParentsLost(m: StorageModel, ser: ContextSet -> Json, de: Json -> ContextSet,
                    le: (ContextSet, ContextSet) -> bool, leKey: (string, string) -> bool)
    requires Valid(m) && ContextCodec(ser, de)
    requires exists i :: 0 <= i < |m.parents| && m.parents[i].1 != []
    ensures NonEmptyPart(ToMap(m.parents), []) != map[]
    ensures FromJson(ToJson(m, ser, le, leKey), de).Some?
    ensures FromJson(ToJson(m, ser, le, leKey), de).value.parents == []
  {
    var i :| 0 <= i < |m.parents| && m.parents[i].1 != [];
    assert m.parents[i].0 in NonEmptyPart(ToMap(m.parents), []);
    RoundTripAsWritten(m, ser, de, le, leKey);
  }

  lemma ParentsReadBack(m: StorageModel, ser: ContextSet -> Json, de: Json -> ContextSet, le: (ContextSet, ContextSet) -> bool)
    requires Valid(m) && ContextCodec(ser, de)
    ensures ReadMap(WriteSections(ParentSections(m, le), ser, WriteParentData), de, ReadParentData) == Some(ParentSections(m, le))
  {
    var qs := ParentSections(m, le);
    ParentSectionsDenote(m, le);
    forall i | 0 <= i < |qs| ensures ReadParentData(WriteParentData(qs[i].1)) == Take(qs[i].1) {
      ReadWrittenParentData(qs[i].1);
    }
    ReadWrittenSections(qs, ser, de, WriteParentData, ReadParentData);
  }

  /**
   * Reading back what the corrected writer writes: permissions and options
   * as before, and the parents as the non-empty part of the model's parent
   * map, subjects included.
   */
  lemma RoundTripCorrected(m: StorageModel, ser: ContextSet -> Json, de: Json -> ContextSet,
                           le: (ContextSet, ContextSet) -> bool, leKey: (string, string) -> bool)
    requires Valid(m) && ContextCodec(ser, de)
    ensures FromJson(ToJsonCorrected(m, ser, le, leKey), de).Some?
    ensures var back := FromJson(ToJsonCorrected(m, ser, le, leKey), de).value;
      && back.permissions == PermissionSections(m, le, leKey)
      && back.options == OptionSections(m, le, leKey)
      && back.parents == ParentSections(m, le)
      && Table(back.permissions) == NonEmptyPart(Table(m.permissions), map[])
      && Table(back.options) == NonEmptyPart(Table(m.options), map[])
      && ToMap(back.parents) == NonEmptyPart(ToMap(m.parents), [])
  {
    var pw := WriteSections(PermissionSections(m, le, leKey), ser, WritePermissionData);
    var ow := WriteSections(OptionSections(m, le, leKey), ser, WriteOptionData);
    var qw := WriteSections(ParentSections(m, le), ser, WriteParentData);
    PermissionsReadBack(m, ser, de, le, leKey);
    OptionsReadBack(m, ser, de, le, leKey);
    ParentsReadBack(m, ser, de, le);
    assert ToJsonCorrected(m, ser, le, leKey) == Root(pw, ow, qw);
    FromJsonOfRoot(pw, ow, qw, de);
    ObjectSectionsDenote(m.permissions, le, leKey);
    ObjectSectionsDenote(m.options, le, leKey);
    ParentSectionsDenote(m, le);
  }

  /** A parent reference to group `admin`, written as the source writes it, reads back as a reference to subject `group`. */
  lemma AsWrittenSubjectExample()
    ensures ReadParentData(WriteParentDataAsWritten([SubjectRef("group", "admin")])) == Take([SubjectRef("group", "group")])
  {
    ReadAsWrittenParentData([SubjectRef("group", "admin")]);
    var c := Collapsed([SubjectRef("group", "admin")]);
    assert |c| == 1 && c[0].collection == "group" == c[0].subject;
    assert c == [SubjectRef("group", "group")];
  }
}
