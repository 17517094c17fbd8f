/**
 * The derived configuration options: the keys whose value is computed from
 * one or more raw settings, with the fallbacks the plugin applies to missing,
 * unknown or legacy settings.
 *
 * A configuration is a map from setting paths to values. A lookup of a path
 * that is missing, or that holds a value of another type, yields the
 * lookup's default.
 */
module ConfigKeys {
  import opened Wrappers
  import opened Ascii
  import JavaInt

  datatype ConfigValue =
    | BoolValue(b: bool)
    | StringValue(s: string)
    | ListValue(items: seq<string>)
    | MapValue(entries: map<string, string>)

  type Config = map<string, ConfigValue>

  function GetBoolean(c: Config, path: string, default: bool): bool {
    if path in c && c[path].BoolValue? then c[path].b else default
  }

  function GetString(c: Config, path: string, default: string): string {
    if path in c && c[path].StringValue? then c[path].s else default
  }

  function GetList(c: Config, path: string, default: seq<string>): seq<string> {
    if path in c && c[path].ListValue? then c[path].items else default
  }

  function GetMap(c: Config, path: string): map<string, string> {
    if path in c && c[path].MapValue? then c[path].entries else map[]
  }

  /** `server`: the lower-cased server name, `global` when unset. */
  function Server(c: Config): (r: string)
    ensures IsLowerCase(r)
    ensures "server" !in c ==> r == "global"
    ensures EqualsIgnoreCase(r, GetString(c, "server", "global"))
    ensures "server" in c && c["server"].StringValue? ==> |r| == |c["server"].s|
  {
    LowerIsLowerCase(GetString(c, "server", "global"));
    LowerOfLowerCase("global");
    Lower(GetString(c, "server", "global"))
  }

  /** The setting at `path` is the boolean `false`. */
  predicate IsFalse(c: Config, path: string) {
    path in c && c[path] == BoolValue(false)
  }

  /** The setting at `path` is a string. */
  predicate IsString(c: Config, path: string) {
    path in c && c[path].StringValue?
  }

  /** The setting at `path` is the boolean `true`. */
  predicate IsTrue(c: Config, path: string) {
    path in c && c[path] == BoolValue(true)
  }

  /**
   * `use-server-uuids`, falling back to the legacy `online-mode` only when
   * the new key is absent altogether; both default to true, so the option
   * is off exactly when the deciding key holds `false`.
   */
  function UseServerUuids(c: Config): (r: bool)
    ensures !r <==> if "use-server-uuids" in c then IsFalse(c, "use-server-uuids") else IsFalse(c, "online-mode")
  {
    if "use-server-uuids" in c then GetBoolean(c, "use-server-uuids", true)
    else GetBoolean(c, "online-mode", true)
  }

  /** Once `use-server-uuids` is present, the legacy `online-mode` setting has no say. */
  lemma LegacyOnlineModeIgnored(c: Config, legacy: ConfigValue)
    requires "use-server-uuids" in c
    ensures UseServerUuids(c["online-mode" := legacy]) == UseServerUuids(c)
  {
  }

  /** What happens when a temporary node is added over an existing one. */
  datatype TemporaryModifier = Accumulate | Replace | Deny

  /**
   * `temporary-add-behaviour`, matched case-insensitively; a missing or
   * unknown value means `deny`.
   */
  function TemporaryAddBehaviour(c: Config): (r: TemporaryModifier)
    ensures var option := GetString(c, "temporary-add-behaviour", "deny");
      && (r == Replace <==> EqualsIgnoreCase(option, "replace"))
      && (r == Accumulate <==> EqualsIgnoreCase(option, "accumulate"))
      && (r == Deny <==> !EqualsIgnoreCase(option, "replace") && !EqualsIgnoreCase(option, "accumulate"))
  {
    LowerOfLowerCase("replace");
    LowerOfLowerCase("accumulate");
    var option := Lower(GetString(c, "temporary-add-behaviour", "deny"));
    var option' := if option != "deny" && option != "replace" && option != "accumulate" then "deny" else option;
    if option' == "replace" then Replace
    else if option' == "accumulate" then Accumulate
    else Deny
  }

  /** Two configurations whose settings differ only in letter case agree on the behaviour. */
  lemma TemporaryAddBehaviourIgnoresCase(c: Config, d: Config)
    requires EqualsIgnoreCase(GetString(c, "temporary-add-behaviour", "deny"),
                              GetString(d, "temporary-add-behaviour", "deny"))
    ensures TemporaryAddBehaviour(c) == TemporaryAddBehaviour(d)
  {
  }

  const PrimaryGroupMethods: set<string> := {"stored", "parents-by-weight", "all-parents-by-weight"}

  /**
   * `primary-group-calculation`, lower-cased; anything other than the three
   * known methods becomes `stored`.
   */
  function PrimaryGroupCalculationMethod(c: Config): (r: string)
    ensures r in PrimaryGroupMethods
    ensures var option := Lower(GetString(c, "primary-group-calculation", "stored"));
      r == (if option in PrimaryGroupMethods then option else "stored")
  {
    var option := Lower(GetString(c, "primary-group-calculation", "stored"));
    if option != "stored" && option != "parents-by-weight" && option != "all-parents-by-weight" then "stored"
    else option
  }

  /** The strategy that picks a user's primary group. */
  datatype PrimaryGroupHolder = StoredHolder | ParentsByWeightHolder | AllParentsByWeightHolder

  /** The strategy the method names: `stored` and `parents-by-weight` have their own, anything else is all-parents. */
  function PrimaryGroupCalculation(c: Config): (r: PrimaryGroupHolder)
    ensures r == StoredHolder <==> PrimaryGroupCalculationMethod(c) == "stored"
    ensures r == ParentsByWeightHolder <==> PrimaryGroupCalculationMethod(c) == "parents-by-weight"
    ensures r == AllParentsByWeightHolder <==> PrimaryGroupCalculationMethod(c) == "all-parents-by-weight"
  {
    match PrimaryGroupCalculationMethod(c)
    case "stored" => StoredHolder
    case "parents-by-weight" => ParentsByWeightHolder
    case _ => AllParentsByWeightHolder
  }

  /** Two distinct keys that become the same key once lower-cased. */
  predicate CaseCollision(m: map<string, string>) {
    exists k1, k2 :: k1 in m && k2 in m && k1 != k2 && Lower(k1) == Lower(k2)
  }

  /** A group weight setting: its integer value, or 0 when it does not parse. */
  function WeightOf(value: string): JavaInt.int32 {
    JavaInt.ParseInt(value).GetOr(0)
  }

  /**
   * `group-weight`: group names lower-cased, weights parsed as integers with
   * 0 for anything that does not parse. Two names that coincide once
   * lower-cased make the immutable-map builder reject the result (`None`).
   */
  function GroupWeights(c: Config): (r: Option<map<string, JavaInt.int32>>)
    ensures r.Some? <==> !CaseCollision(GetMap(c, "group-weight"))
    ensures r.Some? ==> r.value.Keys == set k | k in GetMap(c, "group-weight") :: Lower(k)
    ensures r.Some? ==> forall k :: k in GetMap(c, "group-weight") ==>
      r.value[Lower(k)] == WeightOf(GetMap(c, "group-weight")[k])
    ensures r.Some? ==> forall k :: k in r.value ==> IsLowerCase(k)
  {
    var m := GetMap(c, "group-weight");
    if CaseCollision(m) then None
    else
      var r := map k | k in m :: Lower(k) := WeightOf(m[k]);
      assert forall k :: k in m ==> IsLowerCase(Lower(k)) by {
        forall k | k in m { LowerIsLowerCase(k); }
      }
      Some(r)
  }

  /** A weight written as a decimal integer is read back as that integer. */
  lemma GroupWeightReadsDecimal(c: Config, group: string, weight: JavaInt.int32)
    requires GroupWeights(c).Some?
    requires group in GetMap(c, "group-weight")
    requires GetMap(c, "group-weight")[group] == JavaInt.IntToString(weight as int)
    ensures GroupWeights(c).value[Lower(group)] == weight
  {
    JavaInt.ParseIntToString(weight);
  }

  /** A meta stack: the element list plus the start, middle and end spacers. */
  datatype MetaStackDefinition = MetaStackDefinition(
    isPrefix: bool, elements: seq<string>, startSpacer: string, middleSpacer: string, endSpacer: string)

  /**
   * `meta-formatting.<prefix|suffix>`: the format list, `highest` alone when
   * the list is missing or empty; spacers default to empty, a space, and empty.
   */
  function MetaFormattingOptions(c: Config, isPrefix: bool): (r: MetaStackDefinition)
    ensures r.isPrefix == isPrefix
    ensures |r.elements| > 0
    ensures var base := if isPrefix then "meta-formatting.prefix." else "meta-formatting.suffix.";
      && (GetList(c, base + "format", []) == [] ==> r.elements == ["highest"])
      && (GetList(c, base + "format", []) != [] ==> r.elements == GetList(c, base + "format", []))
      && (base + "start-spacer" !in c ==> r.startSpacer == "")
      && (base + "middle-spacer" !in c ==> r.middleSpacer == " ")
      && (base + "end-spacer" !in c ==> r.endSpacer == "")
      && (IsString(c, base + "start-spacer") ==> r.startSpacer == c[base + "start-spacer"].s)
      && (IsString(c, base + "middle-spacer") ==> r.middleSpacer == c[base + "middle-spacer"].s)
      && (IsString(c, base + "end-spacer") ==> r.endSpacer == c[base + "end-spacer"].s)
  {
    var base := if isPrefix then "meta-formatting.prefix." else "meta-formatting.suffix.";
    var format := GetList(c, base + "format", []);
    var elements := if format == [] then ["highest"] else format;
    MetaStackDefinition(isPrefix, elements,
      GetString(c, base + "start-spacer", ""),
      GetString(c, base + "middle-spacer", " "),
      GetString(c, base + "end-spacer", ""))
  }

  function PrefixFormattingOptions(c: Config): MetaStackDefinition {
    MetaFormattingOptions(c, true)
  }

  function SuffixFormattingOptions(c: Config): MetaStackDefinition {
    MetaFormattingOptions(c, false)
  }

  function AutoOp(c: Config): bool {
    GetBoolean(c, "auto-op", false)
  }

  /** Ops are honoured only when auto-op (default false) is off and `enable-ops` (default true) is on. */
  function OpsEnabled(c: Config): (r: bool)
    ensures r <==> !IsTrue(c, "auto-op") && !IsFalse(c, "enable-ops")
  {
    !AutoOp(c) && GetBoolean(c, "enable-ops", true)
  }

  /**
   * The server Vault queries use: the lower-cased `vault-server` (default
   * `global`) while `use-vault-server` (default true) holds, otherwise the
   * configured `server`.
   */
  function VaultServer(c: Config): (r: string)
    ensures IsLowerCase(r)
    ensures !IsFalse(c, "use-vault-server") && "vault-server" !in c ==> r == "global"
    ensures !IsFalse(c, "use-vault-server") ==> EqualsIgnoreCase(r, GetString(c, "vault-server", "global"))
    ensures IsFalse(c, "use-vault-server") ==> r == Server(c)
  {
    if GetBoolean(c, "use-vault-server", true) then
      var v := GetString(c, "vault-server", "global");
      LowerIsLowerCase(v);
      LowerOfLowerCase(Lower(v));
      LowerOfLowerCase("global");
      Lower(v)
    else
      Server(c)
  }

  /** An empty configuration yields the default server and behaviours. */
  lemma EmptyConfigDefaults()
    ensures Server(map[]) == "global"
    ensures UseServerUuids(map[])
    ensures TemporaryAddBehaviour(map[]) == Deny
    ensures PrimaryGroupCalculationMethod(map[]) == "stored"
    ensures PrimaryGroupCalculation(map[]) == StoredHolder
  {
    LowerOfLowerCase("global");
    LowerOfLowerCase("stored");
  }

  /** An empty configuration yields no group weights, the default meta stacks, ops, and the global Vault server. */
  lemma EmptyConfigFormatting()
    ensures GroupWeights(map[]) == Some(map[])
    ensures PrefixFormattingOptions(map[]) == MetaStackDefinition(true, ["highest"], "", " ", "")
    ensures SuffixFormattingOptions(map[]) == MetaStackDefinition(false, ["highest"], "", " ", "")
    ensures OpsEnabled(map[])
    ensures VaultServer(map[]) == "global"
  {
    LowerOfLowerCase("global");
  }
}
