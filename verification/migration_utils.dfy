/**
 * Helpers shared by every importer: reading a raw permission with a sign
 * prefix, replacing a group's weight node, and turning a foreign group name
 * into a LuckPerms group name.
 */
module MigrationUtils {
  import opened Nodes
  import opened Ascii

  /** The characters that turn a raw permission into a negated one. */
  predicate IsNegation(c: char) {
    c == '-' || c == '!'
  }

  predicate HasSign(permission: string) {
    |permission| > 0 && (IsNegation(permission[0]) || permission[0] == '+')
  }

  /**
   * Reads a raw permission: a leading `-` or `!` negates it, a leading `+`
   * grants it, and in both cases that one character is dropped; anything else
   * keeps the caller's value. The result is a plain node: global, permanent,
   * without extra contexts.
   */
  function ParseNode(permission: string, value: bool): (n: Node)
    ensures n.server.None? && n.world.None? && n.contexts == {} && n.expiry.None?
    ensures HasSign(permission) <==> n.permission != permission
    ensures n.permission == permission || n.permission == permission[1..]
    ensures HasSign(permission) ==> n.value == (permission[0] == '+')
  {
    if |permission| > 0 && IsNegation(permission[0]) then
      Make(permission[1..]).(value := false)
    else if |permission| > 0 && permission[0] == '+' then
      Make(permission[1..])
    else
      Make(permission).(value := value)
  }

  /** A sign character is stripped exactly once, whatever the caller passed and whatever follows it. */
  lemma ParseNodeSign(rest: string, value: bool)
    ensures ParseNode("-" + rest, value).permission == rest && !ParseNode("-" + rest, value).value
    ensures ParseNode("!" + rest, value).permission == rest && !ParseNode("!" + rest, value).value
    ensures ParseNode("+" + rest, value).permission == rest && ParseNode("+" + rest, value).value
  {
    assert ("-" + rest)[1..] == rest;
    assert ("!" + rest)[1..] == rest;
    assert ("+" + rest)[1..] == rest;
  }

  /** A permission without a sign passes through with the caller's value. */
  lemma ParseNodeUnsigned(permission: string, value: bool)
    requires !HasSign(permission)
    ensures ParseNode(permission, value) == Make(permission).(value := value)
  {
  }

  /** The raw form an importer writes for a permission with a value: negations carry a `-`. */
  function RawPermission(permission: string, value: bool): string {
    if value then permission else "-" + permission
  }

  /** Reading back a raw permission recovers the permission and value it was written from. */
  lemma ParseRawPermission(permission: string, value: bool)
    requires !HasSign(permission)
    ensures ParseNode(RawPermission(permission, value), true) == Make(permission).(value := value)
  {
    if !value {
      ParseNodeSign(permission, true);
    }
  }

  /**
   * `setGroupWeight`: drops every node whose permission starts with
   * `weight.` and adds `weight.<w>`.
   */
  function SetGroupWeight(nodes: set<Node>, weight: int): (r: set<Node>)
    ensures (set n | n in r && n.IsWeightNode()) == {MakeWeightNode(weight)}
    ensures forall n: Node :: !n.IsWeightNode() ==> (n in r <==> n in nodes)
  {
    FactoryNamespaces(weight, "", "", "");
    (set n | n in nodes && !n.IsWeightNode()) + {MakeWeightNode(weight)}
  }

  /** Characters a group name may not contain: each becomes `-`. */
  predicate IsSeparator(c: char) {
    c == ':' || c == ' ' || c == '.'
  }

  /** The character a kept character of a name becomes: separators turn into `-`, letters into lower case. */
  function StandardChar(c: char): char {
    LowerChar(if IsSeparator(c) then '-' else c)
  }

  /**
   * `standardizeName`: trims, replaces `:`, space and `.` by `-`, and
   * lower-cases. Each character of the trimmed name maps to one character
   * of the result, so the result has none of those separators, no upper-case
   * letter, and neither starts nor ends with a character `trim` strips.
   */
  function StandardizeName(name: string): (r: string)
    ensures |r| == |Trim(name)|
    ensures forall i :: 0 <= i < |r| ==> r[i] == StandardChar(Trim(name)[i])
    ensures forall i :: 0 <= i < |r| ==> !IsSeparator(r[i])
    ensures IsLowerCase(r)
    ensures r == [] || (!IsTrimmed(r[0]) && !IsTrimmed(r[|r| - 1]))
    ensures |r| <= |name|
  {
    Lower(Replace(Replace(Replace(Trim(name), ':', '-'), ' ', '-'), '.', '-'))
  }

  /** Standardising a standardised name changes nothing. */
  lemma StandardizeNameIdempotent(name: string)
    ensures StandardizeName(StandardizeName(name)) == StandardizeName(name)
  {
    var s := StandardizeName(name);
    TrimOfTrimmed(s);
    assert Replace(s, ':', '-') == s;
    assert Replace(s, ' ', '-') == s;
    assert Replace(s, '.', '-') == s;
    LowerOfLowerCase(s);
  }

  /** A worked instance: surrounding spaces go, inner separators become `-`, letters are lower-cased. */
  lemma StandardizeNameExample()
    ensures StandardizeName(" Mod.Team:A ") == "mod-team-a"
  {
    var t := Trim(" Mod.Team:A ");
    assert TrimStart(" Mod.Team:A ") == 1;
    assert t == "Mod.Team:A";
  }
}
