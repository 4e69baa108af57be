/**
 * Entities of contrag-core (entity.rs): the default `to_text` and
 * `to_summary` of a `RagEntity`, and `flatten_json_to_context`, which turns a
 * nested JSON value into dotted key/value pairs.
 *
 * An entity enters as its type name, its id and its context map. A JSON
 * value is the datatype `Json`; object members keep the order the map
 * iterates them in, and a number carries the text serde prints for it.
 */
module Entity {
  import opened Types
  import opened Strings
  import opened Utils

  // ---------------------------------------------------------------------
  // to_text and to_summary

  /** The lines of `to_text`: a three-line header, then `key: value` per entry. */
  function TextLines(entityType: string, entityId: string, contextMap: seq<(string, string)>): seq<string> {
    ["Entity: " + entityType, "ID: " + entityId, "---"]
      + seq(|contextMap|, i requires 0 <= i < |contextMap| => contextMap[i].0 + ": " + contextMap[i].1)
  }

  /** The text `to_text` returns: its lines joined by newlines. */
  function EntityText(entityType: string, entityId: string, contextMap: seq<(string, string)>): string {
    Join(TextLines(entityType, entityId, contextMap), "\n")
  }

  /** `RagEntity::to_text`. */
  method ToText(entityType: string, entityId: string, contextMap: seq<(string, string)>) returns (text: string)
    ensures text == EntityText(entityType, entityId, contextMap)
  {
    var lines := ["Entity: " + entityType, "ID: " + entityId, "---"];
    for i := 0 to |contextMap|
      invariant lines == TextLines(entityType, entityId, contextMap[..i])
    {
      var (key, value) := contextMap[i];
      assert contextMap[..i + 1][..i] == contextMap[..i];
      lines := lines + [key + ": " + value];
    }
    assert contextMap[..|contextMap|] == contextMap;
    text := Join(lines, "\n");
  }

  /** `RagEntity::to_summary`: the text, cut to `maxLength` characters plus `...` when longer. */
  method ToSummary(entityType: string, entityId: string, contextMap: seq<(string, string)>, maxLength: nat)
    returns (summary: string)
    ensures summary == TruncateText(EntityText(entityType, entityId, contextMap), maxLength)
  {
    var text := ToText(entityType, entityId, contextMap);
    if |text| <= maxLength {
      summary := text;
    } else {
      summary := text[..maxLength] + "...";
    }
  }

  predicate NoNewline(s: string) {
    forall i :: 0 <= i < |s| ==> s[i] != '\n'
  }

  /**
   * The text is the header and one line per entry: splitting it at newlines
   * gives back exactly those lines, provided no field contains a newline.
   */
  lemma EntityTextLines(entityType: string, entityId: string, contextMap: seq<(string, string)>)
    requires NoNewline(entityType) && NoNewline(entityId)
    requires forall i :: 0 <= i < |contextMap| ==> NoNewline(contextMap[i].0) && NoNewline(contextMap[i].1)
    ensures var lines := SplitOn(EntityText(entityType, entityId, contextMap), '\n');
      |lines| == 3 + |contextMap|
      && lines[0] == "Entity: " + entityType && lines[1] == "ID: " + entityId && lines[2] == "---"
      && forall i :: 0 <= i < |contextMap| ==> lines[3 + i] == contextMap[i].0 + ": " + contextMap[i].1
  {
    var lines := TextLines(entityType, entityId, contextMap);
    forall k, i | 0 <= k < |lines| && 0 <= i < |lines[k]| ensures lines[k][i] != '\n' {
      if k >= 3 {
        var e := contextMap[k - 3];
        assert lines[k] == e.0 + ": " + e.1;
        if i >= |e.0| + 2 {
          assert lines[k][i] == e.1[i - |e.0| - 2];
        }
      } else if k == 0 {
        if i >= 8 { assert lines[k][i] == entityType[i - 8]; }
      } else if k == 1 {
        if i >= 4 { assert lines[k][i] == entityId[i - 4]; }
      }
    }
    SplitJoin(lines, '\n');
  }

  // ---------------------------------------------------------------------
  // JSON flattening

  datatype Json =
    | JNull
    | JBool(b: bool)
    | JNumber(repr: string)
    | JString(s: string)
    | JArray(items: seq<Json>)
    | JObject(members: seq<(string, Json)>)

  /** serde_json's compact rendering (`to_string`); strings are not escaped. */
  function Render(v: Json): string
    decreases v, 1, 0
  {
    match v
    case JNull => "null"
    case JBool(b) => if b then "true" else "false"
    case JNumber(repr) => repr
    case JString(s) => "\"" + s + "\""
    case JArray(items) => "[" + RenderItems(items, 0) + "]"
    case JObject(members) => "{" + RenderMembers(members, 0) + "}"
  }

  /** The items from index `i` on, comma-separated. */
  function RenderItems(items: seq<Json>, i: nat): string
    requires i <= |items|
    decreases JArray(items), 0, |items| - i
  {
    if i == |items| then ""
    else (if i == 0 then "" else ",") + Render(items[i]) + RenderItems(items, i + 1)
  }

  /** The members from index `i` on, as `"key":value`, comma-separated. */
  function RenderMembers(ms: seq<(string, Json)>, i: nat): string
    requires i <= |ms|
    decreases JObject(ms), 0, |ms| - i
  {
    if i == |ms| then ""
    else (if i == 0 then "" else ",") + "\"" + ms[i].0 + "\":" + Render(ms[i].1) + RenderMembers(ms, i + 1)
  }

  /** How an array item is shown: a string as itself, anything else rendered. */
  function ItemText(v: Json): string {
    if v.JString? then v.s else Render(v)
  }

  /** The key of a member: the bare key at the top, `prefix.key` below. */
  function ChildPrefix(prefix: string, key: string): string {
    if prefix == [] then key else prefix + "." + key
  }

  /** `flatten_json_to_context(value, prefix)`. */
  function Flatten(v: Json, prefix: string): seq<(string, string)>
    decreases v, 1, 0
  {
    match v
    case JObject(ms) => FlattenFrom(ms, 0, prefix)
    case JArray(items) =>
      [(prefix, Join(seq(|items|, k requires 0 <= k < |items| => ItemText(items[k])), ", "))]
    case JNull => [(prefix, "")]
    case _ => [(prefix, TrimMatches(Render(v), '"'))]
  }

  /** The flattened members from index `i` on, in member order. */
  function FlattenFrom(ms: seq<(string, Json)>, i: nat, prefix: string): seq<(string, string)>
    requires i <= |ms|
    decreases JObject(ms), 0, |ms| - i
  {
    if i == |ms| then []
    else Flatten(ms[i].1, ChildPrefix(prefix, ms[i].0)) + FlattenFrom(ms, i + 1, prefix)
  }

  /** The number of leaves that are not objects (an empty object has none). */
  function Leaves(v: Json): nat
    decreases v, 1, 0
  {
    if v.JObject? then LeavesFrom(v.members, 0) else 1
  }

  function LeavesFrom(ms: seq<(string, Json)>, i: nat): nat
    requires i <= |ms|
    decreases JObject(ms), 0, |ms| - i
  {
    if i == |ms| then 0 else Leaves(ms[i].1) + LeavesFrom(ms, i + 1)
  }

  /** Neither end of the text is a double quote. */
  predicate Unquoted(s: string) {
    s == [] || (s[0] != '"' && s[|s| - 1] != '"')
  }

  /** Stripping the quotes off a rendered string gives the string back. */
  lemma QuotesStripped(s: string)
    requires Unquoted(s)
    ensures TrimMatches("\"" + s + "\"", '"') == s
  {
    var q := "\"" + s + "\"";
    assert q[1..] == s + "\"";
    if s == [] {
      assert TrimStart(s + "\"", '"') == TrimStart([], '"');
    } else {
      var t := s + "\"";
      assert TrimStart(q, '"') == TrimStart(t, '"');
      assert t[0] == s[0];
      assert TrimStart(t, '"') == t;
      assert t[..|t| - 1] == s;
      assert TrimEnd(t, '"') == TrimEnd(s, '"');
    }
  }

  /**
   * Each value that is not an object yields one pair under the prefix:
   * null an empty value, an array its items joined by `, ` (strings
   * unquoted), a string itself, a number or a boolean its rendering.
   */
  lemma FlattenLeaf(v: Json, prefix: string)
    requires !v.JObject?
    requires v.JString? ==> Unquoted(v.s)
    requires v.JNumber? ==> Unquoted(v.repr)
    ensures v.JNull? ==> Flatten(v, prefix) == [(prefix, "")]
    ensures v.JArray? ==>
      (Flatten(v, prefix) == [(prefix, Join(seq(|v.items|, k requires 0 <= k < |v.items| => ItemText(v.items[k])), ", "))])
    ensures v.JString? ==> Flatten(v, prefix) == [(prefix, v.s)]
    ensures v.JNumber? ==> Flatten(v, prefix) == [(prefix, v.repr)]
    ensures v.JBool? ==> Flatten(v, prefix) == [(prefix, if v.b then "true" else "false")]
  {
    if v.JString? {
      QuotesStripped(v.s);
    } else if v.JNumber? {
      TrimStartUnquoted(v.repr);
      TrimEndUnquoted(v.repr);
    } else if v.JBool? {
      if v.b {
        TrimStartUnquoted("true");
        TrimEndUnquoted("true");
      } else {
        TrimStartUnquoted("false");
        TrimEndUnquoted("false");
      }
    }
  }

  lemma FlattenString(s: string, prefix: string)
    requires Unquoted(s)
    ensures Flatten(JString(s), prefix) == [(prefix, s)]
  {
    QuotesStripped(s);
  }

  lemma FlattenNumber(repr: string, prefix: string)
    requires Unquoted(repr)
    ensures Flatten(JNumber(repr), prefix) == [(prefix, repr)]
  {
    TrimStartUnquoted(repr);
    TrimEndUnquoted(repr);
  }

  lemma TrimStartUnquoted(s: string)
    requires Unquoted(s)
    ensures TrimStart(s, '"') == s
  {
  }

  lemma TrimEndUnquoted(s: string)
    requires Unquoted(s)
    ensures TrimEnd(s, '"') == s
  {
  }

  lemma {:induction false} FlattenFromShift(ms: seq<(string, Json)>, i: nat, j: nat, prefix: string)
    requires j <= i <= |ms|
    ensures FlattenFrom(ms, i, prefix) == FlattenFrom(ms[j..], i - j, prefix)
    decreases |ms| - i
  {
    var t := ms[j..];
    if i < |ms| {
      assert t[i - j] == ms[i];
      var head := Flatten(ms[i].1, ChildPrefix(prefix, ms[i].0));
      assert FlattenFrom(ms, i, prefix) == head + FlattenFrom(ms, i + 1, prefix);
      assert FlattenFrom(t, i - j, prefix) == head + FlattenFrom(t, i - j + 1, prefix);
      FlattenFromShift(ms, i + 1, j, prefix);
    } else {
      assert |t| == i - j;
    }
  }

  /**
   * An object flattens member by member, in order, each member under its
   * child prefix; an empty object yields nothing.
   */
  lemma FlattenObject(ms: seq<(string, Json)>, prefix: string)
    ensures ms == [] ==> Flatten(JObject(ms), prefix) == []
    ensures ms != [] ==>
      (Flatten(JObject(ms), prefix) == Flatten(ms[0].1, ChildPrefix(prefix, ms[0].0)) + Flatten(JObject(ms[1..]), prefix))
  {
    if ms != [] {
      FlattenFromShift(ms, 1, 1, prefix);
    }
  }

  /** Under a non-empty prefix every emitted key starts with that prefix. */
  lemma {:induction false} FlattenKeysPrefixed(v: Json, prefix: string)
    requires prefix != []
    ensures forall k :: 0 <= k < |Flatten(v, prefix)| ==> prefix <= Flatten(v, prefix)[k].0
    decreases v, 1, 0
  {
    if v.JObject? {
      FlattenFromKeysPrefixed(v.members, 0, prefix);
    }
  }

  lemma {:induction false} FlattenFromKeysPrefixed(ms: seq<(string, Json)>, i: nat, prefix: string)
    requires prefix != [] && i <= |ms|
    ensures forall k :: 0 <= k < |FlattenFrom(ms, i, prefix)| ==> prefix <= FlattenFrom(ms, i, prefix)[k].0
    decreases JObject(ms), 0, |ms| - i
  {
    if i < |ms| {
      var child := ChildPrefix(prefix, ms[i].0);
      assert prefix <= child;
      FlattenKeysPrefixed(ms[i].1, child);
      FlattenFromKeysPrefixed(ms, i + 1, prefix);
      var a: seq<(string, string)> := Flatten(ms[i].1, child);
      var b: seq<(string, string)> := FlattenFrom(ms, i + 1, prefix);
      forall k | 0 <= k < |a + b| ensures prefix <= (a + b)[k].0 {
        if k < |a| {
          assert (a + b)[k] == a[k];
          PrefixTrans(prefix, child, a[k].0);
        } else {
          assert (a + b)[k] == b[k - |a|];
        }
      }
    }
  }

  lemma PrefixTrans(a: string, b: string, c: string)
    requires a <= b && b <= c
    ensures a <= c
  {
    assert c[..|a|] == b[..|a|];
  }

  /** Flattening yields one pair per leaf that is not an object. */
  lemma {:induction false} FlattenCount(v: Json, prefix: string)
    ensures |Flatten(v, prefix)| == Leaves(v)
    decreases v, 1, 0
  {
    if v.JObject? {
      FlattenFromCount(v.members, 0, prefix);
    }
  }

  lemma {:induction false} FlattenFromCount(ms: seq<(string, Json)>, i: nat, prefix: string)
    requires i <= |ms|
    ensures |FlattenFrom(ms, i, prefix)| == LeavesFrom(ms, i)
    decreases JObject(ms), 0, |ms| - i
  {
    if i < |ms| {
      FlattenCount(ms[i].1, ChildPrefix(prefix, ms[i].0));
      FlattenFromCount(ms, i + 1, prefix);
    }
  }

  /** The nested `user` / `profile` example of the documentation. */
  lemma FlattenDocExample()
    ensures Flatten(
      JObject([("user", JObject([
        ("name", JString("Alice")),
        ("profile", JObject([("age", JNumber("30")), ("location", JString("NYC"))]))]))]),
      "")
      == [("user.name", "Alice"), ("user.profile.age", "30"), ("user.profile.location", "NYC")]
  {
    FlattenNested("Alice", "30", "NYC");
  }

  /**
   * The shape of that example for any unquoted values: nested keys are
   * joined with dots, members keep their order.
   */
  lemma FlattenNested(name: string, age: string, location: string)
    requires Unquoted(name) && Unquoted(age) && Unquoted(location)
    ensures Flatten(
      JObject([("user", JObject([
        ("name", JString(name)),
        ("profile", JObject([("age", JNumber(age)), ("location", JString(location))]))]))]),
      "")
      == [("user.name", name), ("user.profile.age", age), ("user.profile.location", location)]
  {
    var user := JObject([("name", JString(name)),
      ("profile", JObject([("age", JNumber(age)), ("location", JString(location))]))]);
    FlattenObject([("user", user)], "");
    assert [("user", user)][1..] == [];
    assert ChildPrefix("", "user") == "user";
    FlattenUser(name, age, location);
  }

  lemma FlattenUser(name: string, age: string, location: string)
    requires Unquoted(name) && Unquoted(age) && Unquoted(location)
    ensures Flatten(JObject([("name", JString(name)),
        ("profile", JObject([("age", JNumber(age)), ("location", JString(location))]))]), "user")
      == [("user.name", name), ("user.profile.age", age), ("user.profile.location", location)]
  {
    var profile := JObject([("age", JNumber(age)), ("location", JString(location))]);
    FlattenPair("name", JString(name), "profile", profile, "user");
    assert ChildPrefix("user", "name") == "user.name";
    assert ChildPrefix("user", "profile") == "user.profile";
    FlattenString(name, "user.name");
    FlattenProfile(age, location);
  }

  lemma FlattenProfile(age: string, location: string)
    requires Unquoted(age) && Unquoted(location)
    ensures Flatten(JObject([("age", JNumber(age)), ("location", JString(location))]), "user.profile")
      == [("user.profile.age", age), ("user.profile.location", location)]
  {
    FlattenPair("age", JNumber(age), "location", JString(location), "user.profile");
    assert ChildPrefix("user.profile", "age") == "user.profile.age";
    assert ChildPrefix("user.profile", "location") == "user.profile.location";
    FlattenNumber(age, "user.profile.age");
    FlattenString(location, "user.profile.location");
  }

  /** An object of two members flattens to the first member's pairs, then the second's. */
  lemma FlattenPair(k1: string, v1: Json, k2: string, v2: Json, prefix: string)
    ensures Flatten(JObject([(k1, v1), (k2, v2)]), prefix)
      == Flatten(v1, ChildPrefix(prefix, k1)) + Flatten(v2, ChildPrefix(prefix, k2))
  {
    var ms := [(k1, v1), (k2, v2)];
    FlattenObject(ms, prefix);
    FlattenObject(ms[1..], prefix);
    assert ms[1..][0] == (k2, v2);
    assert ms[1..][1..] == [];
  }

}
