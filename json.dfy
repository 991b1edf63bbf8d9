/**
 * The JSON side of the configuration file format: Config::loadJSON, parseJSON and
 * getJSONValue, which walk a parsed document into the value map, and the JSON branch of
 * Config::serialize, which builds a document from the value map. The document is picojson's
 * value tree; turning text into a tree and back is picojson's and is not modelled here.
 */
module JsonFormat {
  import opened Wrappers
  import opened CNumbers
  import opened Values
  import opened Options
  import opened Logging
  import opened Schema
  import opened Store
  import CText
  import KeyOrder

  /** picojson::value. An object is a std::map, so its members are visited in key order. */
  datatype Json =
    | JNull
    | JBool(b: bool)
    | JNumber(d: Double)
    | JString(s: string)
    | JArray(items: seq<Json>)
    | JObject(members: map<string, Json>)

  /** What a loading call leaves: the value map, the records it reported, and its status. */
  datatype Loaded = Loaded(store: Store, ok: bool)

  // ---- loading ----

  /**
   * The value getJSONValue stores for a scalar under `flag`, or None when it refuses it. A
   * registered option takes only a scalar of its own type (a number for INT, truncated to an
   * int); an unknown flag takes any number, boolean or string.
   */
  function JsonScalar(options: Schema, v: Json, flag: string, lib: CLib): (r: Maybe<Value>)
    ensures r.Some? ==> !r.value.Unknown?
    ensures r.Some? && flag in options ==> r.value.Type() == options[flag].Type()
    ensures r.Some? && flag !in options ==> !r.value.Int?
    ensures v.JNull? || v.JArray? || v.JObject? ==> r.None?
  {
    if flag in options then
      match (options[flag].Type(), v)
      case (INT, JNumber(d)) => Some(Int(lib.doubleToInt(d)))
      case (NUMBER, JNumber(d)) => Some(Number(d))
      case (BOOL, JBool(b)) => Some(Bool(b))
      case (STRING, JString(s)) => Some(Str(s))
      case _ => None
    else
      match v
      case JNumber(d) => Some(Number(d))
      case JBool(b) => Some(Bool(b))
      case JString(s) => Some(Str(s))
      case _ => None
  }

  /** Config::getJSONValue: stores the scalar, or reports a WARNING and fails. */
  function GetJsonValue(options: Schema, values: map<string, Value>, v: Json, flag: string, lib: CLib): (r: Loaded)
    ensures r.ok <==> JsonScalar(options, v, flag, lib).Some?
    ensures r.ok ==> r.store == Store(values[flag := JsonScalar(options, v, flag, lib).value], [])
    ensures !r.ok ==> r.store.values == values && |r.store.records| == 1 && r.store.records[0].level == WARNING
  {
    match JsonScalar(options, v, flag, lib)
    case Some(x) => Loaded(Store(values[flag := x], []), true)
    case None =>
      var msg := if flag in options then "Unable to parse the option from config file, flag = " + flag
                 else "Unable to parse the option from config file.";
      Loaded(Store(values, [LogRecord(WARNING, flag, msg)]), false)
  }

  /** The flag of an object member: the member's key, after the object's flag and a '.'. */
  function ChildFlag(flag: string, key: string): (r: string)
    ensures flag == "" ==> r == key
    ensures flag != "" ==> r == flag + "." + key
  {
    flag + (if flag == "" then "" else ".") + key
  }

  /**
   * Config::parseJSON(v, flag): a scalar goes to getJSONValue, an object's members are parsed
   * in key order under their child flags, an array fails silently and null fails with a
   * WARNING. The records are the ones this call reports.
   */
  function JsonLoad(options: Schema, values: map<string, Value>, v: Json, flag: string, lib: CLib): (r: Loaded)
    ensures values.Keys <= r.store.values.Keys
    ensures Typed(options, values) ==> Typed(options, r.store.values)
    decreases v, 1
  {
    match v
    case JNumber(_) => GetJsonValue(options, values, v, flag, lib)
    case JBool(_) => GetJsonValue(options, values, v, flag, lib)
    case JString(_) => GetJsonValue(options, values, v, flag, lib)
    case JObject(m) => MembersFrom(options, Loaded(Store(values, []), true), v, m.Keys, flag, lib)
    case JArray(_) => Loaded(Store(values, []), false)
    case JNull => Loaded(Store(values, [LogRecord(WARNING, flag, "Unable to parse JSON, abort, flag = " + flag)]), false)
  }

  /**
   * The loop of parseJSON over the members under `keys`, from the state `acc`:
   * `success = success && parseJSON(member)`, so once a member has failed the rest are not
   * parsed at all.
   */
  function MembersFrom(options: Schema, acc: Loaded, owner: Json, keys: set<string>, flag: string, lib: CLib): (r: Loaded)
    requires owner.JObject? && keys <= owner.members.Keys
    ensures acc.store.values.Keys <= r.store.values.Keys
    ensures Typed(options, acc.store.values) ==> Typed(options, r.store.values)
    decreases owner, 0, keys
  {
    if keys == {} then acc
    else
      var k := KeyOrder.Least(keys);
      if acc.ok then
        var c := JsonLoad(options, acc.store.values, owner.members[k], ChildFlag(flag, k), lib);
        MembersFrom(options, Loaded(Store(c.store.values, acc.store.records + c.store.records), c.ok), owner, keys - {k}, flag, lib)
      else MembersFrom(options, acc, owner, keys - {k}, flag, lib)
  }

  /** Once a member has failed, the remaining members change nothing and report nothing. */
  lemma {:induction false} MembersStopAtFailure(options: Schema, acc: Loaded, owner: Json, keys: set<string>, flag: string, lib: CLib)
    requires owner.JObject? && keys <= owner.members.Keys
    requires !acc.ok
    ensures MembersFrom(options, acc, owner, keys, flag, lib) == acc
    decreases keys
  {
    if keys != {} {
      MembersStopAtFailure(options, acc, owner, keys - {KeyOrder.Least(keys)}, flag, lib);
    }
  }

  /** The empty object loads successfully and changes nothing. */
  lemma EmptyObjectLoads(options: Schema, values: map<string, Value>, flag: string, lib: CLib)
    ensures JsonLoad(options, values, JObject(map[]), flag, lib) == Loaded(Store(values, []), true)
  {
  }

  /**
   * Loading a document: Config::loadJSON hands the parsed tree to parseJSON with the empty
   * flag. Values are only added or replaced; a top-level array fails silently and a top-level
   * null fails with one WARNING, both changing nothing.
   */
  function JsonLoadDocument(options: Schema, values: map<string, Value>, doc: Json, lib: CLib): (r: Loaded)
    ensures values.Keys <= r.store.values.Keys
    ensures Typed(options, values) ==> Typed(options, r.store.values)
    ensures doc.JArray? ==> r == Loaded(Store(values, []), false)
    ensures doc.JNull? ==> !r.ok && r.store.values == values && |r.store.records| == 1 && r.store.records[0].level == WARNING
  {
    JsonLoad(options, values, doc, "", lib)
  }

  // ---- exporting ----

  /** A NUMBER that picojson's value(double) constructor refuses with std::overflow_error. */
  predicate Overflows(v: Value)
  {
    v.Number? && NonFinite(v.d)
  }

  /**
   * What serialize makes of a Value for picojson: nothing to assign (UNKNOWN), a throw
   * (a NaN or infinite NUMBER), or the picojson value to assign.
   */
  datatype Conversion = NoJson | Overflow | Converted(json: Json)

  /**
   * The conversion of one value. An INT goes through static_cast<double>, whose result is
   * always finite, so only a NUMBER can throw.
   */
  function JsonOf(v: Value, lib: CLib): (r: Conversion)
    ensures r.NoJson? <==> v.Unknown?
    ensures r.Overflow? <==> Overflows(v)
    ensures r.Converted? ==> r.json.JNumber? || r.json.JBool? || r.json.JString?
  {
    match v
    case Unknown => NoJson
    case Int(i) => Converted(JNumber(lib.intToDouble(i)))
    case Number(d) => if NonFinite(d) then Overflow else Converted(JNumber(d))
    case Bool(b) => Converted(JBool(b))
    case Str(_) => Converted(JString(v.GetString()))
  }

  /**
   * The nested assignment of serialize for a flag of several '.'-separated tokens, into the
   * members `tree` of the current object: missing objects on the way are created, the last
   * token is assigned (when the value has a JSON form), and picojson's get<object>() throws
   * (None) when it is called on something that is not an object. It is called on the object
   * reached by each token but the last, and on the object holding the last token only when
   * there is a leaf to assign there. A leaf that cannot be converted throws where it is
   * converted, at the last token, before anything is assigned there.
   */
  function InsertPath(tree: map<string, Json>, path: seq<string>, leaf: Conversion): (r: Maybe<map<string, Json>>)
    requires |path| >= 1
    ensures r.Some? ==> r.value.Keys == tree.Keys + (if |path| > 1 || leaf.Converted? then {path[0]} else {})
    ensures leaf.Overflow? ==> r.None?
    ensures (|path| == 1 && !leaf.Overflow?) || (|path| == 2 && leaf.NoJson?) ==> r.Some?
    decreases |path|
  {
    if |path| == 1 then
      match leaf
      case Converted(j) => Some(tree[path[0] := j])
      case NoJson => Some(tree)
      case Overflow => None
    else
      var child := if path[0] in tree then tree[path[0]] else JObject(map[]);
      if |path| == 2 && leaf.NoJson? then Some(tree[path[0] := child])
      else if !child.JObject? then None
      else
        match InsertPath(child.members, path[1..], leaf)
        case None => None
        case Some(m) => Some(tree[path[0] := JObject(m)])
  }

  /**
   * serialize's handling of one value: nested for a dotted flag, otherwise set only if absent.
   * Members are only added, and only under the flag's first token; an undotted flag never
   * replaces a member already written, and throws only for a NaN or infinite NUMBER.
   */
  function ExportStep(root: map<string, Json>, flag: string, v: Value, lib: CLib): (r: Maybe<map<string, Json>>)
    ensures r.Some? ==> root.Keys <= r.value.Keys <= root.Keys + {CText.Split(flag, '.')[0]}
    ensures Undotted(flag) && !Overflows(v) ==> r.Some?
    ensures Undotted(flag) && flag in root ==> r == Some(root)
  {
    var path := CText.Split(flag, '.');
    if |path| > 1 then InsertPath(root, path, JsonOf(v, lib))
    else if flag in root then Some(root)
    else match JsonOf(v, lib)
      case Converted(j) => Some(root[flag := j])
      case NoJson => Some(root)
      case Overflow => None
  }

  /**
   * A NaN or infinite NUMBER throws, unless its flag is undotted and already written (then
   * the value is never converted).
   */
  lemma ExportStepThrows(root: map<string, Json>, flag: string, v: Value, lib: CLib)
    requires Overflows(v)
    requires !Undotted(flag) || flag !in root
    ensures ExportStep(root, flag, v, lib).None?
  {
    CText.SplitSeparated(flag, '.');
  }

  /** The values under `keys`, in key order, added to the object members `root`. */
  function TreeFrom(root: map<string, Json>, values: map<string, Value>, keys: set<string>, lib: CLib): (r: Maybe<map<string, Json>>)
    requires keys <= values.Keys
    ensures r.Some? ==> root.Keys <= r.value.Keys
    ensures (forall k :: k in keys ==> Undotted(k) && !Overflows(values[k])) ==> r.Some?
    decreases keys
  {
    if keys == {} then Some(root)
    else
      var k := KeyOrder.Least(keys);
      match ExportStep(root, k, values[k], lib)
      case None => None
      case Some(next) => TreeFrom(next, values, keys - {k}, lib)
  }

  /**
   * One NaN or infinite NUMBER among the values makes serialize throw, whatever the other
   * flags are: its flag is reached in key order while no earlier flag has written it, since
   * an earlier flag writes only its own first token, which comes no later than itself.
   */
  lemma {:induction false} TreeThrows(root: map<string, Json>, values: map<string, Value>, keys: set<string>, lib: CLib)
    requires keys <= values.Keys
    requires forall k :: k in keys && Undotted(k) ==> k !in root
    requires exists k :: k in keys && Overflows(values[k])
    ensures TreeFrom(root, values, keys, lib).None?
    decreases keys
  {
    var j := KeyOrder.Least(keys);
    var step := ExportStep(root, j, values[j], lib);
    if Overflows(values[j]) {
      ExportStepThrows(root, j, values[j], lib);
    } else if step.Some? {
      var next := step.value;
      var first := CText.Split(j, '.')[0];
      forall k | k in keys - {j} && Undotted(k)
        ensures k !in next
      {
        if k == first {
          CText.SplitFirstPrefix(j, '.');
          KeyOrder.PrefixBelow(k, j);
          KeyOrder.BelowAntisymmetric(j, k);
        }
      }
      var o :| o in keys && Overflows(values[o]);
      assert o in keys - {j};
      TreeThrows(next, values, keys - {j}, lib);
    }
  }

  /**
   * The JSON branch of Config::serialize: the document, or None where picojson throws. The
   * document is an object, and it is always produced when no flag has a '.' and no value is a
   * NaN or infinite NUMBER.
   */
  function ExportTree(values: map<string, Value>, lib: CLib): (r: Maybe<Json>)
    ensures r.Some? ==> r.value.JObject?
    ensures (forall k :: k in values ==> Undotted(k) && !Overflows(values[k])) ==> r.Some?
  {
    match TreeFrom(map[], values, values.Keys, lib)
    case None => None
    case Some(m) => Some(JObject(m))
  }

  /** serialize throws as soon as one value is a NaN or infinite NUMBER. */
  lemma ExportTreeThrows(values: map<string, Value>, lib: CLib)
    requires exists k :: k in values && Overflows(values[k])
    ensures ExportTree(values, lib) == None
  {
    TreeThrows(map[], values, values.Keys, lib);
  }

  /** A flag that is its own single '.'-separated token. */
  predicate Undotted(flag: string)
  {
    '.' !in flag
  }

  /** The members written for undotted flags: one per value that has a JSON form. */
  function FlatMembers(values: map<string, Value>, keys: set<string>, lib: CLib): (m: map<string, Json>)
    requires keys <= values.Keys
  {
    map k | k in keys && JsonOf(values[k], lib).Converted? :: JsonOf(values[k], lib).json
  }

  /**
   * With undotted flags and no NaN or infinite NUMBER, serialize never throws and writes each
   * value under its own flag.
   */
  lemma {:induction false} ExportFlat(root: map<string, Json>, values: map<string, Value>, keys: set<string>, lib: CLib)
    requires keys <= values.Keys
    requires forall k :: k in keys ==> Undotted(k) && k !in root && !Overflows(values[k])
    ensures TreeFrom(root, values, keys, lib) == Some(root + FlatMembers(values, keys, lib))
    decreases keys
  {
    if keys != {} {
      var k := KeyOrder.Least(keys);
      var next := FlatStep(root, values, k, lib);
      ExportStepFlat(root, values, k, lib);
      assert TreeFrom(root, values, keys, lib) == TreeFrom(next, values, keys - {k}, lib);
      ExportFlat(next, values, keys - {k}, lib);
      FlatMembersSplit(root, values, keys, k, lib);
    } else {
      assert FlatMembers(values, keys, lib) == map[];
      assert root + map[] == root;
    }
  }

  /** What serialize adds for one undotted flag that is not yet in the object. */
  function FlatStep(root: map<string, Json>, values: map<string, Value>, k: string, lib: CLib): map<string, Json>
    requires k in values
  {
    match JsonOf(values[k], lib)
    case Converted(j) => root[k := j]
    case _ => root
  }

  lemma ExportStepFlat(root: map<string, Json>, values: map<string, Value>, k: string, lib: CLib)
    requires k in values && Undotted(k) && k !in root && !Overflows(values[k])
    ensures ExportStep(root, k, values[k], lib) == Some(FlatStep(root, values, k, lib))
  {
    assert CText.Split(k, '.') == [k];
  }

  lemma FlatMembersSplit(root: map<string, Json>, values: map<string, Value>, keys: set<string>, k: string, lib: CLib)
    requires keys <= values.Keys && k in keys && k !in root
    ensures FlatStep(root, values, k, lib) + FlatMembers(values, keys - {k}, lib) == root + FlatMembers(values, keys, lib)
  {
    var lhs := FlatStep(root, values, k, lib) + FlatMembers(values, keys - {k}, lib);
    var rhs := root + FlatMembers(values, keys, lib);
    assert lhs.Keys == rhs.Keys;
    forall j | j in lhs.Keys
      ensures lhs[j] == rhs[j]
    {
    }
  }

  /** A flag and one under it: "a" is written first, and "a.b" then needs "a" to be an object. */
  lemma ExportThrowsUnderScalar(lib: CLib)
    ensures ExportTree(map["a" := Int(1), "a.b" := Int(2)], lib) == None
  {
    var values := map["a" := Int(1), "a.b" := Int(2)];
    assert values.Keys == {"a", "a.b"};
    assert KeyOrder.Below("a", "a.b");
    KeyOrder.BelowReflexive("a");
    assert KeyOrder.IsLeast("a", values.Keys);
    KeyOrder.LeastUnique(values.Keys);
    assert KeyOrder.Least(values.Keys) == "a";
    assert values.Keys - {"a"} == {"a.b"};
    KeyOrder.BelowReflexive("a.b");
    assert KeyOrder.IsLeast("a.b", {"a.b"});
    KeyOrder.LeastUnique({"a.b"});
    assert KeyOrder.Least({"a.b"}) == "a.b";
    var root := map["a" := JNumber(lib.intToDouble(1))];
    assert CText.Split("a", '.') == ["a"];
    assert ExportStep(map[], "a", Int(1), lib) == Some(root);
    assert TreeFrom(map[], values, values.Keys, lib) == TreeFrom(root, values, {"a.b"}, lib);
    DottedUnderScalar(root, Int(2), lib);
    assert TreeFrom(root, values, {"a.b"}, lib) == None;
  }

  /** An UNKNOWN value under "a.b" does not throw, and the scalar written for "a" stays. */
  lemma ExportUnknownUnderScalar(lib: CLib)
    ensures ExportTree(map["a" := Int(1), "a.b" := Unknown], lib) == Some(JObject(map["a" := JNumber(lib.intToDouble(1))]))
  {
    var values := map["a" := Int(1), "a.b" := Unknown];
    assert values.Keys == {"a", "a.b"};
    assert KeyOrder.Below("a", "a.b");
    KeyOrder.BelowReflexive("a");
    assert KeyOrder.IsLeast("a", values.Keys);
    KeyOrder.LeastUnique(values.Keys);
    assert values.Keys - {"a"} == {"a.b"};
    KeyOrder.BelowReflexive("a.b");
    assert KeyOrder.IsLeast("a.b", {"a.b"});
    KeyOrder.LeastUnique({"a.b"});
    var root := map["a" := JNumber(lib.intToDouble(1))];
    assert CText.Split("a", '.') == ["a"];
    assert ExportStep(map[], "a", Int(1), lib) == Some(root);
    assert TreeFrom(map[], values, values.Keys, lib) == TreeFrom(root, values, {"a.b"}, lib);
    DottedUnknownLeaf(root, lib);
    assert {"a.b"} - {"a.b"} == {};
    assert TreeFrom(root, values, {"a.b"}, lib) == Some(root);
  }

  /** A value with a JSON form under "a.b" needs the member "a" to be an object. */
  lemma DottedUnderScalar(root: map<string, Json>, v: Value, lib: CLib)
    requires "a" in root && !root["a"].JObject?
    requires !v.Unknown?
    ensures ExportStep(root, "a.b", v, lib) == None
  {
    SplitAB();
  }

  /**
   * An UNKNOWN value under "a.b" assigns nothing, so get<object>() is never called on "a":
   * a scalar there is kept, and a missing "a" becomes an empty object.
   */
  lemma DottedUnknownLeaf(root: map<string, Json>, lib: CLib)
    ensures "a" in root ==> ExportStep(root, "a.b", Unknown, lib) == Some(root)
    ensures "a" !in root ==> ExportStep(root, "a.b", Unknown, lib) == Some(root["a" := JObject(map[])])
  {
    SplitAB();
    if "a" in root {
      assert root["a" := root["a"]] == root;
    }
  }

  lemma SplitAB()
    ensures CText.Split("a.b", '.') == ["a", "b"]
  {
    CText.SplitAfter("a", '.', "b");
    assert CText.Split("b", '.') == ["b"];
    assert "a" + ['.'] + "b" == "a.b";
  }

  // ---- the round trip ----

  /** A value that a JSON export and load under `flag` gives back unchanged. */
  predicate JsonRestorable(options: Schema, flag: string, v: Value)
  {
    match v
    case Unknown => false
    case Int(_) => flag in options && options[flag].Type() == INT
    case Number(d) => !NonFinite(d) && (flag !in options || options[flag].Type() == NUMBER)
    case Bool(_) => flag !in options || options[flag].Type() == BOOL
    case Str(s) => '\0' !in s && (flag !in options || options[flag].Type() == STRING)
  }

  lemma ScalarReadsBack(options: Schema, flag: string, v: Value, lib: CLib)
    requires forall i :: lib.doubleToInt(lib.intToDouble(i)) == i
    requires JsonRestorable(options, flag, v)
    ensures JsonOf(v, lib).Converted? && JsonScalar(options, JsonOf(v, lib).json, flag, lib) == Some(v)
  {
    match v
    case Int(i) =>
      assert JsonOf(v, lib) == Converted(JNumber(lib.intToDouble(i)));
      assert lib.doubleToInt(lib.intToDouble(i)) == i;
    case Number(d) =>
      assert JsonOf(v, lib) == Converted(JNumber(d));
    case Bool(b) =>
      assert JsonOf(v, lib) == Converted(JBool(b));
    case Str(t) =>
      assert JsonOf(v, lib) == Converted(JString(t));
  }

  /** Members that are all accepted scalars load in turn, each under its own key. */
  lemma {:induction false} LoadFlat(options: Schema, acc: Loaded, owner: Json, keys: set<string>, lib: CLib)
    requires owner.JObject? && keys <= owner.members.Keys
    requires acc.ok
    requires forall k :: k in keys ==> JsonScalar(options, owner.members[k], k, lib).Some?
    ensures var r := MembersFrom(options, acc, owner, keys, "", lib);
      && r.ok && r.store.records == acc.store.records
      && (forall k :: k in keys ==> k in r.store.values && r.store.values[k] == JsonScalar(options, owner.members[k], k, lib).value)
      && (forall k :: k !in keys ==> (k in r.store.values <==> k in acc.store.values) &&
                                      (k in acc.store.values ==> r.store.values[k] == acc.store.values[k]))
    decreases keys
  {
    if keys != {} {
      var k := KeyOrder.Least(keys);
      var child := owner.members[k];
      var x := JsonScalar(options, child, k, lib).value;
      assert ChildFlag("", k) == k;
      assert JsonLoad(options, acc.store.values, child, k, lib) == Loaded(Store(acc.store.values[k := x], []), true);
      var next := Loaded(Store(acc.store.values[k := x], acc.store.records + []), true);
      assert acc.store.records + [] == acc.store.records;
      LoadFlat(options, next, owner, keys - {k}, lib);
    }
  }

  /**
   * The JSON round trip, for undotted flags whose values all come back as themselves: the
   * exported document loads successfully, without a record, and gives every value back;
   * flags without a value keep what they had.
   */
  lemma JsonRoundTrip(options: Schema, base: map<string, Value>, values: map<string, Value>, lib: CLib)
    requires Standard(lib)
    requires forall k :: k in values ==> Undotted(k) && (values[k].Unknown? || JsonRestorable(options, k, values[k]))
    ensures ExportTree(values, lib).Some?
    ensures var r := JsonLoadDocument(options, base, ExportTree(values, lib).value, lib);
      && r.ok && r.store.records == []
      && (forall k :: k in values && !values[k].Unknown? ==> k in r.store.values && r.store.values[k] == values[k])
      && (forall k :: (k !in values || values[k].Unknown?) ==>
            (k in r.store.values <==> k in base) && (k in base ==> r.store.values[k] == base[k]))
  {
    ExportFlat(map[], values, values.Keys, lib);
    var m := FlatMembers(values, values.Keys, lib);
    assert map[] + m == m;
    var doc := JObject(m);
    forall k | k in m
      ensures JsonScalar(options, m[k], k, lib) == Some(values[k])
    {
      ScalarReadsBack(options, k, values[k], lib);
    }
    LoadFlat(options, Loaded(Store(base, []), true), doc, m.Keys, lib);
  }
}
