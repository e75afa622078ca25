/** The configuration loader (src/config/loader.ts): `deepMerge` over
    JavaScript values and the fallback to the built-in defaults. Values are
    what the YAML parser produces; an object is a map from its own keys. */
module ConfigLoader {
  import opened Wrappers
  import opened JsText

  /** A JavaScript value as produced by parsing YAML. */
  datatype Json =
    | JUndefined
    | JNull
    | JBool(b: bool)
    | JNum(n: real)
    | JStr(s: string)
    | JArr(items: seq<Json>)
    | JObj(fields: map<string, Json>)

  /** `typeof v === 'object'`: null, arrays and plain objects. */
  predicate IsObjectType(v: Json) {
    v.JNull? || v.JArr? || v.JObj?
  }

  /** The own index-keyed properties of an array-like sequence: index `i`
      under the key `String(i)`. */
  function IndexMap(items: seq<Json>): map<string, Json> {
    if items == [] then map[]
    else IndexMap(items[..|items| - 1])[NatToString(|items| - 1) := items[|items| - 1]]
  }

  /** The characters of a string as one-character strings. */
  function Chars(s: string): seq<Json> {
    seq(|s|, i requires 0 <= i < |s| => JStr([s[i]]))
  }

  /** `{ ...v }`: the own enumerable properties of `v` copied into a fresh
      object; spreading null, undefined, a number or a boolean gives `{}`. */
  function Spread(v: Json): map<string, Json> {
    match v
    case JObj(m) => m
    case JArr(items) => IndexMap(items)
    case JStr(s) => IndexMap(Chars(s))
    case _ => map[]
  }

  /** `Object.keys(b)` together with `b[key]`; `None` when `Object.keys`
      throws (null or undefined). */
  function Own(b: Json): Option<map<string, Json>> {
    if b.JNull? || b.JUndefined? then None else Some(Spread(b))
  }

  /** `a[key]`; `None` when reading a property of null or undefined throws.
      Inherited properties other than `length` are not modelled. */
  function Member(a: Json, key: string): Option<Json> {
    match a
    case JUndefined => None
    case JNull => None
    case JArr(items) =>
      if key == "length" then Some(JNum(|items| as real))
      else Some(if key in IndexMap(items) then IndexMap(items)[key] else JUndefined)
    case JStr(s) =>
      if key == "length" then Some(JNum(|s| as real))
      else Some(if key in IndexMap(Chars(s)) then IndexMap(Chars(s))[key] else JUndefined)
    case JObj(m) => Some(if key in m then m[key] else JUndefined)
    case _ => Some(JUndefined)
  }

  /** What one key of `b` does to the result. */
  datatype Step = Keep | Set(v: Json) | Throw

  /** The body of the loop for one key: a plain-object value merges into an
      object-typed value of `a`, any other defined value replaces, and
      undefined leaves the copy of `a` alone. */
  function KeyStep(a: Json, key: string, val: Json): Step
    decreases val, 1
  {
    if val.JObj? then
      match Member(a, key)
      case None => Throw
      case Some(prev) =>
        if IsObjectType(prev) then
          match Merge(prev, val.fields)
          case None => Throw
          case Some(m) => Set(JObj(m))
        else Set(val)
    else if val.JUndefined? then Keep
    else Set(val)
  }

  /** `deepMerge(a, b)` for an object `b` given by its own properties: the
      copy of `a` with every key of `b` applied, or `None` when some key
      throws. */
  function Merge(a: Json, b: map<string, Json>): Option<map<string, Json>>
    decreases JObj(b), 0
  {
    if exists k :: k in b && KeyStep(a, k, b[k]).Throw? then None
    else
      var base := Spread(a);
      Some(map k | k in base.Keys + b.Keys && (k in base || KeyStep(a, k, b[k]).Set?) ::
             if k in b && KeyStep(a, k, b[k]).Set? then KeyStep(a, k, b[k]).v else base[k])
  }

  /** `deepMerge(a, b)` for any parsed `b`. */
  function DeepMerge(a: Json, b: Json): Option<map<string, Json>> {
    match Own(b)
    case None => None
    case Some(bm) => Merge(a, bm)
  }

  /** A key that `b` lacks keeps the value of `a`, and appears in the result
      exactly when `a` has it. */
  lemma MergeAbsent(a: Json, b: map<string, Json>, k: string)
    requires Merge(a, b).Some? && k !in b
    ensures k in Merge(a, b).value <==> k in Spread(a)
    ensures k in Spread(a) ==> Merge(a, b).value[k] == Spread(a)[k]
  {
  }

  /** An undefined value in `b` keeps the value of `a` and adds no key. */
  lemma MergeUndefined(a: Json, b: map<string, Json>, k: string)
    requires Merge(a, b).Some? && k in b && b[k] == JUndefined
    ensures k in Merge(a, b).value <==> k in Spread(a)
    ensures k in Spread(a) ==> Merge(a, b).value[k] == Spread(a)[k]
  {
  }

  /** A plain-object value in `b` is merged into an object-typed value of
      `a`. */
  lemma MergeNested(a: Json, b: map<string, Json>, k: string)
    requires Merge(a, b).Some? && k in b && b[k].JObj?
    requires Member(a, k).Some? && IsObjectType(Member(a, k).value)
    ensures Merge(Member(a, k).value, b[k].fields).Some?
    ensures k in Merge(a, b).value
    ensures Merge(a, b).value[k] == JObj(Merge(Member(a, k).value, b[k].fields).value)
  {
    assert !KeyStep(a, k, b[k]).Throw?;
  }

  /** Every other defined value of `b`, arrays and null included, replaces
      the value of `a`. */
  lemma MergeReplaces(a: Json, b: map<string, Json>, k: string)
    requires Merge(a, b).Some? && k in b && b[k] != JUndefined
    requires !(b[k].JObj? && Member(a, k).Some? && IsObjectType(Member(a, k).value))
    ensures k in Merge(a, b).value && Merge(a, b).value[k] == b[k]
  {
    assert !KeyStep(a, k, b[k]).Throw?;
  }

  /** The result has exactly the keys of `a` and the keys of `b` whose value
      is defined. */
  lemma MergeKeys(a: Json, b: map<string, Json>)
    requires Merge(a, b).Some?
    ensures Merge(a, b).value.Keys == Spread(a).Keys + set k | k in b && b[k] != JUndefined
  {
    var r := Merge(a, b).value;
    forall k | k in b && b[k] != JUndefined
      ensures k in r
    {
      assert !KeyStep(a, k, b[k]).Throw?;
    }
  }

  /** Merging nothing gives a copy of `a`. */
  lemma MergeEmpty(a: Json)
    ensures Merge(a, map[]) == Some(Spread(a))
  {
    var none: map<string, Json> := map[];
    assert Merge(a, none).Some?;
    var r := Merge(a, none).value;
    assert r.Keys == Spread(a).Keys;
    assert forall k | k in r :: r[k] == Spread(a)[k];
    assert r == Spread(a);
  }

  /** Without plain-object values in `b` the merge never throws. */
  lemma MergeFlat(a: Json, b: map<string, Json>)
    requires forall k :: k in b ==> !b[k].JObj?
    ensures Merge(a, b).Some?
  {
  }

  /** Merging an object with itself gives it back. */
  lemma {:induction false} MergeSelf(m: map<string, Json>)
    ensures Merge(JObj(m), m) == Some(m)
    decreases JObj(m)
  {
    forall k | k in m
      ensures KeyStep(JObj(m), k, m[k]) == (if m[k].JUndefined? then Keep else Set(m[k]))
    {
      if m[k].JObj? {
        MergeSelf(m[k].fields);
      }
    }
    var r := Merge(JObj(m), m).value;
    assert r.Keys == m.Keys;
    assert forall k | k in r :: r[k] == m[k];
    assert r == m;
  }

  /** A nested object in `b` over a null value of `a` throws, because the
      recursive call reads a property of null. */
  lemma MergeIntoNullThrows(k: string, k2: string)
    ensures var b := map[k := JObj(map[k2 := JObj(map[])])];
      Merge(JObj(map[k := JNull]), b) == None
  {
    var inner := map[k2 := JObj(map[])];
    var b := map[k := JObj(inner)];
    assert KeyStep(JNull, k2, inner[k2]) == Throw;
    assert Merge(JNull, inner) == None;
    assert KeyStep(JObj(map[k := JNull]), k, b[k]) == Throw;
  }

  /** `DEFAULT_CONFIG` (src/config/defaults.ts). */
  const DEFAULT_MODEL: map<string, Json> := map[
    "provider" := JStr("openai"),
    "base_url" := JStr("https://api.openai.com"),
    "model" := JStr("gpt-4o"),
    "api_key_env" := JStr("OPENAI_API_KEY"),
    "temperature" := JNum(0.3)]

  const DEFAULT_AGENT: map<string, Json> := map["max_steps" := JNum(50.0)]

  const DEFAULT_CONFIG: Json := JObj(map["model" := JObj(DEFAULT_MODEL), "agent" := JObj(DEFAULT_AGENT)])

  /** The state of the configuration file: absent, unreadable or not valid
      YAML, or parsed. */
  datatype ConfigFile = Missing | Unreadable | Parsed(doc: Json)

  /** `loadConfig()` */
  function LoadConfig(file: ConfigFile): Json {
    match file
    case Missing => DEFAULT_CONFIG
    case Unreadable => DEFAULT_CONFIG
    case Parsed(doc) =>
      match DeepMerge(DEFAULT_CONFIG, doc)
      case None => DEFAULT_CONFIG
      case Some(m) => JObj(m)
  }

  /** The defaults are used when the file is missing, unreadable, or when
      merging throws (an empty document parses to null); otherwise the
      result is the merge. */
  lemma LoadConfigFallback(file: ConfigFile)
    ensures file.Missing? || file.Unreadable? ==> LoadConfig(file) == DEFAULT_CONFIG
    ensures file == Parsed(JNull) || file == Parsed(JUndefined) ==> LoadConfig(file) == DEFAULT_CONFIG
    ensures file.Parsed? && DeepMerge(DEFAULT_CONFIG, file.doc).Some? ==>
      LoadConfig(file) == JObj(DeepMerge(DEFAULT_CONFIG, file.doc).value)
    ensures file.Parsed? && DeepMerge(DEFAULT_CONFIG, file.doc).None? ==> LoadConfig(file) == DEFAULT_CONFIG
  {
  }

  /** Merging a single key that does not throw sets that key. */
  lemma MergeSingleKey(a: Json, k: string, v: Json)
    requires KeyStep(a, k, v).Set?
    ensures Merge(a, map[k := v]) == Some(Spread(a)[k := KeyStep(a, k, v).v])
  {
    var b := map[k := v];
    assert b.Keys == {k};
    var r := Merge(a, b).value;
    var e := Spread(a)[k := KeyStep(a, k, v).v];
    assert r.Keys == e.Keys;
    assert r == e;
  }

  /** Setting one key to a value that is not a plain object. */
  lemma MergeOneValue(a: map<string, Json>, k: string, v: Json)
    requires !v.JObj? && v != JUndefined
    ensures Merge(JObj(a), map[k := v]) == Some(a[k := v])
  {
    assert KeyStep(JObj(a), k, v) == Set(v);
    MergeSingleKey(JObj(a), k, v);
  }

  /** Merging one key whose value is a plain object into an object-valued
      key. */
  lemma MergeOneObject(a: map<string, Json>, k: string, inner: map<string, Json>, merged: map<string, Json>)
    requires k in a && a[k].JObj? && Merge(a[k], inner) == Some(merged)
    ensures Merge(JObj(a), map[k := JObj(inner)]) == Some(a[k := JObj(merged)])
  {
    assert Member(JObj(a), k) == Some(a[k]);
    assert KeyStep(JObj(a), k, JObj(inner)) == Set(JObj(merged));
    MergeSingleKey(JObj(a), k, JObj(inner));
  }

  /** A document that sets one field of one object-valued section changes
      that field and nothing else. */
  lemma MergeOneField(cfg: map<string, Json>, section: string, field: string, v: string)
    requires section in cfg && cfg[section].JObj?
    ensures var doc := JObj(map[section := JObj(map[field := JStr(v)])]);
      DeepMerge(JObj(cfg), doc) == Some(cfg[section := JObj(cfg[section].fields[field := JStr(v)])])
  {
    var doc := JObj(map[section := JObj(map[field := JStr(v)])]);
    MergeOneValue(cfg[section].fields, field, JStr(v));
    MergeOneObject(cfg, section, map[field := JStr(v)], cfg[section].fields[field := JStr(v)]);
    assert Own(doc) == Some(doc.fields);
  }

  /** A file that sets one field of the model section keeps every other
      default. */
  lemma LoadConfigOneField(field: string, v: string)
    ensures var doc := JObj(map["model" := JObj(map[field := JStr(v)])]);
      LoadConfig(Parsed(doc)) == JObj(DEFAULT_CONFIG.fields["model" := JObj(DEFAULT_MODEL[field := JStr(v)])])
  {
    MergeOneField(DEFAULT_CONFIG.fields, "model", field, v);
  }
}
