/** The JSON-Schema template compiler of azext_edge/edge/providers/adr/helpers.py:
    a Draft-07 schema becomes a config template or a metadata view. */
module SchemaTemplate {
  import opened Json
  import opened Text

  datatype Mode = Config | Schema

  /** Entries of the `_warnings` list; the discriminator label of a collapsed `oneOf` is not modelled. */
  datatype Warning =
    | RequiredNull(names: seq<string>)
    | Collapsed(path: string, variants: nat)

  /** `TooDeep` is Python's RecursionError, `Malformed` any error raised on a keyword of the wrong JSON type. */
  datatype Outcome<+T> = Done(value: T, warnings: seq<Warning>) | TooDeep | Malformed

  // ---------- null stripping ----------

  function StripNulls(j: Json): Json
    decreases j, 0
  {
    match j
    case Obj(fields) => Obj(StripFields(fields))
    case Arr(items) => Arr(StripItems(items))
    case _ => j
  }

  function StripFields(d: Dict): Dict
    decreases d, 1
  {
    if d == [] then []
    else if d[0].value == Null then StripFields(d[1..])
    else [Field(d[0].key, StripNulls(d[0].value))] + StripFields(d[1..])
  }

  function StripItems(s: seq<Json>): seq<Json>
    decreases s, 1
  {
    if s == [] then []
    else
      var rest := StripItems(s[1..]);
      if s[0] == Null || StripNulls(s[0]) == Obj([]) then rest else [StripNulls(s[0])] + rest
  }

  // ---------- $ref ----------

  const REF_PREFIX := "#/definitions/"

  function Walk(node: Json, parts: seq<string>): Option<Json>
    decreases |parts|
  {
    if parts == [] then Some(node)
    else if !node.Obj? then None
    else match Find(node.fields, parts[0])
      case None => None
      case Some(next) => Walk(next, parts[1..])
  }

  function ResolveRef(ref: Json, root: Json): Option<Dict> {
    if !ref.Str? || !(REF_PREFIX <= ref.s) then None
    else match Walk(root, SplitSlash(ref.s[2..]))
      case Some(Obj(fields)) => Some(fields)
      case _ => None
  }

  // ---------- oneOf and allOf ----------

  predicate IsNullVariant(v: Json) {
    v.Obj? && Find(v.fields, "type") == Some(Str("null"))
  }

  function NonNullVariants(vs: seq<Json>): seq<Json> {
    if vs == [] then []
    else if IsNullVariant(vs[0]) then NonNullVariants(vs[1..])
    else [vs[0]] + NonNullVariants(vs[1..])
  }

  function NonNullSubs(vs: seq<Json>): seq<Json> {
    if vs == [] then []
    else if vs[0].Obj? && !IsNullVariant(vs[0]) then [vs[0]] + NonNullSubs(vs[1..])
    else NonNullSubs(vs[1..])
  }

  /** Config-mode merge of the chosen `oneOf` variant over its parent. */
  function MergeVariant(merged: Dict, chosen: Dict): Option<Dict>
    decreases |chosen|
  {
    if chosen == [] then Some(merged)
    else
      var f := chosen[0];
      match Find(merged, "properties")
      case Some(mine) =>
        if f.key != "properties" then MergeVariant(Put(merged, f.key, f.value), chosen[1..])
        else if !mine.Obj? || !f.value.Obj? then None
        else MergeVariant(Put(merged, f.key, Obj(Update(mine.fields, f.value.fields))), chosen[1..])
      case None => MergeVariant(Put(merged, f.key, f.value), chosen[1..])
  }

  /** Config-mode merge of one `allOf` member: properties accumulate, any other key is first-wins. */
  function MergeSub(merged: Dict, sub: Dict): Option<Dict>
    decreases |sub|
  {
    if sub == [] then Some(merged)
    else
      var f := sub[0];
      if f.key == "properties" then
        var mine := match Find(merged, "properties") case Some(p) => p case None => Obj([]);
        if !mine.Obj? || !f.value.Obj? then None
        else MergeSub(Put(merged, f.key, Obj(Update(mine.fields, f.value.fields))), sub[1..])
      else MergeSub(if Has(merged, f.key) then merged else Put(merged, f.key, f.value), sub[1..])
  }

  function MergeSubs(merged: Dict, subs: seq<Json>): Option<Dict>
    decreases |subs|
  {
    if subs == [] then Some(merged)
    else if !subs[0].Obj? then None
    else match MergeSub(merged, subs[0].fields)
      case None => None
      case Some(next) => MergeSubs(next, subs[1..])
  }

  // ---------- what one call does with its schema ----------

  /** The branch `_slim_schema` takes: an immediate result, a tail call on a rewritten
      schema, or recursion into sub-schemas. */
  datatype Shape =
    | Verbatim(value: Json)
    | Again(schema: Json, collapsed: nat)
    | Union(parent: Dict, keyword: string, subs: seq<Json>)
    | Constant(value: Json)
    | Object(props: Dict, required: Json)
    | Array(items: Json, default: Json, meta: Dict)
    | Leaf(rawType: Json, default: Json, meta: Dict)
    | Broken

  function GetOr(d: Dict, k: string, otherwise: Json): Json {
    match Find(d, k) case Some(v) => v case None => otherwise
  }

  function FirstNonNull(ts: seq<Json>): Json {
    if ts == [] then Str("string") else if ts[0] == Str("null") then FirstNonNull(ts[1..]) else ts[0]
  }

  function RawType(d: Dict): Json {
    var t := GetOr(d, "type", Str("string"));
    if t.Arr? then FirstNonNull(t.items) else t
  }

  const CONSTRAINTS: seq<string> :=
    ["minimum", "maximum", "exclusiveMinimum", "exclusiveMaximum", "enum", "pattern"]

  function Constraints(d: Dict, keys: seq<string>): Dict {
    if keys == [] then []
    else match Find(d, keys[0])
      case Some(v) => [Field(keys[0], v)] + Constraints(d, keys[1..])
      case None => Constraints(d, keys[1..])
  }

  function OneOfShape(d: Dict, variants: seq<Json>, mode: Mode): Shape
    requires variants != []
  {
    var parent := Without(d, "oneOf");
    if mode.Schema? && |variants| > 1 then Union(parent, "oneOf", variants)
    else
      var kept := NonNullVariants(variants);
      var chosen := if kept != [] then kept[0] else variants[0];
      if !chosen.Obj? then Broken
      else match MergeVariant(parent, chosen.fields)
        case Some(merged) => Again(Obj(merged), if |kept| > 1 then |kept| else 0)
        case None => Broken
  }

  function AllOfShape(d: Dict, subs: seq<Json>, mode: Mode): Shape {
    var parent := Without(d, "allOf");
    if mode.Schema? then Union(parent, "allOf", subs)
    else match MergeSubs(parent, NonNullSubs(subs))
      case Some(merged) => Again(Obj(merged), 0)
      case None => Broken
  }

  function PlainShape(d: Dict): Shape {
    if Has(d, "const") then Constant(Find(d, "const").value)
    else
      var props := GetOr(d, "properties", Obj([]));
      var raw := RawType(d);
      var default := GetOr(d, "default", Null);
      if Truthy(props) then
        if props.Obj? then Object(props.fields, GetOr(d, "required", Arr([]))) else Broken
      else if raw == Str("array") && Has(d, "items") then
        Array(Find(d, "items").value, default, Constraints(d, CONSTRAINTS))
      else Leaf(raw, default, Constraints(d, CONSTRAINTS))
  }

  /** The branches after `$ref` handling. */
  function KeywordShape(d: Dict, mode: Mode): Shape {
    if Has(d, "oneOf") && Truthy(Find(d, "oneOf").value) then
      var variants := Find(d, "oneOf").value;
      if variants.Arr? then OneOfShape(d, variants.items, mode) else Broken
    else if Has(d, "allOf") then
      var subs := Find(d, "allOf").value;
      if subs.Arr? then AllOfShape(d, subs.items, mode) else Broken
    else PlainShape(d)
  }

  function ShapeOf(schema: Json, mode: Mode, root: Json): Shape {
    if !schema.Obj? then Verbatim(schema)
    else match Find(schema.fields, "$ref")
      case None => KeywordShape(schema.fields, mode)
      case Some(ref) =>
        var rest := Without(schema.fields, "$ref");
        match ResolveRef(ref, root)
        case Some(target) => Again(Obj(Update(target, rest)), 0)
        case None => if rest == [] then Verbatim(Null) else KeywordShape(rest, mode)
  }

  // ---------- the compiler ----------

  function JoinPath(path: string, field: string): string {
    if path != "" then path + "." + field else field
  }

  /** `set(required)` as the names it can match: a list, the characters of a string, or the
      keys of a dict; anything else, or an unhashable member, raises. */
  function RequiredNames(required: Json): Option<seq<string>> {
    match required
    case Arr(items) => if exists i :: 0 <= i < |items| && (items[i].Arr? || items[i].Obj?) then None
                       else Some(Strings(items))
    case Str(s) => Some(seq(|s|, i requires 0 <= i < |s| => [s[i]]))
    case Obj(fields) => Some(seq(|fields|, i requires 0 <= i < |fields| => fields[i].key))
    case _ => None
  }

  function Strings(items: seq<Json>): seq<string> {
    if items == [] then []
    else if items[0].Str? then [items[0].s] + Strings(items[1..])
    else Strings(items[1..])
  }

  /** The required fields of a rendered object whose template value is null, as paths. */
  function NullRequired(result: Dict, required: seq<string>, path: string): seq<string> {
    if result == [] then []
    else
      var rest := NullRequired(result[1..], required, path);
      if result[0].value == Null && result[0].key in required then [JoinPath(path, result[0].key)] + rest else rest
  }

  function Noted(nulls: seq<string>): seq<Warning> {
    if nulls == [] then [] else [RequiredNull(nulls)]
  }

  /** `_slim_schema` with `depth` nested calls of itself available. */
  function SlimSchema(depth: nat, schema: Json, mode: Mode, path: string, root: Json): Outcome<Json>
    decreases depth, 0
  {
    if depth == 0 then TooDeep else SlimShape(depth - 1, ShapeOf(schema, mode, root), mode, path, root)
  }

  function SlimShape(depth: nat, shape: Shape, mode: Mode, path: string, root: Json): Outcome<Json>
    decreases depth, 3
  {
    match shape
    case Verbatim(v) => Done(v, [])
    case Broken => Malformed
    case Again(next, collapsed) =>
      (match SlimSchema(depth, next, mode, path, root)
       case Done(v, ws) => Done(v, (if collapsed > 0 then [Collapsed(path, collapsed)] else []) + ws)
       case other => other)
    case Union(parent, keyword, subs) =>
      (match SlimItems(depth, subs, mode, path, root)
       case Done(vs, ws) => Done(Obj(Put(parent, keyword, Arr(vs))), ws)
       case TooDeep => TooDeep
       case Malformed => Malformed)
    case Constant(v) =>
      Done(if mode.Schema? then Obj([Field("type", Str("const")), Field("const", v)]) else v, [])
    case Object(props, required) => SlimObject(depth, props, required, mode, path, root)
    case Array(items, default, meta) =>
      (match SlimSchema(depth, items, mode, path + "[]", root)
       case Done(v, ws) => Done(ArrayEntry(v, default, meta, mode), ws)
       case other => other)
    case Leaf(raw, default, meta) =>
      Done(if mode.Schema? then Obj([Field("type", raw), Field("default", default)] + meta) else default, [])
  }

  function ArrayEntry(item: Json, default: Json, meta: Dict, mode: Mode): Json {
    if mode.Schema? then
      Obj([Field("type", Str("array")), Field("default", default), Field("items", item)] + meta)
    else if item != Null then Arr([item])
    else default
  }

  function SlimItems(depth: nat, subs: seq<Json>, mode: Mode, path: string, root: Json): Outcome<seq<Json>>
    decreases depth, 1, |subs|
  {
    if subs == [] then Done([], [])
    else match SlimSchema(depth, subs[0], mode, path, root)
      case TooDeep => TooDeep
      case Malformed => Malformed
      case Done(v, ws) =>
        match SlimItems(depth, subs[1..], mode, path, root)
        case Done(vs, more) => Done([v] + vs, ws + more)
        case other => other
  }

  function SlimObject(depth: nat, props: Dict, required: Json, mode: Mode, path: string, root: Json): Outcome<Json>
    decreases depth, 2
  {
    if mode.Config? && RequiredNames(required).None? then Malformed
    else match SlimFields(depth, props, mode, path, root)
      case TooDeep => TooDeep
      case Malformed => Malformed
      case Done(result, ws) =>
        if mode.Schema? then Done(Obj(if Truthy(required) then Put(result, "required", required) else result), ws)
        else Done(Obj(result), ws + Noted(NullRequired(result, RequiredNames(required).value, path)))
  }

  function SlimFields(depth: nat, props: Dict, mode: Mode, path: string, root: Json): Outcome<Dict>
    decreases depth, 1, |props|
  {
    if props == [] then Done([], [])
    else match SlimSchema(depth, props[0].value, mode, JoinPath(path, props[0].key), root)
      case TooDeep => TooDeep
      case Malformed => Malformed
      case Done(v, ws) =>
        match SlimFields(depth, props[1..], mode, path, root)
        case Done(vs, more) => Done([Field(props[0].key, v)] + vs, ws + more)
        case other => other
  }
}
