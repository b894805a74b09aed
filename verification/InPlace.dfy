/** Config mode of the template compiler with its one side effect: `_slim_allof`
    (azext_edge/edge/providers/adr/helpers.py:597-601) extends a `properties` dict in place, and that dict
    may still belong to the document, where every later reference sees the extension. */
module InPlace {
  import opened Json
  import opened SchemaTemplate
  import opened Text

  // ---------- documents whose dicts have an identity ----------

  type Atom = j: Json | !j.Arr? && !j.Obj? witness Null

  /** A dict of the parsed document carries its identity; one built by the compiler, and shared with
      nothing, has none. */
  datatype Doc = Scalar(value: Atom) | List(items: seq<Doc>) | Dict(id: Option<nat>, entries: Entries)

  datatype Entry = Entry(key: string, value: Doc)

  type Entries = seq<Entry>

  /** The dicts of the document that have been changed, with their present entries. */
  type Heap = map<nat, Entries>

  /** What a dict holds now. */
  function Content(h: Heap, d: Doc): Entries
    requires d.Dict?
  {
    if d.id.Some? && d.id.value in h then h[d.id.value] else d.entries
  }

  /** `d.update(...)`, leaving `now` in the dict. */
  function Write(h: Heap, d: Doc, now: Entries): Heap
    requires d.Dict? && d.id.Some?
  {
    if Content(h, d) == now then h else h[d.id.value := now]
  }

  /** The document as JSON, as it was parsed. */
  function Plain(d: Doc): Json
    decreases d, 0
  {
    match d
    case Scalar(v) => v
    case List(items) => Arr(PlainItems(items))
    case Dict(_, entries) => Obj(PlainEntries(entries))
  }

  function PlainItems(items: seq<Doc>): seq<Json>
    decreases items, 1
  {
    if items == [] then [] else [Plain(items[0])] + PlainItems(items[1..])
  }

  function PlainEntries(entries: Entries): seq<Field>
    decreases entries, 1
  {
    if entries == [] then [] else [Field(entries[0].key, Plain(entries[0].value))] + PlainEntries(entries[1..])
  }

  function Lookup(d: Entries, k: string): Option<Doc> {
    if d == [] then None else if d[0].key == k then Some(d[0].value) else Lookup(d[1..], k)
  }

  function Set(d: Entries, k: string, v: Doc): Entries {
    if d == [] then [Entry(k, v)]
    else if d[0].key == k then [Entry(k, v)] + d[1..]
    else [d[0]] + Set(d[1..], k, v)
  }

  function Overlay(d: Entries, more: Entries): Entries
    decreases |more|
  {
    if more == [] then d else Overlay(Set(d, more[0].key, more[0].value), more[1..])
  }

  function Drop(d: Entries, k: string): Entries {
    if d == [] then []
    else if d[0].key == k then Drop(d[1..], k)
    else [d[0]] + Drop(d[1..], k)
  }

  function LookupOr(d: Entries, k: string, otherwise: Doc): Doc {
    match Lookup(d, k) case Some(v) => v case None => otherwise
  }

  const NIL := Scalar(Null)

  // ---------- reading through the changes ----------

  predicate Truth(h: Heap, d: Doc) {
    match d
    case Scalar(v) => Truthy(v)
    case List(items) => items != []
    case Dict(_, _) => Content(h, d) != []
  }

  function WalkNow(h: Heap, node: Doc, parts: seq<string>): Option<Doc>
    decreases |parts|
  {
    if parts == [] then Some(node)
    else if !node.Dict? then None
    else match Lookup(Content(h, node), parts[0])
      case None => None
      case Some(next) => WalkNow(h, next, parts[1..])
  }

  predicate IsRef(ref: Doc) {
    ref.Scalar? && ref.value.Str? && REF_PREFIX <= ref.value.s
  }

  function RefParts(ref: Doc): seq<string>
    requires IsRef(ref)
  {
    SplitSlash(ref.value.s[2..])
  }

  function ResolveNow(h: Heap, ref: Doc, root: Doc): Option<Doc> {
    if !IsRef(ref) then None
    else match WalkNow(h, root, RefParts(ref))
      case Some(target) => if target.Dict? then Some(target) else None
      case None => None
  }

  predicate IsNullNow(h: Heap, v: Doc) {
    v.Dict? && Lookup(Content(h, v), "type") == Some(Scalar(Str("null")))
  }

  function NonNullVariantsNow(h: Heap, vs: seq<Doc>): seq<Doc> {
    if vs == [] then []
    else if IsNullNow(h, vs[0]) then NonNullVariantsNow(h, vs[1..])
    else [vs[0]] + NonNullVariantsNow(h, vs[1..])
  }

  function NonNullSubsNow(h: Heap, vs: seq<Doc>): seq<Doc> {
    if vs == [] then []
    else if vs[0].Dict? && !IsNullNow(h, vs[0]) then [vs[0]] + NonNullSubsNow(h, vs[1..])
    else NonNullSubsNow(h, vs[1..])
  }

  /** The merge of the chosen `oneOf` variant builds a new `properties` dict. */
  function MergeVariantNow(h: Heap, merged: Entries, chosen: Entries): Option<Entries>
    decreases |chosen|
  {
    if chosen == [] then Some(merged)
    else
      var f := chosen[0];
      match Lookup(merged, "properties")
      case Some(mine) =>
        if f.key != "properties" then MergeVariantNow(h, Set(merged, f.key, f.value), chosen[1..])
        else if !mine.Dict? || !f.value.Dict? then None
        else
          var both := Dict(None, Overlay(Content(h, mine), Content(h, f.value)));
          MergeVariantNow(h, Set(merged, f.key, both), chosen[1..])
      case None => MergeVariantNow(h, Set(merged, f.key, f.value), chosen[1..])
  }

  datatype Merged = Merged(entries: Entries, heap: Heap)

  /** One key of an `allOf` member. A `properties` dict with an identity is updated where it is; its
      entries in `merged` are then only what a reading by value would have. */
  function AddEntry(h: Heap, merged: Entries, f: Entry): Option<Merged> {
    if f.key != "properties" then
      Some(Merged(if Lookup(merged, f.key).Some? then merged else Set(merged, f.key, f.value), h))
    else
      var mine := LookupOr(merged, "properties", Dict(None, []));
      if !mine.Dict? || !f.value.Dict? then None
      else
        var more := Content(h, f.value);
        Some(Merged(Set(merged, f.key, Dict(mine.id, Overlay(mine.entries, more))),
                    if mine.id.Some? then Write(h, mine, Overlay(Content(h, mine), more)) else h))
  }

  function MergeSubNow(h: Heap, merged: Entries, sub: Entries): Option<Merged>
    decreases |sub|
  {
    if sub == [] then Some(Merged(merged, h))
    else match AddEntry(h, merged, sub[0])
      case None => None
      case Some(next) => MergeSubNow(next.heap, next.entries, sub[1..])
  }

  function MergeSubsNow(h: Heap, merged: Entries, subs: seq<Doc>): Option<Merged>
    decreases |subs|
  {
    if subs == [] then Some(Merged(merged, h))
    else if !subs[0].Dict? then None
    else match MergeSubNow(h, merged, Content(h, subs[0]))
      case None => None
      case Some(next) => MergeSubsNow(next.heap, next.entries, subs[1..])
  }

  // ---------- one call ----------

  datatype Step =
    | Output(value: Doc)
    | Rewritten(schema: Doc, collapsed: nat)
    | Loop(props: Doc, required: Doc)
    | Single(items: Doc, default: Doc)
    | Unusable

  function FirstType(ts: seq<Doc>): Doc {
    if ts == [] then Scalar(Str("string"))
    else if ts[0] == Scalar(Str("null")) then FirstType(ts[1..])
    else ts[0]
  }

  function TypeOf(d: Entries): Doc {
    var t := LookupOr(d, "type", Scalar(Str("string")));
    if t.List? then FirstType(t.items) else t
  }

  function OneOfStep(h: Heap, d: Entries, variants: seq<Doc>): Step
    requires variants != []
  {
    var kept := NonNullVariantsNow(h, variants);
    var chosen := if kept != [] then kept[0] else variants[0];
    if !chosen.Dict? then Unusable
    else match MergeVariantNow(h, Drop(d, "oneOf"), Content(h, chosen))
      case Some(merged) => Rewritten(Dict(None, merged), if |kept| > 1 then |kept| else 0)
      case None => Unusable
  }

  function AllOfStep(h: Heap, d: Entries, subs: seq<Doc>): (Step, Heap) {
    match MergeSubsNow(h, Drop(d, "allOf"), NonNullSubsNow(h, subs))
    case Some(merged) => (Rewritten(Dict(None, merged.entries), 0), merged.heap)
    case None => (Unusable, h)
  }

  function PlainStep(h: Heap, d: Entries): Step {
    if Lookup(d, "const").Some? then Output(Lookup(d, "const").value)
    else
      var props := LookupOr(d, "properties", Dict(None, []));
      var default := LookupOr(d, "default", NIL);
      if Truth(h, props) then
        if props.Dict? then Loop(props, LookupOr(d, "required", List([]))) else Unusable
      else if TypeOf(d) == Scalar(Str("array")) && Lookup(d, "items").Some? then
        Single(Lookup(d, "items").value, default)
      else Output(default)
  }

  function KeywordStep(h: Heap, d: Entries): (Step, Heap) {
    if Lookup(d, "oneOf").Some? && Truth(h, Lookup(d, "oneOf").value) then
      var variants := Lookup(d, "oneOf").value;
      (if variants.List? then OneOfStep(h, d, variants.items) else Unusable, h)
    else if Lookup(d, "allOf").Some? then
      var subs := Lookup(d, "allOf").value;
      if subs.List? then AllOfStep(h, d, subs.items) else (Unusable, h)
    else (PlainStep(h, d), h)
  }

  function StepOf(h: Heap, schema: Doc, root: Doc): (Step, Heap) {
    if !schema.Dict? then (Output(schema), h)
    else
      var d := Content(h, schema);
      match Lookup(d, "$ref")
      case None => KeywordStep(h, d)
      case Some(ref) =>
        var rest := Drop(d, "$ref");
        match ResolveNow(h, ref, root)
        case Some(target) => (Rewritten(Dict(None, Overlay(Content(h, target), rest)), 0), h)
        case None => if rest == [] then (Output(NIL), h) else KeywordStep(h, rest)
  }

  // ---------- the run ----------

  /** `Resized` is Python's RuntimeError for a dict that changes size while it is iterated. */
  datatype Result<+T> = Finished(value: T, warnings: seq<Warning>, heap: Heap) | Exhausted | Failed | Resized

  function NamesOf(h: Heap, required: Doc): Option<seq<string>> {
    match required
    case List(items) =>
      if exists i :: 0 <= i < |items| && !items[i].Scalar? then None else Some(Strings(PlainItems(items)))
    case Scalar(v) => RequiredNames(v)
    case Dict(_, _) => RequiredNames(Obj(PlainEntries(Content(h, required))))
  }

  /** `_slim_schema` in config mode, with `depth` nested calls of itself available. */
  function Slim(depth: nat, h: Heap, schema: Doc, path: string, root: Doc): Result<Doc>
    decreases depth, 0
  {
    if depth == 0 then Exhausted
    else var (step, now) := StepOf(h, schema, root); Follow(depth - 1, now, step, path, root)
  }

  function Follow(depth: nat, h: Heap, step: Step, path: string, root: Doc): Result<Doc>
    decreases depth, 3
  {
    match step
    case Unusable => Failed
    case Output(v) => Finished(v, [], h)
    case Rewritten(next, collapsed) =>
      (match Slim(depth, h, next, path, root)
       case Finished(v, ws, now) => Finished(v, (if collapsed > 0 then [Collapsed(path, collapsed)] else []) + ws, now)
       case other => other)
    case Single(items, default) =>
      (match Slim(depth, h, items, path + "[]", root)
       case Finished(v, ws, now) => Finished(if v != NIL then List([v]) else default, ws, now)
       case other => other)
    case Loop(props, required) =>
      if !props.Dict? || NamesOf(h, required).None? then Failed
      else match SlimEntries(depth, h, props, 0, |Content(h, props)|, path, root)
        case Finished(result, ws, now) =>
          var nulls := NullRequired(PlainEntries(result), NamesOf(h, required).value, path);
          Finished(Dict(None, result), ws + Noted(nulls), now)
        case Exhausted => Exhausted
        case Failed => Failed
        case Resized => Resized
  }

  /** The loop over the live dict, from entry `i` of the `n` it had at the start. */
  function SlimEntries(depth: nat, h: Heap, props: Doc, i: nat, n: nat, path: string, root: Doc): Result<Entries>
    requires props.Dict? && i <= n
    decreases depth, 1, n - i
  {
    if |Content(h, props)| != n then Resized
    else if i == n then Finished([], [], h)
    else
      var f := Content(h, props)[i];
      match Slim(depth, h, f.value, JoinPath(path, f.key), root)
      case Finished(v, ws, now) =>
        (match SlimEntries(depth, now, props, i + 1, n, path, root)
         case Finished(vs, more, end) => Finished([Entry(f.key, v)] + vs, ws + more, end)
         case other => other)
      case Exhausted => Exhausted
      case Failed => Failed
      case Resized => Resized
  }
}
