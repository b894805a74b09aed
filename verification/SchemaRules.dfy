/** What the compiler makes of every other construct, read off the document: references, constants, objects,
    arrays, leaves, and the unions that schema mode keeps (azext_edge/edge/providers/adr/helpers.py). */
module SchemaRules {
  import opened Json
  import opened JsonLaws
  import opened Text
  import opened SchemaTemplate
  import opened SchemaUnions
  import V = SchemaValidation

  // ---------- the keywords of a document ----------

  /** Neither a reference nor a union. */
  predicate Simple(d: Dict) {
    && Find(d, "$ref") == None && Find(d, "allOf") == None
    && match Find(d, "oneOf") case None => true case Some(v) => !Truthy(v)
  }

  /** The path of a field, as warnings name it. */
  function Named(path: string, key: string): string {
    if path == "" then key else path + "." + key
  }

  lemma NamedIs(path: string, key: string)
    ensures JoinPath(path, key) == Named(path, key) == if path == "" then key else path + "." + key
  {
  }

  /** The type shown for a schema: its `type`, "string" without one; of a list the first entry but "null". */
  ghost predicate ShownType(d: Dict, t: Json) {
    match Find(d, "type")
    case None => t == Str("string")
    case Some(Arr(ts)) =>
      if forall x | x in ts :: x == Str("null") then t == Str("string")
      else exists i | 0 <= i < |ts| :: ts[i] == t && t != Str("null") && forall j | 0 <= j < i :: ts[j] == Str("null")
    case Some(v) => t == v
  }

  lemma {:induction false} FirstNonNullAt(ts: seq<Json>, i: nat)
    requires i < |ts| && ts[i] != Str("null") && forall j | 0 <= j < i :: ts[j] == Str("null")
    ensures FirstNonNull(ts) == ts[i]
  {
    if i > 0 {
      assert forall j | 0 <= j < i - 1 :: ts[1..][j] == ts[j + 1];
      FirstNonNullAt(ts[1..], i - 1);
    }
  }

  lemma {:induction false} AllNull(ts: seq<Json>)
    requires forall x | x in ts :: x == Str("null")
    ensures FirstNonNull(ts) == Str("string")
  {
    if ts != [] {
      assert ts[0] in ts && forall x | x in ts[1..] :: x in ts;
      AllNull(ts[1..]);
    }
  }

  lemma TypeIff(d: Dict, t: Json)
    ensures RawType(d) == t <==> ShownType(d, t)
  {
    match Find(d, "type")
    case Some(Arr(ts)) =>
      if forall x | x in ts :: x == Str("null") {
        AllNull(ts);
      } else {
        var i := FirstOther(ts);
        FirstNonNullAt(ts, i);
      }
    case _ =>
  }

  lemma {:induction false} FirstOther(ts: seq<Json>) returns (i: nat)
    requires exists x | x in ts :: x != Str("null")
    ensures i < |ts| && ts[i] != Str("null") && forall j | 0 <= j < i :: ts[j] == Str("null")
  {
    if ts[0] != Str("null") { return 0; }
    assert exists x | x in ts[1..] :: x != Str("null") by {
      var x :| x in ts && x != Str("null");
      assert x in ts[1..];
    }
    var k := FirstOther(ts[1..]);
    i := k + 1;
    assert forall j | 0 < j < i :: ts[j] == ts[1..][j - 1];
  }

  function Entry(d: Dict, k: string): Dict {
    match Find(d, k) case Some(v) => [Field(k, v)] case None => []
  }

  /** The constraint keywords shown, in this order. */
  function Shown(d: Dict): Dict {
    Entry(d, "minimum") + Entry(d, "maximum") + Entry(d, "exclusiveMinimum") + Entry(d, "exclusiveMaximum")
    + Entry(d, "enum") + Entry(d, "pattern")
  }

  lemma {:induction false} ConstraintsCons(d: Dict, k: string, keys: seq<string>)
    ensures Constraints(d, [k] + keys) == Entry(d, k) + Constraints(d, keys)
  {
    assert ([k] + keys)[1..] == keys;
  }

  lemma {:induction false} ConstraintsAre(d: Dict)
    ensures Constraints(d, CONSTRAINTS) == Shown(d)
    ensures Shown(d) == Entry(d, "minimum") + Entry(d, "maximum") + Entry(d, "exclusiveMinimum")
                        + Entry(d, "exclusiveMaximum") + Entry(d, "enum") + Entry(d, "pattern")
  {
    var a, b, c, e, f, g := "minimum", "maximum", "exclusiveMinimum", "exclusiveMaximum", "enum", "pattern";
    assert CONSTRAINTS == [a] + ([b] + ([c] + ([e] + ([f] + ([g] + [])))));
    ConstraintsCons(d, a, [b] + ([c] + ([e] + ([f] + ([g] + [])))));
    ConstraintsCons(d, b, [c] + ([e] + ([f] + ([g] + []))));
    ConstraintsCons(d, c, [e] + ([f] + ([g] + [])));
    ConstraintsCons(d, e, [f] + ([g] + []));
    ConstraintsCons(d, f, [g] + []);
    ConstraintsCons(d, g, []);
    Regroup(Entry(d, a), Entry(d, b), Entry(d, c), Entry(d, e), Entry(d, f), Entry(d, g));
  }

  lemma Regroup(a: Dict, b: Dict, c: Dict, d: Dict, e: Dict, f: Dict)
    ensures a + (b + (c + (d + (e + (f + []))))) == a + b + c + d + e + f
  {
  }

  function DefaultOf(d: Dict): Json {
    match Find(d, "default") case Some(v) => v case None => Null
  }

  // ---------- references ----------

  /** The nodes met on the way along the parts of a path. */
  ghost predicate Leads(nodes: seq<Json>, parts: seq<string>) {
    && |nodes| == |parts| + 1
    && forall i | 0 <= i < |parts| :: nodes[i].Obj? && Find(nodes[i].fields, parts[i]) == Some(nodes[i + 1])
  }

  lemma {:induction false} WalkLeads(nodes: seq<Json>, parts: seq<string>)
    requires Leads(nodes, parts)
    ensures Walk(nodes[0], parts) == Some(nodes[|parts|])
    decreases |parts|
  {
    if parts != [] {
      assert Find(nodes[0].fields, parts[0]) == Some(nodes[1]);
      assert forall i | 0 <= i < |parts| - 1 :: nodes[1..][i] == nodes[i + 1] && parts[1..][i] == parts[i + 1];
      WalkLeads(nodes[1..], parts[1..]);
    }
  }

  lemma {:induction false} WalkFinds(node: Json, parts: seq<string>) returns (nodes: seq<Json>)
    requires Walk(node, parts).Some?
    ensures Leads(nodes, parts) && nodes[0] == node && nodes[|parts|] == Walk(node, parts).value
    decreases |parts|
  {
    if parts == [] { return [node]; }
    var rest := WalkFinds(Find(node.fields, parts[0]).value, parts[1..]);
    nodes := [node] + rest;
    forall i | 0 <= i < |parts| ensures nodes[i].Obj? && Find(nodes[i].fields, parts[i]) == Some(nodes[i + 1]) {
      if i > 0 { assert nodes[i] == rest[i - 1] && parts[i] == parts[1..][i - 1] && nodes[i + 1] == rest[i]; }
    }
  }

  ghost predicate Reaches(root: Json, parts: seq<string>, target: Json) {
    exists nodes: seq<Json> :: Leads(nodes, parts) && nodes[0] == root && nodes[|parts|] == target
  }

  lemma {:induction false} WalkIff(root: Json, parts: seq<string>, target: Json)
    ensures Walk(root, parts) == Some(target) <==> Reaches(root, parts, target)
  {
    if nodes: seq<Json> :| Leads(nodes, parts) && nodes[0] == root && nodes[|parts|] == target {
      WalkLeads(nodes, parts);
    }
    if Walk(root, parts) == Some(target) {
      var nodes := WalkFinds(root, parts);
    }
  }

  lemma PrefixIff(s: string)
    ensures REF_PREFIX <= s <==> |s| >= 14 && s[..14] == "#/definitions/"
  {
  }

  /** A reference resolves to the dict that its path, cut at the slashes after "#/", leads to from the root. */
  lemma ResolvesIff(ref: Json, root: Json, target: Dict)
    ensures ResolveRef(ref, root) == Some(target)
            <==> && ref.Str? && |ref.s| >= 14 && ref.s[..14] == "#/definitions/"
                 && Reaches(root, SplitSlash(ref.s[2..]), Obj(target))
  {
    if ref.Str? {
      PrefixIff(ref.s);
      if |ref.s| >= 14 { WalkIff(root, SplitSlash(ref.s[2..]), Obj(target)); }
    }
  }

  /** Main theorem: a reference that resolves is rendered as its target overlaid with the other keys beside it;
      one that does not is dropped, and nothing beside it renders as null. */
  lemma RefRenders(depth: nat, d: Dict, mode: Mode, path: string, root: Json) returns (merged: Dict)
    requires Distinct(d) && Has(d, "$ref")
    requires match ResolveRef(Find(d, "$ref").value, root) case Some(target) => Distinct(target) case None => true
    ensures match ResolveRef(Find(d, "$ref").value, root)
            case Some(target) =>
              && Laid(merged, target, Without(d, "$ref"))
              && SlimSchema(depth + 1, Obj(d), mode, path, root)
                 == Noting([], SlimSchema(depth, Obj(merged), mode, path, root))
            case None =>
              SlimSchema(depth + 1, Obj(d), mode, path, root)
              == if forall f | f in d :: f.key == "$ref" then Done(Null, [])
                 else SlimSchema(depth + 1, Obj(Without(d, "$ref")), mode, path, root)
  {
    var rest := Without(d, "$ref");
    WithoutIs(d, "$ref");
    merged := [];
    match ResolveRef(Find(d, "$ref").value, root)
    case Some(target) =>
      merged := Update(target, rest);
      UpdateIs(target, rest);
    case None =>
      NothingElse(d, "$ref");
      assert Find(rest, "$ref") == None;
  }

  lemma {:induction false} NothingElse(d: Dict, k: string)
    ensures Without(d, k) == [] <==> forall f | f in d :: f.key == k
  {
    if d != [] {
      NothingElse(d[1..], k);
      assert forall f | f in d :: f == d[0] || f in d[1..];
      assert d[0] in d && forall f | f in d[1..] :: f in d;
    }
  }

  // ---------- what needs no further call ----------

  /** Anything but a dict is rendered as it is. */
  lemma OtherRenders(depth: nat, schema: Json, mode: Mode, path: string, root: Json)
    requires !schema.Obj?
    ensures SlimSchema(depth + 1, schema, mode, path, root) == Done(schema, [])
  {
  }

  lemma ConstRenders(depth: nat, d: Dict, v: Json, mode: Mode, path: string, root: Json)
    requires Simple(d) && Find(d, "const") == Some(v)
    ensures SlimSchema(depth + 1, Obj(d), mode, path, root)
            == Done(if mode == Config then v else Obj([Field("type", Str("const")), Field("const", v)]), [])
  {
  }

  /** No `properties` that Python reads as true. */
  predicate NoProps(d: Dict) {
    match Find(d, "properties") case None => true case Some(v) => !Truthy(v)
  }

  /** Main theorem: a leaf is rendered as its default, or null; in schema mode as its type, its default and the
      constraint keywords it has. */
  lemma LeafRenders(depth: nat, d: Dict, t: Json, mode: Mode, path: string, root: Json)
    requires Simple(d) && Find(d, "const") == None && NoProps(d) && ShownType(d, t)
    requires t == Str("array") ==> Find(d, "items") == None
    ensures SlimSchema(depth + 1, Obj(d), mode, path, root)
            == Done(if mode == Config then DefaultOf(d)
                    else Obj([Field("type", t), Field("default", DefaultOf(d))] + Shown(d)), [])
  {
    TypeIff(d, t);
    ConstraintsAre(d);
    PlainTaken(d, mode, root);
  }

  lemma PlainTaken(d: Dict, mode: Mode, root: Json)
    requires Simple(d)
    ensures ShapeOf(Obj(d), mode, root) == PlainShape(d)
  {
  }

  /** Main theorem: an array is rendered as a list of its item's rendering, or as its default when that is null;
      in schema mode the item is shown inside, between the default and the constraints. */
  lemma {:induction false} ArrayRenders(depth: nat, d: Dict, items: Json, mode: Mode, path: string, root: Json)
    requires Simple(d) && Find(d, "const") == None && NoProps(d) && ShownType(d, Str("array"))
    requires Find(d, "items") == Some(items)
    ensures SlimSchema(depth + 1, Obj(d), mode, path, root)
            == match SlimSchema(depth, items, mode, path + "[]", root)
               case Done(v, ws) =>
                 var shown :=
                   [Field("type", Str("array")), Field("default", DefaultOf(d)), Field("items", v)] + Shown(d);
                 Done(if mode == Schema then Obj(shown) else if v == Null then DefaultOf(d) else Arr([v]), ws)
               case failure => failure
  {
    TypeIff(d, Str("array"));
    ConstraintsAre(d);
    PlainTaken(d, mode, root);
  }

  // ---------- objects and kept unions ----------

  /** The outcomes of the calls on the fields, each with its path. */
  function FieldCalls(depth: nat, props: Dict, mode: Mode, path: string, root: Json): seq<Outcome<Json>> {
    seq(|props|, i requires 0 <= i < |props| =>
      SlimSchema(depth, props[i].value, mode, Named(path, props[i].key), root))
  }

  function ItemCalls(depth: nat, subs: seq<Json>, mode: Mode, path: string, root: Json): seq<Outcome<Json>> {
    seq(|subs|, i requires 0 <= i < |subs| => SlimSchema(depth, subs[i], mode, path, root))
  }

  predicate AllDone(calls: seq<Outcome<Json>>) {
    forall o | o in calls :: o.Done?
  }

  /** The first call that fails decides. */
  ghost predicate FailsWith<T>(o: Outcome<T>, calls: seq<Outcome<Json>>) {
    exists i | 0 <= i < |calls| ::
      && !calls[i].Done? && (forall j | 0 <= j < i :: calls[j].Done?)
      && (calls[i].TooDeep? <==> o.TooDeep?) && (calls[i].Malformed? <==> o.Malformed?)
  }

  /** All warnings, in order. */
  function WarningsOf(calls: seq<Outcome<Json>>): seq<Warning> {
    if calls == [] then [] else (if calls[0].Done? then calls[0].warnings else []) + WarningsOf(calls[1..])
  }

  function Values(props: Dict, calls: seq<Outcome<Json>>): Dict
    requires |props| == |calls| && AllDone(calls)
  {
    seq(|props|, i requires 0 <= i < |props| => assert calls[i] in calls; Field(props[i].key, calls[i].value))
  }

  function ItemValues(calls: seq<Outcome<Json>>): seq<Json>
    requires AllDone(calls)
  {
    seq(|calls|, i requires 0 <= i < |calls| => assert calls[i] in calls; calls[i].value)
  }

  lemma {:induction false} FieldCallsCons(depth: nat, props: Dict, mode: Mode, path: string, root: Json)
    requires props != []
    ensures FieldCalls(depth, props, mode, path, root)
            == [SlimSchema(depth, props[0].value, mode, JoinPath(path, props[0].key), root)]
               + FieldCalls(depth, props[1..], mode, path, root)
  {
    NamedIs(path, props[0].key);
  }

  lemma {:induction false} ItemCallsCons(depth: nat, subs: seq<Json>, mode: Mode, path: string, root: Json)
    requires subs != []
    ensures ItemCalls(depth, subs, mode, path, root)
            == [SlimSchema(depth, subs[0], mode, path, root)] + ItemCalls(depth, subs[1..], mode, path, root)
  {
  }

  lemma {:induction false} AllDoneCons(o: Outcome<Json>, calls: seq<Outcome<Json>>)
    ensures AllDone([o] + calls) <==> o.Done? && AllDone(calls)
    ensures WarningsOf([o] + calls) == (if o.Done? then o.warnings else []) + WarningsOf(calls)
  {
    assert ([o] + calls)[1..] == calls;
    assert forall x | x in [o] + calls :: x == o || x in calls;
    assert ([o] + calls)[0] in [o] + calls && forall x | x in calls :: x in [o] + calls;
  }

  lemma FailsFirst<T>(r: Outcome<T>, o: Outcome<Json>, calls: seq<Outcome<Json>>)
    requires !o.Done? && (o.TooDeep? <==> r.TooDeep?) && (o.Malformed? <==> r.Malformed?)
    ensures FailsWith(r, [o] + calls)
  {
    assert ([o] + calls)[0] == o;
  }

  lemma FailsLater<T>(r: Outcome<T>, o: Outcome<Json>, calls: seq<Outcome<Json>>)
    requires o.Done? && FailsWith(r, calls)
    ensures FailsWith(r, [o] + calls)
  {
    var i :| 0 <= i < |calls| && !calls[i].Done? && (forall j | 0 <= j < i :: calls[j].Done?)
             && (calls[i].TooDeep? <==> r.TooDeep?) && (calls[i].Malformed? <==> r.Malformed?);
    assert ([o] + calls)[i + 1] == calls[i];
    forall j | 0 <= j < i + 1 ensures ([o] + calls)[j].Done? { if j > 0 { assert ([o] + calls)[j] == calls[j - 1]; } }
  }

  lemma {:induction false} FieldsIs(depth: nat, props: Dict, mode: Mode, path: string, root: Json)
    ensures var calls := FieldCalls(depth, props, mode, path, root);
            var o := SlimFields(depth, props, mode, path, root);
            if AllDone(calls) then o == Done(Values(props, calls), WarningsOf(calls)) else FailsWith(o, calls)
    decreases |props|
  {
    if props != [] {
      FieldCallsCons(depth, props, mode, path, root);
      var first := SlimSchema(depth, props[0].value, mode, JoinPath(path, props[0].key), root);
      var calls := FieldCalls(depth, props[1..], mode, path, root);
      var o := SlimFields(depth, props, mode, path, root);
      AllDoneCons(first, calls);
      FieldsIs(depth, props[1..], mode, path, root);
      if !first.Done? {
        FailsFirst(o, first, calls);
      } else if !AllDone(calls) {
        FailsLater(SlimFields(depth, props[1..], mode, path, root), first, calls);
        assert FailsWith(o, [first] + calls);
      } else {
        assert Values(props, [first] + calls) == [Field(props[0].key, first.value)] + Values(props[1..], calls);
      }
    } else {
      assert FieldCalls(depth, props, mode, path, root) == [] && Values([], []) == [];
    }
  }

  lemma {:induction false} ItemsAre(depth: nat, subs: seq<Json>, mode: Mode, path: string, root: Json)
    ensures var calls := ItemCalls(depth, subs, mode, path, root);
            var o := SlimItems(depth, subs, mode, path, root);
            if AllDone(calls) then o == Done(ItemValues(calls), WarningsOf(calls)) else FailsWith(o, calls)
    decreases |subs|
  {
    if subs != [] {
      ItemCallsCons(depth, subs, mode, path, root);
      var first := SlimSchema(depth, subs[0], mode, path, root);
      var calls := ItemCalls(depth, subs[1..], mode, path, root);
      AllDoneCons(first, calls);
      ItemsAre(depth, subs[1..], mode, path, root);
      if !first.Done? {
        FailsFirst(SlimItems(depth, subs, mode, path, root), first, calls);
      } else if !AllDone(calls) {
        FailsLater(SlimItems(depth, subs[1..], mode, path, root), first, calls);
        FailsAlike(SlimItems(depth, subs[1..], mode, path, root), SlimItems(depth, subs, mode, path, root),
                   [first] + calls);
      } else {
        assert ItemValues([first] + calls) == [first.value] + ItemValues(calls);
      }
    } else {
      assert ItemCalls(depth, subs, mode, path, root) == [] && ItemValues([]) == [];
    }
  }

  lemma FailsAlike<T, U>(r: Outcome<T>, s: Outcome<U>, calls: seq<Outcome<Json>>)
    requires FailsWith(r, calls) && (r.TooDeep? <==> s.TooDeep?) && (r.Malformed? <==> s.Malformed?)
    ensures FailsWith(s, calls)
  {
    var i :| 0 <= i < |calls| && !calls[i].Done? && (forall j | 0 <= j < i :: calls[j].Done?)
             && (calls[i].TooDeep? <==> r.TooDeep?) && (calls[i].Malformed? <==> r.Malformed?);
    assert !calls[i].Done?;
  }

  /** Main theorem: schema mode keeps a `oneOf` of more than one variant, and every `allOf`: the object without
      the keyword, and after it the keyword with the rendering of each variant or member in order. */
  lemma {:induction false} UnionRenders(depth: nat, d: Dict, keyword: string, subs: seq<Json>, path: string, root: Json)
    requires Distinct(d) && Find(d, "$ref") == None && Find(d, keyword) == Some(Arr(subs))
    requires if keyword == "oneOf" then |subs| > 1
             else keyword == "allOf" && match Find(d, "oneOf") case None => true case Some(v) => !Truthy(v)
    ensures var calls := ItemCalls(depth, subs, Schema, path, root);
            var o := SlimSchema(depth + 1, Obj(d), Schema, path, root);
            if AllDone(calls) then
              && o.Done? && o.warnings == WarningsOf(calls)
              && o.value == Obj(Without(d, keyword) + [Field(keyword, Arr(ItemValues(calls)))])
            else FailsWith(o, calls)
  {
    UnionTaken(d, keyword, subs, root);
    UnionStep(depth, d, keyword, subs, path, root);
    ItemsAre(depth, subs, Schema, path, root);
    WithoutIs(d, keyword);
    var parent, calls := Without(d, keyword), ItemCalls(depth, subs, Schema, path, root);
    if AllDone(calls) {
      PutNew(parent, keyword, Arr(ItemValues(calls)));
    } else {
      FailsAlike(SlimItems(depth, subs, Schema, path, root), SlimSchema(depth + 1, Obj(d), Schema, path, root), calls);
    }
  }

  lemma {:induction false} UnionStep(depth: nat, d: Dict, keyword: string, subs: seq<Json>, path: string, root: Json)
    requires ShapeOf(Obj(d), Schema, root) == Union(Without(d, keyword), keyword, subs)
    ensures SlimSchema(depth + 1, Obj(d), Schema, path, root)
            == match SlimItems(depth, subs, Schema, path, root)
               case Done(vs, ws) => Done(Obj(Put(Without(d, keyword), keyword, Arr(vs))), ws)
               case TooDeep => TooDeep
               case Malformed => Malformed
  {
  }

  lemma {:induction false} UnionTaken(d: Dict, keyword: string, subs: seq<Json>, root: Json)
    requires Find(d, "$ref") == None && Find(d, keyword) == Some(Arr(subs))
    requires if keyword == "oneOf" then |subs| > 1
             else keyword == "allOf" && match Find(d, "oneOf") case None => true case Some(v) => !Truthy(v)
    ensures ShapeOf(Obj(d), Schema, root) == Union(Without(d, keyword), keyword, subs)
  {
  }

  lemma {:induction false} PutNew(d: Dict, k: string, v: Json)
    requires !Has(d, k)
    ensures Put(d, k, v) == d + [Field(k, v)]
  {
    if d != [] { PutNew(d[1..], k, v); }
  }

  // ---------- objects ----------

  /** What `set(required)` is made of, or that it is no set of names. */
  ghost predicate Requires(required: Json, name: string) {
    match required
    case Arr(items) => Str(name) in items
    case Str(s) => |name| == 1 && name[0] in s
    case Obj(fields) => Has(fields, name)
    case _ => false
  }

  /** Python's TypeError: no iterable, or a list with an unhashable entry. */
  ghost predicate NoSet(required: Json) {
    match required
    case Arr(items) => exists x | x in items :: x.Arr? || x.Obj?
    case Str(_) => false
    case Obj(_) => false
    case _ => true
  }

  lemma RequiresIff(required: Json, name: string)
    ensures RequiredNames(required) == None <==> NoSet(required)
    ensures RequiredNames(required).Some? ==> (name in RequiredNames(required).value <==> Requires(required, name))
  {
    match required
    case Arr(items) =>
      V.StringsHas(items, name);
      if x :| x in items && (x.Arr? || x.Obj?) {
        var i :| 0 <= i < |items| && items[i] == x;
      }
    case Str(s) => CharsIff(s, name);
    case Obj(fields) =>
      KeyIff(fields, name);
      assert RequiredNames(required) == Some(Keys(fields));
    case _ =>
  }

  lemma CharsIff(s: string, name: string)
    ensures name in seq(|s|, i requires 0 <= i < |s| => [s[i]]) <==> |name| == 1 && name[0] in s
  {
    var cs := seq(|s|, i requires 0 <= i < |s| => [s[i]]);
    if |name| == 1 && name[0] in s {
      var i :| 0 <= i < |s| && s[i] == name[0];
      assert cs[i] == name;
    }
  }

  /** The paths of the required fields whose call gave null, in order. */
  ghost function NullPaths(props: Dict, calls: seq<Outcome<Json>>, required: Json, path: string): seq<string>
    requires |props| == |calls|
  {
    if props == [] then []
    else
      (if calls[0].Done? && calls[0].value == Null && Requires(required, props[0].key) then [Named(path, props[0].key)]
       else [])
      + NullPaths(props[1..], calls[1..], required, path)
  }

  lemma {:induction false} NullPathsAre(props: Dict, calls: seq<Outcome<Json>>, required: Json, path: string)
    requires |props| == |calls| && AllDone(calls) && RequiredNames(required).Some?
    ensures NullRequired(Values(props, calls), RequiredNames(required).value, path)
            == NullPaths(props, calls, required, path)
  {
    if props != [] {
      assert calls[0] in calls && forall o | o in calls[1..] :: o in calls;
      assert Values(props, calls)[1..] == Values(props[1..], calls[1..]);
      RequiresIff(required, props[0].key);
      NamedIs(path, props[0].key);
      NullPathsAre(props[1..], calls[1..], required, path);
    }
  }

  /** Main theorem: an object with fields is rendered field by field, in order, each under its own path. Config
      mode then notes the required fields whose template is null; schema mode adds the list of required fields
      under "required", in place of a property of that name. */
  lemma ObjectRenders(depth: nat, d: Dict, props: Dict, required: Json, mode: Mode, path: string, root: Json)
    requires Simple(d) && Find(d, "const") == None && Find(d, "properties") == Some(Obj(props)) && props != []
    requires required == match Find(d, "required") case Some(v) => v case None => Arr([])
    ensures var calls := FieldCalls(depth, props, mode, path, root);
            var o := SlimSchema(depth + 1, Obj(d), mode, path, root);
            if mode == Config && NoSet(required) then o == Malformed
            else if !AllDone(calls) then FailsWith(o, calls)
            else if mode == Config then
              var nulls := NullPaths(props, calls, required, path);
              o == Done(Obj(Values(props, calls)),
                        WarningsOf(calls) + if nulls == [] then [] else [RequiredNull(nulls)])
            else
              o == Done(Obj(if Truthy(required) then Put(Values(props, calls), "required", required)
                            else Values(props, calls)), WarningsOf(calls))
  {
    PlainTaken(d, mode, root);
    ObjectStep(depth, d, props, required, mode, path, root);
    RequiresIff(required, "");
    FieldsIs(depth, props, mode, path, root);
    var calls := FieldCalls(depth, props, mode, path, root);
    if AllDone(calls) {
      if mode == Config && !NoSet(required) { NullPathsAre(props, calls, required, path); }
    } else if mode == Schema || !NoSet(required) {
      FailsAlike(SlimFields(depth, props, mode, path, root), SlimSchema(depth + 1, Obj(d), mode, path, root), calls);
    }
  }

  lemma {:induction false} ObjectStep(
    depth: nat, d: Dict, props: Dict, required: Json, mode: Mode, path: string, root: Json)
    requires ShapeOf(Obj(d), mode, root) == PlainShape(d)
    requires Find(d, "const") == None && Find(d, "properties") == Some(Obj(props)) && props != []
    requires required == match Find(d, "required") case Some(v) => v case None => Arr([])
    ensures SlimSchema(depth + 1, Obj(d), mode, path, root) == SlimObject(depth, props, required, mode, path, root)
  {
    assert PlainShape(d) == Object(props, required);
  }

  /** Malformed keywords: `properties` Python reads as true that are no dict, and unions that are no list. */
  lemma MalformedRenders(depth: nat, d: Dict, mode: Mode, path: string, root: Json)
    requires Find(d, "$ref") == None
    ensures Has(d, "oneOf") && Truthy(Find(d, "oneOf").value) && !Find(d, "oneOf").value.Arr? ==>
              SlimSchema(depth + 1, Obj(d), mode, path, root) == Malformed
    ensures Has(d, "allOf") && !Find(d, "allOf").value.Arr? && (Has(d, "oneOf") ==> !Truthy(Find(d, "oneOf").value)) ==>
              SlimSchema(depth + 1, Obj(d), mode, path, root) == Malformed
    ensures Simple(d) && Find(d, "const") == None && !NoProps(d) && !Find(d, "properties").value.Obj? ==>
              SlimSchema(depth + 1, Obj(d), mode, path, root) == Malformed
  {
  }

  /** Field by field, with the path written out. */
  lemma FieldByField(depth: nat, d: Dict, props: Dict, path: string, root: Json, i: nat)
    requires Simple(d) && Find(d, "const") == None && Find(d, "properties") == Some(Obj(props)) && i < |props|
    requires SlimSchema(depth + 1, Obj(d), Config, path, root).Done?
    ensures var o := SlimSchema(depth + 1, Obj(d), Config, path, root).value;
            var key := props[i].key;
            var call := SlimSchema(depth, props[i].value, Config, if path == "" then key else path + "." + key, root);
            call.Done? && o.Obj? && |o.fields| == |props| && o.fields[i] == Field(key, call.value)
  {
    var required := match Find(d, "required") case Some(v) => v case None => Arr([]);
    ObjectRenders(depth, d, props, required, Config, path, root);
    var calls := FieldCalls(depth, props, Config, path, root);
    assert calls[i] == SlimSchema(depth, props[i].value, Config, Named(path, props[i].key), root);
    assert calls[i] in calls;
  }
}
