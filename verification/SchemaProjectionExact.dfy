/** The two modes agree exactly when no object has a property called `required`, and where such a property
    stands beside a list of required names no reading of the view can bring it back. */
module SchemaProjectionExact {
  import opened Json
  import opened SchemaTemplate
  import opened SchemaProjection

  // ---------- the condition, apart from the others ----------

  /** `Projectable`, but objects may have a property called `required`. */
  predicate Viewable(depth: nat, schema: Json, root: Json)
    decreases depth, 1
  {
    depth > 0 && !schema.Str? &&
    (schema.Obj? ==>
       match Find(schema.fields, "$ref")
       case None => PlainViewable(depth - 1, schema.fields, root)
       case Some(ref) =>
         var rest := Without(schema.fields, "$ref");
         match ResolveRef(ref, root)
         case Some(target) => Viewable(depth - 1, Obj(Update(target, rest)), root)
         case None => rest == [] || PlainViewable(depth - 1, rest, root))
  }

  predicate PlainViewable(depth: nat, d: Dict, root: Json)
    decreases depth, 3
  {
    && (Has(d, "oneOf") ==> !Truthy(Find(d, "oneOf").value))
    && !Has(d, "allOf")
    && ShapeViewable(depth, PlainShape(d), root)
  }

  predicate ShapeViewable(depth: nat, shape: Shape, root: Json)
    decreases depth, 2
  {
    match shape
    case Object(props, required) =>
      RequiredNames(required).Some? && forall p | p in props :: Viewable(depth, p.value, root)
    case Array(items, _, _) => Viewable(depth, items, root)
    case Leaf(raw, _, _) => raw.Str?
    case Broken => false
    case _ => true
  }

  /** A call reaches an object with a property called `required`. */
  predicate Clashes(depth: nat, schema: Json, root: Json)
    decreases depth, 1
  {
    depth > 0 && ShapeClashes(depth - 1, ShapeOf(schema, Config, root), root)
  }

  predicate ShapeClashes(depth: nat, shape: Shape, root: Json)
    decreases depth, 2
  {
    match shape
    case Again(next, _) => Clashes(depth, next, root)
    case Array(items, _, _) => Clashes(depth, items, root)
    case Object(props, _) => exists p | p in props :: p.key == "required" || Clashes(depth, p.value, root)
    case _ => false
  }

  predicate FieldsClash(depth: nat, props: Dict, root: Json) {
    exists p | p in props :: p.key == "required" || Clashes(depth, p.value, root)
  }

  // ---------- the comparison ----------

  /** Both runs finish; the view erases to the template exactly without a clash, and a clash shows. */
  ghost predicate Compared(view: Outcome<Json>, template: Outcome<Json>, clash: bool) {
    && view.Done? && template.Done?
    && !view.value.Str?
    && (Erase(view.value) == template.value <==> !clash)
    && (clash ==> Erase(view.value) != Null && template.value != Null)
  }

  predicate ShapeSeen(depth: nat, shape: Shape, root: Json) {
    match shape
    case Again(next, collapsed) => collapsed == 0 && Viewable(depth, next, root)
    case Verbatim(v) => !v.Str? && !v.Obj?
    case Leaf(_, _, meta) => ShapeViewable(depth, shape, root) && !Has(meta, "items")
    case Union(_, _, _) => false
    case _ => ShapeViewable(depth, shape, root)
  }

  lemma {:induction false} SameView(depth: nat, schema: Json, root: Json)
    requires Viewable(depth, schema, root)
    ensures ShapeOf(schema, Schema, root) == ShapeOf(schema, Config, root)
    ensures depth > 0 && ShapeSeen(depth - 1, ShapeOf(schema, Config, root), root)
  {
    if schema.Obj? {
      ConstraintsHas(schema.fields, CONSTRAINTS, "items");
      ConstraintsHas(Without(schema.fields, "$ref"), CONSTRAINTS, "items");
    }
  }

  /** Main theorem: under the other conditions the two modes agree if and only if no call reaches an object
      with a property called `required`. */
  lemma {:induction false} ProjectionIff(depth: nat, schema: Json, path: string, root: Json)
    requires Viewable(depth, schema, root)
    ensures Compared(SlimSchema(depth, schema, Schema, path, root), SlimSchema(depth, schema, Config, path, root),
                     Clashes(depth, schema, root))
    decreases depth, 1
  {
    SameView(depth, schema, root);
    ShapeCompared(depth - 1, ShapeOf(schema, Config, root), path, root);
  }

  lemma {:induction false} ShapeCompared(depth: nat, shape: Shape, path: string, root: Json)
    requires ShapeSeen(depth, shape, root)
    ensures Compared(SlimShape(depth, shape, Schema, path, root), SlimShape(depth, shape, Config, path, root),
                     ShapeClashes(depth, shape, root))
    decreases depth, 3
  {
    match shape
    case Again(next, _) => ProjectionIff(depth, next, path, root);
    case Object(props, required) =>
      FieldsCompared(depth, props, path, root);
      ObjectCompared(depth, props, required, path, root);
    case Array(items, default, meta) =>
      ProjectionIff(depth, items, path + "[]", root);
      ArrayCompared(SlimSchema(depth, items, Schema, path + "[]", root).value,
                    SlimSchema(depth, items, Config, path + "[]", root).value, default, meta);
    case Leaf(raw, default, meta) => LeafAgrees(raw, default, meta);
    case Constant(v) => ConstAgrees(v);
    case _ =>
  }

  lemma {:induction false} ArrayCompared(view: Json, item: Json, default: Json, meta: Dict)
    requires Erase(view) == item || (Erase(view) != Null && item != Null)
    ensures var a, b := Erase(ArrayEntry(view, default, meta, Schema)), ArrayEntry(item, default, meta, Config);
            && (a == b <==> Erase(view) == item)
            && (Erase(view) != item ==> a != Null && b != Null)
  {
    ArrayAgrees(view, Erase(view), default, meta);
    assert [Erase(view)][0] == Erase(view) && [item][0] == item;
  }

  ghost predicate LoopsCompared(views: Outcome<Dict>, templates: Outcome<Dict>, clash: bool) {
    && views.Done? && templates.Done?
    && (EraseFields(views.value) == templates.value <==> !clash)
    && !IsEntry(views.value)
  }

  lemma {:induction false} ObjectCompared(depth: nat, props: Dict, required: Json, path: string, root: Json)
    requires RequiredNames(required).Some?
    requires LoopsCompared(SlimFields(depth, props, Schema, path, root), SlimFields(depth, props, Config, path, root),
                           FieldsClash(depth, props, root))
    ensures Compared(SlimObject(depth, props, required, Schema, path, root),
                     SlimObject(depth, props, required, Config, path, root), FieldsClash(depth, props, root))
  {
    var views := SlimFields(depth, props, Schema, path, root).value;
    FindPut(views, "required", required, "type");
    EraseDropsRequired(views, required);
  }

  lemma {:induction false} FieldsCompared(depth: nat, props: Dict, path: string, root: Json)
    requires forall p | p in props :: Viewable(depth, p.value, root)
    ensures LoopsCompared(SlimFields(depth, props, Schema, path, root), SlimFields(depth, props, Config, path, root),
                          FieldsClash(depth, props, root))
    decreases depth, 2, |props|
  {
    if props != [] {
      var p, rest := props[0], props[1..];
      assert p in props && forall q | q in rest :: q in props;
      ProjectionIff(depth, p.value, JoinPath(path, p.key), root);
      FieldsCompared(depth, rest, path, root);
      ClashCons(depth, p, rest, root);
      assert props == [p] + rest;
      FirstCompared(p.key, SlimSchema(depth, p.value, Schema, JoinPath(path, p.key), root).value,
                    SlimFields(depth, rest, Schema, path, root).value,
                    SlimSchema(depth, p.value, Config, JoinPath(path, p.key), root).value,
                    SlimFields(depth, rest, Config, path, root).value);
    }
  }

  lemma {:induction false} ClashCons(depth: nat, p: Field, rest: Dict, root: Json)
    ensures FieldsClash(depth, [p] + rest, root)
            <==> p.key == "required" || Clashes(depth, p.value, root) || FieldsClash(depth, rest, root)
  {
    assert p in [p] + rest && forall q | q in rest :: q in [p] + rest;
  }

  /** One more field. */
  lemma {:induction false} FirstCompared(key: string, view: Json, views: Dict, template: Json, templates: Dict)
    requires !view.Str? && !IsEntry(views)
    ensures !IsEntry([Field(key, view)] + views)
    ensures EraseFields([Field(key, view)] + views) == [Field(key, template)] + templates
            <==> key != "required" && Erase(view) == template && EraseFields(views) == templates
  {
    var d, e := [Field(key, view)] + views, [Field(key, template)] + templates;
    assert d[1..] == views && e[1..] == templates && e[0] == Field(key, template);
    if key == "required" {
      NeverRequired(d);
      assert Has(e, "required");
    } else {
      var erased := [Field(key, Erase(view))] + EraseFields(views);
      assert erased[0] == Field(key, Erase(view)) && erased[1..] == EraseFields(views);
    }
  }

  // ---------- what is lost is lost ----------

  /** `{"properties": {"required": {"default": v}}, "required": [name]}`. */
  function Clashing(name: string, v: Json): Dict {
    [Field("properties", Obj([Field("required", Obj([Field("default", v)]))])), Field("required", Arr([Str(name)]))]
  }

  lemma {:induction false} DefaultRenders(depth: nat, v: Json, mode: Mode, path: string, root: Json)
    requires depth > 0
    ensures SlimSchema(depth, Obj([Field("default", v)]), mode, path, root)
            == Done(if mode.Schema? then Obj([Field("type", Str("string")), Field("default", v)]) else v, [])
  {
    var d := [Field("default", v)];
    assert d[1..] == [];
    forall k: string ensures Find(d, k) == if k == "default" then Some(v) else None {}
    NoConstraints(d, CONSTRAINTS);
    var view := [Field("type", Str("string")), Field("default", v)];
    assert view + [] == view;
  }

  lemma {:induction false} NoConstraints(d: Dict, keys: seq<string>)
    requires forall k | k in keys :: !Has(d, k)
    ensures Constraints(d, keys) == []
  {
    if keys != [] {
      assert keys[0] in keys && forall k | k in keys[1..] :: k in keys;
      NoConstraints(d, keys[1..]);
    }
  }

  lemma ClashingShape(name: string, v: Json, mode: Mode, root: Json)
    ensures ShapeOf(Obj(Clashing(name, v)), mode, root)
            == Object([Field("required", Obj([Field("default", v)]))], Arr([Str(name)]))
  {
    var d := Clashing(name, v);
    var p := Obj([Field("required", Obj([Field("default", v)]))]);
    assert d[1..] == [Field("required", Arr([Str(name)]))] && d[1..][1..] == [];
    forall k: string
      ensures Find(d, k)
              == if k == "properties" then Some(p) else if k == "required" then Some(Arr([Str(name)])) else None
    {
      assert Find(d[1..], k) == if k == "required" then Some(Arr([Str(name)])) else None;
    }
  }

  /** Main theorem: no reading of the view gives the template back, for the view does not depend on the
      property at all. */
  lemma {:induction false} NoReadingRecovers(name: string, v: Json, w: Json, root: Json, read: Json -> Json)
    requires v != w
    ensures var a, b := Obj(Clashing(name, v)), Obj(Clashing(name, w));
            && SlimSchema(2, a, Schema, "", root).Done? && SlimSchema(2, b, Schema, "", root).Done?
            && SlimSchema(2, a, Config, "", root).Done? && SlimSchema(2, b, Config, "", root).Done?
            && !(read(SlimSchema(2, a, Schema, "", root).value) == SlimSchema(2, a, Config, "", root).value
                 && read(SlimSchema(2, b, Schema, "", root).value) == SlimSchema(2, b, Config, "", root).value)
  {
    ClashingRuns(name, v, root);
    ClashingRuns(name, w, root);
    assert [Field("required", v)][0] == Field("required", v) && [Field("required", w)][0] == Field("required", w);
  }

  lemma {:induction false} ClashingRuns(name: string, v: Json, root: Json)
    ensures var a := Obj(Clashing(name, v));
            && SlimSchema(2, a, Schema, "", root).Done? && SlimSchema(2, a, Config, "", root).Done?
            && SlimSchema(2, a, Schema, "", root).value == Obj([Field("required", Arr([Str(name)]))])
            && SlimSchema(2, a, Config, "", root).value == Obj([Field("required", v)])
  {
    var props := [Field("required", Obj([Field("default", v)]))];
    ClashingShape(name, v, Schema, root);
    ClashingShape(name, v, Config, root);
    DefaultRenders(1, v, Schema, JoinPath("", "required"), root);
    DefaultRenders(1, v, Config, JoinPath("", "required"), root);
    assert props[1..] == [];
    var view := Obj([Field("type", Str("string")), Field("default", v)]);
    assert SlimFields(1, props, Schema, "", root) == Done([Field("required", view)] + [], [] + []);
    assert SlimFields(1, props, Config, "", root) == Done([Field("required", v)] + [], [] + []);
    assert Put([Field("required", view)] + [], "required", Arr([Str(name)])) == [Field("required", Arr([Str(name)]))];
    assert [Field("required", v)] + [] == [Field("required", v)];
    assert RequiredNames(Arr([Str(name)])).Some?;
  }
}
