/** The two template modes agree: erasing the metadata of a schema-mode view gives exactly the
    config-mode template. */
module SchemaProjection {
  import opened Json
  import opened SchemaTemplate

  /** Reads a schema-mode view back: the default of a leaf, the value of a const, the single
      item (else the default) of an array, and objects without the added `required`. */
  function Erase(view: Json): Json
    decreases view, 0
  {
    match view
    case Obj(d) =>
      if !IsEntry(d) then Obj(EraseFields(d))
      else if !Has(d, "default") then GetOr(d, "const", Null)
      else if !Has(d, "items") then Find(d, "default").value
      else
        FindAt(d, "items");
        var item := Erase(Find(d, "items").value);
        if item != Null then Arr([item]) else Find(d, "default").value
    case _ => view
  }

  function EraseFields(d: Dict): Dict
    decreases d, 1
  {
    if d == [] then []
    else if d[0].key == "required" then EraseFields(d[1..])
    else [Field(d[0].key, Erase(d[0].value))] + EraseFields(d[1..])
  }

  /** A metadata entry is told from a rendered object by a textual `type`. */
  predicate IsEntry(d: Dict) {
    Has(d, "type") && Find(d, "type").value.Str?
  }

  // ---------- the schemas the law covers ----------

  /** No `oneOf` or `allOf`, textual types, and no property called `required`, at every level
      the compiler visits within `depth` calls. Siblings of `$ref` are allowed. */
  predicate Projectable(depth: nat, schema: Json, root: Json)
    decreases depth, 1
  {
    depth > 0 && !schema.Str? &&
    (schema.Obj? ==>
       match Find(schema.fields, "$ref")
       case None => Plain(depth - 1, schema.fields, root)
       case Some(ref) =>
         var rest := Without(schema.fields, "$ref");
         match ResolveRef(ref, root)
         case Some(target) => Projectable(depth - 1, Obj(Update(target, rest)), root)
         case None => rest == [] || Plain(depth - 1, rest, root))
  }

  predicate Plain(depth: nat, d: Dict, root: Json)
    decreases depth, 3
  {
    && (Has(d, "oneOf") ==> !Truthy(Find(d, "oneOf").value))
    && !Has(d, "allOf")
    && ShapeProjectable(depth, PlainShape(d), root)
  }

  predicate ShapeProjectable(depth: nat, shape: Shape, root: Json)
    decreases depth, 2
  {
    match shape
    case Object(props, required) =>
      && RequiredNames(required).Some?
      && !Has(props, "required")
      && forall p | p in props :: Projectable(depth, p.value, root)
    case Array(items, _, _) => Projectable(depth, items, root)
    case Leaf(raw, _, _) => raw.Str?
    case Broken => false
    case _ => true
  }

  // ---------- the proof ----------

  lemma {:induction false} FindPut(d: Dict, k: string, v: Json, other: string)
    ensures Find(Put(d, k, v), other) == if other == k then Some(v) else Find(d, other)
  {
    if d == [] {
      assert Put(d, k, v)[1..] == [];
    } else if d[0].key == k {
      assert Put(d, k, v)[1..] == d[1..];
    } else {
      FindPut(d[1..], k, v, other);
      assert Put(d, k, v)[1..] == Put(d[1..], k, v);
    }
  }

  lemma {:induction false} EraseDropsRequired(d: Dict, v: Json)
    ensures EraseFields(Put(d, "required", v)) == EraseFields(d)
  {
    if d == [] {
      assert Put(d, "required", v)[1..] == [];
    } else if d[0].key == "required" {
      assert Put(d, "required", v)[1..] == d[1..];
    } else {
      EraseDropsRequired(d[1..], v);
      assert Put(d, "required", v)[1..] == Put(d[1..], "required", v);
    }
  }

  /** Both runs finish, and the view erases to the template. */
  ghost predicate Agree(view: Outcome<Json>, template: Outcome<Json>) {
    && view.Done? && template.Done?
    && !view.value.Str?
    && Erase(view.value) == template.value
  }

  lemma {:induction false} LeafAgrees(raw: Json, default: Json, meta: Dict)
    requires raw.Str? && !Has(meta, "items")
    ensures Erase(Obj([Field("type", raw), Field("default", default)] + meta)) == default
  {
    var d := [Field("type", raw), Field("default", default)] + meta;
    assert d[1..] == [Field("default", default)] + meta && d[1..][1..] == meta;
    assert Find(d, "items") == Find(d[1..], "items") == Find(meta, "items");
    assert Find(d, "default") == Find(d[1..], "default") == Some(default);
  }

  lemma {:induction false} ArrayAgrees(view: Json, item: Json, default: Json, meta: Dict)
    requires Erase(view) == item
    ensures Erase(ArrayEntry(view, default, meta, Schema)) == ArrayEntry(item, default, meta, Config)
  {
    var d := [Field("type", Str("array")), Field("default", default), Field("items", view)] + meta;
    assert d[1..] == [Field("default", default), Field("items", view)] + meta;
    assert d[1..][1..] == [Field("items", view)] + meta;
    assert Find(d, "default") == Find(d[1..], "default") == Some(default);
    assert Find(d, "items") == Find(d[1..], "items") == Find(d[1..][1..], "items") == Some(view);
  }

  lemma {:induction false} ConstAgrees(v: Json)
    ensures Erase(Obj([Field("type", Str("const")), Field("const", v)])) == v
  {
    var d := [Field("type", Str("const")), Field("const", v)];
    assert d[1..] == [Field("const", v)] && d[1..][1..] == [];
    assert Find(d, "const") == Find(d[1..], "const") == Some(v);
    assert Find(d, "default") == Find(d[1..], "default") == Find(d[1..][1..], "default") == None;
  }

  predicate ShapeCovered(depth: nat, shape: Shape, root: Json) {
    match shape
    case Again(next, collapsed) => collapsed == 0 && Projectable(depth, next, root)
    case Verbatim(v) => !v.Str? && !v.Obj?
    case Leaf(_, _, meta) => ShapeProjectable(depth, shape, root) && !Has(meta, "items")
    case Union(_, _, _) => false
    case _ => ShapeProjectable(depth, shape, root)
  }

  lemma {:induction false} SameShape(depth: nat, schema: Json, root: Json)
    requires Projectable(depth, schema, root)
    ensures ShapeOf(schema, Schema, root) == ShapeOf(schema, Config, root)
    ensures depth > 0 && ShapeCovered(depth - 1, ShapeOf(schema, Config, root), root)
  {
    if schema.Obj? {
      ConstraintsHas(schema.fields, CONSTRAINTS, "items");
      ConstraintsHas(Without(schema.fields, "$ref"), CONSTRAINTS, "items");
    }
  }

  lemma {:induction false} ConstraintsHas(d: Dict, keys: seq<string>, k: string)
    requires k !in keys
    ensures !Has(Constraints(d, keys), k)
  {
    if keys != [] {
      ConstraintsHas(d, keys[1..], k);
      if Has(d, keys[0]) { assert Constraints(d, keys)[1..] == Constraints(d, keys[1..]); }
    }
  }

  /** Main theorem. */
  lemma {:induction false} ConfigIsProjection(depth: nat, schema: Json, path: string, root: Json)
    requires Projectable(depth, schema, root)
    ensures Agree(SlimSchema(depth, schema, Schema, path, root), SlimSchema(depth, schema, Config, path, root))
    decreases depth, 1
  {
    SameShape(depth, schema, root);
    ShapeAgrees(depth - 1, ShapeOf(schema, Config, root), path, root);
  }

  lemma {:induction false} ShapeAgrees(depth: nat, shape: Shape, path: string, root: Json)
    requires ShapeCovered(depth, shape, root)
    ensures Agree(SlimShape(depth, shape, Schema, path, root), SlimShape(depth, shape, Config, path, root))
    decreases depth, 3
  {
    match shape
    case Again(next, _) => ConfigIsProjection(depth, next, path, root);
    case Object(props, required) =>
      FieldsAgree(depth, props, path, root);
      ObjectAgrees(depth, props, required, path, root);
    case Array(items, default, meta) =>
      ConfigIsProjection(depth, items, path + "[]", root);
      ArrayAgrees(SlimSchema(depth, items, Schema, path + "[]", root).value,
                  SlimSchema(depth, items, Config, path + "[]", root).value, default, meta);
    case Leaf(raw, default, meta) => LeafAgrees(raw, default, meta);
    case Constant(v) => ConstAgrees(v);
    case _ =>
  }

  /** The property loops agree, and render `type` as anything but text. */
  ghost predicate LoopsAgree(views: Outcome<Dict>, templates: Outcome<Dict>) {
    && views.Done? && templates.Done?
    && EraseFields(views.value) == templates.value
    && !IsEntry(views.value)
  }

  lemma {:induction false} ObjectAgrees(depth: nat, props: Dict, required: Json, path: string, root: Json)
    requires RequiredNames(required).Some?
    requires LoopsAgree(SlimFields(depth, props, Schema, path, root), SlimFields(depth, props, Config, path, root))
    ensures Agree(SlimObject(depth, props, required, Schema, path, root),
                  SlimObject(depth, props, required, Config, path, root))
  {
    var views := SlimFields(depth, props, Schema, path, root).value;
    FindPut(views, "required", required, "type");
    EraseDropsRequired(views, required);
  }

  lemma {:induction false} FieldsAgree(depth: nat, props: Dict, path: string, root: Json)
    requires !Has(props, "required")
    requires forall p | p in props :: Projectable(depth, p.value, root)
    ensures LoopsAgree(SlimFields(depth, props, Schema, path, root), SlimFields(depth, props, Config, path, root))
    decreases depth, 2, |props|
  {
    if props != [] {
      assert props[0] in props;
      ConfigIsProjection(depth, props[0].value, JoinPath(path, props[0].key), root);
      assert forall p | p in props[1..] :: p in props;
      FieldsAgree(depth, props[1..], path, root);
      var views := SlimFields(depth, props, Schema, path, root).value;
      assert views[1..] == SlimFields(depth, props[1..], Schema, path, root).value;
      assert SlimFields(depth, props, Config, path, root).value[1..]
          == SlimFields(depth, props[1..], Config, path, root).value;
    }
  }

  /** The side condition is needed: an object with a property called `required` never erases to
      its config template. */
  lemma {:induction false} RequiredPropertyLost(depth: nat, props: Dict, required: Json, path: string, root: Json)
    requires Has(props, "required") && RequiredNames(required).Some?
    requires SlimFields(depth, props, Schema, path, root).Done? && SlimFields(depth, props, Config, path, root).Done?
    requires !IsEntry(SlimFields(depth, props, Schema, path, root).value)
    ensures Erase(SlimObject(depth, props, required, Schema, path, root).value)
            != SlimObject(depth, props, required, Config, path, root).value
  {
    var views := SlimFields(depth, props, Schema, path, root).value;
    FindPut(views, "required", required, "type");
    EraseDropsRequired(views, required);
    NeverRequired(views);
    KeysKept(depth, props, path, root, "required");
  }

  lemma {:induction false} NeverRequired(d: Dict)
    ensures !Has(EraseFields(d), "required")
  {
    if d != [] {
      NeverRequired(d[1..]);
      if d[0].key != "required" { assert EraseFields(d)[1..] == EraseFields(d[1..]); }
    }
  }

  lemma {:induction false} KeysKept(depth: nat, props: Dict, path: string, root: Json, k: string)
    requires SlimFields(depth, props, Config, path, root).Done?
    ensures Has(props, k) <==> Has(SlimFields(depth, props, Config, path, root).value, k)
  {
    if props != [] {
      KeysKept(depth, props[1..], path, root, k);
      assert SlimFields(depth, props, Config, path, root).value[1..]
          == SlimFields(depth, props[1..], Config, path, root).value;
    }
  }
}
