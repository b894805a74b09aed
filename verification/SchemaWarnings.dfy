/** What the "required fields" warnings say: exactly the required fields the compiler reached
    whose template value is null. */
module SchemaWarnings {
  import opened Json
  import opened SchemaTemplate
  import opened SchemaTermination

  /** One call of `_slim_schema` in config mode. */
  datatype Visit = Visit(schema: Json, path: string)

  ghost predicate ShapeCalls(shape: Shape, path: string, next: Visit) {
    match shape
    case Again(s, _) => next == Visit(s, path)
    case Object(props, _) => exists p | p in props :: next == Visit(p.value, JoinPath(path, p.key))
    case Array(items, _, _) => next == Visit(items, path + "[]")
    case _ => false
  }

  ghost predicate Calls(v: Visit, next: Visit, root: Json) {
    ShapeCalls(ShapeOf(v.schema, Config, root), v.path, next)
  }

  /** A chain of nested calls. */
  ghost predicate Trail(vs: seq<Visit>, root: Json) {
    |vs| > 0 && forall i | 0 <= i < |vs| - 1 :: Calls(vs[i], vs[i + 1], root)
  }

  /** An object with a required field called `name` in full that renders as null. */
  ghost predicate ShapeMissing(shape: Shape, path: string, name: string, root: Json) {
    shape.Object? && RequiredNames(shape.required).Some? &&
    exists p | p in shape.props ::
      && p.key in RequiredNames(shape.required).value
      && name == JoinPath(path, p.key)
      && NullTemplate(p.value, name, root)
  }

  ghost predicate MissingAt(v: Visit, name: string, root: Json) {
    ShapeMissing(ShapeOf(v.schema, Config, root), v.path, name, root)
  }

  ghost predicate NullTemplate(schema: Json, path: string, root: Json) {
    exists depth: nat :: RendersNull(depth, schema, path, root)
  }

  ghost predicate RendersNull(depth: nat, schema: Json, path: string, root: Json) {
    var o := SlimSchema(depth, schema, Config, path, root);
    o.Done? && o.value == Null
  }

  ghost predicate Reaches(v: Visit, name: string, root: Json) {
    exists vs: seq<Visit> :: Trail(vs, root) && vs[0] == v && MissingAt(vs[|vs| - 1], name, root)
  }

  predicate Names(ws: seq<Warning>, name: string) {
    exists w | w in ws :: w.RequiredNull? && name in w.names
  }

  // ---------- trails ----------

  lemma TrailStep(v: Visit, next: Visit, name: string, root: Json)
    requires Calls(v, next, root) && Reaches(next, name, root)
    ensures Reaches(v, name, root)
  {
    var vs :| Trail(vs, root) && vs[0] == next && MissingAt(vs[|vs| - 1], name, root);
    var longer := [v] + vs;
    forall i | 0 <= i < |longer| - 1 ensures Calls(longer[i], longer[i + 1], root) {
      if i > 0 { assert longer[i] == vs[i - 1] && longer[i + 1] == vs[i]; }
    }
    assert Trail(longer, root) && longer[0] == v;
  }

  lemma TrailHere(v: Visit, name: string, root: Json)
    requires MissingAt(v, name, root)
    ensures Reaches(v, name, root)
  {
    var vs := [v];
    assert Trail(vs, root) && vs[0] == v;
  }

  lemma TrailRest(vs: seq<Visit>, root: Json)
    requires Trail(vs, root) && |vs| > 1
    ensures Calls(vs[0], vs[1], root) && Trail(vs[1..], root)
  {
    var rest := vs[1..];
    forall i | 0 <= i < |rest| - 1 ensures Calls(rest[i], rest[i + 1], root) {
      assert rest[i] == vs[i + 1] && rest[i + 1] == vs[i + 2];
    }
  }

  lemma TrailSplit(v: Visit, vs: seq<Visit>, name: string, root: Json)
    requires Trail(vs, root) && vs[0] == v && MissingAt(vs[|vs| - 1], name, root)
    ensures MissingAt(v, name, root) || exists next: Visit :: Calls(v, next, root) && Reaches(next, name, root)
  {
    if |vs| > 1 {
      TrailRest(vs, root);
      var rest := vs[1..];
      assert rest[0] == vs[1] && rest[|rest| - 1] == vs[|vs| - 1];
      assert Reaches(vs[1], name, root);
    }
  }

  lemma NamesConcat(a: seq<Warning>, b: seq<Warning>, name: string)
    ensures Names(a + b, name) <==> Names(a, name) || Names(b, name)
  {
    assert forall w :: w in a + b <==> w in a || w in b;
  }

  lemma {:induction false} NullRequiredIs(result: Dict, required: seq<string>, path: string, name: string)
    ensures name in NullRequired(result, required, path)
            <==> exists f | f in result :: f.value == Null && f.key in required && name == JoinPath(path, f.key)
  {
    if result != [] {
      NullRequiredIs(result[1..], required, path, name);
      assert result == [result[0]] + result[1..];
    }
  }

  /** The name is missing here, or lies beyond one more call. */
  ghost predicate Beyond(shape: Shape, path: string, name: string, root: Json) {
    || ShapeMissing(shape, path, name, root)
    || exists next: Visit :: ShapeCalls(shape, path, next) && Reaches(next, name, root)
  }

  lemma ReachesIff(v: Visit, name: string, root: Json)
    ensures Reaches(v, name, root) <==> Beyond(ShapeOf(v.schema, Config, root), v.path, name, root)
  {
    var shape := ShapeOf(v.schema, Config, root);
    if Reaches(v, name, root) {
      var vs: seq<Visit> :| Trail(vs, root) && vs[0] == v && MissingAt(vs[|vs| - 1], name, root);
      TrailSplit(v, vs, name, root);
    }
    if ShapeMissing(shape, v.path, name, root) {
      TrailHere(v, name, root);
    } else if Beyond(shape, v.path, name, root) {
      var next: Visit :| ShapeCalls(shape, v.path, next) && Reaches(next, name, root);
      TrailStep(v, next, name, root);
    }
  }

  // ---------- the theorem ----------

  /** Main theorem, for every schema the compiler finishes on, `oneOf`/`allOf` collapsing included. */
  lemma {:induction false} WarningsAreExact(depth: nat, schema: Json, path: string, root: Json, name: string)
    requires SlimSchema(depth, schema, Config, path, root).Done?
    ensures Names(SlimSchema(depth, schema, Config, path, root).warnings, name)
            <==> Reaches(Visit(schema, path), name, root)
    decreases depth, 0
  {
    ReachesIff(Visit(schema, path), name, root);
    NoUnion(schema, root);
    ShapeWarnings(depth - 1, ShapeOf(schema, Config, root), path, root, name);
  }

  lemma NoUnion(schema: Json, root: Json)
    ensures !ShapeOf(schema, Config, root).Union?
  {
  }

  lemma {:induction false} ShapeWarnings(depth: nat, shape: Shape, path: string, root: Json, name: string)
    requires !shape.Union? && SlimShape(depth, shape, Config, path, root).Done?
    ensures Names(SlimShape(depth, shape, Config, path, root).warnings, name) <==> Beyond(shape, path, name, root)
    decreases depth, 3
  {
    match shape
    case Again(next, collapsed) =>
      WarningsAreExact(depth, next, path, root, name);
      var noted := if collapsed > 0 then [Collapsed(path, collapsed)] else [];
      NamesConcat(noted, SlimSchema(depth, next, Config, path, root).warnings, name);
      assert ShapeCalls(shape, path, Visit(next, path));
    case Array(items, _, _) =>
      WarningsAreExact(depth, items, path + "[]", root, name);
      assert ShapeCalls(shape, path, Visit(items, path + "[]"));
    case Object(props, required) =>
      FieldsWarnings(depth, props, path, root, name);
      ObjectWarnings(depth, props, required, path, root, name);
    case _ =>
  }

  lemma {:induction false} ObjectNames(depth: nat, props: Dict, required: Json, path: string, root: Json, name: string)
    requires SlimObject(depth, props, required, Config, path, root).Done?
    ensures var fs := SlimFields(depth, props, Config, path, root);
            fs.Done? && RequiredNames(required).Some?
            && (Names(SlimObject(depth, props, required, Config, path, root).warnings, name)
                <==> Names(fs.warnings, name) || name in NullRequired(fs.value, RequiredNames(required).value, path))
  {
    var fs := SlimFields(depth, props, Config, path, root);
    var nulls := NullRequired(fs.value, RequiredNames(required).value, path);
    NamesConcat(fs.warnings, Noted(nulls), name);
    NotedNames(nulls, name);
  }

  lemma BeyondObject(props: Dict, required: Json, path: string, name: string, root: Json)
    ensures Beyond(Object(props, required), path, name, root)
            <==> ShapeMissing(Object(props, required), path, name, root)
                 || exists p | p in props :: Reaches(Visit(p.value, JoinPath(path, p.key)), name, root)
  {
    if p: Field :| p in props && Reaches(Visit(p.value, JoinPath(path, p.key)), name, root) {
      assert ShapeCalls(Object(props, required), path, Visit(p.value, JoinPath(path, p.key)));
    }
  }

  lemma {:induction false} ObjectWarnings(
    depth: nat, props: Dict, required: Json, path: string, root: Json, name: string)
    requires SlimObject(depth, props, required, Config, path, root).Done?
    requires Names(SlimFields(depth, props, Config, path, root).warnings, name)
             <==> exists p | p in props :: Reaches(Visit(p.value, JoinPath(path, p.key)), name, root)
    ensures Names(SlimObject(depth, props, required, Config, path, root).warnings, name)
            <==> Beyond(Object(props, required), path, name, root)
  {
    ObjectNames(depth, props, required, path, root, name);
    BeyondObject(props, required, path, name, root);
    NullRequiredIs(SlimFields(depth, props, Config, path, root).value, RequiredNames(required).value, path, name);
    ObjectMissing(depth, props, required, path, root, name);
  }

  lemma NotedNames(nulls: seq<string>, name: string)
    ensures Names(Noted(nulls), name) <==> name in nulls
  {
    if name in nulls { assert RequiredNull(nulls) in Noted(nulls); }
  }

  lemma {:induction false} FieldsWarnings(depth: nat, props: Dict, path: string, root: Json, name: string)
    requires SlimFields(depth, props, Config, path, root).Done?
    ensures Names(SlimFields(depth, props, Config, path, root).warnings, name)
            <==> exists p | p in props :: Reaches(Visit(p.value, JoinPath(path, p.key)), name, root)
    decreases depth, 1, |props|
  {
    if props != [] {
      var first := SlimSchema(depth, props[0].value, Config, JoinPath(path, props[0].key), root);
      WarningsAreExact(depth, props[0].value, JoinPath(path, props[0].key), root, name);
      FieldsWarnings(depth, props[1..], path, root, name);
      NamesConcat(first.warnings, SlimFields(depth, props[1..], Config, path, root).warnings, name);
      assert forall p :: p in props <==> p == props[0] || p in props[1..];
    }
  }

  /** The rendered fields correspond to the properties, nulls to null templates. */
  lemma {:induction false} FieldsNull(depth: nat, props: Dict, path: string, root: Json)
    requires SlimFields(depth, props, Config, path, root).Done?
    ensures var result := SlimFields(depth, props, Config, path, root).value;
            |result| == |props| &&
            forall i | 0 <= i < |props| ::
              && result[i].key == props[i].key
              && (result[i].value == Null <==> NullTemplate(props[i].value, JoinPath(path, props[i].key), root))
  {
    if props != [] {
      var sub := JoinPath(path, props[0].key);
      NullTemplateAt(depth, props[0].value, sub, root);
      FieldsNull(depth, props[1..], path, root);
      var result := SlimFields(depth, props, Config, path, root).value;
      var rest := SlimFields(depth, props[1..], Config, path, root).value;
      assert result[1..] == rest;
      forall i | 0 <= i < |props|
        ensures result[i].key == props[i].key
        ensures result[i].value == Null <==> NullTemplate(props[i].value, JoinPath(path, props[i].key), root)
      {
        if i > 0 { assert props[i] == props[1..][i - 1] && result[i] == rest[i - 1]; }
      }
    }
  }

  lemma {:induction false} NullTemplateAt(depth: nat, schema: Json, path: string, root: Json)
    requires SlimSchema(depth, schema, Config, path, root).Done?
    ensures NullTemplate(schema, path, root) <==> SlimSchema(depth, schema, Config, path, root).value == Null
  {
    if SlimSchema(depth, schema, Config, path, root).value == Null {
      assert RendersNull(depth, schema, path, root);
    }
    if NullTemplate(schema, path, root) {
      var n: nat :| RendersNull(n, schema, path, root);
      if n <= depth { DepthIrrelevant(n, depth, schema, Config, path, root); }
      else { DepthIrrelevant(depth, n, schema, Config, path, root); }
    }
  }

  lemma {:induction false} ObjectMissing(
    depth: nat, props: Dict, required: Json, path: string, root: Json, name: string)
    requires RequiredNames(required).Some? && SlimFields(depth, props, Config, path, root).Done?
    ensures var result := SlimFields(depth, props, Config, path, root).value;
            ShapeMissing(Object(props, required), path, name, root)
            <==> exists f | f in result :: f.value == Null && f.key in RequiredNames(required).value
                                           && name == JoinPath(path, f.key)
  {
    FieldsNull(depth, props, path, root);
    SameNulls(props, SlimFields(depth, props, Config, path, root).value, RequiredNames(required).value, path, root,
        name);
  }

  lemma SameNulls(props: Dict, result: Dict, required: seq<string>, path: string, root: Json, name: string)
    requires |result| == |props|
    requires forall i | 0 <= i < |props| ::
               && result[i].key == props[i].key
               && (result[i].value == Null <==> NullTemplate(props[i].value, JoinPath(path, props[i].key), root))
    ensures (exists p | p in props ::
               p.key in required && name == JoinPath(path, p.key) && NullTemplate(p.value, name, root))
            <==> exists f | f in result :: f.value == Null && f.key in required && name == JoinPath(path, f.key)
  {
    forall i | 0 <= i < |props| ensures props[i] in props && result[i] in result {}
  }
}
