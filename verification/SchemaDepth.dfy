/** The fragments without a depth: when every schema met is of the fragment and references are acyclic,
    some depth suffices, and then every larger one. */
module SchemaDepth {
  import opened Json
  import opened SchemaTemplate
  import opened SchemaTermination
  import opened SchemaValidation
  import opened SchemaProjection

  // ---------- the validation fragment ----------

  ghost predicate Conforming(d: Dict, v: Json, root: Json) {
    v == Null || Valid(Obj(d), StripNulls(v), root)
  }

  /** What the fragment asks of one schema. */
  ghost predicate FragmentNode(d: Dict, root: Json) {
    && (forall f | f in d :: f.key in FRAGMENT_KEYWORDS)
    && match PlainShape(d)
       case Constant(v) => Conforming(d, v, root)
       case Object(props, required) =>
         Distinct(props) && Typed(d, "object") && !Has(d, "enum") && RequiredFrom(required, props)
       case Array(_, default, _) => !Has(d, "enum") && Conforming(d, default, root)
       case Leaf(_, default, _) => Conforming(d, default, root)
       case _ => false
  }

  /** Every schema met within `depth` calls is of the fragment. */
  ghost predicate FragmentWithin(depth: nat, schema: Json, root: Json)
    decreases depth
  {
    depth > 0 ==>
      match schema
      case Bool(b) => b
      case Obj(d) =>
        if Has(d, "$ref") then
          && |d| == 1
          && ResolveRef(d[0].value, root).Some?
          && FragmentWithin(depth - 1, Obj(ResolveRef(d[0].value, root).value), root)
        else
          && FragmentNode(d, root)
          && (match PlainShape(d)
              case Object(props, _) => forall p | p in props :: FragmentWithin(depth - 1, p.value, root)
              case Array(items, _, _) => FragmentWithin(depth - 1, items, root)
              case _ => true)
      case _ => false
  }

  ghost predicate FragmentSchema(schema: Json, root: Json) {
    forall depth: nat :: FragmentWithin(depth, schema, root)
  }

  lemma {:induction false} FragmentMonotone(depth: nat, more: nat, schema: Json, root: Json)
    requires depth <= more && InFragment(depth, schema, root)
    ensures InFragment(more, schema, root)
    decreases depth, 1
  {
    if schema.Obj? {
      var d := schema.fields;
      if Has(d, "$ref") {
        FragmentMonotone(depth - 1, more - 1, Obj(ResolveRef(d[0].value, root).value), root);
      } else {
        PlainMonotone(depth, more, d, root);
      }
    }
  }

  lemma {:induction false} PlainMonotone(depth: nat, more: nat, d: Dict, root: Json)
    requires depth <= more && InFragment(depth, Obj(d), root) && !Has(d, "$ref")
    ensures InFragment(more, Obj(d), root)
    decreases depth, 0
  {
    var shape := PlainShape(d);
    if shape.Object? {
      PropsMonotone(depth, more, d, root);
    } else if shape.Array? {
      FragmentMonotone(depth - 1, more - 1, shape.items, root);
      ConformsMonotone(depth, more, d, shape.default, root);
    } else if shape.Constant? {
      ConformsMonotone(depth, more, d, shape.value, root);
    } else {
      ConformsMonotone(depth, more, d, shape.default, root);
    }
  }

  lemma {:induction false} PropsMonotone(depth: nat, more: nat, d: Dict, root: Json)
    requires 0 < depth <= more && !Has(d, "$ref") && PlainShape(d).Object?
    requires PropsInFragment(depth - 1, PlainShape(d).props, root)
    ensures PropsInFragment(more - 1, PlainShape(d).props, root)
    decreases depth - 1, 2
  {
    forall p | p in PlainShape(d).props ensures InFragment(more - 1, p.value, root) {
      FragmentMonotone(depth - 1, more - 1, p.value, root);
    }
  }

  lemma ConformsMonotone(depth: nat, more: nat, d: Dict, v: Json, root: Json)
    requires depth <= more && Conforms(depth, d, v, root)
    ensures Conforms(more, d, v, root)
  {
    if v != Null { ValidatesMonotone(depth, more, Obj(d), StripNulls(v), root); }
  }

  lemma ConformsAt(d: Dict, v: Json, root: Json) returns (depth: nat)
    requires Conforming(d, v, root)
    ensures Conforms(depth, d, v, root)
  {
    if v == Null { return 0; }
    depth :| Validates(depth, Obj(d), StripNulls(v), root);
  }

  lemma {:induction false} FragmentCall(schema: Json, root: Json)
    requires FragmentWithin(1, schema, root) && schema.Obj?
    ensures var d := schema.fields;
            ShapeOf(schema, Config, root)
            == if Has(d, "$ref") then Again(Obj(ResolveRef(d[0].value, root).value), 0) else PlainShape(d)
  {
    var d := schema.fields;
    if Has(d, "$ref") {
      FindAt(d, "$ref");
      assert d[1..] == [] && d[0].key == "$ref";
      assert Without(d[1..], "$ref") == [];
      assert Find(d, "$ref") == Some(d[0].value) && Without(d, "$ref") == [];
    } else {
      if Has(d, "oneOf") { FindAt(d, "oneOf"); }
      if Has(d, "allOf") { FindAt(d, "allOf"); }
    }
  }

  function Max(a: nat, b: nat): nat {
    if a < b then b else a
  }

  lemma {:induction false} FragmentDepth(k: nat, schema: Json, root: Json, rank: Rank) returns (depth: nat)
    requires TopologicalRank(root, rank) && RefsBelow(k, schema, root, rank) && FragmentSchema(schema, root)
    ensures InFragment(depth, schema, root)
    decreases Weight(k, schema, root, rank), 1
  {
    assert FragmentWithin(1, schema, root);
    if !schema.Obj? { return 1; }
    var d := schema.fields;
    FragmentCall(schema, root);
    CallsSmaller(k, schema, Config, root, rank);
    if Has(d, "$ref") {
      TargetFragment(d, root);
      var n := FragmentDepth(k, Obj(ResolveRef(d[0].value, root).value), root, rank);
      return n + 1;
    }
    depth := PlainDepth(k, d, root, rank);
  }

  lemma TargetFragment(d: Dict, root: Json)
    requires FragmentSchema(Obj(d), root) && Has(d, "$ref")
    ensures |d| == 1 && ResolveRef(d[0].value, root).Some?
    ensures FragmentSchema(Obj(ResolveRef(d[0].value, root).value), root)
  {
    assert FragmentWithin(1, Obj(d), root);
    var target := Obj(ResolveRef(d[0].value, root).value);
    forall n: nat ensures FragmentWithin(n, target, root) { assert FragmentWithin(n + 1, Obj(d), root); }
  }

  lemma ChildrenFragment(d: Dict, root: Json)
    requires FragmentSchema(Obj(d), root) && !Has(d, "$ref")
    ensures FragmentNode(d, root)
    ensures PlainShape(d).Array? ==> FragmentSchema(PlainShape(d).items, root)
    ensures PlainShape(d).Object? ==> forall p | p in PlainShape(d).props :: FragmentSchema(p.value, root)
  {
    assert FragmentWithin(1, Obj(d), root);
    if PlainShape(d).Array? {
      forall n: nat ensures FragmentWithin(n, PlainShape(d).items, root) { assert FragmentWithin(n + 1, Obj(d), root); }
    }
    if PlainShape(d).Object? {
      forall p, n: nat | p in PlainShape(d).props ensures FragmentWithin(n, p.value, root) {
        assert FragmentWithin(n + 1, Obj(d), root);
      }
    }
  }

  lemma LeafDepth(d: Dict, v: Json, root: Json) returns (depth: nat)
    requires FragmentNode(d, root) && !Has(d, "$ref")
    requires PlainShape(d) == Constant(v) || (PlainShape(d).Leaf? && PlainShape(d).default == v)
    ensures InFragment(depth, Obj(d), root)
  {
    var n := ConformsAt(d, v, root);
    ConformsMonotone(n, n + 1, d, v, root);
    depth := n + 1;
  }

  lemma ArrayDepth(d: Dict, n: nat, root: Json) returns (depth: nat)
    requires FragmentNode(d, root) && !Has(d, "$ref") && PlainShape(d).Array?
    requires InFragment(n, PlainShape(d).items, root)
    ensures InFragment(depth, Obj(d), root)
  {
    var shape := PlainShape(d);
    var b := ConformsAt(d, shape.default, root);
    depth := Max(n, b) + 1;
    FragmentMonotone(n, depth - 1, shape.items, root);
    ConformsMonotone(b, depth, d, shape.default, root);
  }

  lemma {:induction false} PlainDepth(k: nat, d: Dict, root: Json, rank: Rank) returns (depth: nat)
    requires TopologicalRank(root, rank) && FragmentSchema(Obj(d), root) && !Has(d, "$ref")
    requires ShapeSmaller(k, PlainShape(d), Weight(k, Obj(d), root, rank), root, rank)
    ensures InFragment(depth, Obj(d), root)
    decreases Weight(k, Obj(d), root, rank), 0
  {
    ChildrenFragment(d, root);
    var shape := PlainShape(d);
    if shape.Constant? {
      depth := LeafDepth(d, shape.value, root);
    } else if shape.Leaf? {
      depth := LeafDepth(d, shape.default, root);
    } else if shape.Array? {
      var n := FragmentDepth(k, shape.items, root, rank);
      depth := ArrayDepth(d, n, root);
    } else {
      var n := FieldsDepth(k, shape.props, root, rank);
      assert PropsInFragment(n, shape.props, root);
      depth := n + 1;
    }
  }

  lemma {:induction false} FieldsDepth(k: nat, props: Dict, root: Json, rank: Rank) returns (depth: nat)
    requires TopologicalRank(root, rank) && RefsBelow(k, Obj(props), root, rank)
    requires forall p | p in props :: FragmentSchema(p.value, root)
    ensures forall p | p in props :: InFragment(depth, p.value, root)
    decreases FieldsWeight(k, props, root, rank), 2, |props|
  {
    if props == [] { return 0; }
    assert props[0] in props && forall p | p in props[1..] :: p in props;
    assert FieldWeight(k, props[0], root, rank) > Weight(k, props[0].value, root, rank);
    var a := FragmentDepth(k, props[0].value, root, rank);
    var b := FieldsDepth(k, props[1..], root, rank);
    depth := Max(a, b);
    FragmentMonotone(a, depth, props[0].value, root);
    forall p | p in props ensures InFragment(depth, p.value, root) {
      if p != props[0] {
        assert p in props[1..];
        FragmentMonotone(b, depth, p.value, root);
      }
    }
  }

  /** Main theorem: for schemas of the fragment with acyclic references, the promises about templates hold
      at every depth but finitely many. */
  lemma FragmentReached(schema: Json, root: Json) returns (limit: nat)
    requires AcyclicRefs(root) && FragmentSchema(schema, root)
    ensures forall depth: nat :: limit <= depth ==> InFragment(depth, schema, root)
  {
    var rank: Rank :| TopologicalRank(root, rank);
    var k := RefsBounded(schema, root, rank);
    limit := FragmentDepth(k, schema, root, rank);
    forall depth: nat | limit <= depth ensures InFragment(depth, schema, root) {
      FragmentMonotone(limit, depth, schema, root);
    }
  }

  // ---------- the projection fragment ----------

  /** As `Projectable`, but only as far as `depth` calls reach. */
  predicate ProjectsWithin(depth: nat, schema: Json, root: Json)
    decreases depth, 1
  {
    depth > 0 ==>
      !schema.Str? &&
      (schema.Obj? ==>
         match Find(schema.fields, "$ref")
         case None => PlainWithin(depth - 1, schema.fields, root)
         case Some(ref) =>
           var rest := Without(schema.fields, "$ref");
           match ResolveRef(ref, root)
           case Some(target) => ProjectsWithin(depth - 1, Obj(Update(target, rest)), root)
           case None => rest == [] || PlainWithin(depth - 1, rest, root))
  }

  predicate PlainWithin(depth: nat, d: Dict, root: Json)
    decreases depth, 3
  {
    && (Has(d, "oneOf") ==> !Truthy(Find(d, "oneOf").value))
    && !Has(d, "allOf")
    && ShapeWithin(depth, PlainShape(d), root)
  }

  predicate ShapeWithin(depth: nat, shape: Shape, root: Json)
    decreases depth, 2
  {
    match shape
    case Object(props, required) =>
      && RequiredNames(required).Some?
      && !Has(props, "required")
      && forall p | p in props :: ProjectsWithin(depth, p.value, root)
    case Array(items, _, _) => ProjectsWithin(depth, items, root)
    case Leaf(raw, _, _) => raw.Str?
    case Broken => false
    case _ => true
  }

  ghost predicate ProjectableSchema(schema: Json, root: Json) {
    forall depth: nat :: ProjectsWithin(depth, schema, root)
  }

  ghost predicate ProjectableShape(shape: Shape, root: Json) {
    forall depth: nat :: ShapeWithin(depth, shape, root)
  }

  lemma {:induction false} ProjectableMonotone(depth: nat, more: nat, schema: Json, root: Json)
    requires depth <= more && Projectable(depth, schema, root)
    ensures Projectable(more, schema, root)
    decreases depth, 1
  {
    if schema.Obj? {
      match Find(schema.fields, "$ref")
      case None => ShapeMonotone(depth - 1, more - 1, PlainShape(schema.fields), root);
      case Some(ref) =>
        var rest := Without(schema.fields, "$ref");
        match ResolveRef(ref, root)
        case Some(target) => ProjectableMonotone(depth - 1, more - 1, Obj(Update(target, rest)), root);
        case None => if rest != [] { ShapeMonotone(depth - 1, more - 1, PlainShape(rest), root); }
    }
  }

  lemma {:induction false} ShapeMonotone(depth: nat, more: nat, shape: Shape, root: Json)
    requires depth <= more && ShapeProjectable(depth, shape, root)
    ensures ShapeProjectable(more, shape, root)
    decreases depth, 2
  {
    match shape
    case Object(props, required) =>
      forall p | p in props ensures Projectable(more, p.value, root) {
        ProjectableMonotone(depth, more, p.value, root);
      }
    case Array(items, _, _) => ProjectableMonotone(depth, more, items, root);
    case _ =>
  }

  /** What a call goes on to is projectable. */
  predicate NextProjectable(depth: nat, shape: Shape, root: Json) {
    match shape
    case Again(next, _) => Projectable(depth, next, root)
    case Verbatim(_) => true
    case _ => ShapeProjectable(depth, shape, root)
  }

  lemma {:induction false} ProjectableUp(depth: nat, schema: Json, root: Json)
    requires ProjectsWithin(1, schema, root) && NextProjectable(depth, ShapeOf(schema, Config, root), root)
    ensures Projectable(depth + 1, schema, root)
  {
  }

  lemma {:induction false} ShapeOfWithin(n: nat, schema: Json, root: Json)
    requires ProjectsWithin(n + 1, schema, root)
    requires var shape := ShapeOf(schema, Config, root); !shape.Again? && !shape.Verbatim?
    ensures ShapeWithin(n, ShapeOf(schema, Config, root), root)
  {
    if Has(schema.fields, "$ref") {
      assert PlainWithin(n, Without(schema.fields, "$ref"), root);
    } else {
      assert PlainWithin(n, schema.fields, root);
    }
  }

  lemma {:induction false} ProjectableStep(schema: Json, root: Json)
    requires ProjectableSchema(schema, root)
    ensures ProjectsWithin(1, schema, root)
    ensures var shape := ShapeOf(schema, Config, root);
            && !shape.Union?
            && (shape.Again? ==> ProjectableSchema(shape.schema, root))
            && (!shape.Again? && !shape.Verbatim? ==> ProjectableShape(shape, root))
  {
    assert ProjectsWithin(1, schema, root);
    var shape := ShapeOf(schema, Config, root);
    if shape.Again? {
      forall n: nat ensures ProjectsWithin(n, shape.schema, root) { assert ProjectsWithin(n + 1, schema, root); }
    } else if !shape.Verbatim? {
      forall n: nat ensures ShapeWithin(n, shape, root) {
        assert ProjectsWithin(n + 1, schema, root);
        ShapeOfWithin(n, schema, root);
      }
    }
  }

  lemma {:induction false} ProjectableDepth(k: nat, schema: Json, root: Json, rank: Rank) returns (depth: nat)
    requires TopologicalRank(root, rank) && RefsBelow(k, schema, root, rank) && ProjectableSchema(schema, root)
    ensures Projectable(depth, schema, root)
    decreases Weight(k, schema, root, rank), 1
  {
    ProjectableStep(schema, root);
    CallsSmaller(k, schema, Config, root, rank);
    var shape := ShapeOf(schema, Config, root);
    var n := 0;
    if shape.Again? {
      n := ProjectableDepth(k, shape.schema, root, rank);
    } else if !shape.Verbatim? {
      n := ProjectableShapeDepth(k, Weight(k, schema, root, rank), shape, root, rank);
    }
    ProjectableUp(n, schema, root);
    depth := n + 1;
  }

  lemma {:induction false} ProjectableShapeDepth(k: nat, w: nat, shape: Shape, root: Json, rank: Rank)
    returns (depth: nat)
    requires TopologicalRank(root, rank) && ShapeSmaller(k, shape, w, root, rank) && ProjectableShape(shape, root)
    requires !shape.Again? && !shape.Union?
    ensures ShapeProjectable(depth, shape, root)
    decreases w, 0
  {
    assert ShapeWithin(0, shape, root);
    match shape
    case Object(props, required) =>
      forall p, n: nat | p in props ensures ProjectsWithin(n, p.value, root) { assert ShapeWithin(n, shape, root); }
      depth := ProjectableFieldsDepth(k, props, root, rank);
    case Array(items, _, _) =>
      forall n: nat ensures ProjectsWithin(n, items, root) { assert ShapeWithin(n, shape, root); }
      depth := ProjectableDepth(k, items, root, rank);
    case _ => depth := 0;
  }

  lemma {:induction false} ProjectableFieldsDepth(k: nat, props: Dict, root: Json, rank: Rank) returns (depth: nat)
    requires TopologicalRank(root, rank) && RefsBelow(k, Obj(props), root, rank)
    requires forall p | p in props :: ProjectableSchema(p.value, root)
    ensures forall p | p in props :: Projectable(depth, p.value, root)
    decreases FieldsWeight(k, props, root, rank), 2, |props|
  {
    if props == [] { return 0; }
    assert props[0] in props && forall p | p in props[1..] :: p in props;
    assert FieldWeight(k, props[0], root, rank) > Weight(k, props[0].value, root, rank);
    var a := ProjectableDepth(k, props[0].value, root, rank);
    var b := ProjectableFieldsDepth(k, props[1..], root, rank);
    depth := Max(a, b);
    ProjectableMonotone(a, depth, props[0].value, root);
    forall p | p in props ensures Projectable(depth, p.value, root) {
      if p != props[0] {
        assert p in props[1..];
        ProjectableMonotone(b, depth, p.value, root);
      }
    }
  }

  /** Main theorem: with acyclic references the projection law holds at every depth but finitely many. */
  lemma ProjectableReached(schema: Json, root: Json) returns (limit: nat)
    requires AcyclicRefs(root) && ProjectableSchema(schema, root)
    ensures forall depth: nat :: limit <= depth ==> Projectable(depth, schema, root)
  {
    var rank: Rank :| TopologicalRank(root, rank);
    var k := RefsBounded(schema, root, rank);
    limit := ProjectableDepth(k, schema, root, rank);
    forall depth: nat | limit <= depth ensures Projectable(depth, schema, root) {
      ProjectableMonotone(limit, depth, schema, root);
    }
  }
}
