/** Exactly which templates are accepted: those whose unset required fields all lie in array items that
    null stripping drops. */
module SchemaAcceptance {
  import opened Json
  import opened SchemaTemplate
  import opened SchemaValidation

  // ---------- unset required fields ----------

  /** The template of a schema, at a path. */
  function Template(depth: nat, schema: Json, path: string, root: Json): Json {
    match SlimSchema(depth, schema, Config, path, root) case Done(v, _) => v case _ => Null
  }

  /** Somewhere in the template a required field is null, and no array item around it strips to `{}`. */
  predicate Unset(depth: nat, schema: Json, path: string, root: Json)
    decreases depth, 1
  {
    depth > 0 && schema.Obj? &&
    if Has(schema.fields, "$ref") then
      var target := ResolveRef(Find(schema.fields, "$ref").value, root);
      target.Some? && Unset(depth - 1, Obj(target.value), path, root)
    else UnsetShape(depth - 1, PlainShape(schema.fields), path, root)
  }

  predicate UnsetShape(depth: nat, shape: Shape, path: string, root: Json)
    decreases depth, 2
  {
    match shape
    case Object(props, required) =>
      || NullHere(depth, props, required, path, root)
      || exists i | 0 <= i < |props| :: Unset(depth, props[i].value, JoinPath(path, props[i].key), root)
    case Array(items, _, _) =>
      var item := Template(depth, items, path + "[]", root);
      item != Null && StripNulls(item) != Obj([]) && Unset(depth, items, path + "[]", root)
    case _ => false
  }

  predicate NullHere(depth: nat, props: Dict, required: Json, path: string, root: Json) {
    var fs := SlimFields(depth, props, Config, path, root);
    fs.Done? && required.Arr? && NullRequired(fs.value, Strings(required.items), path) != []
  }

  /** The compiler's first step on a fragment schema. */
  lemma FirstStep(depth: nat, d: Dict, path: string, root: Json)
    requires InFragment(depth, Obj(d), root)
    ensures Has(d, "$ref") ==>
              var target := ResolveRef(Find(d, "$ref").value, root);
              && target.Some? && InFragment(depth - 1, Obj(target.value), root)
              && Template(depth, Obj(d), path, root) == Template(depth - 1, Obj(target.value), path, root)
    ensures !Has(d, "$ref") ==>
              SlimSchema(depth, Obj(d), Config, path, root) == SlimShape(depth - 1, PlainShape(d), Config, path, root)
  {
    FragmentShape(depth, Obj(d), root);
    if Has(d, "$ref") {
      assert Find(d, "$ref") == Some(d[0].value) by { FindAt(d, "$ref"); }
      AgainTemplate(depth, Obj(ResolveRef(d[0].value, root).value), Obj(d), path, root);
    }
  }

  lemma AgainTemplate(depth: nat, next: Json, schema: Json, path: string, root: Json)
    requires depth > 0 && ShapeOf(schema, Config, root) == Again(next, 0)
    ensures Template(depth, schema, path, root) == Template(depth - 1, next, path, root)
  {
    assert SlimSchema(depth, schema, Config, path, root) == SlimShape(depth - 1, Again(next, 0), Config, path, root);
  }

  /** An array renders as its one item, or as its default. */
  lemma {:induction false} ArrayTemplate(depth: nat, d: Dict, path: string, root: Json)
    requires InFragment(depth, Obj(d), root) && !Has(d, "$ref") && PlainShape(d).Array?
    ensures var item := Template(depth - 1, PlainShape(d).items, path + "[]", root);
            Template(depth, Obj(d), path, root) == if item != Null then Arr([item]) else PlainShape(d).default
  {
    FirstStep(depth, d, path, root);
    TemplateValidates(depth - 1, PlainShape(d).items, path + "[]", root);
  }

  lemma {:induction false} ObjectTemplateIs(depth: nat, d: Dict, path: string, root: Json)
    requires InFragment(depth, Obj(d), root) && !Has(d, "$ref") && PlainShape(d).Object?
    ensures var fs := SlimFields(depth - 1, PlainShape(d).props, Config, path, root);
            fs.Done? && Template(depth, Obj(d), path, root) == Obj(fs.value)
  {
    FirstStep(depth, d, path, root);
    FieldsFinish(depth, d, path, root);
  }

  // ---------- rejection ----------

  /** A template whose stripped form the schema rejects at every depth. */
  ghost predicate Rejected(schema: Json, template: Json, root: Json) {
    template != Null && !Valid(schema, StripNulls(template), root)
  }

  lemma {:induction false} NullRequiredRejected(d: Dict, result: Dict, path: string, root: Json)
    requires !Has(d, "$ref") && PlainShape(d).Object? && Distinct(result)
    requires PlainShape(d).required.Arr?
    requires NullRequired(result, Strings(PlainShape(d).required.items), path) != []
    ensures Rejected(Obj(d), Obj(result), root)
  {
    var required := PlainShape(d).required;
    NoNullRequired(result, Strings(required.items), path);
    var f :| f in result && f.value == Null && f.key in Strings(required.items);
    StringsHas(required.items, f.key);
    var i :| 0 <= i < |result| && result[i] == f;
    FindIndex(result, i);
    StripFind(result, f.key);
    assert Str(f.key) in required.items && !Has(StripFields(result), f.key);
    assert !RequiredOk(d, StripNulls(Obj(result)));
  }

  lemma {:induction false} ChildRejected(d: Dict, result: Dict, i: nat, root: Json)
    requires !Has(d, "$ref") && PlainShape(d).Object? && Distinct(result)
    requires i < |result| == |PlainShape(d).props| && result[i].key == PlainShape(d).props[i].key
    requires Rejected(PlainShape(d).props[i].value, result[i].value, root)
    ensures Rejected(Obj(d), Obj(result), root)
  {
    var p := PlainShape(d).props[i];
    FindIndex(result, i);
    StripFind(result, p.key);
    var j := StripNulls(Obj(result));
    assert Find(j.fields, p.key) == Some(StripNulls(result[i].value));
    forall n: nat ensures !Validates(n, Obj(d), j, root) {
      if Validates(n, Obj(d), j, root) {
        assert p in PlainShape(d).props && Has(j.fields, p.key);
        assert PropertiesOk(n - 1, PlainShape(d).props, j.fields, root);
      }
    }
  }

  lemma {:induction false} ItemRejected(d: Dict, item: Json, root: Json)
    requires !Has(d, "$ref") && PlainShape(d).Array? && Rejected(PlainShape(d).items, item, root)
    requires StripNulls(item) != Obj([])
    ensures Rejected(Obj(d), Arr([item]), root)
  {
    assert StripItems([item][1..]) == [];
    var stripped := [StripNulls(item)] + [];
    assert StripItems([item]) == stripped && stripped[0] in stripped;
    forall n: nat ensures !Validates(n, Obj(d), Arr(stripped), root) {
      if n > 0 { assert !Validates(n - 1, PlainShape(d).items, stripped[0], root); }
    }
  }

  /** The rendered fields, one by one. */
  lemma {:induction false} FieldAt(depth: nat, props: Dict, path: string, root: Json, i: nat)
    requires SlimFields(depth, props, Config, path, root).Done? && i < |props|
    ensures var fs := SlimFields(depth, props, Config, path, root);
            var sub := JoinPath(path, props[i].key);
            var o := SlimSchema(depth, props[i].value, Config, sub, root);
            && o.Done? && |fs.value| == |props| && fs.value[i] == Field(props[i].key, o.value)
            && forall w | w in o.warnings :: w in fs.warnings
  {
    if i > 0 {
      FieldAt(depth, props[1..], path, root, i - 1);
    } else if |props| > 1 {
      FieldAt(depth, props[1..], path, root, 0);
    }
  }

  lemma FieldsFinish(depth: nat, d: Dict, path: string, root: Json)
    requires InFragment(depth, Obj(d), root) && !Has(d, "$ref") && PlainShape(d).Object?
    ensures var props, required := PlainShape(d).props, PlainShape(d).required;
            var fs := SlimFields(depth - 1, props, Config, path, root);
            && fs.Done? && |fs.value| == |props| && Distinct(fs.value)
            && required.Arr? && RequiredNames(required) == Some(Strings(required.items))
            && SlimShape(depth - 1, PlainShape(d), Config, path, root)
               == Done(Obj(fs.value), fs.warnings + Noted(NullRequired(fs.value, Strings(required.items), path)))
  {
    RequiredListed(depth, d, root);
    FieldsDistinct(depth, d, path, root);
  }

  lemma {:induction false} RequiredListed(depth: nat, d: Dict, root: Json)
    requires InFragment(depth, Obj(d), root) && !Has(d, "$ref") && PlainShape(d).Object?
    ensures var required := PlainShape(d).required;
            required.Arr? && RequiredNames(required) == Some(Strings(required.items))
  {
    var required := PlainShape(d).required;
    assert forall i | 0 <= i < |required.items| :: required.items[i] in required.items;
  }

  lemma {:induction false} RenderedKeys(depth: nat, props: Dict, path: string, root: Json)
    requires SlimFields(depth, props, Config, path, root).Done?
    ensures var r := SlimFields(depth, props, Config, path, root).value;
            |r| == |props| && forall i | 0 <= i < |props| :: props[i].key == r[i].key
  {
    forall i | 0 <= i < |props|
      ensures var r := SlimFields(depth, props, Config, path, root).value;
              |r| == |props| && props[i].key == r[i].key
    {
      FieldAt(depth, props, path, root, i);
    }
  }

  lemma FieldsDistinct(depth: nat, d: Dict, path: string, root: Json)
    requires InFragment(depth, Obj(d), root) && !Has(d, "$ref") && PlainShape(d).Object?
    ensures var fs := SlimFields(depth - 1, PlainShape(d).props, Config, path, root);
            fs.Done? && |fs.value| == |PlainShape(d).props| && Distinct(fs.value)
  {
    var props := PlainShape(d).props;
    ObjectFragment(depth, d, root);
    FieldsValidate(depth - 1, props, path, root);
    RenderedKeys(depth - 1, props, path, root);
    SameKeys(props, SlimFields(depth - 1, props, Config, path, root).value);
  }

  /** An unset required field makes the template unacceptable. */
  lemma {:induction false} UnsetRejected(depth: nat, schema: Json, path: string, root: Json)
    requires InFragment(depth, schema, root) && Unset(depth, schema, path, root)
    ensures Rejected(schema, Template(depth, schema, path, root), root)
    decreases depth, 1
  {
    var d := schema.fields;
    FirstStep(depth, d, path, root);
    if Has(d, "$ref") {
      var target := Obj(ResolveRef(Find(d, "$ref").value, root).value);
      UnsetRejected(depth - 1, target, path, root);
      RefRejected(d, target, Template(depth - 1, target, path, root), root);
    } else {
      PlainRejected(depth, d, path, root);
    }
  }

  lemma {:induction false} RefRejected(d: Dict, target: Json, template: Json, root: Json)
    requires Has(d, "$ref") && target.Obj? && ResolveRef(Find(d, "$ref").value, root) == Some(target.fields)
    requires Rejected(target, template, root)
    ensures Rejected(Obj(d), template, root)
  {
    var j := StripNulls(template);
    forall n: nat ensures !Validates(n, Obj(d), j, root) {
      if n > 0 { assert Validates(n, Obj(d), j, root) == Validates(n - 1, target, j, root); }
    }
  }

  lemma {:induction false} PlainRejected(depth: nat, d: Dict, path: string, root: Json)
    requires InFragment(depth, Obj(d), root) && !Has(d, "$ref") && UnsetShape(depth - 1, PlainShape(d), path, root)
    ensures Rejected(Obj(d), Template(depth, Obj(d), path, root), root)
    decreases depth, 0
  {
    if PlainShape(d).Array? {
      ArrayTemplate(depth, d, path, root);
      FragmentItem(depth, d, root);
      UnsetRejected(depth - 1, PlainShape(d).items, path + "[]", root);
      ItemRejected(d, Template(depth - 1, PlainShape(d).items, path + "[]", root), root);
    } else if NullHere(depth - 1, PlainShape(d).props, PlainShape(d).required, path, root) {
      NullRejected(depth, d, path, root);
    } else {
      var i := UnsetField(depth - 1, PlainShape(d), path, root);
      FragmentField(depth, d, root, i);
      UnsetRejected(depth - 1, PlainShape(d).props[i].value, JoinPath(path, PlainShape(d).props[i].key), root);
      FieldRejected(depth, d, path, root, i);
    }
  }

  lemma {:induction false} FragmentItem(depth: nat, d: Dict, root: Json)
    requires InFragment(depth, Obj(d), root) && !Has(d, "$ref") && PlainShape(d).Array?
    ensures depth > 0 && InFragment(depth - 1, PlainShape(d).items, root)
  {
  }

  lemma {:induction false} FragmentField(depth: nat, d: Dict, root: Json, i: nat)
    requires InFragment(depth, Obj(d), root) && !Has(d, "$ref") && PlainShape(d).Object?
    requires i < |PlainShape(d).props|
    ensures depth > 0 && InFragment(depth - 1, PlainShape(d).props[i].value, root)
  {
    assert PlainShape(d).props[i] in PlainShape(d).props;
  }

  lemma UnsetField(depth: nat, shape: Shape, path: string, root: Json) returns (i: nat)
    requires shape.Object? && UnsetShape(depth, shape, path, root)
    requires !NullHere(depth, shape.props, shape.required, path, root)
    ensures i < |shape.props| && Unset(depth, shape.props[i].value, JoinPath(path, shape.props[i].key), root)
  {
    i :| 0 <= i < |shape.props| && Unset(depth, shape.props[i].value, JoinPath(path, shape.props[i].key), root);
  }

  lemma {:induction false} NullRejected(depth: nat, d: Dict, path: string, root: Json)
    requires InFragment(depth, Obj(d), root) && !Has(d, "$ref") && PlainShape(d).Object?
    requires NullHere(depth - 1, PlainShape(d).props, PlainShape(d).required, path, root)
    ensures Rejected(Obj(d), Template(depth, Obj(d), path, root), root)
  {
    ObjectTemplateIs(depth, d, path, root);
    FieldsFinish(depth, d, path, root);
    NullRequiredRejected(d, SlimFields(depth - 1, PlainShape(d).props, Config, path, root).value, path, root);
  }

  lemma RenderedField(depth: nat, d: Dict, path: string, root: Json, i: nat) returns (result: Dict)
    requires InFragment(depth, Obj(d), root) && !Has(d, "$ref") && PlainShape(d).Object?
    requires i < |PlainShape(d).props|
    ensures Template(depth, Obj(d), path, root) == Obj(result)
    ensures Distinct(result) && |result| == |PlainShape(d).props|
    ensures var p := PlainShape(d).props[i];
            result[i] == Field(p.key, Template(depth - 1, p.value, JoinPath(path, p.key), root))
  {
    ObjectTemplateIs(depth, d, path, root);
    FieldsDistinct(depth, d, path, root);
    FieldAt(depth - 1, PlainShape(d).props, path, root, i);
    result := SlimFields(depth - 1, PlainShape(d).props, Config, path, root).value;
  }

  lemma {:induction false} FieldRejected(depth: nat, d: Dict, path: string, root: Json, i: nat)
    requires InFragment(depth, Obj(d), root) && !Has(d, "$ref") && PlainShape(d).Object?
    requires i < |PlainShape(d).props|
    requires var p := PlainShape(d).props[i];
             Rejected(p.value, Template(depth - 1, p.value, JoinPath(path, p.key), root), root)
    ensures Rejected(Obj(d), Template(depth, Obj(d), path, root), root)
  {
    var result := RenderedField(depth, d, path, root, i);
    ChildRejected(d, result, i, root);
  }

  // ---------- acceptance ----------

  lemma {:induction false} EmptyListValid(depth: nat, d: Dict, root: Json)
    requires InFragment(depth, Obj(d), root) && !Has(d, "$ref") && PlainShape(d).Array?
    ensures Validates(depth, Obj(d), Arr([]), root)
  {
    if Has(d, "type") && Find(d, "type").value.Arr? { FirstNonNullIn(Find(d, "type").value.items); }
    assert TypeOk(d, Arr([]));
  }

  lemma {:induction false} ItemDropped(item: Json)
    requires StripNulls(item) == Obj([])
    ensures StripNulls(Arr([item])) == Arr([])
  {
    assert StripItems([item][1..]) == [];
  }

  /** Without one, a template that is not null is acceptable. */
  lemma {:induction false} SetValidates(depth: nat, schema: Json, path: string, root: Json)
    requires InFragment(depth, schema, root) && !Unset(depth, schema, path, root)
    requires Template(depth, schema, path, root) != Null
    ensures Validates(depth, schema, StripNulls(Template(depth, schema, path, root)), root)
    decreases depth, 2
  {
    if schema.Obj? {
      var d := schema.fields;
      FirstStep(depth, d, path, root);
      if Has(d, "$ref") {
        SetValidates(depth - 1, Obj(ResolveRef(Find(d, "$ref").value, root).value), path, root);
      } else {
        PlainValidates(depth, d, path, root);
      }
    }
  }

  lemma {:induction false} PlainValidates(depth: nat, d: Dict, path: string, root: Json)
    requires InFragment(depth, Obj(d), root) && !Has(d, "$ref") && !UnsetShape(depth - 1, PlainShape(d), path, root)
    requires Template(depth, Obj(d), path, root) != Null
    ensures Validates(depth, Obj(d), StripNulls(Template(depth, Obj(d), path, root)), root)
    decreases depth, 1
  {
    if PlainShape(d).Object? {
      FieldsSet(depth, d, path, root);
      ObjectValidates(depth, d, path, root);
    } else if PlainShape(d).Array? {
      FragmentItem(depth, d, root);
      var item := Template(depth - 1, PlainShape(d).items, path + "[]", root);
      if item != Null && StripNulls(item) != Obj([]) {
        SetValidates(depth - 1, PlainShape(d).items, path + "[]", root);
      }
      ItemValidates(depth, d, path, root);
    } else {
      FirstStep(depth, d, path, root);
    }
  }

  lemma {:induction false} FieldsSet(depth: nat, d: Dict, path: string, root: Json)
    requires InFragment(depth, Obj(d), root) && !Has(d, "$ref") && !UnsetShape(depth - 1, PlainShape(d), path, root)
    requires PlainShape(d).Object?
    ensures forall i | 0 <= i < |PlainShape(d).props| :: FieldSet(depth - 1, PlainShape(d).props[i], path, root)
    decreases depth, 0
  {
    var props := PlainShape(d).props;
    forall i | 0 <= i < |props|
      ensures FieldSet(depth - 1, props[i], path, root)
    {
      FragmentField(depth, d, root, i);
      NotUnset(depth - 1, PlainShape(d), path, root, i);
      var sub := JoinPath(path, props[i].key);
      if Template(depth - 1, props[i].value, sub, root) != Null {
        SetValidates(depth - 1, props[i].value, sub, root);
      }
    }
  }

  /** The template of a property is null or acceptable. */
  predicate FieldSet(depth: nat, p: Field, path: string, root: Json) {
    var v := Template(depth, p.value, JoinPath(path, p.key), root);
    v != Null ==> Validates(depth, p.value, StripNulls(v), root)
  }

  lemma {:induction false} NotUnset(depth: nat, shape: Shape, path: string, root: Json, i: nat)
    requires shape.Object? && !UnsetShape(depth, shape, path, root) && i < |shape.props|
    ensures !Unset(depth, shape.props[i].value, JoinPath(path, shape.props[i].key), root)
  {
  }

  lemma {:induction false} ObjectValidates(depth: nat, d: Dict, path: string, root: Json)
    requires InFragment(depth, Obj(d), root) && !Has(d, "$ref") && PlainShape(d).Object?
    requires !NullHere(depth - 1, PlainShape(d).props, PlainShape(d).required, path, root)
    requires forall i | 0 <= i < |PlainShape(d).props| :: FieldSet(depth - 1, PlainShape(d).props[i], path, root)
    ensures Validates(depth, Obj(d), StripNulls(Template(depth, Obj(d), path, root)), root)
  {
    ObjectTemplateIs(depth, d, path, root);
    FieldsFinish(depth, d, path, root);
    FieldsAllGood(depth - 1, PlainShape(d).props, path, root);
    ObjectValid(depth, d, SlimFields(depth - 1, PlainShape(d).props, Config, path, root).value, path, root);
  }

  lemma {:induction false} ItemValidates(depth: nat, d: Dict, path: string, root: Json)
    requires InFragment(depth, Obj(d), root) && !Has(d, "$ref") && PlainShape(d).Array?
    requires Template(depth, Obj(d), path, root) != Null
    requires var item := Template(depth - 1, PlainShape(d).items, path + "[]", root);
             item != Null && StripNulls(item) != Obj([])
             ==> Validates(depth - 1, PlainShape(d).items, StripNulls(item), root)
    ensures Validates(depth, Obj(d), StripNulls(Template(depth, Obj(d), path, root)), root)
  {
    ArrayTemplate(depth, d, path, root);
    var item := Template(depth - 1, PlainShape(d).items, path + "[]", root);
    if item == Null {
      FirstStep(depth, d, path, root);
    } else if StripNulls(item) == Obj([]) {
      ItemDropped(item);
      EmptyListValid(depth, d, root);
    } else {
      ArrayValid(depth, d, item, root);
    }
  }

  lemma {:induction false} FieldsAllGood(depth: nat, props: Dict, path: string, root: Json)
    requires SlimFields(depth, props, Config, path, root).Done?
    requires |SlimFields(depth, props, Config, path, root).value| == |props|
    requires forall i | 0 <= i < |props| :: FieldSet(depth, props[i], path, root)
    ensures FieldsGood(depth, props, SlimFields(depth, props, Config, path, root).value, root)
  {
    var result := SlimFields(depth, props, Config, path, root).value;
    forall i | 0 <= i < |props|
      ensures result[i].key == props[i].key
      ensures result[i].value != Null ==> Validates(depth, props[i].value, StripNulls(result[i].value), root)
    {
      assert FieldSet(depth, props[i], path, root);
      FieldAt(depth, props, path, root, i);
    }
  }

  /** Main theorem: in the whole fragment, arrays included, a template is acceptable exactly when every
      unset required field lies in an array item that strips to `{}` (and null is, when it is null). */
  lemma {:induction false} AcceptedIff(depth: nat, schema: Json, path: string, root: Json)
    requires InFragment(depth, schema, root)
    ensures var o := SlimSchema(depth, schema, Config, path, root);
            && o.Done?
            && (Valid(schema, StripNulls(o.value), root)
                <==> !Unset(depth, schema, path, root) && (o.value == Null ==> Valid(schema, Null, root)))
  {
    TemplateValidates(depth, schema, path, root);
    var o := SlimSchema(depth, schema, Config, path, root);
    if Unset(depth, schema, path, root) {
      UnsetRejected(depth, schema, path, root);
    } else if o.value != Null {
      SetValidates(depth, schema, path, root);
    }
  }

  // ---------- what the warnings say about it ----------

  /** No array-with-items is rendered anywhere in the template. */
  predicate ArrayFree(depth: nat, schema: Json, root: Json)
    decreases depth
  {
    depth > 0 && schema.Obj? ==>
      var d := schema.fields;
      if Has(d, "$ref") then
        ResolveRef(Find(d, "$ref").value, root).Some? ==>
          ArrayFree(depth - 1, Obj(ResolveRef(Find(d, "$ref").value, root).value), root)
      else
        match PlainShape(d)
        case Array(_, _, _) => false
        case Object(props, _) => forall p | p in props :: ArrayFree(depth - 1, p.value, root)
        case _ => true
  }

  /** The field a "required fields" warning of the loop comes from. */
  lemma {:induction false} WarnedField(depth: nat, props: Dict, path: string, root: Json) returns (i: nat)
    requires SlimFields(depth, props, Config, path, root).Done?
    requires !NoneRequired(SlimFields(depth, props, Config, path, root).warnings)
    ensures i < |props|
    ensures var o := SlimSchema(depth, props[i].value, Config, JoinPath(path, props[i].key), root);
            o.Done? && !NoneRequired(o.warnings)
  {
    var first := SlimSchema(depth, props[0].value, Config, JoinPath(path, props[0].key), root);
    if !NoneRequired(first.warnings) { return 0; }
    SomeRequiredParts(first.warnings, SlimFields(depth, props[1..], Config, path, root).warnings);
    i := WarnedField(depth, props[1..], path, root);
    i := i + 1;
  }

  lemma SomeRequiredParts(a: seq<Warning>, b: seq<Warning>)
    requires NoneRequired(a) && !NoneRequired(a + b)
    ensures !NoneRequired(b)
  {
    assert forall w | w in a + b :: w in a || w in b;
  }

  /** Without arrays every "required fields" warning is about a field that stays. */
  lemma {:induction false} WarnedUnset(depth: nat, schema: Json, path: string, root: Json)
    requires InFragment(depth, schema, root) && ArrayFree(depth, schema, root)
    requires SlimSchema(depth, schema, Config, path, root).Done?
    requires !NoneRequired(SlimSchema(depth, schema, Config, path, root).warnings)
    ensures Unset(depth, schema, path, root)
    decreases depth
  {
    if schema.Obj? {
      var d := schema.fields;
      FirstStep(depth, d, path, root);
      if Has(d, "$ref") {
        FragmentShape(depth, schema, root);
        assert Find(d, "$ref") == Some(d[0].value) by { FindAt(d, "$ref"); }
        WarnedUnset(depth - 1, Obj(ResolveRef(d[0].value, root).value), path, root);
      } else if PlainShape(d).Object? && !NullHere(depth - 1, PlainShape(d).props, PlainShape(d).required, path, root) {
        var i := WarnedChild(depth, d, path, root);
        FragmentField(depth, d, root, i);
        FreeField(depth, d, root, i);
        WarnedUnset(depth - 1, PlainShape(d).props[i].value, JoinPath(path, PlainShape(d).props[i].key), root);
        FieldUnset(depth, d, path, root, i);
      }
    }
  }

  lemma {:induction false} FreeField(depth: nat, d: Dict, root: Json, i: nat)
    requires depth > 0 && ArrayFree(depth, Obj(d), root) && !Has(d, "$ref") && PlainShape(d).Object?
    requires i < |PlainShape(d).props|
    ensures ArrayFree(depth - 1, PlainShape(d).props[i].value, root)
  {
    assert PlainShape(d).props[i] in PlainShape(d).props;
  }

  lemma {:induction false} FieldUnset(depth: nat, d: Dict, path: string, root: Json, i: nat)
    requires depth > 0 && !Has(d, "$ref") && PlainShape(d).Object? && i < |PlainShape(d).props|
    requires Unset(depth - 1, PlainShape(d).props[i].value, JoinPath(path, PlainShape(d).props[i].key), root)
    ensures Unset(depth, Obj(d), path, root)
  {
  }

  lemma QuietHere(depth: nat, d: Dict, path: string, root: Json)
    requires InFragment(depth, Obj(d), root) && !Has(d, "$ref") && PlainShape(d).Object?
    requires !NullHere(depth - 1, PlainShape(d).props, PlainShape(d).required, path, root)
    ensures var fs := SlimFields(depth - 1, PlainShape(d).props, Config, path, root);
            var o := SlimShape(depth - 1, PlainShape(d), Config, path, root);
            fs.Done? && o.Done? && o.warnings == fs.warnings
  {
    FieldsFinish(depth, d, path, root);
    var fs := SlimFields(depth - 1, PlainShape(d).props, Config, path, root);
    assert fs.warnings + [] == fs.warnings;
  }

  lemma WarnedChild(depth: nat, d: Dict, path: string, root: Json) returns (i: nat)
    requires InFragment(depth, Obj(d), root) && !Has(d, "$ref") && PlainShape(d).Object?
    requires !NullHere(depth - 1, PlainShape(d).props, PlainShape(d).required, path, root)
    requires var o := SlimShape(depth - 1, PlainShape(d), Config, path, root);
             o.Done? && !NoneRequired(o.warnings)
    ensures i < |PlainShape(d).props| && PlainShape(d).props[i] in PlainShape(d).props
    ensures var p := PlainShape(d).props[i];
            var o := SlimSchema(depth - 1, p.value, Config, JoinPath(path, p.key), root);
            o.Done? && !NoneRequired(o.warnings)
  {
    QuietHere(depth, d, path, root);
    i := WarnedField(depth - 1, PlainShape(d).props, path, root);
  }

  /** For array-free fragment schemas the warnings decide acceptance exactly. */
  lemma {:induction false} TemplateValidIff(depth: nat, schema: Json, path: string, root: Json)
    requires InFragment(depth, schema, root) && ArrayFree(depth, schema, root)
    ensures var o := SlimSchema(depth, schema, Config, path, root);
            && o.Done?
            && (Valid(schema, StripNulls(o.value), root)
                <==> NoneRequired(o.warnings) && (o.value == Null ==> Valid(schema, Null, root)))
  {
    TemplateValidates(depth, schema, path, root);
    AcceptedIff(depth, schema, path, root);
    var o := SlimSchema(depth, schema, Config, path, root);
    if !NoneRequired(o.warnings) { WarnedUnset(depth, schema, path, root); }
  }

  /** With arrays the converse fails: an item with nothing set is stripped to `{}` and dropped,
      so a template that warns about its required fields is accepted all the same. */
  lemma {:induction false} ArrayHidesRequired(depth: nat, d: Dict, path: string, root: Json)
    requires InFragment(depth, Obj(d), root) && !Has(d, "$ref") && PlainShape(d).Array?
    requires var item := SlimSchema(depth - 1, PlainShape(d).items, Config, path + "[]", root);
             item.Done? && !NoneRequired(item.warnings) && StripNulls(item.value) == Obj([])
    ensures var o := SlimSchema(depth, Obj(d), Config, path, root);
            o.Done? && !NoneRequired(o.warnings) && Validates(depth, Obj(d), StripNulls(o.value), root)
  {
    FragmentShape(depth, Obj(d), root);
    ItemDropped(SlimSchema(depth - 1, PlainShape(d).items, Config, path + "[]", root).value);
    EmptyListValid(depth, d, root);
  }

  function LoneRequired(name: string): Dict {
    [Field("properties", Obj([Field(name, Obj([]))])), Field("required", Arr([Str(name)]))]
  }

  function ArrayOf(d: Dict): Dict {
    [Field("type", Str("array")), Field("items", Obj(d))]
  }

  lemma LoneRequiredShape(name: string)
    ensures !Has(LoneRequired(name), "$ref")
    ensures PlainShape(LoneRequired(name)) == Object([Field(name, Obj([]))], Arr([Str(name)]))
  {
    var d := LoneRequired(name);
    MissingHere(d, "const");
    MissingHere(d, "$ref");
    assert d[1..] == [Field("required", Arr([Str(name)]))];
    assert Find(d, "required") == Find(d[1..], "required") == Some(Arr([Str(name)]));
  }

  lemma ArrayOfShape(d: Dict)
    ensures !Has(ArrayOf(d), "$ref") && !Has(ArrayOf(d), "enum")
    ensures PlainShape(ArrayOf(d)).Array? && PlainShape(ArrayOf(d)).items == Obj(d)
            && PlainShape(ArrayOf(d)).default == Null
  {
    var a := ArrayOf(d);
    assert a[1..] == [Field("items", Obj(d))];
    assert Find(a, "items") == Find(a[1..], "items") == Some(Obj(d));
    MissingHere(a, "default");
    MissingHere(a, "const");
    MissingHere(a, "properties");
    MissingHere(a, "enum");
    MissingHere(a, "$ref");
  }

  lemma {:induction false} EmptySchema(path: string, root: Json)
    ensures SlimSchema(1, Obj([]), Config, path, root) == Done(Null, [])
    ensures InFragment(1, Obj([]), root)
  {
    assert ShapeOf(Obj([]), Config, root) == PlainShape([]);
  }

  lemma {:induction false} LoneField(name: string, root: Json)
    ensures SlimFields(1, [Field(name, Obj([]))], Config, "[]", root) == Done([Field(name, Null)], [])
  {
    var props := [Field(name, Obj([]))];
    EmptySchema(JoinPath("[]", name), root);
    assert props[1..] == [] && SlimFields(1, props[1..], Config, "[]", root) == Done([], []);
    assert [Field(name, Null)] + [] == [Field(name, Null)];
  }

  lemma LoneNames(name: string)
    ensures RequiredNames(Arr([Str(name)])) == Some(Strings([Str(name)]))
    ensures NullRequired([Field(name, Null)], Strings([Str(name)]), "[]") != []
  {
    var result := [Field(name, Null)];
    assert result[0] in result;
    assert [Str(name)][0] in [Str(name)];
    StringsHas([Str(name)], name);
    NoNullRequired(result, Strings([Str(name)]), "[]");
  }

  lemma {:induction false} LoneRequiredRenders(name: string, root: Json)
    ensures var o := SlimObject(1, [Field(name, Obj([]))], Arr([Str(name)]), Config, "[]", root);
            OneNull(o, name)
  {
    LoneField(name, root);
    LoneNames(name);
    var nulls := NullRequired([Field(name, Null)], Strings([Str(name)]), "[]");
    assert RequiredNull(nulls) in [] + Noted(nulls);
  }

  lemma {:induction false} LoneRequiredInFragment(name: string, root: Json)
    ensures InFragment(2, Obj(LoneRequired(name)), root)
  {
    var d := LoneRequired(name);
    LoneRequiredShape(name);
    MissingHere(d, "type");
    MissingHere(d, "enum");
    EmptySchema("", root);
    assert [Field(name, Obj([]))][1..] == [];
  }

  lemma {:induction false} ObjectCall(depth: nat, d: Dict, props: Dict, required: Json, path: string, root: Json)
    requires InFragment(depth, Obj(d), root) && !Has(d, "$ref") && PlainShape(d) == Object(props, required)
    ensures SlimSchema(depth, Obj(d), Config, path, root) == SlimObject(depth - 1, props, required, Config, path, root)
  {
    FragmentShape(depth, Obj(d), root);
  }

  /** An object that renders as a single null field. */
  ghost predicate OneNull(o: Outcome<Json>, name: string) {
    o.Done? && !NoneRequired(o.warnings) && o.value == Obj([Field(name, Null)])
  }

  lemma OneNullStrips(o: Outcome<Json>, name: string)
    requires OneNull(o, name)
    ensures StripNulls(o.value) == Obj([])
  {
    var d := [Field(name, Null)];
    assert d[1..] == [] && StripFields(d[1..]) == [];
    assert StripFields(d) == [];
  }

  lemma {:induction false} LoneRequiredItem(name: string, root: Json)
    ensures OneNull(SlimSchema(2, Obj(LoneRequired(name)), Config, "[]", root), name)
  {
    LoneRequiredShape(name);
    LoneRequiredInFragment(name, root);
    LoneRequiredRenders(name, root);
    ObjectCall(2, LoneRequired(name), [Field(name, Obj([]))], Arr([Str(name)]), "[]", root);
  }

  lemma {:induction false} LoneRequiredArray(name: string, root: Json)
    ensures InFragment(3, Obj(ArrayOf(LoneRequired(name))), root)
  {
    ArrayOfShape(LoneRequired(name));
    LoneRequiredInFragment(name, root);
  }

  /** The smallest such schema: an array of objects with one required field and no default. */
  lemma {:induction false} LoneRequiredExample(name: string, root: Json)
    ensures var o := SlimSchema(3, Obj(ArrayOf(LoneRequired(name))), Config, "", root);
            o.Done? && !NoneRequired(o.warnings)
            && Valid(Obj(ArrayOf(LoneRequired(name))), StripNulls(o.value), root)
  {
    LoneRequiredArray(name, root);
    LoneRequiredItem(name, root);
    OneNullStrips(SlimSchema(2, Obj(LoneRequired(name)), Config, "[]", root), name);
    ArrayOfShape(LoneRequired(name));
    assert "" + "[]" == "[]";
    ArrayHidesRequired(3, ArrayOf(LoneRequired(name)), "", root);
  }

  lemma MissingHere(d: Dict, k: string)
    requires forall f | f in d :: f.key != k
    ensures !Has(d, k)
  {
    if Has(d, k) { FindAt(d, k); }
  }
}
