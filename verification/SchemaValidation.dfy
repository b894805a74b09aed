/** What the template is for: stripped of its nulls, a config template with no unset required
    field is accepted by the schema it was made from (sections 6.1, 6.2, 6.4.1, 6.5.3 and 6.5.4
    of JSON Schema Validation draft-07). */
module SchemaValidation {
  import opened Json
  import opened SchemaTemplate

  // ---------- the validator ----------

  predicate Whole(r: real) {
    r.Floor as real == r
  }

  predicate HasType(j: Json, t: Json) {
    match j
    case Null => t == Str("null")
    case Bool(_) => t == Str("boolean")
    case Num(n) => t == Str("number") || (t == Str("integer") && Whole(n))
    case Str(_) => t == Str("string")
    case Arr(_) => t == Str("array")
    case Obj(_) => t == Str("object")
  }

  predicate TypeOk(d: Dict, j: Json) {
    match Find(d, "type")
    case None => true
    case Some(Arr(ts)) => exists t | t in ts :: HasType(j, t)
    case Some(t) => HasType(j, t)
  }

  predicate EnumOk(d: Dict, j: Json) {
    match Find(d, "enum")
    case None => true
    case Some(Arr(vs)) => j in vs
    case _ => false
  }

  predicate BoundsOk(d: Dict, j: Json) {
    j.Num? ==>
      && (match Find(d, "minimum") case Some(Num(m)) => m <= j.n case _ => true)
      && (match Find(d, "maximum") case Some(Num(m)) => j.n <= m case _ => true)
      && (match Find(d, "exclusiveMinimum") case Some(Num(m)) => m < j.n case _ => true)
      && (match Find(d, "exclusiveMaximum") case Some(Num(m)) => j.n < m case _ => true)
      && (match Find(d, "multipleOf") case Some(Num(m)) => m > 0.0 ==> Whole(j.n / m) case _ => true)
  }

  predicate ConstOk(d: Dict, j: Json) {
    match Find(d, "const") case None => true case Some(c) => j == c
  }

  predicate RequiredOk(d: Dict, j: Json) {
    j.Obj? ==>
      match Find(d, "required")
      case None => true
      case Some(Arr(names)) => forall n | n in names :: n.Str? && Has(j.fields, n.s)
      case _ => false
  }

  /** `j` is accepted by `schema`, following at most `depth` levels of sub-schemas. */
  predicate Validates(depth: nat, schema: Json, j: Json, root: Json)
    decreases depth, 0
  {
    depth > 0 &&
    match schema
    case Bool(b) => b
    case Obj(d) =>
      (match Find(d, "$ref")
       case Some(ref) =>
         (match ResolveRef(ref, root)
          case Some(target) => Validates(depth - 1, Obj(target), j, root)
          case None => false)
       case None =>
         && TypeOk(d, j) && EnumOk(d, j) && BoundsOk(d, j) && ConstOk(d, j) && RequiredOk(d, j)
         && (j.Obj? ==> match Find(d, "properties")
                        case None => true
                        case Some(Obj(props)) => PropertiesOk(depth - 1, props, j.fields, root)
                        case _ => false)
         && (j.Arr? ==> match Find(d, "items")
                        case None => true
                        case Some(s) => forall x | x in j.items :: Validates(depth - 1, s, x, root)))
    case _ => false
  }

  predicate PropertiesOk(depth: nat, props: Dict, d: Dict, root: Json)
    decreases depth, 1
  {
    forall p | p in props :: Has(d, p.key) ==> Validates(depth, p.value, Find(d, p.key).value, root)
  }

  /** Acceptance, at whatever depth the references unfold to. */
  ghost predicate Valid(schema: Json, j: Json, root: Json) {
    exists depth: nat :: Validates(depth, schema, j, root)
  }

  lemma {:induction false} ValidatesMonotone(depth: nat, more: nat, schema: Json, j: Json, root: Json)
    requires depth <= more && Validates(depth, schema, j, root)
    ensures Validates(more, schema, j, root)
    decreases depth
  {
    if schema.Obj? {
      var d := schema.fields;
      match Find(d, "$ref")
      case Some(ref) =>
        ValidatesMonotone(depth - 1, more - 1, Obj(ResolveRef(ref, root).value), j, root);
      case None =>
        if j.Obj? && Has(d, "properties") {
          var props := Find(d, "properties").value.fields;
          forall p | p in props && Has(j.fields, p.key)
            ensures Validates(more - 1, p.value, Find(j.fields, p.key).value, root)
          {
            ValidatesMonotone(depth - 1, more - 1, p.value, Find(j.fields, p.key).value, root);
          }
        }
        if j.Arr? && Has(d, "items") {
          var s := Find(d, "items").value;
          forall x | x in j.items ensures Validates(more - 1, s, x, root) {
            ValidatesMonotone(depth - 1, more - 1, s, x, root);
          }
        }
    }
  }

  // ---------- the fragment of schemas the promise is for ----------

  const FRAGMENT_KEYWORDS: set<string> :=
    {"type", "enum", "const", "minimum", "maximum", "exclusiveMinimum", "exclusiveMaximum",
     "multipleOf", "required", "properties", "items", "default", "definitions",
     "title", "description", "$schema", "$id", "$comment", "examples", "readOnly"}

  predicate Typed(d: Dict, t: string) {
    match Find(d, "type")
    case None => true
    case Some(Arr(ts)) => Str(t) in ts
    case Some(x) => x == Str(t)
  }

  /** The value itself conforms, once stripped as every submitted value is. */
  predicate Conforms(depth: nat, d: Dict, v: Json, root: Json) {
    v == Null || Validates(depth, Obj(d), StripNulls(v), root)
  }

  predicate RequiredFrom(required: Json, props: Dict) {
    required.Arr? && forall n | n in required.items :: n.Str? && Has(props, n.s)
  }

  /** Schemas that unfold within `depth` levels into the keywords above, with sibling-free
      resolvable references, `required` drawn from `properties`, and conforming defaults. */
  predicate InFragment(depth: nat, schema: Json, root: Json)
    decreases depth, 0
  {
    depth > 0 &&
    match schema
    case Bool(b) => b
    case Obj(d) =>
      if Has(d, "$ref") then
        && |d| == 1
        && ResolveRef(d[0].value, root).Some?
        && InFragment(depth - 1, Obj(ResolveRef(d[0].value, root).value), root)
      else
        && (forall f | f in d :: f.key in FRAGMENT_KEYWORDS)
        && (match PlainShape(d)
           case Constant(v) => Conforms(depth, d, v, root)
           case Object(props, required) =>
             && Distinct(props)
             && Typed(d, "object") && !Has(d, "enum")
             && RequiredFrom(required, props)
             && PropsInFragment(depth - 1, props, root)
           case Array(items, default, _) =>
             !Has(d, "enum") && InFragment(depth - 1, items, root) && Conforms(depth, d, default, root)
           case Leaf(_, default, _) => Conforms(depth, d, default, root)
           case _ => false)
    case _ => false
  }

  predicate PropsInFragment(depth: nat, props: Dict, root: Json)
    decreases depth, 1
  {
    forall p | p in props :: InFragment(depth, p.value, root)
  }

  predicate NoneRequired(ws: seq<Warning>) {
    forall w | w in ws :: !w.RequiredNull?
  }

  // ---------- stripping ----------

  lemma {:induction false} StripFind(d: Dict, k: string)
    requires Distinct(d)
    ensures Find(StripFields(d), k)
            == match Find(d, k) case None => None case Some(v) => if v == Null then None else Some(StripNulls(v))
  {
    if d != [] {
      StripFind(d[1..], k);
      var kept := StripFields(d[1..]);
      assert ([Field(d[0].key, StripNulls(d[0].value))] + kept)[1..] == kept;
    }
  }

  /** No null inside, and no `{}` as a list item. */
  predicate NullFree(j: Json) {
    match j
    case Obj(fields) => forall f | f in fields :: f.value != Null && NullFree(f.value)
    case Arr(items) => forall x | x in items :: x != Null && x != Obj([]) && NullFree(x)
    case _ => true
  }

  /** Stripping removes every null below the root and changes exactly the documents that have one. */
  lemma {:induction false} StripsExactly(j: Json)
    ensures NullFree(StripNulls(j))
    ensures StripNulls(j) == j <==> NullFree(j)
    ensures StripNulls(j) == Null <==> j == Null
    decreases j, 0
  {
    match j
    case Obj(fields) => StripsFields(fields);
    case Arr(items) => StripsItems(items);
    case _ =>
  }

  lemma {:induction false} StripsFields(d: Dict)
    ensures NullFree(Obj(StripFields(d))) && (StripFields(d) == d <==> NullFree(Obj(d)))
    ensures |StripFields(d)| <= |d|
    decreases d, 1
  {
    if d != [] {
      StripsExactly(d[0].value);
      StripsFields(d[1..]);
      assert d == [d[0]] + d[1..];
      assert NullFree(Obj(d)) <==> d[0].value != Null && NullFree(d[0].value) && NullFree(Obj(d[1..]));
      if d[0].value != Null {
        var kept := Field(d[0].key, StripNulls(d[0].value));
        assert StripFields(d) == [kept] + StripFields(d[1..]);
        assert StripFields(d)[0] == kept && StripFields(d)[1..] == StripFields(d[1..]);
      }
    }
  }

  lemma {:induction false} StripsItems(s: seq<Json>)
    ensures NullFree(Arr(StripItems(s))) && (StripItems(s) == s <==> NullFree(Arr(s)))
    ensures |StripItems(s)| <= |s|
    decreases s, 1
  {
    if s != [] {
      StripsExactly(s[0]);
      StripsItems(s[1..]);
      assert s == [s[0]] + s[1..];
      assert forall x :: x in s <==> x == s[0] || x in s[1..];
      assert NullFree(Arr(s)) <==> s[0] != Null && s[0] != Obj([]) && NullFree(s[0]) && NullFree(Arr(s[1..]));
      var rest := StripItems(s[1..]);
      if s[0] != Null && StripNulls(s[0]) != Obj([]) {
        assert StripItems(s) == [StripNulls(s[0])] + rest;
        assert StripItems(s)[0] == StripNulls(s[0]) && StripItems(s)[1..] == rest;
      }
    }
  }

  // ---------- the proof ----------

  lemma {:induction false} FindIndex(d: Dict, i: nat)
    requires Distinct(d) && i < |d|
    ensures Find(d, d[i].key) == Some(d[i].value)
  {
    if i > 0 {
      FindIndex(d[1..], i - 1);
      assert d[1..][i - 1] == d[i];
    }
  }

  lemma {:induction false} HasIndex(d: Dict, k: string) returns (i: nat)
    requires Has(d, k)
    ensures i < |d| && d[i].key == k
  {
    if d[0].key == k { return 0; }
    i := HasIndex(d[1..], k);
    i := i + 1;
  }

  lemma {:induction false} SameKeys(d: Dict, e: Dict)
    requires |d| == |e| && forall i | 0 <= i < |d| :: d[i].key == e[i].key
    requires Distinct(d)
    ensures forall k :: Has(d, k) <==> Has(e, k)
    ensures Distinct(e)
  {
    if d != [] {
      forall i | 0 <= i < |d[1..]| ensures d[1..][i].key == e[1..][i].key {
        assert d[i + 1].key == e[i + 1].key;
      }
      SameKeys(d[1..], e[1..]);
      assert d[0].key == e[0].key;
      forall k ensures Has(d, k) <==> Has(e, k) {
        assert Has(d[1..], k) <==> Has(e[1..], k);
      }
    }
  }

  lemma {:induction false} StringsHas(items: seq<Json>, s: string)
    ensures s in Strings(items) <==> Str(s) in items
  {
    if items != [] {
      StringsHas(items[1..], s);
      assert Str(s) in items <==> Str(s) == items[0] || Str(s) in items[1..];
    }
  }

  lemma {:induction false} NoNullRequired(result: Dict, required: seq<string>, path: string)
    ensures NullRequired(result, required, path) == []
            <==> forall f | f in result :: f.value == Null ==> f.key !in required
  {
    if result != [] {
      NoNullRequired(result[1..], required, path);
      assert forall f | f in result :: f == result[0] || f in result[1..];
      assert result[0] in result && forall f | f in result[1..] :: f in result;
    }
  }

  /** What the property loop of one object guarantees, field by field. */
  ghost predicate FieldsGood(depth: nat, props: Dict, result: Dict, root: Json) {
    && |result| == |props|
    && (forall i | 0 <= i < |props| :: result[i].key == props[i].key)
    && (forall i | 0 <= i < |props| ::
          result[i].value != Null ==> Validates(depth, props[i].value, StripNulls(result[i].value), root))
  }

  lemma {:induction false} RequiredKept(props: Dict, required: Json, result: Dict, path: string)
    requires RequiredFrom(required, props) && Distinct(props)
    requires |result| == |props| && forall i | 0 <= i < |props| :: result[i].key == props[i].key
    requires NullRequired(result, Strings(required.items), path) == []
    ensures forall n | n in required.items :: n.Str? && Has(StripFields(result), n.s)
  {
    SameKeys(props, result);
    NoNullRequired(result, Strings(required.items), path);
    forall n | n in required.items ensures n.Str? && Has(StripFields(result), n.s) {
      StringsHas(required.items, n.s);
      var i := HasIndex(result, n.s);
      FindIndex(result, i);
      StripFind(result, n.s);
    }
  }

  lemma {:induction false} PropertiesKept(depth: nat, props: Dict, result: Dict, root: Json)
    requires FieldsGood(depth, props, result, root) && Distinct(props)
    ensures PropertiesOk(depth, props, StripFields(result), root)
  {
    SameKeys(props, result);
    forall p | p in props && Has(StripFields(result), p.key)
      ensures Validates(depth, p.value, Find(StripFields(result), p.key).value, root)
    {
      var i :| 0 <= i < |props| && props[i] == p;
      FindIndex(result, i);
      StripFind(result, p.key);
    }
  }

  lemma {:induction false} ObjectFragment(depth: nat, d: Dict, root: Json)
    requires InFragment(depth, Obj(d), root) && !Has(d, "$ref") && PlainShape(d).Object?
    ensures depth > 0 && RequiredFrom(PlainShape(d).required, PlainShape(d).props) && Distinct(PlainShape(d).props)
  {
  }

  lemma {:induction false} ValidFields(depth: nat, d: Dict, fields: Dict, root: Json)
    requires InFragment(depth, Obj(d), root) && !Has(d, "$ref") && PlainShape(d).Object?
    requires forall n | n in PlainShape(d).required.items :: n.Str? && Has(fields, n.s)
    requires PropertiesOk(depth - 1, PlainShape(d).props, fields, root)
    ensures Validates(depth, Obj(d), Obj(fields), root)
  {
    assert RequiredOk(d, Obj(fields));
  }

  lemma {:induction false} ObjectValid(depth: nat, d: Dict, result: Dict, path: string, root: Json)
    requires InFragment(depth, Obj(d), root) && !Has(d, "$ref") && PlainShape(d).Object?
    requires FieldsGood(depth - 1, PlainShape(d).props, result, root)
    requires NullRequired(result, Strings(PlainShape(d).required.items), path) == []
    ensures Validates(depth, Obj(d), StripNulls(Obj(result)), root)
  {
    ObjectFragment(depth, d, root);
    RequiredKept(PlainShape(d).props, PlainShape(d).required, result, path);
    PropertiesKept(depth - 1, PlainShape(d).props, result, root);
    ValidFields(depth, d, StripFields(result), root);
  }

  lemma {:induction false} ArrayValid(depth: nat, d: Dict, item: Json, root: Json)
    requires InFragment(depth, Obj(d), root) && !Has(d, "$ref") && PlainShape(d).Array?
    requires item != Null && Validates(depth - 1, PlainShape(d).items, StripNulls(item), root)
    ensures Validates(depth, Obj(d), StripNulls(Arr([item])), root)
  {
    if Has(d, "type") && Find(d, "type").value.Arr? { FirstNonNullIn(Find(d, "type").value.items); }
    assert TypeOk(d, Arr([]));
    assert StripItems([item][1..]) == [];
    assert forall x | x in StripItems([item]) :: x == StripNulls(item);
  }

  lemma {:induction false} FirstNonNullIn(ts: seq<Json>)
    ensures FirstNonNull(ts) == Str("array") ==> Str("array") in ts
  {
    if ts != [] { FirstNonNullIn(ts[1..]); }
  }

  lemma {:induction false} FragmentShape(depth: nat, schema: Json, root: Json)
    requires InFragment(depth, schema, root)
    ensures schema.Obj? && !Has(schema.fields, "$ref") ==> ShapeOf(schema, Config, root) == PlainShape(schema.fields)
    ensures schema.Obj? && Has(schema.fields, "$ref") ==>
              ShapeOf(schema, Config, root) == Again(Obj(ResolveRef(schema.fields[0].value, root).value), 0)
  {
    if schema.Obj? {
      var d := schema.fields;
      if Has(d, "$ref") {
        FindAt(d, "$ref");
        assert d[1..] == [] && d[0].key == "$ref";
        assert Without(d[1..], "$ref") == [];
        assert Find(d, "$ref") == Some(d[0].value) && Without(d, "$ref") == [];
      } else {
        if Has(d, "oneOf") { FindAt(d, "oneOf"); }
        if Has(d, "allOf") { FindAt(d, "allOf"); }
      }
    }
  }

  /** Everything the compiler promises about one fragment schema. */
  ghost predicate Good(depth: nat, schema: Json, o: Outcome<Json>, root: Json) {
    && o.Done?
    && (NoneRequired(o.warnings) && o.value != Null ==> Validates(depth, schema, StripNulls(o.value), root))
  }

  /** Main theorem: in the fragment the compiler finishes, and a template that is not null and
      carries no "required fields" warning is accepted after null stripping. */
  lemma {:induction false} TemplateValidates(depth: nat, schema: Json, path: string, root: Json)
    requires InFragment(depth, schema, root)
    ensures Good(depth, schema, SlimSchema(depth, schema, Config, path, root), root)
    decreases depth, 0
  {
    FragmentShape(depth, schema, root);
    if schema.Obj? {
      var d := schema.fields;
      if Has(d, "$ref") {
        assert Find(d, "$ref") == Some(d[0].value);
        TemplateValidates(depth - 1, Obj(ResolveRef(d[0].value, root).value), path, root);
      } else {
        PlainTemplate(depth, d, path, root);
      }
    }
  }

  lemma {:induction false} PlainTemplate(depth: nat, d: Dict, path: string, root: Json)
    requires InFragment(depth, Obj(d), root) && !Has(d, "$ref")
    ensures Good(depth, Obj(d), SlimShape(depth - 1, PlainShape(d), Config, path, root), root)
    decreases depth - 1, 2
  {
    match PlainShape(d)
    case Object(props, required) =>
      FieldsValidate(depth - 1, props, path, root);
      ObjectTemplate(depth, d, path, root);
    case Array(items, default, meta) =>
      TemplateValidates(depth - 1, items, path + "[]", root);
      var item := SlimSchema(depth - 1, items, Config, path + "[]", root);
      if item.value != Null && NoneRequired(item.warnings) { ArrayValid(depth, d, item.value, root); }
    case _ =>
  }

  lemma {:induction false} ObjectTemplate(depth: nat, d: Dict, path: string, root: Json)
    requires InFragment(depth, Obj(d), root) && !Has(d, "$ref") && PlainShape(d).Object?
    requires var fs := SlimFields(depth - 1, PlainShape(d).props, Config, path, root);
             fs.Done? && (NoneRequired(fs.warnings) ==> FieldsGood(depth - 1, PlainShape(d).props, fs.value, root))
    ensures Good(depth, Obj(d),
                 SlimObject(depth - 1, PlainShape(d).props, PlainShape(d).required, Config, path, root), root)
  {
    var shape := PlainShape(d);
    var fs := SlimFields(depth - 1, shape.props, Config, path, root);
    var o := SlimObject(depth - 1, shape.props, shape.required, Config, path, root);
    var nulls := NullRequired(fs.value, Strings(shape.required.items), path);
    assert forall i | 0 <= i < |shape.required.items| :: shape.required.items[i] in shape.required.items;
    assert RequiredNames(shape.required) == Some(Strings(shape.required.items));
    assert o == Done(Obj(fs.value), fs.warnings + Noted(nulls));
    assert nulls != [] ==> RequiredNull(nulls) in o.warnings;
    if NoneRequired(o.warnings) {
      assert forall w | w in fs.warnings :: w in o.warnings;
      ObjectValid(depth, d, fs.value, path, root);
    }
  }

  lemma {:induction false} FieldsValidate(depth: nat, props: Dict, path: string, root: Json)
    requires PropsInFragment(depth, props, root)
    ensures var fs := SlimFields(depth, props, Config, path, root);
            fs.Done? && (NoneRequired(fs.warnings) ==> FieldsGood(depth, props, fs.value, root))
    decreases depth, 1, |props|
  {
    if props != [] {
      assert props[0] in props;
      TemplateValidates(depth, props[0].value, JoinPath(path, props[0].key), root);
      assert forall p | p in props[1..] :: p in props;
      FieldsValidate(depth, props[1..], path, root);
      var first := SlimSchema(depth, props[0].value, Config, JoinPath(path, props[0].key), root);
      var rest := SlimFields(depth, props[1..], Config, path, root);
      if NoneRequired(first.warnings + rest.warnings) {
        NoneRequiredParts(first.warnings, rest.warnings);
        FieldsGoodCons(depth, props, first.value, rest.value, root);
      }
    }
  }

  lemma NoneRequiredParts(a: seq<Warning>, b: seq<Warning>)
    requires NoneRequired(a + b)
    ensures NoneRequired(a) && NoneRequired(b)
  {
    assert forall w | w in a || w in b :: w in a + b;
  }

  lemma {:induction false} FieldsGoodCons(depth: nat, props: Dict, first: Json, rest: Dict, root: Json)
    requires props != [] && FieldsGood(depth, props[1..], rest, root)
    requires first != Null ==> Validates(depth, props[0].value, StripNulls(first), root)
    ensures FieldsGood(depth, props, [Field(props[0].key, first)] + rest, root)
  {
    var result := [Field(props[0].key, first)] + rest;
    forall i | 0 < i < |props| ensures props[i] == props[1..][i - 1] && result[i] == rest[i - 1] {}
  }
}
