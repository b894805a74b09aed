/** The validator and the null stripping before it, construct by construct: what they promise whoever reads
    the results of `SchemaValidation`. */
module SchemaValidity {
  import opened Json
  import opened SchemaTemplate
  import opened SchemaValidation

  // ---------- null stripping ----------

  /** Entries and items are stripped one by one and stay in order: a null goes, and of a list an item that is
      stripped to `{}` goes as well. Anything but a dict or a list is left as it is. */
  lemma {:induction false} StripsPiecewise(k: string, j: Json, d: Dict, s: seq<Json>)
    ensures StripNulls(Obj([])) == Obj([]) && StripNulls(Arr([])) == Arr([])
    ensures !j.Obj? && !j.Arr? ==> StripNulls(j) == j
    ensures StripNulls(Obj(d + [Field(k, j)]))
            == Obj(StripNulls(Obj(d)).fields + if j == Null then [] else [Field(k, StripNulls(j))])
    ensures StripNulls(Arr(s + [j]))
            == Arr(StripNulls(Arr(s)).items + if j == Null || StripNulls(j) == Obj([]) then [] else [StripNulls(j)])
  {
    FieldsSnoc(d, Field(k, j));
    ItemsSnoc(s, j);
  }

  lemma {:induction false} FieldsSnoc(d: Dict, f: Field)
    ensures StripFields(d + [f])
            == StripFields(d) + if f.value == Null then [] else [Field(f.key, StripNulls(f.value))]
  {
    if d == [] {
      assert d + [f] == [f] && [f][1..] == [];
    } else {
      assert (d + [f])[1..] == d[1..] + [f];
      FieldsSnoc(d[1..], f);
    }
  }

  lemma {:induction false} ItemsSnoc(s: seq<Json>, j: Json)
    ensures StripItems(s + [j])
            == StripItems(s) + if j == Null || StripNulls(j) == Obj([]) then [] else [StripNulls(j)]
  {
    if s == [] {
      assert s + [j] == [j] && [j][1..] == [];
    } else {
      assert (s + [j])[1..] == s[1..] + [j];
      ItemsSnoc(s[1..], j);
    }
  }

  // ---------- the validator ----------

  /** A schema without references and without the keywords about its children. */
  predicate Childless(d: Dict) {
    Find(d, "$ref") == None && Find(d, "properties") == None && Find(d, "items") == None
  }

  /** Main theorem about numbers: type, bounds, and multiples. */
  lemma {:induction false} NumberValidIff(d: Dict, x: real, root: Json)
    requires Childless(d) && Find(d, "type") == Some(Str("number"))
    requires Find(d, "enum") == None && Find(d, "const") == None
    ensures Valid(Obj(d), Num(x), root)
            <==> && (forall m | Find(d, "minimum") == Some(Num(m)) :: m <= x)
                 && (forall m | Find(d, "maximum") == Some(Num(m)) :: x <= m)
                 && (forall m | Find(d, "exclusiveMinimum") == Some(Num(m)) :: m < x)
                 && (forall m | Find(d, "exclusiveMaximum") == Some(Num(m)) :: x < m)
                 && (forall m | Find(d, "multipleOf") == Some(Num(m)) && m > 0.0 ::
                       (x / m).Floor as real == x / m)
  {
    ShallowValid(d, Num(x), root);
  }

  lemma ShallowValid(d: Dict, j: Json, root: Json)
    requires Childless(d)
    ensures Valid(Obj(d), j, root)
            <==> TypeOk(d, j) && EnumOk(d, j) && BoundsOk(d, j) && ConstOk(d, j) && RequiredOk(d, j)
  {
    assert Validates(1, Obj(d), j, root)
        == (TypeOk(d, j) && EnumOk(d, j) && BoundsOk(d, j) && ConstOk(d, j) && RequiredOk(d, j));
    if n: nat :| Validates(n, Obj(d), j, root) { ValidatesMonotone(n, n + 1, Obj(d), j, root); }
  }

  /** The type of a document, integers apart. */
  function TypeName(j: Json): string {
    match j
    case Null => "null"
    case Bool(_) => "boolean"
    case Num(_) => "number"
    case Str(_) => "string"
    case Arr(_) => "array"
    case Obj(_) => "object"
  }

  predicate OfType(j: Json, t: Json) {
    t == Str(TypeName(j)) || (t == Str("integer") && j.Num? && j.n == j.n.Floor as real)
  }

  /** Main theorem about type, `enum` and `const`, for documents that are neither numbers nor objects. */
  lemma {:induction false} PlainValidIff(d: Dict, j: Json, root: Json)
    requires Childless(d) && !j.Num? && !j.Obj?
    ensures Valid(Obj(d), j, root)
            <==> && (match Find(d, "type")
                     case None => true
                     case Some(Arr(ts)) => exists t | t in ts :: OfType(j, t)
                     case Some(t) => OfType(j, t))
                 && (match Find(d, "enum") case None => true case Some(Arr(vs)) => j in vs case _ => false)
                 && (forall c | Find(d, "const") == Some(c) :: j == c)
  {
    ShallowValid(d, j, root);
    forall t ensures HasType(j, t) <==> OfType(j, t) {}
  }

  /** A schema for objects, or arrays, that says nothing else about them. */
  predicate Container(d: Dict, t: string) {
    && Find(d, "$ref") == None && Find(d, "type") == Some(Str(t))
    && Find(d, "enum") == None && Find(d, "const") == None
  }

  /** Main theorem about objects: every required name is there, and every named property that is there is valid. */
  lemma {:induction false} ObjectValidIff(d: Dict, e: Dict, root: Json)
    requires Container(d, "object") && (Has(d, "properties") ==> Find(d, "properties").value.Obj?)
    requires Has(d, "required") ==> Find(d, "required").value.Arr?
    ensures Valid(Obj(d), Obj(e), root)
            <==> && NamesThere(d, e)
                 && forall p | p in PropsIn(d) && Has(e, p.key) :: Valid(p.value, Find(e, p.key).value, root)
  {
    var props := PropsIn(d);
    if n: nat :| Validates(n, Obj(d), Obj(e), root) {
      ObjectStep(n - 1, d, e, root);
      forall p | p in props && Has(e, p.key) ensures Valid(p.value, Find(e, p.key).value, root) {
        assert Validates(n - 1, p.value, Find(e, p.key).value, root);
      }
    }
    if forall p | p in props && Has(e, p.key) :: Valid(p.value, Find(e, p.key).value, root) {
      var n := PropertiesDepth(props, e, root);
      ObjectStep(n, d, e, root);
    }
  }

  function PropsIn(d: Dict): Dict {
    match Find(d, "properties") case Some(Obj(props)) => props case _ => []
  }

  predicate NamesThere(d: Dict, e: Dict) {
    match Find(d, "required")
    case Some(Arr(names)) => forall n | n in names :: n.Str? && Has(e, n.s)
    case _ => true
  }

  lemma {:induction false} ObjectStep(n: nat, d: Dict, e: Dict, root: Json)
    requires Container(d, "object") && (Has(d, "properties") ==> Find(d, "properties").value.Obj?)
    requires Has(d, "required") ==> Find(d, "required").value.Arr?
    ensures Validates(n + 1, Obj(d), Obj(e), root) <==> NamesThere(d, e) && PropertiesOk(n, PropsIn(d), e, root)
  {
  }

  lemma {:induction false} PropertiesDepth(props: Dict, e: Dict, root: Json) returns (n: nat)
    requires forall p | p in props && Has(e, p.key) :: Valid(p.value, Find(e, p.key).value, root)
    ensures PropertiesOk(n, props, e, root)
  {
    n := 0;
    if props != [] {
      var p := props[0];
      assert p in props && forall q | q in props[1..] :: q in props;
      n := PropertiesDepth(props[1..], e, root);
      if Has(e, p.key) {
        var v := Find(e, p.key).value;
        var m: nat :| Validates(m, p.value, v, root);
        var most := if m < n then n else m;
        ValidatesMonotone(m, most, p.value, v, root);
        forall q | q in props[1..] && Has(e, q.key) ensures Validates(most, q.value, Find(e, q.key).value, root) {
          ValidatesMonotone(n, most, q.value, Find(e, q.key).value, root);
        }
        n := most;
      }
      assert forall q | q in props :: q == p || q in props[1..];
    }
  }

  /** Main theorem about arrays: every item is valid. */
  lemma {:induction false} ArrayValidIff(d: Dict, s: seq<Json>, items: Json, root: Json)
    requires Container(d, "array") && Find(d, "items") == Some(items)
    ensures Valid(Obj(d), Arr(s), root) <==> forall x | x in s :: Valid(items, x, root)
  {
    if n: nat :| Validates(n, Obj(d), Arr(s), root) {
      forall x | x in s ensures Valid(items, x, root) { assert Validates(n - 1, items, x, root); }
    }
    if forall x | x in s :: Valid(items, x, root) {
      var n := ItemsDepth(s, items, root);
      assert Validates(n + 1, Obj(d), Arr(s), root);
    }
  }

  lemma {:induction false} ItemsDepth(s: seq<Json>, items: Json, root: Json) returns (n: nat)
    requires forall x | x in s :: Valid(items, x, root)
    ensures forall x | x in s :: Validates(n, items, x, root)
  {
    n := 0;
    if s != [] {
      assert s[0] in s && forall x | x in s[1..] :: x in s;
      n := ItemsDepth(s[1..], items, root);
      var m: nat :| Validates(m, items, s[0], root);
      var most := if m < n then n else m;
      ValidatesMonotone(m, most, items, s[0], root);
      forall x | x in s[1..] ensures Validates(most, items, x, root) { ValidatesMonotone(n, most, items, x, root); }
      assert forall x | x in s :: x == s[0] || x in s[1..];
      n := most;
    }
  }

  /** A reference is valid for what its target is, whatever stands beside it. */
  lemma {:induction false} RefValidIff(d: Dict, j: Json, root: Json)
    requires Has(d, "$ref")
    ensures Valid(Obj(d), j, root)
            <==> match ResolveRef(Find(d, "$ref").value, root)
                 case Some(target) => Valid(Obj(target), j, root)
                 case None => false
  {
    if n: nat :| Validates(n, Obj(d), j, root) {
      assert Validates(n - 1, Obj(ResolveRef(Find(d, "$ref").value, root).value), j, root);
    }
    match ResolveRef(Find(d, "$ref").value, root)
    case Some(target) =>
      if n: nat :| Validates(n, Obj(target), j, root) { assert Validates(n + 1, Obj(d), j, root); }
    case None =>
  }
}
