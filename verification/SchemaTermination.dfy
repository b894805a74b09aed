/** The template compiler terminates on every schema whose `#/definitions` references are
    acyclic: each rewritten schema, merges included, is smaller once references are unfolded. */
module SchemaTermination {
  import opened Json
  import opened SchemaTemplate
  import opened Text

  type Rank = string -> nat

  // ---------- acyclic references ----------

  /** Every resolvable `$ref` anywhere inside `j` ranks below `k`. */
  ghost predicate RefsBelow(k: nat, j: Json, root: Json, rank: Rank) {
    match j
    case Obj(fields) => forall f | f in fields :: RefBelow(k, f, root, rank) && RefsBelow(k, f.value, root, rank)
    case Arr(items) => forall x | x in items :: RefsBelow(k, x, root, rank)
    case _ => true
  }

  ghost predicate RefBelow(k: nat, f: Field, root: Json, rank: Rank) {
    f.key == "$ref" && ResolveRef(f.value, root).Some? ==> rank(f.value.s) < k
  }

  /** `rank` orders references so that a definition only mentions lower ones. */
  ghost predicate TopologicalRank(root: Json, rank: Rank) {
    forall r: string :: ResolveRef(Str(r), root).Some? ==>
                          RefsBelow(rank(r), Obj(ResolveRef(Str(r), root).value), root, rank)
  }

  ghost predicate AcyclicRefs(root: Json) {
    exists rank: Rank :: TopologicalRank(root, rank)
  }

  lemma {:induction false} RefsBelowMonotone(k: nat, m: nat, j: Json, root: Json, rank: Rank)
    requires k <= m && RefsBelow(k, j, root, rank)
    ensures RefsBelow(m, j, root, rank)
  {
    match j
    case Obj(fields) =>
      forall f | f in fields ensures RefBelow(m, f, root, rank) && RefsBelow(m, f.value, root, rank) {
        RefsBelowMonotone(k, m, f.value, root, rank);
      }
    case Arr(items) =>
      forall x | x in items ensures RefsBelow(m, x, root, rank) {
        RefsBelowMonotone(k, m, x, root, rank);
      }
    case _ =>
  }

  /** Some rank bounds every reference of a finite document. */
  lemma {:induction false} RefsBounded(j: Json, root: Json, rank: Rank) returns (k: nat)
    ensures RefsBelow(k, j, root, rank)
    decreases j, 0
  {
    match j
    case Obj(fields) => k := FieldsBounded(fields, root, rank);
    case Arr(items) => k := ItemsBounded(items, root, rank);
    case _ => k := 0;
  }

  lemma {:induction false} FieldsBounded(d: Dict, root: Json, rank: Rank) returns (k: nat)
    ensures RefsBelow(k, Obj(d), root, rank)
    decreases d, 1
  {
    if d == [] { return 0; }
    var a := RefsBounded(d[0].value, root, rank);
    var b := FieldsBounded(d[1..], root, rank);
    var c := if d[0].key == "$ref" && ResolveRef(d[0].value, root).Some? then rank(d[0].value.s) + 1 else 0;
    k := a + b + c;
    RefsBelowMonotone(a, k, d[0].value, root, rank);
    RefsBelowMonotone(b, k, Obj(d[1..]), root, rank);
    assert forall f | f in d :: f == d[0] || f in d[1..];
  }

  lemma {:induction false} ItemsBounded(s: seq<Json>, root: Json, rank: Rank) returns (k: nat)
    ensures RefsBelow(k, Arr(s), root, rank)
    decreases s, 1
  {
    if s == [] { return 0; }
    var a := RefsBounded(s[0], root, rank);
    var b := ItemsBounded(s[1..], root, rank);
    k := a + b;
    RefsBelowMonotone(a, k, s[0], root, rank);
    RefsBelowMonotone(b, k, Arr(s[1..]), root, rank);
    assert forall x | x in s :: x == s[0] || x in s[1..];
  }

  // ---------- unfolded size ----------

  /** Size of a document in which each `$ref` ranking below `k` also counts its target. */
  ghost function Weight(k: nat, j: Json, root: Json, rank: Rank): nat
    decreases k, j, 0
  {
    match j
    case Obj(fields) => 1 + FieldsWeight(k, fields, root, rank)
    case Arr(items) => 1 + ItemsWeight(k, items, root, rank)
    case _ => 1
  }

  ghost function FieldsWeight(k: nat, d: Dict, root: Json, rank: Rank): nat
    decreases k, d, 1
  {
    if d == [] then 0 else FieldWeight(k, d[0], root, rank) + FieldsWeight(k, d[1..], root, rank)
  }

  ghost function FieldWeight(k: nat, f: Field, root: Json, rank: Rank): nat
    decreases k, f, 2
  {
    1 + Weight(k, f.value, root, rank) + if f.key == "$ref" then TargetWeight(k, f.value, root, rank) else 0
  }

  ghost function TargetWeight(k: nat, ref: Json, root: Json, rank: Rank): nat
    decreases k, ref, 1
  {
    match ResolveRef(ref, root)
    case None => 0
    case Some(target) => if rank(ref.s) < k then FieldsWeight(rank(ref.s), target, root, rank) else 0
  }

  ghost function ItemsWeight(k: nat, s: seq<Json>, root: Json, rank: Rank): nat
    decreases k, s, 1
  {
    if s == [] then 0 else Weight(k, s[0], root, rank) + ItemsWeight(k, s[1..], root, rank)
  }

  /** Above all its references, a document's weight no longer depends on the bound. */
  lemma {:induction false} WeightStable(k: nat, m: nat, j: Json, root: Json, rank: Rank)
    requires k <= m && RefsBelow(k, j, root, rank)
    ensures Weight(k, j, root, rank) == Weight(m, j, root, rank)
    decreases j, 0
  {
    match j
    case Obj(fields) => FieldsWeightStable(k, m, fields, root, rank);
    case Arr(items) => ItemsWeightStable(k, m, items, root, rank);
    case _ =>
  }

  lemma {:induction false} FieldsWeightStable(k: nat, m: nat, d: Dict, root: Json, rank: Rank)
    requires k <= m && RefsBelow(k, Obj(d), root, rank)
    ensures FieldsWeight(k, d, root, rank) == FieldsWeight(m, d, root, rank)
    decreases d, 1
  {
    if d != [] {
      assert d[0] in d && RefBelow(k, d[0], root, rank);
      WeightStable(k, m, d[0].value, root, rank);
      assert d[0].key == "$ref" ==> TargetWeight(k, d[0].value, root, rank) == TargetWeight(m, d[0].value, root, rank);
      assert forall f | f in d[1..] :: f in d;
      FieldsWeightStable(k, m, d[1..], root, rank);
    }
  }

  lemma {:induction false} ItemsWeightStable(k: nat, m: nat, s: seq<Json>, root: Json, rank: Rank)
    requires k <= m && RefsBelow(k, Arr(s), root, rank)
    ensures ItemsWeight(k, s, root, rank) == ItemsWeight(m, s, root, rank)
    decreases s, 1
  {
    if s != [] {
      assert s[0] in s;
      WeightStable(k, m, s[0], root, rank);
      assert forall x | x in s[1..] :: x in s;
      ItemsWeightStable(k, m, s[1..], root, rank);
    }
  }

  // ---------- merging never gains weight or references ----------

  /** The facts every merge keeps: references below `k`, and a weight of at most `w`. */
  ghost predicate Bounded(k: nat, d: Dict, w: nat, root: Json, rank: Rank) {
    RefsBelow(k, Obj(d), root, rank) && FieldsWeight(k, d, root, rank) <= w
  }

  lemma {:induction false} FindBounded(k: nat, d: Dict, key: string, root: Json, rank: Rank)
    requires RefsBelow(k, Obj(d), root, rank) && Has(d, key)
    ensures RefsBelow(k, Find(d, key).value, root, rank)
    ensures RefBelow(k, Field(key, Find(d, key).value), root, rank)
  {
    FindAt(d, key);
  }

  lemma {:induction false} PutMembers(d: Dict, key: string, v: Json)
    ensures forall f | f in Put(d, key, v) :: f == Field(key, v) || f in d
  {
    if d != [] && d[0].key != key {
      PutMembers(d[1..], key, v);
    }
  }

  ghost function HeldWeight(k: nat, d: Dict, key: string, root: Json, rank: Rank): nat {
    match Find(d, key) case Some(v) => FieldWeight(k, Field(key, v), root, rank) case None => 0
  }

  lemma {:induction false} PutFirstWeight(k: nat, f: Field, rest: Dict, v: Json, root: Json, rank: Rank)
    ensures FieldsWeight(k, [Field(f.key, v)] + rest, root, rank) + FieldWeight(k, f, root, rank)
            == FieldsWeight(k, [f] + rest, root, rank) + FieldWeight(k, Field(f.key, v), root, rank)
  {
    assert ([f] + rest)[1..] == rest && ([Field(f.key, v)] + rest)[1..] == rest;
  }

  lemma {:induction false} PutWeight(k: nat, d: Dict, key: string, v: Json, root: Json, rank: Rank)
    ensures FieldsWeight(k, Put(d, key, v), root, rank) + HeldWeight(k, d, key, root, rank)
            == FieldsWeight(k, d, root, rank) + FieldWeight(k, Field(key, v), root, rank)
  {
    if d == [] {
      assert Put(d, key, v)[1..] == [];
    } else if d[0].key == key {
      assert d == [d[0]] + d[1..] && d[0] == Field(key, d[0].value);
      PutFirstWeight(k, d[0], d[1..], v, root, rank);
    } else {
      PutWeight(k, d[1..], key, v, root, rank);
      assert Put(d, key, v)[1..] == Put(d[1..], key, v);
    }
  }

  lemma {:induction false} PutBounded(k: nat, d: Dict, key: string, v: Json, root: Json, rank: Rank)
    requires RefsBelow(k, Obj(d), root, rank)
    requires RefsBelow(k, v, root, rank) && RefBelow(k, Field(key, v), root, rank)
    ensures RefsBelow(k, Obj(Put(d, key, v)), root, rank)
    ensures FieldsWeight(k, Put(d, key, v), root, rank) + HeldWeight(k, d, key, root, rank)
            == FieldsWeight(k, d, root, rank) + FieldWeight(k, Field(key, v), root, rank)
  {
    PutMembers(d, key, v);
    PutWeight(k, d, key, v, root, rank);
  }

  lemma {:induction false} UpdateBounded(k: nat, d: Dict, e: Dict, root: Json, rank: Rank)
    requires RefsBelow(k, Obj(d), root, rank) && RefsBelow(k, Obj(e), root, rank)
    ensures Bounded(k, Update(d, e), FieldsWeight(k, d, root, rank) + FieldsWeight(k, e, root, rank), root, rank)
    decreases |e|
  {
    if e != [] {
      assert e[0] in e && e[0] == Field(e[0].key, e[0].value);
      PutBounded(k, d, e[0].key, e[0].value, root, rank);
      assert forall f | f in e[1..] :: f in e;
      UpdateBounded(k, Put(d, e[0].key, e[0].value), e[1..], root, rank);
    }
  }

  /** Dropping a key gives back at least the weight of the field it held. */
  lemma {:induction false} WithoutBounded(k: nat, d: Dict, key: string, root: Json, rank: Rank)
    requires RefsBelow(k, Obj(d), root, rank)
    ensures RefsBelow(k, Obj(Without(d, key)), root, rank)
    ensures FieldsWeight(k, Without(d, key), root, rank)
            + HeldWeight(k, d, key, root, rank)
            <= FieldsWeight(k, d, root, rank)
  {
    if d != [] {
      assert forall f | f in d[1..] :: f in d;
      WithoutBounded(k, d[1..], key, root, rank);
      assert d[0] in d;
      if d[0].key == key {
        assert d[0] == Field(key, Find(d, key).value);
      } else {
        assert Without(d, key)[1..] == Without(d[1..], key);
        assert forall f | f in Without(d, key) :: f == d[0] || f in Without(d[1..], key);
      }
    }
  }

  /** The step shared by both merges: folding one `properties` dict into another. */
  lemma {:induction false} PropertiesBounded(k: nat, d: Dict, mine: Dict, more: Dict, root: Json, rank: Rank)
    requires RefsBelow(k, Obj(d), root, rank) && RefsBelow(k, Obj(more), root, rank)
    requires match Find(d, "properties") case Some(p) => p == Obj(mine) case None => mine == []
    ensures Bounded(k, Put(d, "properties", Obj(Update(mine, more))),
                    FieldsWeight(k, d, root, rank)
                        + FieldWeight(k, Field("properties", Obj(more)), root, rank), root, rank)
  {
    if Has(d, "properties") { FindBounded(k, d, "properties", root, rank); }
    UpdateBounded(k, mine, more, root, rank);
    PutBounded(k, d, "properties", Obj(Update(mine, more)), root, rank);
    assert FieldWeight(k, Field("properties", Obj(Update(mine, more))), root, rank)
           == 2 + FieldsWeight(k, Update(mine, more), root, rank);
    assert FieldWeight(k, Field("properties", Obj(more)), root, rank) == 2 + FieldsWeight(k, more, root, rank);
    if Has(d, "properties") {
      assert Find(d, "properties") == Some(Obj(mine));
      assert FieldWeight(k, Field("properties", Obj(mine)), root, rank) == 2 + FieldsWeight(k, mine, root, rank);
    }
  }

  lemma {:induction false} MergeVariantBounded(k: nat, merged: Dict, chosen: Dict, root: Json, rank: Rank)
    requires RefsBelow(k, Obj(merged), root, rank) && RefsBelow(k, Obj(chosen), root, rank)
    requires MergeVariant(merged, chosen).Some?
    ensures Bounded(k, MergeVariant(merged, chosen).value,
                    FieldsWeight(k, merged, root, rank) + FieldsWeight(k, chosen, root, rank), root, rank)
    decreases |chosen|
  {
    if chosen != [] {
      var f := chosen[0];
      assert f in chosen && f == Field(f.key, f.value);
      assert forall g | g in chosen[1..] :: g in chosen;
      if f.key == "properties" && Has(merged, "properties") {
        var mine := Find(merged, "properties").value.fields;
        PropertiesBounded(k, merged, mine, f.value.fields, root, rank);
        MergeVariantBounded(k, Put(merged, f.key, Obj(Update(mine, f.value.fields))), chosen[1..], root, rank);
      } else {
        PutBounded(k, merged, f.key, f.value, root, rank);
        MergeVariantBounded(k, Put(merged, f.key, f.value), chosen[1..], root, rank);
      }
    }
  }

  lemma {:induction false} MergeSubBounded(k: nat, merged: Dict, sub: Dict, root: Json, rank: Rank)
    requires RefsBelow(k, Obj(merged), root, rank) && RefsBelow(k, Obj(sub), root, rank)
    requires MergeSub(merged, sub).Some?
    ensures Bounded(k, MergeSub(merged, sub).value,
                    FieldsWeight(k, merged, root, rank) + FieldsWeight(k, sub, root, rank), root, rank)
    decreases |sub|
  {
    if sub != [] {
      var f := sub[0];
      assert f in sub && f == Field(f.key, f.value);
      assert forall g | g in sub[1..] :: g in sub;
      if f.key == "properties" {
        var mine := match Find(merged, "properties") case Some(p) => p case None => Obj([]);
        PropertiesBounded(k, merged, mine.fields, f.value.fields, root, rank);
        MergeSubBounded(k, Put(merged, f.key, Obj(Update(mine.fields, f.value.fields))), sub[1..], root, rank);
      } else if Has(merged, f.key) {
        MergeSubBounded(k, merged, sub[1..], root, rank);
      } else {
        PutBounded(k, merged, f.key, f.value, root, rank);
        MergeSubBounded(k, Put(merged, f.key, f.value), sub[1..], root, rank);
      }
    }
  }

  lemma {:induction false} MergeSubsBounded(k: nat, merged: Dict, subs: seq<Json>, root: Json, rank: Rank)
    requires RefsBelow(k, Obj(merged), root, rank) && RefsBelow(k, Arr(subs), root, rank)
    requires MergeSubs(merged, subs).Some?
    ensures Bounded(k, MergeSubs(merged, subs).value,
                    FieldsWeight(k, merged, root, rank) + ItemsWeight(k, subs, root, rank), root, rank)
    decreases |subs|
  {
    if subs != [] {
      assert subs[0] in subs;
      assert forall x | x in subs[1..] :: x in subs;
      MergeSubBounded(k, merged, subs[0].fields, root, rank);
      MergeSubsBounded(k, MergeSub(merged, subs[0].fields).value, subs[1..], root, rank);
    }
  }

  lemma {:induction false} VariantsBounded(k: nat, vs: seq<Json>, root: Json, rank: Rank)
    requires RefsBelow(k, Arr(vs), root, rank)
    ensures RefsBelow(k, Arr(NonNullVariants(vs)), root, rank)
    ensures ItemsWeight(k, NonNullVariants(vs), root, rank) <= ItemsWeight(k, vs, root, rank)
    ensures RefsBelow(k, Arr(NonNullSubs(vs)), root, rank)
    ensures ItemsWeight(k, NonNullSubs(vs), root, rank) <= ItemsWeight(k, vs, root, rank)
  {
    if vs != [] {
      assert vs[0] in vs;
      assert forall x | x in vs[1..] :: x in vs;
      VariantsBounded(k, vs[1..], root, rank);
      assert ([vs[0]] + NonNullVariants(vs[1..]))[1..] == NonNullVariants(vs[1..]);
      assert ([vs[0]] + NonNullSubs(vs[1..]))[1..] == NonNullSubs(vs[1..]);
    }
  }

  // ---------- every recursive call is smaller ----------

  ghost predicate Smaller(k: nat, j: Json, w: nat, root: Json, rank: Rank) {
    RefsBelow(k, j, root, rank) && Weight(k, j, root, rank) < w
  }

  ghost predicate ShapeSmaller(k: nat, shape: Shape, w: nat, root: Json, rank: Rank) {
    match shape
    case Again(next, _) => Smaller(k, next, w, root, rank)
    case Union(_, _, subs) => RefsBelow(k, Arr(subs), root, rank) && ItemsWeight(k, subs, root, rank) < w
    case Object(props, _) => RefsBelow(k, Obj(props), root, rank) && FieldsWeight(k, props, root, rank) < w
    case Array(items, _, _) => Smaller(k, items, w, root, rank)
    case _ => true
  }

  lemma {:induction false} KeyBounded(k: nat, d: Dict, key: string, root: Json, rank: Rank)
    requires RefsBelow(k, Obj(d), root, rank) && Has(d, key)
    ensures RefsBelow(k, Obj(Without(d, key)), root, rank)
    ensures RefsBelow(k, Find(d, key).value, root, rank)
    ensures 1 + Weight(k, Find(d, key).value, root, rank) + FieldsWeight(k, Without(d, key), root, rank)
            <= FieldsWeight(k, d, root, rank)
  {
    WithoutBounded(k, d, key, root, rank);
    FindBounded(k, d, key, root, rank);
  }

  lemma {:induction false} KeywordShapeSmaller(k: nat, d: Dict, mode: Mode, root: Json, rank: Rank)
    requires RefsBelow(k, Obj(d), root, rank)
    ensures ShapeSmaller(k, KeywordShape(d, mode), 1 + FieldsWeight(k, d, root, rank), root, rank)
  {
    if Has(d, "oneOf") && Truthy(Find(d, "oneOf").value) {
      KeyBounded(k, d, "oneOf", root, rank);
      var variants := Find(d, "oneOf").value;
      if variants.Arr? { OneOfSmaller(k, d, variants.items, mode, root, rank); }
    } else if Has(d, "allOf") {
      KeyBounded(k, d, "allOf", root, rank);
      var subs := Find(d, "allOf").value;
      if subs.Arr? { AllOfSmaller(k, d, subs.items, mode, root, rank); }
    } else {
      PlainSmaller(k, d, root, rank);
    }
  }

  lemma {:induction false} PlainSmaller(k: nat, d: Dict, root: Json, rank: Rank)
    requires RefsBelow(k, Obj(d), root, rank)
    ensures ShapeSmaller(k, PlainShape(d), 1 + FieldsWeight(k, d, root, rank), root, rank)
  {
    if Has(d, "properties") { KeyBounded(k, d, "properties", root, rank); }
    if Has(d, "items") { KeyBounded(k, d, "items", root, rank); }
  }

  lemma {:induction false} AllOfSmaller(k: nat, d: Dict, subs: seq<Json>, mode: Mode, root: Json, rank: Rank)
    requires RefsBelow(k, Arr(subs), root, rank)
    requires RefsBelow(k, Obj(Without(d, "allOf")), root, rank)
    requires 2 + ItemsWeight(k, subs, root, rank) + FieldsWeight(k, Without(d, "allOf"), root, rank)
             <= FieldsWeight(k, d, root, rank)
    ensures ShapeSmaller(k, AllOfShape(d, subs, mode), 1 + FieldsWeight(k, d, root, rank), root, rank)
  {
    VariantsBounded(k, subs, root, rank);
    if MergeSubs(Without(d, "allOf"), NonNullSubs(subs)).Some? {
      MergeSubsBounded(k, Without(d, "allOf"), NonNullSubs(subs), root, rank);
    }
  }

  lemma {:induction false} OneOfSmaller(k: nat, d: Dict, variants: seq<Json>, mode: Mode, root: Json, rank: Rank)
    requires variants != [] && RefsBelow(k, Arr(variants), root, rank)
    requires RefsBelow(k, Obj(Without(d, "oneOf")), root, rank)
    requires 2 + ItemsWeight(k, variants, root, rank) + FieldsWeight(k, Without(d, "oneOf"), root, rank)
             <= FieldsWeight(k, d, root, rank)
    ensures ShapeSmaller(k, OneOfShape(d, variants, mode), 1 + FieldsWeight(k, d, root, rank), root, rank)
  {
    VariantsBounded(k, variants, root, rank);
    var kept := NonNullVariants(variants);
    var chosen := if kept != [] then kept[0] else variants[0];
    assert chosen in kept || chosen in variants;
    if chosen.Obj? && MergeVariant(Without(d, "oneOf"), chosen.fields).Some? {
      MergeVariantBounded(k, Without(d, "oneOf"), chosen.fields, root, rank);
    }
  }

  lemma {:induction false} CallsSmaller(k: nat, schema: Json, mode: Mode, root: Json, rank: Rank)
    requires TopologicalRank(root, rank) && RefsBelow(k, schema, root, rank)
    ensures ShapeSmaller(k, ShapeOf(schema, mode, root), Weight(k, schema, root, rank), root, rank)
  {
    if schema.Obj? {
      var d := schema.fields;
      if !Has(d, "$ref") {
        KeywordShapeSmaller(k, d, mode, root, rank);
      } else {
        var ref := Find(d, "$ref").value;
        var rest := Without(d, "$ref");
        WithoutBounded(k, d, "$ref", root, rank);
        FindBounded(k, d, "$ref", root, rank);
        match ResolveRef(ref, root)
        case None => KeywordShapeSmaller(k, rest, mode, root, rank);
        case Some(target) =>
          var r := rank(ref.s);
          assert ref == Str(ref.s) && RefsBelow(r, Obj(target), root, rank);
          RefsBelowMonotone(r, k, Obj(target), root, rank);
          FieldsWeightStable(r, k, target, root, rank);
          UpdateBounded(k, target, rest, root, rank);
          assert TargetWeight(k, ref, root, rank) == FieldsWeight(k, target, root, rank);
          assert FieldWeight(k, Field("$ref", ref), root, rank) > FieldsWeight(k, target, root, rank);
      }
    }
  }

  // ---------- termination ----------

  lemma {:induction false} DeepEnough(
    k: nat, depth: nat, schema: Json, mode: Mode, path: string, root: Json, rank: Rank)
    requires TopologicalRank(root, rank) && RefsBelow(k, schema, root, rank)
    requires Weight(k, schema, root, rank) < depth
    ensures !SlimSchema(depth, schema, mode, path, root).TooDeep?
    decreases depth, 0
  {
    CallsSmaller(k, schema, mode, root, rank);
    ShapeDeepEnough(k, depth - 1, ShapeOf(schema, mode, root), mode, path, root, rank);
  }

  lemma {:induction false} ShapeDeepEnough(
    k: nat, depth: nat, shape: Shape, mode: Mode, path: string, root: Json, rank: Rank)
    requires TopologicalRank(root, rank) && ShapeSmaller(k, shape, depth, root, rank)
    ensures !SlimShape(depth, shape, mode, path, root).TooDeep?
    decreases depth, 3
  {
    match shape
    case Again(next, _) => DeepEnough(k, depth, next, mode, path, root, rank);
    case Union(_, _, subs) => ItemsDeepEnough(k, depth, subs, mode, path, root, rank);
    case Object(props, required) => FieldsDeepEnough(k, depth, props, mode, path, root, rank);
    case Array(items, _, _) => DeepEnough(k, depth, items, mode, path + "[]", root, rank);
    case _ =>
  }

  lemma {:induction false} ItemsDeepEnough(
    k: nat, depth: nat, subs: seq<Json>, mode: Mode, path: string, root: Json, rank: Rank)
    requires TopologicalRank(root, rank) && RefsBelow(k, Arr(subs), root, rank)
    requires ItemsWeight(k, subs, root, rank) < depth
    ensures !SlimItems(depth, subs, mode, path, root).TooDeep?
    decreases depth, 1, |subs|
  {
    if subs != [] {
      assert subs[0] in subs;
      DeepEnough(k, depth, subs[0], mode, path, root, rank);
      assert forall x | x in subs[1..] :: x in subs;
      ItemsDeepEnough(k, depth, subs[1..], mode, path, root, rank);
    }
  }

  lemma {:induction false} FieldsDeepEnough(
    k: nat, depth: nat, props: Dict, mode: Mode, path: string, root: Json, rank: Rank)
    requires TopologicalRank(root, rank) && RefsBelow(k, Obj(props), root, rank)
    requires FieldsWeight(k, props, root, rank) < depth
    ensures !SlimFields(depth, props, mode, path, root).TooDeep?
    decreases depth, 1, |props|
  {
    if props != [] {
      assert props[0] in props;
      DeepEnough(k, depth, props[0].value, mode, JoinPath(path, props[0].key), root, rank);
      assert forall f | f in props[1..] :: f in props;
      FieldsDeepEnough(k, depth, props[1..], mode, path, root, rank);
    }
  }

  /** A result reached with some recursion allowance is reached with every larger one. */
  lemma {:induction false} DepthIrrelevant(depth: nat, more: nat, schema: Json, mode: Mode, path: string, root: Json)
    requires depth <= more && !SlimSchema(depth, schema, mode, path, root).TooDeep?
    ensures SlimSchema(more, schema, mode, path, root) == SlimSchema(depth, schema, mode, path, root)
    decreases depth, 0
  {
    ShapeDepthIrrelevant(depth - 1, more - 1, ShapeOf(schema, mode, root), mode, path, root);
  }

  lemma {:induction false} ShapeDepthIrrelevant(
    depth: nat, more: nat, shape: Shape, mode: Mode, path: string, root: Json)
    requires depth <= more && !SlimShape(depth, shape, mode, path, root).TooDeep?
    ensures SlimShape(more, shape, mode, path, root) == SlimShape(depth, shape, mode, path, root)
    decreases depth, 3
  {
    match shape
    case Again(next, _) => DepthIrrelevant(depth, more, next, mode, path, root);
    case Union(_, _, subs) => ItemsDepthIrrelevant(depth, more, subs, mode, path, root);
    case Object(props, required) =>
      if mode.Schema? || RequiredNames(required).Some? {
        FieldsDepthIrrelevant(depth, more, props, mode, path, root);
      }
    case Array(items, _, _) => DepthIrrelevant(depth, more, items, mode, path + "[]", root);
    case _ =>
  }

  lemma {:induction false} ItemsDepthIrrelevant(
    depth: nat, more: nat, subs: seq<Json>, mode: Mode, path: string, root: Json)
    requires depth <= more && !SlimItems(depth, subs, mode, path, root).TooDeep?
    ensures SlimItems(more, subs, mode, path, root) == SlimItems(depth, subs, mode, path, root)
    decreases depth, 1, |subs|
  {
    if subs != [] {
      DepthIrrelevant(depth, more, subs[0], mode, path, root);
      if SlimSchema(depth, subs[0], mode, path, root).Done? {
        ItemsDepthIrrelevant(depth, more, subs[1..], mode, path, root);
      }
    }
  }

  lemma {:induction false} FieldsDepthIrrelevant(
    depth: nat, more: nat, props: Dict, mode: Mode, path: string, root: Json)
    requires depth <= more && !SlimFields(depth, props, mode, path, root).TooDeep?
    ensures SlimFields(more, props, mode, path, root) == SlimFields(depth, props, mode, path, root)
    decreases depth, 1, |props|
  {
    if props != [] {
      var sub := JoinPath(path, props[0].key);
      DepthIrrelevant(depth, more, props[0].value, mode, sub, root);
      if SlimSchema(depth, props[0].value, mode, sub, root).Done? {
        FieldsDepthIrrelevant(depth, more, props[1..], mode, path, root);
      }
    }
  }

  /** Both modes, any schema, any malformed keyword: with acyclic references the compiler
      stops at one fixed outcome. */
  lemma SlimTerminates(schema: Json, mode: Mode, path: string, root: Json) returns (limit: nat)
    requires AcyclicRefs(root)
    ensures !SlimSchema(limit, schema, mode, path, root).TooDeep?
    ensures forall depth: nat :: limit <= depth ==>
              SlimSchema(depth, schema, mode, path, root) == SlimSchema(limit, schema, mode, path, root)
  {
    var rank: Rank :| TopologicalRank(root, rank);
    var k := RefsBounded(schema, root, rank);
    limit := Weight(k, schema, root, rank) + 1;
    DeepEnough(k, limit, schema, mode, path, root, rank);
    forall depth: nat | limit <= depth
      ensures SlimSchema(depth, schema, mode, path, root) == SlimSchema(limit, schema, mode, path, root)
    {
      DepthIrrelevant(limit, depth, schema, mode, path, root);
    }
  }

  /** A definition that refers to itself exhausts every allowance. */
  lemma {:induction false} SelfReferenceDiverges(depth: nat, ref: string, mode: Mode, path: string, root: Json)
    requires ResolveRef(Str(ref), root) == Some([Field("$ref", Str(ref))])
    ensures SlimSchema(depth, Obj([Field("$ref", Str(ref))]), mode, path, root).TooDeep?
  {
    var self := [Field("$ref", Str(ref))];
    assert Without(self, "$ref") == [] by { assert self[1..] == []; }
    assert Update(self, []) == self;
    if depth > 0 { SelfReferenceDiverges(depth - 1, ref, mode, path, root); }
  }

  lemma SelfReferenceNotAcyclic(ref: string, root: Json)
    requires ResolveRef(Str(ref), root) == Some([Field("$ref", Str(ref))])
    ensures !AcyclicRefs(root)
  {
    var self := [Field("$ref", Str(ref))];
    assert self[0] in self;
    forall rank: Rank ensures !TopologicalRank(root, rank) {
      assert !RefsBelow(rank(ref), Obj(self), root, rank);
    }
  }

  /** And such a schema exists: a definition `name` that is only a reference to itself. */
  lemma SelfReferenceExists(name: string) returns (root: Json)
    requires '/' !in name
    ensures ResolveRef(Str(REF_PREFIX + name), root) == Some([Field("$ref", Str(REF_PREFIX + name))])
  {
    var self := Obj([Field("$ref", Str(REF_PREFIX + name))]);
    var defs := Obj([Field(name, self)]);
    root := Obj([Field("definitions", defs)]);
    assert REF_PREFIX == "#/" + ("definitions" + "/");
    assert (REF_PREFIX + name)[2..] == "definitions" + "/" + name;
    SplitSegment("definitions", name);
    SplitSingle(name);
    assert (["definitions"] + [name])[1..] == [name] && [name][1..] == [];
    assert Walk(defs, [name]) == Walk(self, []);
    assert Walk(root, ["definitions"] + [name]) == Walk(defs, [name]);
  }
}
