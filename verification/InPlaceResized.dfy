/** A document on which config mode raises an error although the run by value renders it: a field of a
    definition extends the very `properties` the loop is iterating over. */
module InPlaceResized {
  import opened Json
  import opened SchemaTemplate
  import opened JsonLaws
  import opened SchemaUnions
  import opened SchemaRules
  import opened InPlace
  import opened InPlaceSteps
  import opened InPlaceRuns
  import opened InPlaceExamples

  /** `{"properties": {y: {}}, "const": v}`. */
  function Fixed(y: string, v: Doc): Doc {
    Dict(Some(7), Two("properties", Dict(Some(8), One(y, Dict(Some(9), []))), "const", v))
  }

  /** `{"$ref": ..., "allOf": [...]}`, a field of the definition referred to. */
  function Inner(a: string, y: string, v: Doc): Doc {
    Dict(Some(6), Two("$ref", RefTo(a), "allOf", List([Fixed(y, v)])))
  }

  function Looped(a: string, x: string, y: string, v: Doc): Doc {
    Dict(Some(SHARED), One(x, Inner(a, y, v)))
  }

  /** `{"properties": {x: ...}}`. */
  function Definition(a: string, x: string, y: string, v: Doc): Doc {
    Dict(Some(3), One("properties", Looped(a, x, y, v)))
  }

  function Document(a: string, x: string, y: string, v: Doc): Doc {
    Root(a, Definition(a, x, y, v), [])
  }

  /** The dict under iteration, one entry longer. */
  function Longer(a: string, x: string, y: string, v: Doc): Heap {
    map[SHARED := Two(x, Inner(a, y, v), y, Dict(Some(9), []))]
  }

  /** The definition with the member beside it, and with the member merged. */
  function Beside(a: string, x: string, y: string, v: Doc): Entries {
    Two("properties", Looped(a, x, y, v), "allOf", List([Fixed(y, v)]))
  }

  function Closed(a: string, x: string, y: string, v: Doc): Entries {
    Two("properties", Dict(Some(SHARED), Two(x, Inner(a, y, v), y, Dict(Some(9), []))), "const", v)
  }

  lemma InnerStep(a: string, x: string, y: string, v: Doc)
    requires '/' !in a
    ensures StepOf(map[], Inner(a, y, v), Document(a, x, y, v)) == (Rewritten(Dict(None, Beside(a, x, y, v)), 0), map[])
  {
    var members := List([Fixed(y, v)]);
    ResolveDefinition(map[], a, Definition(a, x, y, v), []);
    LookupTwo("$ref", RefTo(a), "allOf", members, "$ref");
    OverlayOne(One("properties", Looped(a, x, y, v)), "allOf", members);
    SetNew("properties", Looped(a, x, y, v), "allOf", members);
  }

  lemma FixedMerged(a: string, x: string, y: string, v: Doc)
    requires x != y
    ensures MergeSubNow(map[], One("properties", Looped(a, x, y, v)), Fixed(y, v).entries)
            == Some(Merged(Closed(a, x, y, v), Longer(a, x, y, v)))
  {
    var p, q := Looped(a, x, y, v), Dict(Some(8), One(y, Dict(Some(9), [])));
    var es := Fixed(y, v).entries;
    OverlayOne(p.entries, y, Dict(Some(9), []));
    SetNew(x, Inner(a, y, v), y, Dict(Some(9), []));
    LookupOne("properties", p, "properties");
    var both := Dict(Some(SHARED), Two(x, Inner(a, y, v), y, Dict(Some(9), [])));
    assert One("properties", p)[1..] == [] && [Entry("properties", both)] + [] == One("properties", both);
    assert Set(One("properties", p), "properties", both) == One("properties", both);
    assert AddEntry(map[], One("properties", p), es[0]) == Some(Merged(One("properties", both), Longer(a, x, y, v)));
    assert es[1..] == One("const", v) && es[1..][1..] == [];
    LookupOne("properties", both, "const");
    SetNew("properties", both, "const", v);
    assert AddEntry(Longer(a, x, y, v), One("properties", both), es[1])
        == Some(Merged(Closed(a, x, y, v), Longer(a, x, y, v)));
    MergedInTwo(map[], One("properties", p), es, Merged(One("properties", both), Longer(a, x, y, v)),
                Merged(Closed(a, x, y, v), Longer(a, x, y, v)));
  }

  lemma {:induction false} MergedInTwo(h: Heap, merged: Entries, sub: Entries, mid: Merged, end: Merged)
    requires |sub| == 2 && AddEntry(h, merged, sub[0]) == Some(mid)
    requires AddEntry(mid.heap, mid.entries, sub[1]) == Some(end)
    ensures MergeSubNow(h, merged, sub) == Some(end)
  {
    assert sub[1..][0] == sub[1] && sub[1..][1..] == [];
    assert MergeSubNow(end.heap, end.entries, []) == Some(end);
    assert MergeSubNow(mid.heap, mid.entries, sub[1..]) == Some(end);
  }

  lemma BesideStep(a: string, x: string, y: string, v: Doc)
    requires x != y
    ensures StepOf(map[], Dict(None, Beside(a, x, y, v)), Document(a, x, y, v))
            == (Rewritten(Dict(None, Closed(a, x, y, v)), 0), Longer(a, x, y, v))
  {
    var d, m := Beside(a, x, y, v), Fixed(y, v);
    LookupTwo("properties", Looped(a, x, y, v), "allOf", List([m]), "$ref");
    LookupTwo("properties", Looped(a, x, y, v), "allOf", List([m]), "oneOf");
    LookupTwo("properties", Looped(a, x, y, v), "allOf", List([m]), "allOf");
    LookupTwo("properties", Dict(Some(8), One(y, Dict(Some(9), []))), "const", v, "type");
    FixedMerged(a, x, y, v);
    assert [m][1..] == [] && NonNullSubsNow(map[], [m][1..]) == [];
    assert NonNullSubsNow(map[], [m]) == [m] + [] == [m];
    assert MergeSubsNow(map[], One("properties", Looped(a, x, y, v)), [m])
        == Some(Merged(Closed(a, x, y, v), Longer(a, x, y, v)));
  }

  lemma ClosedStep(h: Heap, a: string, x: string, y: string, v: Doc, root: Doc)
    ensures StepOf(h, Dict(None, Closed(a, x, y, v)), root) == (Output(v), h)
  {
    forall k: string {
      LookupTwo("properties", Dict(Some(SHARED), Two(x, Inner(a, y, v), y, Dict(Some(9), []))), "const", v, k);
    }
  }

  /** The field is rendered as the constant, and leaves the dict longer. */
  lemma {:induction false} InnerRuns(a: string, x: string, y: string, v: Doc, path: string)
    requires '/' !in a && x != y
    ensures Slim(3, map[], Inner(a, y, v), path, Document(a, x, y, v)) == Finished(v, [], Longer(a, x, y, v))
  {
    var root := Document(a, x, y, v);
    InnerStep(a, x, y, v);
    BesideStep(a, x, y, v);
    ClosedStep(Longer(a, x, y, v), a, x, y, v, root);
    assert Slim(1, Longer(a, x, y, v), Dict(None, Closed(a, x, y, v)), path, root)
        == Finished(v, [], Longer(a, x, y, v));
    assert Slim(2, map[], Dict(None, Beside(a, x, y, v)), path, root) == Finished(v, [], Longer(a, x, y, v));
  }

  /** Main theorem: whatever the recursion allowance beyond the four calls made, rendering the definition in
      place raises Python's error for a dict that changes size while it is iterated. */
  lemma {:induction false} ResizedWhileIterating(depth: nat, a: string, x: string, y: string, v: Doc, path: string)
    requires '/' !in a && x != y && depth >= 4
    ensures Slim(depth, map[], Definition(a, x, y, v), path, Document(a, x, y, v)) == Resized
  {
    var root, p := Document(a, x, y, v), Looped(a, x, y, v);
    LookupOne("properties", p, "$ref");
    OnlyProperties(map[], p);
    InnerRuns(a, x, y, v, JoinPath(path, x));
    assert SlimEntries(3, Longer(a, x, y, v), p, 1, 1, path, root) == Resized;
    assert SlimEntries(3, map[], p, 0, 1, path, root) == Resized;
    assert Slim(4, map[], Definition(a, x, y, v), path, root) == Resized;
    RunDepthIrrelevant(4, depth, map[], Definition(a, x, y, v), path, root);
  }

  // ---------- by value ----------

  lemma {:induction false} PlainTwo(k: string, v: Doc, l: string, w: Doc)
    requires k != l
    ensures PlainEntries(Two(k, v, l, w)) == [Field(k, Plain(v)), Field(l, Plain(w))]
    ensures Distinct(PlainEntries(Two(k, v, l, w)))
    ensures forall other :: Find(PlainEntries(Two(k, v, l, w)), other)
                            == if other == k then Some(Plain(v)) else if other == l then Some(Plain(w)) else None
  {
    var d := PlainEntries(Two(k, v, l, w));
    PlainOne(l, w);
    assert Two(k, v, l, w)[1..] == One(l, w);
    assert d == [Field(k, Plain(v))] + PlainEntries(One(l, w));
    assert d[1..] == PlainEntries(One(l, w));
  }

  lemma {:induction false} PlainOne(k: string, v: Doc)
    ensures PlainEntries(One(k, v)) == [Field(k, Plain(v))] && Distinct(PlainEntries(One(k, v)))
    ensures forall other :: Find(PlainEntries(One(k, v)), other) == if other == k then Some(Plain(v)) else None
  {
    assert One(k, v)[1..] == [] && PlainEntries([]) == [];
    assert PlainEntries(One(k, v)) == [Field(k, Plain(v))] + [];
    assert PlainEntries(One(k, v))[1..] == [];
  }

  /** The member's constant is rendered. */
  lemma BesideByValue(depth: nat, a: string, x: string, y: string, v: Doc, path: string, root: Json)
    ensures SlimSchema(depth + 2, Obj(PlainEntries(Beside(a, x, y, v))), Config, path, root) == Done(Plain(v), [])
  {
    var d, m := PlainEntries(Beside(a, x, y, v)), Plain(Fixed(y, v));
    BesidePlain(a, x, y, v);
    FixedPlain(y, v);
    MemberMerges(depth + 1, d, m, Plain(v), path, root);
  }

  lemma BesidePlain(a: string, x: string, y: string, v: Doc)
    ensures var d := PlainEntries(Beside(a, x, y, v));
            && Sound(d) && Find(d, "$ref") == None && Find(d, "oneOf") == None && Find(d, "const") == None
            && Find(d, "allOf") == Some(Arr([Plain(Fixed(y, v))]))
            && Find(d, "properties").Some? && Find(d, "properties").value.Obj?
  {
    PlainTwo("properties", Looped(a, x, y, v), "allOf", List([Fixed(y, v)]));
    PlainOne(x, Inner(a, y, v));
    assert [Fixed(y, v)][1..] == [];
    assert PlainItems([Fixed(y, v)]) == [Plain(Fixed(y, v))] + [] == [Plain(Fixed(y, v))];
  }

  lemma {:induction false} FixedPlain(y: string, v: Doc)
    ensures var m := Plain(Fixed(y, v));
            && m.Obj? && Sound(m.fields) && Live(m)
            && Find(m.fields, "$ref") == None && Find(m.fields, "oneOf") == None && Find(m.fields, "allOf") == None
            && Find(m.fields, "const") == Some(Plain(v))
            && Find(m.fields, "properties").Some? && Find(m.fields, "properties").value.Obj?
  {
    PlainTwo("properties", Dict(Some(8), One(y, Dict(Some(9), []))), "const", v);
    PlainOne(y, Dict(Some(9), []));
  }

  lemma MemberMerges(depth: nat, d: seq<Field>, m: Json, v: Json, path: string, root: Json)
    requires depth > 0 && Sound(d) && m.Obj? && Sound(m.fields) && Live(m)
    requires Find(d, "$ref") == None && Find(d, "oneOf") == None && Find(d, "const") == None
    requires Find(d, "allOf") == Some(Arr([m])) && Find(d, "properties").Some? && Find(d, "properties").value.Obj?
    requires Find(m.fields, "$ref") == None && Find(m.fields, "oneOf") == None && Find(m.fields, "allOf") == None
    requires Find(m.fields, "const") == Some(v)
    requires Find(m.fields, "properties").Some? && Find(m.fields, "properties").value.Obj?
    ensures SlimSchema(depth + 1, Obj(d), Config, path, root) == Done(v, [])
  {
    WithoutSound(d, "allOf");
    assert !Unmergeable(Without(d, "allOf"), [m]);
    var merged := AllOfRenders(depth, d, [m], path, root);
    ConstMerged(d, m, v, merged);
    ConstRenders(depth - 1, merged, v, Config, path, root);
    NotedNothing(Done(v, []));
  }

  lemma NotedNothing(o: Outcome<Json>)
    ensures Noting([], o) == o
  {
    if o.Done? { assert [] + o.warnings == o.warnings; }
  }

  lemma {:induction false} ConstMerged(d: seq<Field>, m: Json, v: Json, merged: seq<Field>)
    requires Live(m) && Find(m.fields, "const") == Some(v) && Find(d, "const") == None
    requires Find(m.fields, "$ref") == None && Find(m.fields, "oneOf") == None && Find(m.fields, "allOf") == None
    requires Find(d, "$ref") == None && Find(d, "oneOf") == None
    requires MembersInto(merged, Without(d, "allOf"), [m])
    ensures Simple(merged) && Find(merged, "const") == Some(v)
  {
    NotInParent(d, merged, m, "$ref");
    NotInParent(d, merged, m, "oneOf");
    NotInParent(d, merged, m, "allOf");
    NotInParent(d, merged, m, "const");
  }

  lemma {:induction false} NotInParent(d: seq<Field>, merged: seq<Field>, m: Json, k: string)
    requires MembersInto(merged, Without(d, "allOf"), [m]) && Live(m) && k != "properties"
    requires k == "allOf" || Find(d, k) == None
    ensures Find(merged, k) == Find(m.fields, k)
  {
    WithoutIs(d, "allOf");
    OneMember(merged, Without(d, "allOf"), m, k);
  }

  lemma {:induction false} OneMember(merged: seq<Field>, parent: seq<Field>, m: Json, k: string)
    requires MembersInto(merged, parent, [m]) && Live(m) && k != "properties" && Find(parent, k) == None
    ensures Find(merged, k) == Find(m.fields, k)
  {
    var subs := [m];
    if Has(m.fields, k) {
      assert Holds(subs[0], k);
    } else {
      assert forall x | x in subs :: !Holds(x, k);
    }
  }

  /** Main theorem: by value the same definition is rendered. */
  lemma RenderedByValue(depth: nat, a: string, x: string, y: string, v: Doc, path: string)
    requires '/' !in a && x != y
    ensures SlimSchema(depth + 4, Plain(Definition(a, x, y, v)), Config, path, Plain(Document(a, x, y, v)))
            == Done(Obj([Field(x, Plain(v))]), [])
  {
    var root, c, inner := Document(a, x, y, v), Definition(a, x, y, v), Inner(a, y, v);
    LookupOne("properties", Looped(a, x, y, v), "$ref");
    OnlyProperties(map[], Looped(a, x, y, v));
    InnerStep(a, x, y, v);
    NodeQuiet(c, root);
    NodeQuiet(inner, root);
    SettledReady(map[], map[], c);
    SettledReady(map[], map[], inner);
    StepSame(map[], map[], c, root);
    StepSame(map[], map[], inner, root);
    PlainOne(x, inner);
    BesideByValue(depth, a, x, y, v, JoinPath(path, x), Plain(root));
    FieldByValue(depth, x, Plain(inner), PlainEntries(Beside(a, x, y, v)), Plain(v), path, Plain(root));
    assert Plain(List([])) == Arr([]);
  }

  lemma FieldByValue(depth: nat, x: string, inner: Json, beside: seq<Field>, v: Json, path: string, root: Json)
    requires ShapeOf(inner, Config, root) == Again(Obj(beside), 0)
    requires SlimSchema(depth + 2, Obj(beside), Config, JoinPath(path, x), root) == Done(v, [])
    ensures SlimShape(depth + 3, Object([Field(x, inner)], Arr([])), Config, path, root)
            == Done(Obj([Field(x, v)]), [])
  {
    var props := [Field(x, inner)];
    assert SlimSchema(depth + 3, inner, Config, JoinPath(path, x), root) == Done(v, []);
    assert props[1..] == [] && [Field(x, v)] + [] == [Field(x, v)];
    assert SlimFields(depth + 3, props, Config, path, root) == Done([Field(x, v)], []);
    assert RequiredNames(Arr([])) == Some([]);
    assert [Field(x, v)][1..] == [] && NullRequired([Field(x, v)], [], path) == [];
  }
}
