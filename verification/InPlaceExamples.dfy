/** Documents on which the in-place run and the run by value part: steadiness cannot be dropped. */
module InPlaceExamples {
  import opened Json
  import opened SchemaTemplate
  import opened SchemaTermination
  import opened Text
  import opened InPlace
  import opened InPlaceSteps
  import opened InPlaceRuns

  function RefTo(path: string): Doc {
    Scalar(Str(REF_PREFIX + path))
  }

  function One(k: string, v: Doc): Entries {
    [Entry(k, v)]
  }

  function Two(k: string, v: Doc, l: string, w: Doc): Entries {
    [Entry(k, v), Entry(l, w)]
  }

  lemma {:induction false} LookupOne(k: string, v: Doc, other: string)
    ensures Lookup(One(k, v), other) == if other == k then Some(v) else None
    ensures Drop(One(k, v), other) == if other == k then [] else One(k, v)
  {
    assert One(k, v)[1..] == [];
  }

  lemma {:induction false} LookupTwo(k: string, v: Doc, l: string, w: Doc, other: string)
    ensures Lookup(Two(k, v, l, w), other) == if other == k then Some(v) else if other == l then Some(w) else None
    ensures k != l && other == k ==> Drop(Two(k, v, l, w), other) == One(l, w)
    ensures k != l && other == l ==> Drop(Two(k, v, l, w), other) == One(k, v)
  {
    assert Two(k, v, l, w)[1..] == One(l, w);
    LookupOne(l, w, other);
    assert [Entry(k, v)] + [] == One(k, v);
  }

  // ---------- a reference beside allOf ----------

  /** `{"definitions": {a: target}, "properties": props}`. */
  function Root(a: string, target: Doc, props: Entries): Doc {
    Dict(Some(0), Two("definitions", Dict(Some(1), One(a, target)), "properties", Dict(Some(2), props)))
  }

  lemma ResolveDefinition(h: Heap, a: string, target: Doc, props: Entries)
    requires '/' !in a && target.Dict? && 0 !in h && 1 !in h
    ensures ResolveNow(h, RefTo(a), Root(a, target, props)) == Some(target)
  {
    var s := REF_PREFIX + a;
    assert REF_PREFIX <= s && s[2..] == "definitions" + "/" + a;
    SplitSegment("definitions", a);
    SplitSingle(a);
    LookupTwo("definitions", Dict(Some(1), One(a, target)), "properties", Dict(Some(2), props), "definitions");
    LookupOne(a, target, a);
    var parts := ["definitions"] + [a];
    assert parts[1..] == [a] && [a][1..] == [];
    assert RefParts(RefTo(a)) == parts;
    assert WalkNow(h, target, []) == Some(target);
    assert WalkNow(h, Dict(Some(1), One(a, target)), [a]) == Some(target);
  }

  const SHARED := 4

  /** A definition with no properties of its own yet. */
  const BARE := Dict(Some(3), One("properties", Dict(Some(SHARED), [])))

  function Link(a: string): Doc {
    Dict(Some(5), One("$ref", RefTo(a)))
  }

  /** `{"$ref": ..., "allOf": [{"properties": {y: value}}]}`. */
  function Extending(a: string, y: string, value: Doc): Doc {
    Dict(Some(6), Two("$ref", RefTo(a), "allOf", List([Member(y, value)])))
  }

  function Member(y: string, value: Doc): Doc {
    Dict(Some(7), One("properties", Dict(Some(8), One(y, value))))
  }

  /** The definition extended. */
  function Extended(y: string, value: Doc): Heap {
    map[SHARED := One(y, value)]
  }

  lemma LinkStep(h: Heap, a: string, target: Doc, props: Entries)
    requires '/' !in a && target.Dict? && h.Keys <= {SHARED} && target.id == Some(3)
    ensures StepOf(h, Link(a), Root(a, target, props)) == (Rewritten(Dict(None, target.entries), 0), h)
  {
    ResolveDefinition(h, a, target, props);
    LookupOne("$ref", RefTo(a), "$ref");
  }

  lemma BareStep(h: Heap, root: Doc)
    requires h.Keys <= {SHARED}
    ensures var props := Dict(Some(SHARED), []);
            StepOf(h, Dict(None, One("properties", props)), root)
            == (if Content(h, props) != [] then Loop(props, List([])) else Output(NIL), h)
  {
    var props := Dict(Some(SHARED), []);
    OnlyProperties(h, props);
    LookupOne("properties", props, "$ref");
  }

  /** A schema that is nothing but its properties. */
  lemma OnlyProperties(h: Heap, props: Doc)
    requires props.Dict?
    ensures KeywordStep(h, One("properties", props))
            == (if Content(h, props) != [] then Loop(props, List([])) else Output(NIL), h)
  {
    var d := One("properties", props);
    LookupOne("properties", props, "oneOf");
    LookupOne("properties", props, "allOf");
    LookupOne("properties", props, "const");
    LookupOne("properties", props, "properties");
    LookupOne("properties", props, "default");
    LookupOne("properties", props, "required");
    LookupOne("properties", props, "items");
  }

  /** Rendering the extended definition comes back to the definition. */
  lemma {:induction false} LinkDiverges(depth: nat, a: string, y: string, path: string, props: Entries)
    requires '/' !in a
    ensures Slim(depth, Extended(y, Link(a)), Link(a), path, Root(a, BARE, props)).Exhausted?
    decreases depth, 0
  {
    if depth > 0 {
      LinkStep(Extended(y, Link(a)), a, BARE, props);
      BareDiverges(depth - 1, a, y, path, props);
    }
  }

  lemma {:induction false} BareDiverges(depth: nat, a: string, y: string, path: string, props: Entries)
    requires '/' !in a
    ensures Slim(depth, Extended(y, Link(a)), Dict(None, BARE.entries), path, Root(a, BARE, props)).Exhausted?
    decreases depth, 0
  {
    if depth > 0 {
      BareStep(Extended(y, Link(a)), Root(a, BARE, props));
      SharedDiverges(depth - 1, Dict(Some(SHARED), []), a, y, path, props);
    }
  }

  lemma {:induction false} SharedDiverges(depth: nat, shared: Doc, a: string, y: string, path: string, props: Entries)
    requires '/' !in a && shared.Dict? && shared.id == Some(SHARED)
    ensures SlimEntries(depth, Extended(y, Link(a)), shared, 0, 1, path, Root(a, BARE, props)).Exhausted?
    ensures Follow(depth, Extended(y, Link(a)), Loop(shared, List([])), path, Root(a, BARE, props)).Exhausted?
    decreases depth, 1
  {
    LinkDiverges(depth, a, y, JoinPath(path, y), props);
  }

  /** After the reference is resolved, the `allOf` beside it extends the definition itself. */
  lemma ExtendingStep(h: Heap, a: string, y: string, value: Doc, target: Doc, props: Entries)
    requires '/' !in a && target.Dict? && target.id == Some(3) && h.Keys <= {SHARED}
    ensures var members := One("allOf", List([Member(y, value)]));
            StepOf(h, Extending(a, y, value), Root(a, target, props))
            == (Rewritten(Dict(None, Overlay(target.entries, members)), 0), h)
  {
    ResolveDefinition(h, a, target, props);
    LookupTwo("$ref", RefTo(a), "allOf", List([Member(y, value)]), "$ref");
  }

  lemma {:induction false} OverlayOne(d: Entries, k: string, v: Doc)
    ensures Overlay(d, One(k, v)) == Set(d, k, v)
  {
    assert One(k, v)[1..] == [];
    assert Overlay(Set(d, k, v), []) == Set(d, k, v);
  }

  lemma {:induction false} SetNew(k: string, v: Doc, l: string, w: Doc)
    requires k != l
    ensures Set(One(k, v), l, w) == Two(k, v, l, w)
  {
    assert One(k, v)[1..] == [];
    assert [One(k, v)[0]] + [Entry(l, w)] == Two(k, v, l, w);
  }

  /** The in-place update. */
  lemma {:induction false} MemberAdds(y: string, value: Doc, before: Entries)
    requires PropsOnly(before)
    ensures AddEntry(map[], before, Entry("properties", Dict(Some(8), One(y, value))))
            == Some(Merged(Set(before, "properties", Dict(Some(SHARED), One(y, value))), Extended(y, value)))
  {
    OverlayOne([], y, value);
  }

  /** The shared dict, still empty, is the schema's `properties`. */
  predicate PropsOnly(d: Entries) {
    Lookup(d, "properties") == Some(Dict(Some(SHARED), []))
  }

  lemma {:induction false} MemberMerged(y: string, value: Doc, before: Entries)
    requires PropsOnly(before)
    ensures MergeSubsNow(map[], before, NonNullSubsNow(map[], [Member(y, value)]))
            == Some(Merged(Set(before, "properties", Dict(Some(SHARED), One(y, value))), Extended(y, value)))
  {
    var m := Member(y, value);
    var es := One("properties", Dict(Some(8), One(y, value)));
    LookupOne("properties", Dict(Some(8), One(y, value)), "type");
    assert [m][1..] == [] && NonNullSubsNow(map[], [m][1..]) == [];
    assert NonNullSubsNow(map[], [m]) == [m] + [] == [m];
    MemberAdds(y, value, before);
    var next := AddEntry(map[], before, es[0]).value;
    assert es[1..] == [];
    assert MergeSubNow(next.heap, next.entries, es[1..]) == Some(next);
    assert MergeSubNow(map[], before, es) == Some(next);
    assert MergeSubsNow(next.heap, next.entries, [m][1..]) == Some(next);
  }

  lemma {:induction false} AllOfOne(before: Entries, y: string, value: Doc, root: Doc)
    requires PropsOnly(before) && Lookup(before, "$ref") == None && Lookup(before, "oneOf") == None
    requires Lookup(before, "allOf") == Some(List([Member(y, value)]))
    requires PropsOnly(Drop(before, "allOf"))
    ensures StepOf(map[], Dict(None, before), root)
            == (Rewritten(Dict(None, Set(Drop(before, "allOf"), "properties", Dict(Some(SHARED), One(y, value)))), 0),
                Extended(y, value))
  {
    MemberMerged(y, value, Drop(before, "allOf"));
  }

  /** Two steps into the extending schema, the definition is changed. */
  lemma BareExtended(a: string, y: string, value: Doc, props: Entries)
    requires '/' !in a
    ensures var root := Root(a, BARE, props);
            var p := Dict(Some(SHARED), []);
            var both := Dict(None, Two("properties", p, "allOf", List([Member(y, value)])));
            && StepOf(map[], Extending(a, y, value), root) == (Rewritten(both, 0), map[])
            && StepOf(map[], both, root)
               == (Rewritten(Dict(None, One("properties", Dict(Some(SHARED), One(y, value)))), 0), Extended(y, value))
  {
    var root := Root(a, BARE, props);
    var p := Dict(Some(SHARED), []);
    var members := List([Member(y, value)]);
    ExtendingStep(map[], a, y, value, BARE, props);
    OverlayOne(BARE.entries, "allOf", members);
    SetNew("properties", p, "allOf", members);
    var before := Two("properties", p, "allOf", members);
    LookupTwo("properties", p, "allOf", members, "properties");
    LookupTwo("properties", p, "allOf", members, "allOf");
    LookupTwo("properties", p, "allOf", members, "oneOf");
    LookupTwo("properties", p, "allOf", members, "$ref");
    LookupOne("properties", p, "properties");
    assert Set(One("properties", p), "properties", Dict(Some(SHARED), One(y, value)))
        == [Entry("properties", Dict(Some(SHARED), One(y, value)))] + One("properties", p)[1..];
    assert [Entry("properties", Dict(Some(SHARED), One(y, value)))] + []
        == One("properties", Dict(Some(SHARED), One(y, value)));
    AllOfOne(before, y, value, root);
  }

  /** The document of the first example. */
  function Cyclic(a: string, x: string, y: string): Doc {
    Root(a, BARE, One(x, Extending(a, y, Link(a))))
  }

  lemma RootStep(a: string, target: Doc, props: Entries)
    requires props != []
    ensures var root := Root(a, target, props);
            StepOf(map[], root, root) == (Loop(Dict(Some(2), props), List([])), map[])
  {
    var d, p := Dict(Some(1), One(a, target)), Dict(Some(2), props);
    LookupTwo("definitions", d, "properties", p, "$ref");
    LookupTwo("definitions", d, "properties", p, "oneOf");
    LookupTwo("definitions", d, "properties", p, "allOf");
    LookupTwo("definitions", d, "properties", p, "const");
    LookupTwo("definitions", d, "properties", p, "properties");
    LookupTwo("definitions", d, "properties", p, "default");
    LookupTwo("definitions", d, "properties", p, "required");
  }

  lemma ExtendedStep(y: string, value: Doc, root: Doc)
    ensures var p := Dict(Some(SHARED), One(y, value));
            StepOf(Extended(y, value), Dict(None, One("properties", p)), root)
            == (Loop(p, List([])), Extended(y, value))
  {
    var p := Dict(Some(SHARED), One(y, value));
    OnlyProperties(Extended(y, value), p);
    LookupOne("properties", p, "$ref");
  }

  /** Main example: on this document every recursion allowance is exceeded. */
  lemma {:induction false} CyclicDiverges(depth: nat, a: string, x: string, y: string)
    requires '/' !in a
    ensures Slim(depth, map[], Cyclic(a, x, y), "", Cyclic(a, x, y)).Exhausted?
  {
    var props := One(x, Extending(a, y, Link(a)));
    RootStep(a, BARE, props);
    if depth > 0 {
      ExtendingDiverges(depth - 1, a, x, y);
      var all := Dict(Some(2), props);
      assert Content(map[], all)[0] == Entry(x, Extending(a, y, Link(a)));
      assert SlimEntries(depth - 1, map[], all, 0, 1, "", Cyclic(a, x, y)).Exhausted?;
    }
  }

  lemma {:induction false} ExtendingDiverges(depth: nat, a: string, x: string, y: string)
    requires '/' !in a
    ensures Slim(depth, map[], Extending(a, y, Link(a)), JoinPath("", x), Cyclic(a, x, y)).Exhausted?
  {
    var props := One(x, Extending(a, y, Link(a)));
    BareExtended(a, y, Link(a), props);
    ExtendedStep(y, Link(a), Cyclic(a, x, y));
    var root, path := Cyclic(a, x, y), JoinPath("", x);
    var both := Two("properties", Dict(Some(SHARED), []), "allOf", List([Member(y, Link(a))]));
    var p := Dict(Some(SHARED), One(y, Link(a)));
    if depth > 2 {
      SharedDiverges(depth - 3, p, a, y, path, props);
    }
    if depth > 1 {
      assert Slim(depth - 2, Extended(y, Link(a)), Dict(None, One("properties", p)), path, root).Exhausted?;
    }
    if depth > 0 {
      assert Slim(depth - 1, map[], Dict(None, both), path, root).Exhausted?;
    }
  }

  // ---------- its references are acyclic all the same ----------

  /** No reference inside but `dead`, which leads nowhere. */
  predicate Refless(d: Doc, dead: Doc) {
    match d
    case Scalar(_) => true
    case List(items) => forall x | x in items :: Refless(x, dead)
    case Dict(_, entries) => forall e | e in entries :: (e.key == "$ref" ==> e.value == dead) && Refless(e.value, dead)
  }

  lemma {:induction false} ReflessBelow(d: Doc, dead: Doc, root: Json, rank: Rank)
    requires Refless(d, dead) && ResolveRef(Plain(dead), root) == None
    ensures RefsBelow(0, Plain(d), root, rank)
  {
    match d
    case List(items) =>
      forall x | x in PlainItems(items) ensures RefsBelow(0, x, root, rank) {
        var i := PlainItemOf(items, x);
        ReflessBelow(items[i], dead, root, rank);
      }
    case Dict(_, entries) =>
      forall f | f in PlainEntries(entries) ensures RefBelow(0, f, root, rank) && RefsBelow(0, f.value, root, rank) {
        var i := PlainEntryOf(entries, f);
        assert entries[i] in entries;
        ReflessBelow(entries[i].value, dead, root, rank);
      }
    case _ =>
  }

  lemma {:induction false} PlainItemOf(items: seq<Doc>, x: Json) returns (i: nat)
    requires x in PlainItems(items)
    ensures i < |items| && x == Plain(items[i])
  {
    if x == Plain(items[0]) { return 0; }
    assert PlainItems(items) == [Plain(items[0])] + PlainItems(items[1..]);
    i := PlainItemOf(items[1..], x);
    i := i + 1;
  }

  lemma {:induction false} PlainEntryOf(d: Entries, f: Field) returns (i: nat)
    requires f in PlainEntries(d)
    ensures i < |d| && f == Field(d[i].key, Plain(d[i].value))
  {
    if f == Field(d[0].key, Plain(d[0].value)) { return 0; }
    assert PlainEntries(d) == [Field(d[0].key, Plain(d[0].value))] + PlainEntries(d[1..]);
    i := PlainEntryOf(d[1..], f);
    i := i + 1;
  }

  lemma {:induction false} ReflessWalk(node: Doc, dead: Doc, parts: seq<string>)
    requires Refless(node, dead) && WalkNow(map[], node, parts).Some?
    ensures Refless(WalkNow(map[], node, parts).value, dead)
    decreases |parts|
  {
    if parts != [] {
      LookupIn(node.entries, parts[0]);
      ReflessWalk(Lookup(node.entries, parts[0]).value, dead, parts[1..]);
    }
  }

  lemma DefinitionsParts(r: string)
    requires IsRef(Scalar(Str(r)))
    ensures RefParts(Scalar(Str(r))) == ["definitions"] + SplitSlash(r[|REF_PREFIX|..])
  {
    var t := r[|REF_PREFIX|..];
    assert r[2..] == "definitions" + "/" + t by { assert r == REF_PREFIX + t; }
    SplitSegment("definitions", t);
  }

  lemma {:induction false} DefinitionsEntry(a: string, target: Doc, props: Entries, names: seq<string>)
    requires names != []
    ensures WalkNow(map[], Root(a, target, props), ["definitions"] + names)
            == if names[0] == a then WalkNow(map[], target, names[1..]) else None
  {
    var defs := Dict(Some(1), One(a, target));
    LookupTwo("definitions", defs, "properties", Dict(Some(2), props), "definitions");
    assert (["definitions"] + names)[1..] == names;
    LookupOne(a, target, names[0]);
  }

  /** References lead into the definitions. */
  lemma {:induction false} DefinitionsWalk(r: string, a: string, target: Doc, dead: Doc, props: Entries)
    requires ResolveNow(map[], Scalar(Str(r)), Root(a, target, props)).Some? && Refless(target, dead)
    ensures Refless(ResolveNow(map[], Scalar(Str(r)), Root(a, target, props)).value, dead)
  {
    var names := SplitSlash(r[|REF_PREFIX|..]);
    DefinitionsParts(r);
    DefinitionsEntry(a, target, props, names);
    ReflessWalk(target, dead, names[1..]);
  }

  lemma {:induction false} ReflessAcyclic(a: string, target: Doc, dead: Doc, props: Entries)
    requires Refless(target, dead) && ResolveNow(map[], dead, Root(a, target, props)) == None
    ensures AcyclicRefs(Plain(Root(a, target, props)))
  {
    var root := Root(a, target, props);
    var rank: Rank := (r: string) => 0;
    if IsRef(dead) { WalkNothing(root, RefParts(dead)); }
    ResolveSame(map[], map[], dead, root);
    forall r: string | ResolveRef(Str(r), Plain(root)).Some?
      ensures RefsBelow(rank(r), Obj(ResolveRef(Str(r), Plain(root)).value), Plain(root), rank)
    {
      var ref := Scalar(Str(r));
      if IsRef(ref) { WalkNothing(root, RefParts(ref)); }
      ResolveSame(map[], map[], ref, root);
      DefinitionsWalk(r, a, target, dead, props);
      ReflessBelow(ResolveNow(map[], ref, root).value, dead, Plain(root), rank);
    }
    assert TopologicalRank(Plain(root), rank);
  }

  lemma CyclicAcyclic(a: string, x: string, y: string)
    ensures AcyclicRefs(Plain(Cyclic(a, x, y)))
  {
    ReflessAcyclic(a, BARE, NIL, One(x, Extending(a, y, Link(a))));
  }

  /** Main theorem: steadiness cannot be dropped. The references of this document are acyclic, the run by
      value stops, and the in-place run never does. */
  lemma AcyclicIsNotEnough(a: string, x: string, y: string)
    requires '/' !in a
    ensures var root := Cyclic(a, x, y);
            && AcyclicRefs(Plain(root))
            && (exists limit: nat :: !SlimSchema(limit, Plain(root), Config, "", Plain(root)).TooDeep?)
            && (forall depth: nat :: Slim(depth, map[], root, "", root).Exhausted?)
            && (forall final: Heap :: !AlwaysSteady(final, root, root))
  {
    var root := Cyclic(a, x, y);
    CyclicAcyclic(a, x, y);
    var limit := SlimTerminates(Plain(root), Config, "", Plain(root));
    forall depth: nat ensures Slim(depth, map[], root, "", root).Exhausted? { CyclicDiverges(depth, a, x, y); }
    forall final: Heap ensures !AlwaysSteady(final, root, root) {
      if AlwaysSteady(final, root, root) { var n := InPlaceTerminates(final, root, "", root); }
    }
  }

  // ---------- a reference into properties ----------

  /** `definitions/a/properties/y`, which leads nowhere until `a` is extended by `y`. */
  function Path(a: string, y: string): string {
    a + "/" + ("properties" + "/" + y)
  }

  function Back(a: string, y: string): Doc {
    Dict(Some(12), One("$ref", RefTo(Path(a, y))))
  }

  function Inner(a: string, y: string, q: string): Doc {
    Dict(Some(10), One("properties", Dict(Some(11), One(q, Back(a, y)))))
  }

  /** `{"properties": {}, "allOf": [{"properties": {y: inner}}]}`. */
  function Selfish(a: string, y: string, q: string): Doc {
    Dict(Some(3), Two("properties", Dict(Some(SHARED), []), "allOf", List([Member(y, Inner(a, y, q))])))
  }

  function Unlocking(a: string, x: string, y: string, q: string): Doc {
    Root(a, Selfish(a, y, q), One(x, Link(a)))
  }

  lemma PathParts(a: string, y: string)
    requires '/' !in a && '/' !in y
    ensures RefParts(RefTo(Path(a, y))) == ["definitions", a, "properties", y] && IsRef(RefTo(Path(a, y)))
  {
    var s := REF_PREFIX + Path(a, y);
    assert REF_PREFIX <= s && s[2..] == "definitions" + "/" + Path(a, y);
    SplitSegment("definitions", Path(a, y));
    SplitSegment(a, "properties" + "/" + y);
    SplitSegment("properties", y);
    SplitSingle(y);
  }

  /** It resolves once the definition is extended, and not before. */
  lemma BackResolves(h: Heap, a: string, x: string, y: string, q: string)
    requires '/' !in a && '/' !in y && (h == map[] || h == Extended(y, Inner(a, y, q)))
    ensures ResolveNow(h, RefTo(Path(a, y)), Unlocking(a, x, y, q)) == if h == map[] then None else Some(Inner(a, y, q))
  {
    var target, inner := Selfish(a, y, q), Inner(a, y, q);
    var defs, p := Dict(Some(1), One(a, target)), Dict(Some(SHARED), []);
    PathParts(a, y);
    var parts := ["definitions", a, "properties", y];
    assert parts[1..] == [a, "properties", y] && [a, "properties", y][1..] == ["properties", y];
    assert ["properties", y][1..] == [y] && [y][1..] == [];
    LookupTwo("definitions", defs, "properties", Dict(Some(2), One(x, Link(a))), "definitions");
    LookupOne(a, target, a);
    LookupTwo("properties", p, "allOf", List([Member(y, inner)]), "properties");
    LookupOne(y, inner, y);
    if h != map[] { assert Content(h, p) == One(y, inner); }
    assert WalkNow(h, p, [y]) == if h == map[] then None else WalkNow(h, inner, []);
    assert WalkNow(h, target, ["properties", y]) == WalkNow(h, p, [y]);
    assert WalkNow(h, defs, [a, "properties", y]) == WalkNow(h, target, ["properties", y]);
  }

  lemma InnerStep(h: Heap, id: Option<nat>, a: string, y: string, q: string, root: Doc)
    requires h.Keys <= {SHARED} && (id == None || id == Some(10))
    ensures var p := Dict(Some(11), One(q, Back(a, y)));
            StepOf(h, Dict(id, One("properties", p)), root) == (Loop(p, List([])), h)
  {
    var p := Dict(Some(11), One(q, Back(a, y)));
    OnlyProperties(h, p);
    LookupOne("properties", p, "$ref");
  }

  lemma {:induction false} InnerDiverges(
    depth: nat, id: Option<nat>, a: string, x: string, y: string, q: string, path: string)
    requires '/' !in a && '/' !in y && (id == None || id == Some(10))
    ensures Slim(depth, Extended(y, Inner(a, y, q)), Dict(id, Inner(a, y, q).entries), path,
        Unlocking(a, x, y, q)).Exhausted?
    decreases depth
  {
    var h, root := Extended(y, Inner(a, y, q)), Unlocking(a, x, y, q);
    var p := Dict(Some(11), One(q, Back(a, y)));
    InnerStep(h, id, a, y, q, root);
    assert SHARED in h;
    BackResolves(h, a, x, y, q);
    LookupOne("$ref", RefTo(Path(a, y)), "$ref");
    var next := Dict(None, Overlay(Inner(a, y, q).entries, []));
    assert StepOf(h, Back(a, y), root) == (Rewritten(next, 0), h);
    if depth > 2 { InnerDiverges(depth - 2, None, a, x, y, q, JoinPath(path, q)); }
    if depth > 1 { assert Slim(depth - 1, h, Back(a, y), JoinPath(path, q), root).Exhausted?; }
    if depth > 0 { assert SlimEntries(depth - 1, h, p, 0, 1, path, root).Exhausted?; }
  }

  lemma SelfishSteps(a: string, x: string, y: string, q: string)
    requires '/' !in a
    ensures var root, inner := Unlocking(a, x, y, q), Inner(a, y, q);
            && StepOf(map[], Link(a), root) == (Rewritten(Dict(None, Selfish(a, y, q).entries), 0), map[])
            && StepOf(map[], Dict(None, Selfish(a, y, q).entries), root)
               == (Rewritten(Dict(None, One("properties", Dict(Some(SHARED), One(y, inner)))), 0), Extended(y, inner))
  {
    var inner := Inner(a, y, q);
    var p, members := Dict(Some(SHARED), []), List([Member(y, inner)]);
    var before := Two("properties", p, "allOf", members);
    LinkStep(map[], a, Selfish(a, y, q), One(x, Link(a)));
    LookupTwo("properties", p, "allOf", members, "properties");
    LookupTwo("properties", p, "allOf", members, "allOf");
    LookupTwo("properties", p, "allOf", members, "oneOf");
    LookupTwo("properties", p, "allOf", members, "$ref");
    LookupOne("properties", p, "properties");
    assert One("properties", p)[1..] == [];
    assert Set(One("properties", p), "properties", Dict(Some(SHARED), One(y, inner)))
        == [Entry("properties", Dict(Some(SHARED), One(y, inner)))] + [];
    assert [Entry("properties", Dict(Some(SHARED), One(y, inner)))] + []
        == One("properties", Dict(Some(SHARED), One(y, inner)));
    AllOfOne(before, y, inner, Unlocking(a, x, y, q));
  }

  lemma {:induction false} UnlockingDiverges(depth: nat, a: string, x: string, y: string, q: string)
    requires '/' !in a && '/' !in y
    ensures Slim(depth, map[], Unlocking(a, x, y, q), "", Unlocking(a, x, y, q)).Exhausted?
  {
    var root, inner := Unlocking(a, x, y, q), Inner(a, y, q);
    var h, p, path := Extended(y, inner), Dict(Some(SHARED), One(y, inner)), JoinPath("", x);
    RootStep(a, Selfish(a, y, q), One(x, Link(a)));
    SelfishSteps(a, x, y, q);
    ExtendedStep(y, inner, root);
    if depth > 3 {
      InnerDiverges(depth - 4, Some(10), a, x, y, q, JoinPath(path, y));
      assert Content(h, p)[0] == Entry(y, inner);
      assert SlimEntries(depth - 4, h, p, 0, 1, path, root).Exhausted?;
    }
    if depth > 2 { assert Slim(depth - 3, h, Dict(None, One("properties", p)), path, root).Exhausted?; }
    if depth > 2 { assert Slim(depth - 2, map[], Dict(None, Selfish(a, y, q).entries), path, root).Exhausted?; }
    if depth > 1 { assert Slim(depth - 1, map[], Link(a), path, root).Exhausted?; }
    if depth > 0 {
      var all := Dict(Some(2), One(x, Link(a)));
      assert Content(map[], all)[0] == Entry(x, Link(a));
      assert SlimEntries(depth - 1, map[], all, 0, 1, "", root).Exhausted?;
    }
  }

  /** The same without any key beside a reference: the update makes a reference resolve, to what holds it. */
  lemma ResolvingLateDiverges(a: string, x: string, y: string, q: string)
    requires '/' !in a && '/' !in y && y != "$ref" && q != "$ref"
    ensures var root := Unlocking(a, x, y, q);
            && AcyclicRefs(Plain(root))
            && (exists limit: nat :: !SlimSchema(limit, Plain(root), Config, "", Plain(root)).TooDeep?)
            && (forall depth: nat :: Slim(depth, map[], root, "", root).Exhausted?)
            && (forall final: Heap :: !AlwaysSteady(final, root, root))
  {
    var root := Unlocking(a, x, y, q);
    BackResolves(map[], a, x, y, q);
    SelfishRefless(a, y, q);
    ReflessAcyclic(a, Selfish(a, y, q), RefTo(Path(a, y)), One(x, Link(a)));
    var limit := SlimTerminates(Plain(root), Config, "", Plain(root));
    forall depth: nat ensures Slim(depth, map[], root, "", root).Exhausted? { UnlockingDiverges(depth, a, x, y, q); }
    forall final: Heap ensures !AlwaysSteady(final, root, root) {
      if AlwaysSteady(final, root, root) { var n := InPlaceTerminates(final, root, "", root); }
    }
  }

  lemma SelfishRefless(a: string, y: string, q: string)
    requires y != "$ref" && q != "$ref"
    ensures Refless(Selfish(a, y, q), RefTo(Path(a, y)))
  {
    var dead := RefTo(Path(a, y));
    assert Refless(Back(a, y), dead);
    assert Refless(Dict(Some(11), One(q, Back(a, y))), dead);
    assert Refless(Inner(a, y, q), dead);
    assert Refless(Dict(Some(8), One(y, Inner(a, y, q))), dead);
    assert Refless(Member(y, Inner(a, y, q)), dead);
    assert Refless(List([Member(y, Inner(a, y, q))]), dead);
  }
}
