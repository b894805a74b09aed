/** A reference rendered after a definition has been extended warns about a field the definition does
    not have. */
module InPlaceWarningExample {
  import opened Json
  import opened SchemaTemplate
  import opened SchemaWarnings
  import opened InPlace
  import opened InPlaceSteps
  import opened InPlaceRuns
  import opened InPlaceExamples

  const EMPTY := Dict(Some(9), [])

  function OneName(y: string): Doc {
    List([Scalar(Str(y))])
  }

  /** `{"properties": {}, "required": [y]}`. */
  function Needy(y: string): Doc {
    Dict(Some(3), Two("properties", Dict(Some(SHARED), []), "required", OneName(y)))
  }

  /** `x` extends the definition by a property `y`; `z` only refers to it. */
  function Fields(a: string, x: string, y: string, z: string): Entries {
    Two(x, Extending(a, y, EMPTY), z, Link(a))
  }

  function Late(a: string, x: string, y: string, z: string): Doc {
    Root(a, Needy(y), Fields(a, x, y, z))
  }

  /** A schema of exactly these properties and required names. */
  predicate Plainly(d: Entries, props: Doc, y: string) {
    && Lookup(d, "properties") == Some(props) && Lookup(d, "required") == Some(OneName(y))
    && Lookup(d, "$ref") == None && Lookup(d, "oneOf") == None && Lookup(d, "allOf") == None
    && Lookup(d, "const") == None && Lookup(d, "default") == None && Lookup(d, "items") == None
  }

  lemma NeedyPlainly(y: string)
    ensures Plainly(Needy(y).entries, Dict(Some(SHARED), []), y)
  {
    forall k: string
      ensures Lookup(Needy(y).entries, k)
              == if k == "properties" then Some(Dict(Some(SHARED), [])) else if k == "required" then Some(OneName(y))
                  else None
    {
      LookupTwo("properties", Dict(Some(SHARED), []), "required", OneName(y), k);
    }
  }

  lemma PlainlySteps(h: Heap, d: Entries, props: Doc, y: string, root: Doc)
    requires Plainly(d, props, y) && props.Dict?
    ensures StepOf(h, Dict(None, d), root)
            == (if Content(h, props) != [] then Loop(props, OneName(y)) else Output(NIL), h)
  {
  }

  lemma {:induction false} EmptyRuns(depth: nat, h: Heap, path: string, root: Doc)
    requires depth > 0 && 9 !in h
    ensures Slim(depth, h, EMPTY, path, root) == Finished(NIL, [], h)
  {
  }

  /** One null required field. */
  lemma {:induction false} OneNullField(depth: nat, h: Heap, props: Doc, y: string, path: string, root: Doc)
    requires depth > 0 && 9 !in h && props.Dict? && Content(h, props) == One(y, EMPTY)
    ensures Follow(depth, h, Loop(props, OneName(y)), path, root)
            == Finished(Dict(None, One(y, NIL)), [RequiredNull([JoinPath(path, y)])], h)
  {
    EmptyRuns(depth, h, JoinPath(path, y), root);
    assert SlimEntries(depth, h, props, 1, 1, path, root) == Finished([], [], h);
    assert [Entry(y, NIL)] + [] == One(y, NIL);
    assert SlimEntries(depth, h, props, 0, 1, path, root) == Finished(One(y, NIL), [], h);
    SameLength(OneName(y).items);
    assert OneName(y).items[1..] == [];
    var items := PlainItems(OneName(y).items);
    assert items == [Str(y)] && items[1..] == [] && Strings(items) == [y];
    var result := PlainEntries(One(y, NIL));
    assert One(y, NIL)[1..] == [];
    assert result == [Field(y, Plain(NIL))] + PlainEntries([]) && PlainEntries([]) == [];
    assert result == [Field(y, Null)] && result[1..] == [];
    assert NullRequired(result, [y], path) == [JoinPath(path, y)];
  }

  // ---------- in place ----------

  /** What two steps make of the extending reference. */
  function Joined(y: string): Entries {
    Set(Drop(Set(Needy(y).entries, "allOf", List([Member(y, EMPTY)])), "allOf"), "properties",
        Dict(Some(SHARED), One(y, EMPTY)))
  }

  function Between(y: string): Entries {
    Set(Needy(y).entries, "allOf", List([Member(y, EMPTY)]))
  }

  lemma JoinedPlainly(y: string)
    ensures Plainly(Joined(y), Dict(Some(SHARED), One(y, EMPTY)), y)
    ensures Lookup(Between(y), "$ref") == None && Lookup(Between(y), "oneOf") == None
    ensures Lookup(Between(y), "allOf") == Some(List([Member(y, EMPTY)]))
    ensures PropsOnly(Between(y)) && PropsOnly(Drop(Between(y), "allOf"))
  {
    NeedyPlainly(y);
    forall k: string
      ensures Lookup(Between(y), k) == if k == "allOf" then Some(List([Member(y, EMPTY)]))
          else Lookup(Needy(y).entries, k)
      ensures Lookup(Drop(Between(y), "allOf"), k) == if k == "allOf" then None else Lookup(Between(y), k)
      ensures Lookup(Joined(y), k)
              == if k == "properties" then Some(Dict(Some(SHARED), One(y, EMPTY)))
                  else Lookup(Drop(Between(y), "allOf"), k)
    {
      LookupSet(Needy(y).entries, "allOf", List([Member(y, EMPTY)]), k);
      LookupDrop(Between(y), "allOf", k);
      LookupSet(Drop(Between(y), "allOf"), "properties", Dict(Some(SHARED), One(y, EMPTY)), k);
    }
  }

  lemma ExtendingSteps(a: string, y: string, fields: Entries)
    requires '/' !in a
    ensures var root := Root(a, Needy(y), fields);
            && StepOf(map[], Extending(a, y, EMPTY), root) == (Rewritten(Dict(None, Between(y)), 0), map[])
            && StepOf(map[], Dict(None, Between(y)), root) == (Rewritten(Dict(None, Joined(y)), 0), Extended(y, EMPTY))
            && StepOf(Extended(y, EMPTY), Dict(None, Joined(y)), root)
               == (Loop(Dict(Some(SHARED), One(y, EMPTY)), OneName(y)), Extended(y, EMPTY))
  {
    ExtendingStep(map[], a, y, EMPTY, Needy(y), fields);
    OverlayOne(Needy(y).entries, "allOf", List([Member(y, EMPTY)]));
    JoinedPlainly(y);
    AllOfOne(Between(y), y, EMPTY, Root(a, Needy(y), fields));
    PlainlySteps(Extended(y, EMPTY), Joined(y), Dict(Some(SHARED), One(y, EMPTY)), y, Root(a, Needy(y), fields));
  }

  lemma {:induction false} ExtendingRuns(a: string, y: string, fields: Entries, path: string)
    requires '/' !in a
    ensures Slim(5, map[], Extending(a, y, EMPTY), path, Root(a, Needy(y), fields))
            == Finished(Dict(None, One(y, NIL)), [RequiredNull([JoinPath(path, y)])], Extended(y, EMPTY))
  {
    var root, h, p := Root(a, Needy(y), fields), Extended(y, EMPTY), Dict(Some(SHARED), One(y, EMPTY));
    ExtendingSteps(a, y, fields);
    OneNullField(2, h, p, y, path, root);
    var result := Follow(2, h, Loop(p, OneName(y)), path, root);
    assert [] + [RequiredNull([JoinPath(path, y)])] == [RequiredNull([JoinPath(path, y)])];
    assert Slim(3, h, Dict(None, Joined(y)), path, root) == result;
    assert Slim(4, map[], Dict(None, Between(y)), path, root) == result;
  }

  /** The reference alone: null before the extension, one null required field after it. */
  lemma {:induction false} LinkRuns(h: Heap, a: string, y: string, fields: Entries, path: string)
    requires '/' !in a && (h == map[] || h == Extended(y, EMPTY))
    ensures Slim(5, h, Link(a), path, Root(a, Needy(y), fields))
            == if h == map[] then Finished(NIL, [], h)
               else Finished(Dict(None, One(y, NIL)), [RequiredNull([JoinPath(path, y)])], h)
  {
    var root, p := Root(a, Needy(y), fields), Dict(Some(SHARED), []);
    LinkStep(h, a, Needy(y), fields);
    NeedyPlainly(y);
    PlainlySteps(h, Needy(y).entries, p, y, root);
    if h != map[] {
      OneNullField(3, h, p, y, path, root);
      assert [] + [RequiredNull([JoinPath(path, y)])] == [RequiredNull([JoinPath(path, y)])];
    }
    assert Slim(4, h, Dict(None, Needy(y).entries), path, root)
        == Follow(3, h, if h == map[] then Output(NIL) else Loop(p, OneName(y)), path, root);
  }

  /** The loop over two fields, with nothing required. */
  lemma {:induction false} TwoFields(
    depth: nat, h: Heap, mid: Heap, end: Heap, all: Doc, x: string, z: string, f: Doc, g: Doc, v: Doc, w: Doc,
    ws: seq<Warning>, more: seq<Warning>, root: Doc)
    requires all.Dict? && Content(h, all) == Two(x, f, z, g)
    requires Content(mid, all) == Two(x, f, z, g) && |Content(end, all)| == 2
    requires Slim(depth, h, f, JoinPath("", x), root) == Finished(v, ws, mid)
    requires Slim(depth, mid, g, JoinPath("", z), root) == Finished(w, more, end)
    ensures Follow(depth, h, Loop(all, List([])), "", root) == Finished(Dict(None, Two(x, v, z, w)), ws + more, end)
  {
    LastField(depth, mid, end, all, x, z, f, g, w, more, root);
    FirstField(depth, h, mid, end, all, x, z, f, g, v, w, ws, more, root);
    NoNullsOf(PlainEntries(Two(x, v, z, w)), "");
    assert NamesOf(h, List([])) == Some([]);
    assert (ws + more) + [] == ws + more;
  }

  lemma {:induction false} FirstField(
    depth: nat, h: Heap, mid: Heap, end: Heap, all: Doc, x: string, z: string, f: Doc, g: Doc, v: Doc, w: Doc,
    ws: seq<Warning>, more: seq<Warning>, root: Doc)
    requires all.Dict? && Content(h, all) == Two(x, f, z, g)
    requires Slim(depth, h, f, JoinPath("", x), root) == Finished(v, ws, mid)
    requires SlimEntries(depth, mid, all, 1, 2, "", root) == Finished(One(z, w), more, end)
    ensures SlimEntries(depth, h, all, 0, 2, "", root) == Finished(Two(x, v, z, w), ws + more, end)
  {
    assert [Entry(x, v)] + One(z, w) == Two(x, v, z, w);
  }

  lemma {:induction false} LastField(
    depth: nat, mid: Heap, end: Heap, all: Doc, x: string, z: string, f: Doc, g: Doc, w: Doc,
    more: seq<Warning>, root: Doc)
    requires all.Dict? && Content(mid, all) == Two(x, f, z, g) && |Content(end, all)| == 2
    requires Slim(depth, mid, g, JoinPath("", z), root) == Finished(w, more, end)
    ensures SlimEntries(depth, mid, all, 1, 2, "", root) == Finished(One(z, w), more, end)
  {
    assert SlimEntries(depth, end, all, 2, 2, "", root) == Finished([], [], end);
    assert [Entry(z, w)] + [] == One(z, w) && more + [] == more;
  }

  lemma LateRuns(a: string, x: string, y: string, z: string)
    requires '/' !in a
    ensures var root := Late(a, x, y, z);
            var run := Slim(6, map[], root, "", root);
            && run.Finished?
            && run.warnings
               == [RequiredNull([JoinPath(JoinPath("", x), y)])] + [RequiredNull([JoinPath(JoinPath("", z), y)])]
  {
    var root, all, h := Late(a, x, y, z), Dict(Some(2), Fields(a, x, y, z)), Extended(y, EMPTY);
    var px, pz := JoinPath("", x), JoinPath("", z);
    var v := Dict(None, One(y, NIL));
    RootStep(a, Needy(y), Fields(a, x, y, z));
    var fields := Fields(a, x, y, z);
    assert SHARED in h;
    ExtendingRuns(a, y, fields, px);
    LinkRuns(h, a, y, fields, pz);
    TwoFields(5, map[], h, h, all, x, z, Extending(a, y, EMPTY), Link(a), v, v,
              [RequiredNull([JoinPath(px, y)])], [RequiredNull([JoinPath(pz, y)])], root);
  }

  // ---------- by value ----------

  /** Alone, either field runs in place as it runs by value. */
  lemma FieldsByValue(a: string, x: string, y: string, z: string, fields: Entries)
    requires '/' !in a
    ensures var root := Plain(Root(a, Needy(y), fields));
            && SlimSchema(5, Plain(Extending(a, y, EMPTY)), Config, JoinPath("", x), root)
               == Done(Plain(Dict(None, One(y, NIL))), [RequiredNull([JoinPath(JoinPath("", x), y)])])
            && SlimSchema(5, Plain(Link(a)), Config, JoinPath("", z), root) == Done(Null, [])
  {
    var root := Root(a, Needy(y), fields);
    ExtendingSteady(a, y, fields);
    SettledReady(map[], Extended(y, EMPTY), Extending(a, y, EMPTY));
    InPlaceAgrees(5, Extended(y, EMPTY), map[], Extending(a, y, EMPTY), JoinPath("", x), root);
    ExtendingRuns(a, y, fields, JoinPath("", x));
    LinkRuns(map[], a, y, fields, JoinPath("", z));
    QuietSteady(5, Link(a), JoinPath("", z), root);
    SettledReady(map[], map[], Link(a));
    InPlaceAgrees(5, map[], map[], Link(a), JoinPath("", z), root);
  }

  lemma ExtendingSteady(a: string, y: string, fields: Entries)
    requires '/' !in a
    ensures Steady(5, Extended(y, EMPTY), Extending(a, y, EMPTY), Root(a, Needy(y), fields))
  {
    var root, final := Root(a, Needy(y), fields), Extended(y, EMPTY);
    ExtendingSteps(a, y, fields);
    JoinedPlainly(y);
    LateWalk(a, y, fields);
    LookupTwo("$ref", RefTo(a), "allOf", List([Member(y, EMPTY)]), "$ref");
    LookupTwo("$ref", RefTo(a), "allOf", List([Member(y, EMPTY)]), "properties");
    ResolveDefinition(map[], a, Needy(y), fields);
    assert NodeOk(final, Extending(a, y, EMPTY), root);
    BetweenOk(y, root);
    assert NodeOk(final, Dict(None, Joined(y)), root);
    EmptySteady(1, final, root);
    JoinedSteps(y, root);
  }

  lemma JoinedSteps(y: string, root: Doc)
    ensures StepOf(map[], Dict(None, Joined(y)), root) == (Loop(Dict(Some(SHARED), One(y, EMPTY)), OneName(y)), map[])
  {
    JoinedPlainly(y);
    PlainlySteps(map[], Joined(y), Dict(Some(SHARED), One(y, EMPTY)), y, root);
  }

  lemma {:induction false} EmptySteady(depth: nat, final: Heap, root: Doc)
    requires 9 !in final
    ensures Steady(depth, final, EMPTY, root)
  {
  }

  lemma LateWalk(a: string, y: string, fields: Entries)
    requires '/' !in a
    ensures RefFree(Extended(y, EMPTY), RefTo(a), Root(a, Needy(y), fields))
  {
    var s := REF_PREFIX + a;
    var defs := Dict(Some(1), One(a, Needy(y)));
    assert REF_PREFIX <= s && s[2..] == "definitions" + "/" + a;
    Text.SplitSegment("definitions", a);
    Text.SplitSingle(a);
    LookupTwo("definitions", defs, "properties", Dict(Some(2), fields), "definitions");
    LookupOne(a, Needy(y), a);
    var parts := ["definitions"] + [a];
    assert parts[1..] == [a] && [a][1..] == [];
    assert RefParts(RefTo(a)) == parts;
    assert WalkFree(Extended(y, EMPTY), Needy(y), []);
    assert WalkFree(Extended(y, EMPTY), defs, [a]);
  }

  lemma BetweenOk(y: string, root: Doc)
    ensures NodeOk(Extended(y, EMPTY), Dict(None, Between(y)), root)
  {
    var final, m := Extended(y, EMPTY), Member(y, EMPTY);
    var before := Drop(Between(y), "allOf");
    var es := One("properties", Dict(Some(8), One(y, EMPTY)));
    JoinedPlainly(y);
    LookupOne("properties", Dict(Some(8), One(y, EMPTY)), "type");
    assert [m][1..] == [] && NonNullSubsNow(map[], [m][1..]) == [];
    assert NonNullSubsNow(map[], [m]) == [m] + [] == [m];
    assert es[1..] == [];
    assert AddOk(final, before, es[0]);
    assert SubOk(final, before, es);
    assert MembersOk(final, before, [m]);
  }

  lemma {:induction false} TwoFieldsByValue(
    depth: nat, props: seq<Field>, x: string, z: string, f: Json, g: Json, v: Json, w: Json,
    ws: seq<Warning>, more: seq<Warning>, root: Json)
    requires props == [Field(x, f), Field(z, g)]
    requires SlimSchema(depth, f, Config, JoinPath("", x), root) == Done(v, ws)
    requires SlimSchema(depth, g, Config, JoinPath("", z), root) == Done(w, more)
    ensures SlimShape(depth, Object(props, Arr([])), Config, "", root)
            == Done(Obj([Field(x, v)] + ([Field(z, w)] + [])), ws + more)
  {
    var rest := props[1..];
    assert rest == [Field(z, g)] && rest[1..] == [];
    assert SlimFields(depth, rest[1..], Config, "", root) == Done([], []);
    assert more + [] == more;
    assert SlimFields(depth, rest, Config, "", root) == Done([Field(z, w)] + [], more);
    assert SlimFields(depth, props, Config, "", root) == Done([Field(x, v)] + ([Field(z, w)] + []), ws + more);
    assert RequiredNames(Arr([])) == Some([]);
    NoNullsOf([Field(x, v)] + ([Field(z, w)] + []), "");
    assert (ws + more) + [] == ws + more;
  }

  lemma LateByValue(a: string, x: string, y: string, z: string)
    requires '/' !in a
    ensures var root := Plain(Late(a, x, y, z));
            var run := SlimSchema(6, root, Config, "", root);
            run.Done? && run.warnings == [RequiredNull([JoinPath(JoinPath("", x), y)])] + []
  {
    var root := Late(a, x, y, z);
    var fields := Fields(a, x, y, z);
    RootStep(a, Needy(y), fields);
    NodeQuiet(root, root);
    SettledReady(map[], map[], root);
    StepSame(map[], map[], root, root);
    FieldsByValue(a, x, y, z, fields);
    PlainTwo(x, Extending(a, y, EMPTY), z, Link(a));
    TwoFieldsByValue(5, PlainEntries(fields), x, z, Plain(Extending(a, y, EMPTY)), Plain(Link(a)),
                     Plain(Dict(None, One(y, NIL))), Null,
                     [RequiredNull([JoinPath(JoinPath("", x), y)])], [], Plain(root));
    assert Plain(List([])) == Arr([]);
  }

  lemma {:induction false} NoNullsOf(d: seq<Field>, path: string)
    ensures NullRequired(d, [], path) == []
  {
    if d != [] { NoNullsOf(d[1..], path); }
  }

  /** Main theorem: the in-place run warns about `z.y`, a field that by value the definition `z` refers to
      does not even have. */
  lemma LateWarning(a: string, x: string, y: string, z: string)
    requires '/' !in a && x != z && x != "" && z != ""
    ensures var root := Late(a, x, y, z);
            var name := JoinPath(z, y);
            && Slim(6, map[], root, "", root).Finished?
            && Names(Slim(6, map[], root, "", root).warnings, name)
            && !Reaches(Visit(Plain(root), ""), name, Plain(root))
  {
    var root, name := Late(a, x, y, z), JoinPath(z, y);
    LateRuns(a, x, y, z);
    LateByValue(a, x, y, z);
    DifferentPaths(x, y, z);
    TwoNamed(JoinPath(x, y), name);
    WarningsAreExact(6, Plain(root), "", Plain(root), name);
  }

  lemma TwoNamed(first: string, second: string)
    requires first != second
    ensures Names([RequiredNull([first])] + [RequiredNull([second])], second)
    ensures !Names([RequiredNull([first])] + [], second)
  {
    assert RequiredNull([second]) in [RequiredNull([first])] + [RequiredNull([second])];
  }

  lemma DifferentPaths(x: string, y: string, z: string)
    requires x != z && x != "" && z != ""
    ensures JoinPath(x, y) != JoinPath(z, y)
  {
    var a, b := x + "." + y, z + "." + y;
    assert a[..|x|] == x && b[..|z|] == z && |a| == |x| + 1 + |y| && |b| == |z| + 1 + |y|;
  }

  // ---------- the other order ----------

  /** The same two fields, the reference first. */
  function Early(a: string, x: string, y: string, z: string): Doc {
    Root(a, Needy(y), Two(z, Link(a), x, Extending(a, y, EMPTY)))
  }

  lemma EarlyRuns(a: string, x: string, y: string, z: string)
    requires '/' !in a
    ensures var root := Early(a, x, y, z);
            Slim(6, map[], root, "", root)
            == Finished(Dict(None, Two(z, NIL, x, Dict(None, One(y, NIL)))),
                        [] + [RequiredNull([JoinPath(JoinPath("", x), y)])], Extended(y, EMPTY))
  {
    var fields := Two(z, Link(a), x, Extending(a, y, EMPTY));
    RootStep(a, Needy(y), fields);
    LinkRuns(map[], a, y, fields, JoinPath("", z));
    ExtendingRuns(a, y, fields, JoinPath("", x));
    TwoFields(5, map[], map[], Extended(y, EMPTY), Dict(Some(2), fields), z, x, Link(a), Extending(a, y, EMPTY),
              NIL, Dict(None, One(y, NIL)), [], [RequiredNull([JoinPath(JoinPath("", x), y)])], Early(a, x, y, z));
  }

  lemma EarlyByValue(a: string, x: string, y: string, z: string)
    requires '/' !in a
    ensures var root := Plain(Early(a, x, y, z));
            SlimSchema(6, root, Config, "", root)
            == Done(Obj([Field(z, Null)] + ([Field(x, Plain(Dict(None, One(y, NIL))))] + [])),
                    [] + [RequiredNull([JoinPath(JoinPath("", x), y)])])
  {
    var root := Early(a, x, y, z);
    var fields := Two(z, Link(a), x, Extending(a, y, EMPTY));
    RootStep(a, Needy(y), fields);
    NodeQuiet(root, root);
    SettledReady(map[], map[], root);
    StepSame(map[], map[], root, root);
    FieldsByValue(a, x, y, z, fields);
    PlainTwo(z, Link(a), x, Extending(a, y, EMPTY));
    TwoFieldsByValue(5, PlainEntries(fields), z, x, Plain(Link(a)), Plain(Extending(a, y, EMPTY)), Null,
                     Plain(Dict(None, One(y, NIL))), [], [RequiredNull([JoinPath(JoinPath("", x), y)])], Plain(root));
    assert Plain(List([])) == Arr([]);
  }

  lemma {:induction false} PlainTwo(k: string, v: Doc, l: string, w: Doc)
    ensures PlainEntries(Two(k, v, l, w)) == [Field(k, Plain(v)), Field(l, Plain(w))]
  {
    assert Two(k, v, l, w)[1..] == One(l, w) && One(l, w)[1..] == [];
    assert PlainEntries(One(l, w)) == [Field(l, Plain(w))] + [];
  }

  lemma {:induction false} SharedRead(final: Heap, a: string, y: string, fields: Entries)
    requires '/' !in a && Steady(5, final, Link(a), Root(a, Needy(y), fields))
    ensures SHARED in final ==> final[SHARED] == []
  {
    var root := Root(a, Needy(y), fields);
    LinkStep(map[], a, Needy(y), fields);
    NeedyPlainly(y);
    assert NodeOk(final, Dict(None, Needy(y).entries), root);
  }

  lemma {:induction false} SharedExtended(final: Heap, a: string, y: string, fields: Entries)
    requires '/' !in a && Steady(5, final, Extending(a, y, EMPTY), Root(a, Needy(y), fields))
    ensures SHARED in final && final[SHARED] == One(y, EMPTY)
  {
    var root, m := Root(a, Needy(y), fields), Member(y, EMPTY);
    var before := Drop(Between(y), "allOf");
    var es := One("properties", Dict(Some(8), One(y, EMPTY)));
    ExtendingSteps(a, y, fields);
    JoinedPlainly(y);
    assert NodeOk(final, Dict(None, Between(y)), root);
    LookupOne("properties", Dict(Some(8), One(y, EMPTY)), "type");
    assert [m][1..] == [] && NonNullSubsNow(map[], [m][1..]) == [];
    assert NonNullSubsNow(map[], [m]) == [m] + [] == [m];
    assert MembersOk(final, before, [m]) && SubOk(final, before, es) && AddOk(final, before, es[0]);
    OverlayOne([], y, EMPTY);
    assert NodeOk(final, Dict(None, Joined(y)), root);
  }

  /** Steadiness is more than agreement needs: an extension that comes after the last reading is never seen.
      In this order of the fields the in-place run has the outcome of the run by value. */
  lemma OrderMatters(a: string, x: string, y: string, z: string)
    requires '/' !in a
    ensures var root := Early(a, x, y, z);
            var mine, value := Slim(6, map[], root, "", root), SlimSchema(6, Plain(root), Config, "", Plain(root));
            && mine.Finished? && value == Done(Plain(mine.value), mine.warnings)
            && (forall final: Heap :: !AlwaysSteady(final, root, root))
  {
    var root, fields := Early(a, x, y, z), Two(z, Link(a), x, Extending(a, y, EMPTY));
    EarlyRuns(a, x, y, z);
    EarlyByValue(a, x, y, z);
    PlainTwo(z, NIL, x, Dict(None, One(y, NIL)));
    RootStep(a, Needy(y), fields);
    assert fields[0].value == Link(a) && fields[1].value == Extending(a, y, EMPTY);
    assert fields[0] in fields && fields[1] in fields;
    forall final: Heap ensures !AlwaysSteady(final, root, root) {
      if Steady(6, final, root, root) {
        SharedRead(final, a, y, fields);
        SharedExtended(final, a, y, fields);
      }
    }
  }
}
