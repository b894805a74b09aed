/** The promise about submitted templates, for the run that updates in place: a schema of the fragment
    never makes it change a dict. */
module InPlaceTemplates {
  import opened Json
  import opened SchemaTemplate
  import opened SchemaValidation
  import opened InPlace
  import opened InPlaceSteps
  import opened InPlaceRuns

  lemma {:induction false} FragmentNode(depth: nat, c: Doc, root: Doc)
    requires InFragment(depth, Plain(c), Plain(root))
    ensures NodeOk(map[], c, root)
    ensures Matches(StepOf(map[], c, root).0, ShapeOf(Plain(c), Config, Plain(root)))
  {
    NothingFinal(c);
    if c.Dict? {
      var d := c.entries;
      LookupPlain(d, "$ref");
      if Lookup(d, "$ref").Some? {
        var ref := Lookup(d, "$ref").value;
        if IsRef(ref) { WalkNothing(root, RefParts(ref)); }
        ResolveSame(map[], map[], ref, root);
        FindAt(PlainEntries(d), "$ref");
      } else {
        FragmentKeywords(d);
      }
      SettledChain(map[], map[], PropsOf(d));
    }
    StepSame(map[], map[], c, root);
  }

  lemma NotKeywords()
    ensures "oneOf" !in FRAGMENT_KEYWORDS && "allOf" !in FRAGMENT_KEYWORDS
  {
  }

  lemma {:induction false} NoUnions(d: Entries)
    requires forall f | f in PlainEntries(d) :: f.key != "oneOf" && f.key != "allOf"
    ensures Lookup(d, "oneOf").None? && Lookup(d, "allOf").None?
  {
    LookupPlain(d, "oneOf");
    LookupPlain(d, "allOf");
    if Lookup(d, "oneOf").Some? { FindAt(PlainEntries(d), "oneOf"); }
    if Lookup(d, "allOf").Some? { FindAt(PlainEntries(d), "allOf"); }
  }

  lemma {:induction false} FragmentKeywords(d: Entries)
    requires forall f | f in PlainEntries(d) :: f.key in FRAGMENT_KEYWORDS
    ensures KeywordOk(map[], d)
  {
    NotKeywords();
    NoUnions(d);
    PlainNothing(d);
  }

  lemma PlainNothing(d: Entries)
    ensures PlainOk(map[], d)
  {
    forall v: Doc ensures Untouched(map[], v) { NothingFinal(v); }
  }

  lemma {:induction false} FragmentSteady(depth: nat, c: Doc, root: Doc)
    requires InFragment(depth, Plain(c), Plain(root))
    ensures Steady(depth, map[], c, root)
    decreases depth, 2
  {
    FragmentNode(depth, c, root);
    if depth > 0 {
      FragmentCalls(depth, Plain(c), Plain(root));
      CallsSteady(depth - 1, StepOf(map[], c, root).0, ShapeOf(Plain(c), Config, Plain(root)), root);
    }
  }

  /** The fragment is closed under the calls of one step. */
  predicate CallsInFragment(depth: nat, shape: Shape, root: Json) {
    match shape
    case Again(next, _) => InFragment(depth, next, root)
    case Array(items, _, _) => InFragment(depth, items, root)
    case Object(props, _) => PropsInFragment(depth, props, root)
    case _ => true
  }

  lemma {:induction false} FragmentCalls(depth: nat, schema: Json, root: Json)
    requires InFragment(depth, schema, root) && depth > 0
    ensures CallsInFragment(depth - 1, ShapeOf(schema, Config, root), root)
  {
    FragmentShape(depth, schema, root);
  }

  lemma {:induction false} CallsSteady(depth: nat, step: Step, shape: Shape, root: Doc)
    requires Matches(step, shape) && CallsInFragment(depth, shape, Plain(root))
    ensures StepSteady(depth, map[], step, root)
    decreases depth, 4
  {
    match step
    case Rewritten(next, _) => FragmentSteady(depth, next, root);
    case Single(items, _) => FragmentSteady(depth, items, root);
    case Loop(props, _) => EntriesSteady(depth, props.entries, root);
    case _ =>
  }

  lemma {:induction false} EntriesSteady(depth: nat, props: Entries, root: Doc)
    requires PropsInFragment(depth, PlainEntries(props), Plain(root))
    ensures forall e | e in props :: Steady(depth, map[], e.value, root)
    decreases depth, 3
  {
    forall e | e in props ensures Steady(depth, map[], e.value, root) {
      var i :| 0 <= i < |props| && props[i] == e;
      EntryAt(props, i);
      assert PlainEntries(props)[i] in PlainEntries(props);
      FragmentSteady(depth, e.value, root);
    }
  }

  /** Main theorem: the in-place run on a fragment schema finishes, leaves the document as it was, and a
      template that is not null and carries no "required fields" warning is accepted after null stripping. */
  lemma {:induction false} TemplateValidatesInPlace(depth: nat, c: Doc, path: string, root: Doc)
    requires InFragment(depth, Plain(c), Plain(root))
    ensures var run := Slim(depth, map[], c, path, root);
            && run.Finished? && run.heap == map[]
            && (NoneRequired(run.warnings) && run.value != NIL
                ==> Validates(depth, Plain(c), StripNulls(Plain(run.value)), Plain(root)))
  {
    FragmentSteady(depth, c, root);
    SettledReady(map[], map[], c);
    InPlaceAgrees(depth, map[], map[], c, path, root);
    TemplateValidates(depth, Plain(c), path, Plain(root));
    var run := Slim(depth, map[], c, path, root);
    PlainAtom(run.value, Null);
  }
}
