/** Whole runs of the in-place compiler: when they give the result of the compiler by value, and exactly
    when they leave the document as it was. */
module InPlaceRuns {
  import opened Json
  import opened SchemaTemplate
  import opened SchemaTermination
  import opened SchemaWarnings
  import opened InPlace
  import opened InPlaceSteps

  // ---------- steady documents ----------

  /** Along the calls by value, `depth` deep: every `properties` dict that an `allOf` extends is extended
      to the same `final` entries each time it is met, and is read nowhere else. */
  predicate Steady(depth: nat, final: Heap, c: Doc, root: Doc)
    decreases depth, 0
  {
    depth > 0 ==> NodeOk(final, c, root) && StepSteady(depth - 1, final, StepOf(map[], c, root).0, root)
  }

  predicate StepSteady(depth: nat, final: Heap, step: Step, root: Doc)
    decreases depth, 1
  {
    match step
    case Rewritten(next, _) => Steady(depth, final, next, root)
    case Loop(props, _) => props.Dict? ==> forall e | e in props.entries :: Steady(depth, final, e.value, root)
    case Single(items, _) => Steady(depth, final, items, root)
    case _ => true
  }

  /** The heap a call may find. */
  ghost predicate Ready(h: Heap, final: Heap, c: Doc) {
    if c.Dict? then Chain(h, final, PropsOf(c.entries)) else Settled(h, final)
  }

  /** Same outcome; the heap is settled, and the output mentions no dict that is ever changed. */
  ghost predicate Agree(final: Heap, mine: Result<Doc>, value: Outcome<Json>) {
    match mine
    case Finished(v, ws, h) => value == Done(Plain(v), ws) && Settled(h, final) && Untouched(final, v)
    case Exhausted => value == TooDeep
    case Failed => value == Malformed
    case Resized => false
  }

  ghost predicate EntriesAgree(final: Heap, mine: Result<Entries>, value: Outcome<seq<Field>>) {
    match mine
    case Finished(es, ws, h) =>
      value == Done(PlainEntries(es), ws) && Settled(h, final) && forall e | e in es :: Untouched(final, e.value)
    case Exhausted => value == TooDeep
    case Failed => value == Malformed
    case Resized => false
  }

  lemma SettledReady(h: Heap, final: Heap, c: Doc)
    requires Settled(h, final)
    ensures Ready(h, final, c)
  {
    if c.Dict? { SettledChain(h, final, PropsOf(c.entries)); }
  }

  lemma {:induction false} NamesSame(h: Heap, final: Heap, required: Doc)
    requires Settled(h, final) && Free(final, required)
    ensures NamesOf(h, required) == RequiredNames(Plain(required))
  {
    match required
    case List(items) =>
      SameLength(items);
      forall i | 0 <= i < |items| ensures PlainItems(items)[i] == Plain(items[i]) { ItemAt(items, i); }
    case _ =>
  }

  lemma {:induction false} ItemAt(items: seq<Doc>, i: nat)
    requires i < |items|
    ensures i < |PlainItems(items)| && PlainItems(items)[i] == Plain(items[i])
  {
    if i > 0 { ItemAt(items[1..], i - 1); }
  }

  lemma {:induction false} EntryAt(d: Entries, i: nat)
    requires i < |d|
    ensures i < |PlainEntries(d)| && PlainEntries(d)[i] == Field(d[i].key, Plain(d[i].value))
    ensures PlainEntries(d)[i..] == PlainEntries(d[i..])
  {
    if i > 0 {
      EntryAt(d[1..], i - 1);
      assert d[1..][i - 1..] == d[i..] && PlainEntries(d)[1..] == PlainEntries(d[1..]);
      assert PlainEntries(d)[1..][i - 1..] == PlainEntries(d)[i..];
    } else {
      assert d[0..] == d && PlainEntries(d)[0..] == PlainEntries(d);
    }
  }

  // ---------- agreement ----------

  /** Main theorem: on a steady document the in-place run and the run by value have the same outcome. */
  lemma {:induction false} InPlaceAgrees(depth: nat, final: Heap, h: Heap, c: Doc, path: string, root: Doc)
    requires Ready(h, final, c) && Steady(depth, final, c, root)
    ensures Agree(final, Slim(depth, h, c, path, root), SlimSchema(depth, Plain(c), Config, path, Plain(root)))
    decreases depth, 0
  {
    if depth > 0 {
      StepSame(h, final, c, root);
      var (step, now) := StepOf(h, c, root);
      FollowAgrees(depth - 1, final, now, step, ShapeOf(Plain(c), Config, Plain(root)), path, root);
    }
  }

  lemma {:induction false} FollowAgrees(
    depth: nat, final: Heap, h: Heap, step: Step, shape: Shape, path: string, root: Doc)
    requires Matches(step, shape) && Leaves(h, final, step) && StepSteady(depth, final, step, root)
    ensures Agree(final, Follow(depth, h, step, path, root), SlimShape(depth, shape, Config, path, Plain(root)))
    decreases depth, 3
  {
    match step
    case Rewritten(next, _) => InPlaceAgrees(depth, final, h, next, path, root);
    case Single(items, default) =>
      SettledReady(h, final, items);
      InPlaceAgrees(depth, final, h, items, path + "[]", root);
      var item := Slim(depth, h, items, path + "[]", root);
      if item.Finished? { SingleAgrees(final, item, default); }
    case Loop(props, required) =>
      LoopAgrees(depth, final, h, props, required, path, root);
    case _ =>
  }

  lemma {:induction false} LoopAgrees(
    depth: nat, final: Heap, h: Heap, props: Doc, required: Doc, path: string, root: Doc)
    requires props.Dict? && Matches(Loop(props, required), Object(PlainEntries(props.entries), Plain(required)))
    requires Leaves(h, final, Loop(props, required)) && StepSteady(depth, final, Loop(props, required), root)
    ensures Agree(final, Follow(depth, h, Loop(props, required), path, root),
                  SlimObject(depth, PlainEntries(props.entries), Plain(required), Config, path, Plain(root)))
    decreases depth, 2
  {
    NamesSame(h, final, required);
    if RequiredNames(Plain(required)).Some? {
      assert Content(h, props) == props.entries;
      EntriesRun(depth, final, h, props, 0, path, root);
      assert PlainEntries(props.entries)[0..] == PlainEntries(props.entries);
    }
  }

  lemma SingleAgrees(final: Heap, item: Result<Doc>, default: Doc)
    requires item.Finished? && Untouched(final, item.value) && Untouched(final, default)
    ensures var v := if item.value != NIL then List([item.value]) else default;
            Untouched(final, v) && Plain(v) == ArrayEntry(Plain(item.value), Plain(default), [], Config)
  {
    PlainAtom(item.value, Null);
    assert PlainItems([item.value]) == [Plain(item.value)] + PlainItems([item.value][1..]);
  }

  lemma EntriesHead(props: Entries, i: nat)
    requires i < |props|
    ensures var f, rest := props[i], PlainEntries(props[i..]);
            && rest != [] && rest[0] == Field(f.key, Plain(f.value)) && rest[1..] == PlainEntries(props[i + 1..])
  {
    var rest := props[i..];
    assert rest[0] == props[i] && rest[1..] == props[i + 1..];
    assert PlainEntries(rest)[1..] == PlainEntries(rest[1..]);
  }

  lemma {:induction false} EntriesCons(final: Heap, e: Entry, others: Entries)
    requires Untouched(final, e.value) && forall o | o in others :: Untouched(final, o.value)
    ensures PlainEntries([e] + others) == [Field(e.key, Plain(e.value))] + PlainEntries(others)
    ensures forall o | o in [e] + others :: Untouched(final, o.value)
  {
    assert ([e] + others)[1..] == others;
  }

  lemma {:induction false} EntriesRun(
    depth: nat, final: Heap, h: Heap, props: Doc, i: nat, path: string, root: Doc)
    requires props.Dict? && i <= |props.entries| && Settled(h, final) && Readable(final, props)
    requires forall e | e in props.entries :: Steady(depth, final, e.value, root)
    ensures EntriesAgree(final, SlimEntries(depth, h, props, i, |props.entries|, path, root),
                         SlimFields(depth, PlainEntries(props.entries[i..]), Config, path, Plain(root)))
    decreases depth, 1, |props.entries| - i
  {
    assert Content(h, props) == props.entries;
    if i < |props.entries| {
      var f := props.entries[i];
      EntriesHead(props.entries, i);
      SettledReady(h, final, f.value);
      InPlaceAgrees(depth, final, h, f.value, JoinPath(path, f.key), root);
      var first := Slim(depth, h, f.value, JoinPath(path, f.key), root);
      if first.Finished? {
        EntriesRun(depth, final, first.heap, props, i + 1, path, root);
        var others := SlimEntries(depth, first.heap, props, i + 1, |props.entries|, path, root);
        if others.Finished? {
          EntriesCons(final, Entry(f.key, first.value), others.value);
        }
      }
    }
  }

  // ---------- when the document is left as it was ----------

  lemma {:induction false} AddQuiet(h: Heap, merged: Entries, sub: Entries)
    requires MergeSubNow(h, merged, sub).Some?
    ensures h.Keys <= MergeSubNow(h, merged, sub).value.heap.Keys
    ensures MergeSubNow(h, merged, sub).value.heap == map[] ==>
              SubOk(map[], merged, sub) && AddAll(merged, sub) == Some(MergeSubNow(h, merged, sub).value.entries)
    decreases |sub|
  {
    if sub != [] {
      var next := AddEntry(h, merged, sub[0]).value;
      AddQuiet(next.heap, next.entries, sub[1..]);
    }
  }

  lemma {:induction false} MembersQuiet(h: Heap, merged: Entries, subs: seq<Doc>)
    requires MergeSubsNow(h, merged, subs).Some?
    ensures h.Keys <= MergeSubsNow(h, merged, subs).value.heap.Keys
    ensures MergeSubsNow(h, merged, subs).value.heap == map[] ==> MembersOk(map[], merged, subs)
    decreases |subs|
  {
    if subs != [] {
      var next := MergeSubNow(h, merged, Content(h, subs[0])).value;
      AddQuiet(h, merged, Content(h, subs[0]));
      MembersQuiet(next.heap, next.entries, subs[1..]);
    }
  }

  lemma {:induction false} NothingFinal(d: Doc)
    ensures Untouched(map[], d)
  {
    match d
    case List(items) => forall x | x in items ensures Untouched(map[], x) { NothingFinal(x); }
    case Dict(_, entries) => forall e | e in entries ensures Untouched(map[], e.value) { NothingFinal(e.value); }
    case _ =>
  }

  lemma {:induction false} WalkNothing(node: Doc, parts: seq<string>)
    ensures WalkFree(map[], node, parts)
    decreases |parts|
  {
    if parts != [] && node.Dict? && Lookup(node.entries, parts[0]).Some? {
      WalkNothing(Lookup(node.entries, parts[0]).value, parts[1..]);
    }
  }

  lemma {:induction false} VariantNothing(merged: Entries, chosen: Entries)
    ensures VariantOk(map[], merged, chosen)
    decreases |chosen|
  {
    if chosen != [] {
      var f := chosen[0];
      if f.key != "properties" || PropsOf(merged).None? {
        VariantNothing(Set(merged, f.key, f.value), chosen[1..]);
      } else {
        var mine := PropsOf(merged).value;
        if mine.Dict? && f.value.Dict? {
          VariantNothing(Set(merged, f.key, Dict(None, Overlay(mine.entries, f.value.entries))), chosen[1..]);
        }
      }
    }
  }

  lemma KeywordQuiet(d: Entries)
    requires !KeywordStep(map[], d).0.Unusable? && KeywordStep(map[], d).1 == map[]
    ensures KeywordOk(map[], d)
  {
    if Lookup(d, "oneOf").Some? && Truth(map[], Lookup(d, "oneOf").value) {
      var variants := Lookup(d, "oneOf").value;
      if variants.List? && ChosenOf(variants.items).Dict? {
        VariantNothing(Drop(d, "oneOf"), ChosenOf(variants.items).entries);
      }
    } else if Lookup(d, "allOf").Some? {
      var subs := Lookup(d, "allOf").value;
      MembersQuiet(map[], Drop(d, "allOf"), NonNullSubsNow(map[], subs.items));
    } else {
      forall v: Doc ensures Untouched(map[], v) { NothingFinal(v); }
    }
  }

  lemma NodeQuiet(c: Doc, root: Doc)
    requires !StepOf(map[], c, root).0.Unusable? && StepOf(map[], c, root).1 == map[]
    ensures NodeOk(map[], c, root)
  {
    NothingFinal(c);
    if c.Dict? {
      match Lookup(c.entries, "$ref")
      case None => KeywordQuiet(c.entries);
      case Some(ref) =>
        if IsRef(ref) { WalkNothing(root, RefParts(ref)); }
        if ResolveNow(map[], ref, root).None? { RestQuiet(Drop(c.entries, "$ref")); }
    }
  }

  lemma RestQuiet(rest: Entries)
    requires rest != [] ==> !KeywordStep(map[], rest).0.Unusable? && KeywordStep(map[], rest).1 == map[]
    ensures KeywordOk(map[], rest)
  {
    if rest != [] { KeywordQuiet(rest); }
  }

  lemma StepKeeps(h: Heap, c: Doc, root: Doc)
    requires !StepOf(h, c, root).0.Unusable?
    ensures h.Keys <= StepOf(h, c, root).1.Keys
  {
    if c.Dict? {
      var d := Content(h, c);
      match Lookup(d, "$ref")
      case None => KeywordKeeps(h, d);
      case Some(ref) => KeywordKeeps(h, Drop(d, "$ref"));
    }
  }

  lemma KeywordKeeps(h: Heap, d: Entries)
    ensures !KeywordStep(h, d).0.Unusable? ==> h.Keys <= KeywordStep(h, d).1.Keys
  {
    if !(Lookup(d, "oneOf").Some? && Truth(h, Lookup(d, "oneOf").value)) && Lookup(d, "allOf").Some? {
      var subs := Lookup(d, "allOf").value;
      if subs.List? && MergeSubsNow(h, Drop(d, "allOf"), NonNullSubsNow(h, subs.items)).Some? {
        MembersQuiet(h, Drop(d, "allOf"), NonNullSubsNow(h, subs.items));
      }
    }
  }

  /** Changed dicts stay changed. */
  lemma {:induction false} RunKeeps(depth: nat, h: Heap, c: Doc, path: string, root: Doc)
    requires Slim(depth, h, c, path, root).Finished?
    ensures h.Keys <= Slim(depth, h, c, path, root).heap.Keys
    decreases depth, 0
  {
    StepKeeps(h, c, root);
    var (step, now) := StepOf(h, c, root);
    match step
    case Rewritten(next, _) => RunKeeps(depth - 1, now, next, path, root);
    case Single(items, _) => RunKeeps(depth - 1, now, items, path + "[]", root);
    case Loop(props, _) => EntriesKeep(depth - 1, now, props, 0, |Content(now, props)|, path, root);
    case _ =>
  }

  lemma {:induction false} EntriesKeep(depth: nat, h: Heap, props: Doc, i: nat, n: nat, path: string, root: Doc)
    requires props.Dict? && i <= n && SlimEntries(depth, h, props, i, n, path, root).Finished?
    ensures h.Keys <= SlimEntries(depth, h, props, i, n, path, root).heap.Keys
    decreases depth, 1, n - i
  {
    if i < n {
      var f := Content(h, props)[i];
      RunKeeps(depth, h, f.value, JoinPath(path, f.key), root);
      EntriesKeep(depth, Slim(depth, h, f.value, JoinPath(path, f.key), root).heap, props, i + 1, n, path, root);
    }
  }

  /** Main theorem: a run leaves every dict of the document as it was if and only if no call on it extends
      a dict of the document by anything new. */
  lemma {:induction false} UntouchedIff(depth: nat, c: Doc, path: string, root: Doc)
    requires Slim(depth, map[], c, path, root).Finished?
    ensures Slim(depth, map[], c, path, root).heap == map[] <==> Steady(depth, map[], c, root)
  {
    if Steady(depth, map[], c, root) {
      SettledReady(map[], map[], c);
      InPlaceAgrees(depth, map[], map[], c, path, root);
    }
    if Slim(depth, map[], c, path, root).heap == map[] { QuietSteady(depth, c, path, root); }
  }

  lemma {:induction false} QuietSteady(depth: nat, c: Doc, path: string, root: Doc)
    requires Slim(depth, map[], c, path, root).Finished? && Slim(depth, map[], c, path, root).heap == map[]
    ensures Steady(depth, map[], c, root)
    decreases depth, 0
  {
    var (step, now) := StepOf(map[], c, root);
    match step
    case Rewritten(next, _) =>
      RunKeeps(depth - 1, now, next, path, root);
      NodeQuiet(c, root);
      QuietSteady(depth - 1, next, path, root);
    case Single(items, _) =>
      RunKeeps(depth - 1, now, items, path + "[]", root);
      NodeQuiet(c, root);
      QuietSteady(depth - 1, items, path + "[]", root);
    case Loop(props, _) =>
      EntriesKeep(depth - 1, now, props, 0, |Content(now, props)|, path, root);
      NodeQuiet(c, root);
      QuietEntries(depth - 1, props, 0, path, root);
    case _ => NodeQuiet(c, root);
  }

  lemma {:induction false} QuietEntries(depth: nat, props: Doc, i: nat, path: string, root: Doc)
    requires props.Dict? && i <= |props.entries|
    requires var run := SlimEntries(depth, map[], props, i, |props.entries|, path, root);
             run.Finished? && run.heap == map[]
    ensures forall e | e in props.entries[i..] :: Steady(depth, map[], e.value, root)
    decreases depth, 1, |props.entries| - i
  {
    if i < |props.entries| {
      var f := props.entries[i];
      var first := Slim(depth, map[], f.value, JoinPath(path, f.key), root);
      RunKeeps(depth, map[], f.value, JoinPath(path, f.key), root);
      EntriesKeep(depth, first.heap, props, i + 1, |props.entries|, path, root);
      QuietSteady(depth, f.value, JoinPath(path, f.key), root);
      QuietEntries(depth, props, i + 1, path, root);
      assert props.entries[i..] == [f] + props.entries[i + 1..];
    }
  }

  // ---------- what carries over from the run by value ----------

  /** A result reached with some recursion allowance is reached with every larger one. */
  lemma {:induction false} RunDepthIrrelevant(depth: nat, more: nat, h: Heap, c: Doc, path: string, root: Doc)
    requires depth <= more && !Slim(depth, h, c, path, root).Exhausted?
    ensures Slim(more, h, c, path, root) == Slim(depth, h, c, path, root)
    decreases depth, 0
  {
    var (step, now) := StepOf(h, c, root);
    FollowDepthIrrelevant(depth - 1, more - 1, now, step, path, root);
  }

  lemma {:induction false} FollowDepthIrrelevant(
    depth: nat, more: nat, h: Heap, step: Step, path: string, root: Doc)
    requires depth <= more && !Follow(depth, h, step, path, root).Exhausted?
    ensures Follow(more, h, step, path, root) == Follow(depth, h, step, path, root)
    decreases depth, 3
  {
    match step
    case Rewritten(next, _) => RunDepthIrrelevant(depth, more, h, next, path, root);
    case Single(items, _) => RunDepthIrrelevant(depth, more, h, items, path + "[]", root);
    case Loop(props, required) =>
      if props.Dict? && NamesOf(h, required).Some? {
        EntriesDepthIrrelevant(depth, more, h, props, 0, |Content(h, props)|, path, root);
      }
    case _ =>
  }

  lemma {:induction false} EntriesDepthIrrelevant(
    depth: nat, more: nat, h: Heap, props: Doc, i: nat, n: nat, path: string, root: Doc)
    requires props.Dict? && i <= n
    requires depth <= more && !SlimEntries(depth, h, props, i, n, path, root).Exhausted?
    ensures SlimEntries(more, h, props, i, n, path, root) == SlimEntries(depth, h, props, i, n, path, root)
    decreases depth, 1, n - i
  {
    if i < n && |Content(h, props)| == n {
      var f := Content(h, props)[i];
      RunDepthIrrelevant(depth, more, h, f.value, JoinPath(path, f.key), root);
      var first := Slim(depth, h, f.value, JoinPath(path, f.key), root);
      if first.Finished? { EntriesDepthIrrelevant(depth, more, first.heap, props, i + 1, n, path, root); }
    }
  }

  ghost predicate AlwaysSteady(final: Heap, c: Doc, root: Doc) {
    forall depth: nat :: Steady(depth, final, c, root)
  }

  /** Main theorem: the in-place run stops, at one fixed outcome, on every steady document with acyclic
      references. */
  lemma InPlaceTerminates(final: Heap, c: Doc, path: string, root: Doc) returns (limit: nat)
    requires AcyclicRefs(Plain(root)) && AlwaysSteady(final, c, root)
    ensures !Slim(limit, map[], c, path, root).Exhausted? && !Slim(limit, map[], c, path, root).Resized?
    ensures forall depth: nat :: limit <= depth ==>
              Slim(depth, map[], c, path, root) == Slim(limit, map[], c, path, root)
  {
    limit := SlimTerminates(Plain(c), Config, path, Plain(root));
    SettledReady(map[], final, c);
    InPlaceAgrees(limit, final, map[], c, path, root);
    forall depth: nat | limit <= depth
      ensures Slim(depth, map[], c, path, root) == Slim(limit, map[], c, path, root)
    {
      RunDepthIrrelevant(limit, depth, map[], c, path, root);
    }
  }

  /** Main theorem: on a steady document the "required fields" warnings of the in-place run name exactly the
      required paths the calls reach whose template value is null. */
  lemma {:induction false} InPlaceWarnings(depth: nat, final: Heap, c: Doc, path: string, root: Doc, name: string)
    requires Steady(depth, final, c, root) && Slim(depth, map[], c, path, root).Finished?
    ensures Names(Slim(depth, map[], c, path, root).warnings, name)
            <==> Reaches(Visit(Plain(c), path), name, Plain(root))
  {
    SettledReady(map[], final, c);
    InPlaceAgrees(depth, final, map[], c, path, root);
    WarningsAreExact(depth, Plain(c), path, Plain(root), name);
  }

  /** Every dict inside is as it was parsed. */
  predicate Intact(h: Heap, d: Doc) {
    match d
    case Scalar(_) => true
    case List(items) => forall x | x in items :: Intact(h, x)
    case Dict(_, entries) => Content(h, d) == entries && forall e | e in entries :: Intact(h, e.value)
  }

  /** The output of a steady run can be read after it. */
  lemma {:induction false} OutputIntact(h: Heap, final: Heap, d: Doc)
    requires Settled(h, final) && Untouched(final, d)
    ensures Intact(h, d)
  {
    match d
    case List(items) => forall x | x in items ensures Intact(h, x) { OutputIntact(h, final, x); }
    case Dict(_, entries) => forall e | e in entries ensures Intact(h, e.value) { OutputIntact(h, final, e.value); }
    case _ =>
  }
}
