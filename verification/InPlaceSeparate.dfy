/** A condition that can be read off the document, key by key, and makes it steady: what is merged by one
    keyword is not merged again by another. */
module InPlaceSeparate {
  import opened Json
  import opened SchemaTemplate
  import opened SchemaTermination
  import opened InPlace
  import opened InPlaceSteps
  import opened InPlaceRuns

  predicate HasKey(d: Entries, k: string) {
    Lookup(d, k).Some?
  }

  /** Only its own schema keywords: nothing that would be resolved or merged in turn. */
  predicate Simple(v: Doc) {
    v.Dict? ==> !HasKey(v.entries, "oneOf") && !HasKey(v.entries, "allOf")
  }

  predicate PropsFree(final: Heap, v: Doc) {
    v.Dict? && PropsOf(v.entries).Some? ==> Free(final, PropsOf(v.entries).value)
  }

  /** The keywords of one schema: a reference stands without `properties`, `oneOf` and `allOf`; `oneOf` and
      `allOf` do not meet, not even in a variant or member; a member holds no reference, and neither does a
      variant of a schema with `properties`; and the `properties` beside an `allOf` end up `final`. */
  predicate Keywords(final: Heap, d: Entries) {
    && (HasKey(d, "$ref") ==> !HasKey(d, "properties") && !HasKey(d, "oneOf") && !HasKey(d, "allOf"))
    && (HasKey(d, "oneOf") ==> !HasKey(d, "allOf") && VariantsSimple(final, d, Lookup(d, "oneOf").value))
    && (if HasKey(d, "allOf") then MembersSimple(final, d, Lookup(d, "allOf").value)
        else PropsOf(d).Some? ==> Readable(final, PropsOf(d).value))
  }

  predicate VariantsSimple(final: Heap, d: Entries, variants: Doc) {
    variants.List? ==>
      forall v | v in variants.items ::
        Simple(v) && PropsFree(final, v) && (v.Dict? && HasKey(v.entries, "$ref") ==> !HasKey(d, "properties"))
  }

  predicate MembersSimple(final: Heap, d: Entries, subs: Doc) {
    subs.List? ==>
      && (forall v | v in subs.items :: Simple(v) && (v.Dict? ==> !HasKey(v.entries, "$ref")))
      && var members := NonNullSubsNow(map[], subs.items);
         MembersOk(final, Drop(d, "allOf"), members) && Complete(final, AddMembers(Drop(d, "allOf"), members))
  }

  predicate Complete(final: Heap, merged: Option<Entries>) {
    merged.Some? && PropsOf(merged.value).Some? ==> Readable(final, PropsOf(merged.value).value)
  }

  /** All schemas of a document, wherever they stand; `refs` are the references it uses. */
  predicate Separate(final: Heap, refs: set<string>, d: Doc)
    decreases d, 0
  {
    match d
    case Scalar(_) => true
    case List(_) => Untouched(final, d)
    case Dict(_, entries) =>
      && Free(final, d) && Unique(entries) && Keywords(final, entries)
      && forall e | e in entries :: EntrySeparate(final, refs, e)
  }

  predicate EntrySeparate(final: Heap, refs: set<string>, e: Entry)
    decreases e, 1
  {
    && (e.key == "$ref" && IsRef(e.value) ==> e.value.value.s in refs)
    && (e.key == "properties" && e.value.Dict? ==> forall g | g in e.value.entries :: Separate(final, refs, g.value))
    && (e.key == "items" ==> Separate(final, refs, e.value))
    && (e.key == "oneOf" ==> Free(final, e.value))
    && (e.key == "oneOf" || e.key == "allOf" ==>
          e.value.List? ==> forall v | v in e.value.items :: Free(final, v) && Separate(final, refs, v))
    && (e.key == "const" || e.key == "default" ==> Untouched(final, e.value))
    && (e.key == "required" ==> Free(final, e.value))
  }

  /** The references used lead past dicts that are never extended, to schemas that are separate too. */
  predicate Closed(final: Heap, refs: set<string>, root: Doc) {
    forall s | s in refs ::
      && RefFree(final, Scalar(Str(s)), root)
      && match ResolveNow(map[], Scalar(Str(s)), root)
         case Some(target) => Separate(final, refs, target)
         case None => true
  }

  // ---------- merged entries are entries of the merged schemas ----------

  predicate Good(final: Heap, refs: set<string>, d: Entries) {
    Unique(d) && forall e | e in d :: EntrySeparate(final, refs, e)
  }

  lemma {:induction false} SetMembers(d: Entries, k: string, v: Doc)
    ensures forall e | e in Set(d, k, v) :: e == Entry(k, v) || e in d
  {
    if d != [] && d[0].key != k { SetMembers(d[1..], k, v); }
  }

  lemma {:induction false} SetUnique(d: Entries, k: string, v: Doc)
    requires Unique(d)
    ensures Unique(Set(d, k, v))
  {
    if d == [] {
      assert [Entry(k, v)][1..] == [];
    } else if d[0].key == k {
      assert ([Entry(k, v)] + d[1..])[1..] == d[1..];
    } else {
      SetUnique(d[1..], k, v);
      LookupSet(d[1..], k, v, d[0].key);
      assert ([d[0]] + Set(d[1..], k, v))[1..] == Set(d[1..], k, v);
    }
  }

  lemma {:induction false} SetGood(final: Heap, refs: set<string>, d: Entries, k: string, v: Doc)
    requires Good(final, refs, d) && EntrySeparate(final, refs, Entry(k, v))
    ensures Good(final, refs, Set(d, k, v))
  {
    SetMembers(d, k, v);
    SetUnique(d, k, v);
  }

  lemma {:induction false} DropMembers(d: Entries, k: string)
    ensures forall e | e in Drop(d, k) :: e in d && e.key != k
  {
    if d != [] { DropMembers(d[1..], k); }
  }

  lemma {:induction false} DropGood(final: Heap, refs: set<string>, d: Entries, k: string)
    requires Good(final, refs, d)
    ensures Good(final, refs, Drop(d, k))
  {
    DropMembers(d, k);
    DropUnique(d, k);
  }

  lemma {:induction false} OverlayGood(final: Heap, refs: set<string>, d: Entries, more: Entries)
    requires Good(final, refs, d) && forall e | e in more :: EntrySeparate(final, refs, e)
    ensures Good(final, refs, Overlay(d, more))
    decreases |more|
  {
    if more != [] {
      assert more[0] in more && more[0] == Entry(more[0].key, more[0].value);
      SetGood(final, refs, d, more[0].key, more[0].value);
      assert forall e | e in more[1..] :: e in more;
      OverlayGood(final, refs, Set(d, more[0].key, more[0].value), more[1..]);
    }
  }

  lemma {:induction false} OverlayMembers(d: Entries, more: Entries)
    ensures forall e | e in Overlay(d, more) :: e in d || e in more
    decreases |more|
  {
    if more != [] {
      SetMembers(d, more[0].key, more[0].value);
      OverlayMembers(Set(d, more[0].key, more[0].value), more[1..]);
      assert more[0] == Entry(more[0].key, more[0].value) && more[0] in more;
    }
  }

  lemma {:induction false} JoinedProps(final: Heap, refs: set<string>, id: Option<nat>, mine: Doc, theirs: Doc)
    requires mine.Dict? && theirs.Dict?
    requires EntrySeparate(final, refs, Entry("properties", mine))
        && EntrySeparate(final, refs, Entry("properties", theirs))
    ensures EntrySeparate(final, refs, Entry("properties", Dict(id, Overlay(mine.entries, theirs.entries))))
  {
    OverlayMembers(mine.entries, theirs.entries);
    var both := Dict(id, Overlay(mine.entries, theirs.entries));
    forall g | g in both.entries ensures Separate(final, refs, g.value) {
      assert g in mine.entries || g in theirs.entries;
    }
  }

  lemma {:induction false} GoodProps(final: Heap, refs: set<string>, d: Entries)
    requires Good(final, refs, d) && PropsOf(d).Some?
    ensures EntrySeparate(final, refs, Entry("properties", PropsOf(d).value))
  {
    LookupIn(d, "properties");
  }

  /** Nothing but the `properties` of the two parties decides what an `allOf` makes of them. */
  lemma AddProps(final: Heap, a: Entries, b: Entries, f: Entry)
    requires PropsOf(a) == PropsOf(b)
    ensures AddOk(final, a, f) == AddOk(final, b, f)
    ensures var x, y := AddEntry(map[], a, f), AddEntry(map[], b, f);
            (x.Some? <==> y.Some?) && (x.Some? ==> PropsOf(x.value.entries) == PropsOf(y.value.entries))
  {
    var mine := LookupOr(a, "properties", Dict(None, []));
    LookupSet(a, f.key, f.value, "properties");
    LookupSet(b, f.key, f.value, "properties");
    if f.key == "properties" && mine.Dict? && f.value.Dict? {
      var grown := Dict(mine.id, Overlay(mine.entries, f.value.entries));
      LookupSet(a, f.key, grown, "properties");
      LookupSet(b, f.key, grown, "properties");
    }
  }

  lemma {:induction false} AllProps(final: Heap, a: Entries, b: Entries, sub: Entries)
    requires PropsOf(a) == PropsOf(b)
    ensures SubOk(final, a, sub) == SubOk(final, b, sub)
    ensures var x, y := AddAll(a, sub), AddAll(b, sub);
            (x.Some? <==> y.Some?) && (x.Some? ==> PropsOf(x.value) == PropsOf(y.value))
    decreases |sub|
  {
    if sub != [] {
      AddProps(final, a, b, sub[0]);
      var x, y := AddEntry(map[], a, sub[0]), AddEntry(map[], b, sub[0]);
      if x.Some? { AllProps(final, x.value.entries, y.value.entries, sub[1..]); }
    }
  }

  lemma {:induction false} MembersProps(final: Heap, a: Entries, b: Entries, subs: seq<Doc>)
    requires PropsOf(a) == PropsOf(b)
    ensures MembersOk(final, a, subs) == MembersOk(final, b, subs)
    ensures var x, y := AddMembers(a, subs), AddMembers(b, subs);
            (x.Some? <==> y.Some?) && (x.Some? ==> PropsOf(x.value) == PropsOf(y.value))
    decreases |subs|
  {
    if subs != [] && subs[0].Dict? {
      AllProps(final, a, b, subs[0].entries);
      var x, y := AddAll(a, subs[0].entries), AddAll(b, subs[0].entries);
      if x.Some? { MembersProps(final, x.value, y.value, subs[1..]); }
    }
  }

  lemma {:induction false} KeywordsSame(final: Heap, a: Entries, b: Entries)
    requires Keywords(final, a)
    requires Lookup(a, "$ref") == Lookup(b, "$ref") && PropsOf(a) == PropsOf(b)
    requires Lookup(a, "oneOf") == Lookup(b, "oneOf") && Lookup(a, "allOf") == Lookup(b, "allOf")
    ensures Keywords(final, b)
  {
    if HasKey(a, "allOf") && Lookup(a, "allOf").value.List? {
      LookupDrop(a, "allOf", "properties");
      LookupDrop(b, "allOf", "properties");
      MembersProps(final, Drop(a, "allOf"), Drop(b, "allOf"), NonNullSubsNow(map[], Lookup(a, "allOf").value.items));
    }
  }

  // ---------- the three rewritings keep the condition ----------

  lemma {:induction false} RefKeeps(final: Heap, refs: set<string>, target: Doc, d: Entries)
    requires target.Dict? && Separate(final, refs, target) && Good(final, refs, d) && Keywords(final, d)
    requires HasKey(d, "$ref")
    ensures Separate(final, refs, Dict(None, Overlay(target.entries, Drop(d, "$ref"))))
  {
    var rest := Drop(d, "$ref");
    var next := Overlay(target.entries, rest);
    DropMembers(d, "$ref");
    OverlayGood(final, refs, target.entries, rest);
    forall k | k in {"$ref", "properties", "oneOf", "allOf"} ensures Lookup(next, k) == Lookup(target.entries, k) {
      LookupDrop(d, "$ref", k);
      LookupOverlay(target.entries, rest, k);
    }
    KeywordsSame(final, target.entries, next);
  }

  lemma {:induction false} VariantKeeps(final: Heap, refs: set<string>, merged: Entries, chosen: Entries)
    requires Good(final, refs, merged) && forall e | e in chosen :: EntrySeparate(final, refs, e)
    requires PropsOf(merged).Some? ==> Readable(final, PropsOf(merged).value)
    requires forall e | e in chosen && e.key == "properties" :: Free(final, e.value)
    ensures VariantOk(final, merged, chosen)
    ensures var m := MergeVariantNow(map[], merged, chosen);
            m.Some? ==>
              && Good(final, refs, m.value) && (PropsOf(m.value).Some? ==> Readable(final, PropsOf(m.value).value))
              && forall k | HasKey(m.value, k) :: HasKey(merged, k) || HasKey(chosen, k)
    decreases |chosen|
  {
    if chosen != [] {
      var f := chosen[0];
      assert f in chosen && f == Entry(f.key, f.value) && forall e | e in chosen[1..] :: e in chosen;
      if f.key != "properties" || PropsOf(merged).None? {
        SetGood(final, refs, merged, f.key, f.value);
        forall k ensures Lookup(Set(merged, f.key, f.value), k) == if k == f.key then Some(f.value)
            else Lookup(merged, k) {
          LookupSet(merged, f.key, f.value, k);
        }
        VariantKeeps(final, refs, Set(merged, f.key, f.value), chosen[1..]);
      } else {
        var mine := PropsOf(merged).value;
        if mine.Dict? && f.value.Dict? {
          var both := Dict(None, Overlay(mine.entries, f.value.entries));
          GoodProps(final, refs, merged);
          JoinedProps(final, refs, None, mine, f.value);
          SetGood(final, refs, merged, f.key, both);
          forall k ensures Lookup(Set(merged, f.key, both), k) == if k == f.key then Some(both) else Lookup(merged, k) {
            LookupSet(merged, f.key, both, k);
          }
          VariantKeeps(final, refs, Set(merged, f.key, both), chosen[1..]);
        }
      }
    }
  }

  lemma {:induction false} EntryKeeps(final: Heap, refs: set<string>, merged: Entries, f: Entry)
    requires Good(final, refs, merged) && EntrySeparate(final, refs, f)
    ensures var m := AddEntry(map[], merged, f);
            m.Some? ==>
              && Good(final, refs, m.value.entries)
              && forall k | HasKey(m.value.entries, k) :: HasKey(merged, k) || k == f.key
  {
    if f.key != "properties" {
      SetGood(final, refs, merged, f.key, f.value);
      forall k ensures HasKey(Set(merged, f.key, f.value), k) ==> HasKey(merged, k) || k == f.key {
        LookupSet(merged, f.key, f.value, k);
      }
    } else {
      var mine := LookupOr(merged, "properties", Dict(None, []));
      if mine.Dict? && f.value.Dict? {
        var grown := Dict(mine.id, Overlay(mine.entries, f.value.entries));
        if PropsOf(merged).Some? { GoodProps(final, refs, merged); }
        JoinedProps(final, refs, mine.id, mine, f.value);
        SetGood(final, refs, merged, f.key, grown);
        forall k ensures HasKey(Set(merged, f.key, grown), k) ==> HasKey(merged, k) || k == f.key {
          LookupSet(merged, f.key, grown, k);
        }
      }
    }
  }

  lemma {:induction false} SubKeeps(final: Heap, refs: set<string>, merged: Entries, sub: Entries)
    requires Good(final, refs, merged) && forall e | e in sub :: EntrySeparate(final, refs, e)
    ensures var m := AddAll(merged, sub);
            m.Some? ==>
              && Good(final, refs, m.value)
              && forall k | HasKey(m.value, k) :: HasKey(merged, k) || HasKey(sub, k)
    decreases |sub|
  {
    if sub != [] {
      assert sub[0] in sub && forall e | e in sub[1..] :: e in sub;
      EntryKeeps(final, refs, merged, sub[0]);
      var next := AddEntry(map[], merged, sub[0]);
      if next.Some? { SubKeeps(final, refs, next.value.entries, sub[1..]); }
    }
  }

  lemma {:induction false} MembersKeep(final: Heap, refs: set<string>, merged: Entries, subs: seq<Doc>)
    requires Good(final, refs, merged) && forall v | v in subs :: Separate(final, refs, v)
    ensures var m := AddMembers(merged, subs);
            m.Some? ==>
              && Good(final, refs, m.value)
              && forall k | HasKey(m.value, k) ::
                   HasKey(merged, k) || exists v | v in subs :: v.Dict? && HasKey(v.entries, k)
    decreases |subs|
  {
    if subs != [] && subs[0].Dict? {
      assert subs[0] in subs && forall v | v in subs[1..] :: v in subs;
      SubKeeps(final, refs, merged, subs[0].entries);
      var next := AddAll(merged, subs[0].entries);
      if next.Some? { MembersKeep(final, refs, next.value, subs[1..]); }
    }
  }

  // ---------- one call ----------

  /** The schemas a step goes on to. */
  ghost predicate StepSeparate(final: Heap, refs: set<string>, step: Step) {
    match step
    case Rewritten(next, _) => Separate(final, refs, next)
    case Loop(props, _) => props.Dict? ==> forall e | e in props.entries :: Separate(final, refs, e.value)
    case Single(items, _) => Separate(final, refs, items)
    case _ => true
  }

  lemma {:induction false} VariantsIn(vs: seq<Doc>)
    ensures forall v | v in NonNullVariantsNow(map[], vs) :: v in vs
    ensures forall v | v in NonNullSubsNow(map[], vs) :: v in vs
  {
    if vs != [] {
      VariantsIn(vs[1..]);
      assert forall v | v in vs[1..] :: v in vs;
      assert vs[0] in vs;
    }
  }

  /** A chosen variant and its parent without `oneOf` and `allOf`. */
  lemma {:induction false} ChosenKeeps(final: Heap, refs: set<string>, parent: Entries, chosen: Entries)
    requires Good(final, refs, parent)
    requires !HasKey(parent, "$ref") && !HasKey(parent, "oneOf") && !HasKey(parent, "allOf")
    requires PropsOf(parent).Some? ==> Readable(final, PropsOf(parent).value)
    requires Good(final, refs, chosen) && Keywords(final, chosen)
    requires !HasKey(chosen, "oneOf") && !HasKey(chosen, "allOf")
    requires HasKey(chosen, "$ref") ==> !HasKey(parent, "properties")
    requires PropsOf(chosen).Some? ==> Free(final, PropsOf(chosen).value)
    ensures VariantOk(final, parent, chosen)
    ensures var m := MergeVariantNow(map[], parent, chosen);
            m.Some? ==> Separate(final, refs, Dict(None, m.value))
  {
    ChosenProps(final, chosen);
    VariantKeeps(final, refs, parent, chosen);
  }

  lemma {:induction false} OneOfSeparate(final: Heap, refs: set<string>, d: Entries, variants: seq<Doc>)
    requires Good(final, refs, d) && Keywords(final, d) && variants != []
    requires Lookup(d, "oneOf") == Some(List(variants))
    ensures OneOfOk(final, d, variants) && StepSeparate(final, refs, OneOfStep(map[], d, variants))
  {
    LookupIn(d, "oneOf");
    VariantsIn(variants);
    var chosen := ChosenOf(variants);
    assert chosen in variants && Separate(final, refs, chosen);
    DropGood(final, refs, d, "oneOf");
    var parent := Drop(d, "oneOf");
    LookupDrop(d, "oneOf", "oneOf");
    LookupDrop(d, "oneOf", "$ref");
    LookupDrop(d, "oneOf", "allOf");
    LookupDrop(d, "oneOf", "properties");
    if chosen.Dict? { ChosenKeeps(final, refs, parent, chosen.entries); }
  }

  lemma {:induction false} ChosenProps(final: Heap, d: Entries)
    requires Unique(d) && (PropsOf(d).Some? ==> Free(final, PropsOf(d).value))
    ensures forall e | e in d && e.key == "properties" :: Free(final, e.value)
  {
    forall e | e in d && e.key == "properties" ensures Free(final, e.value) {
      UniqueLookup(d, e);
    }
  }

  lemma {:induction false} UniqueLookup(d: Entries, e: Entry)
    requires Unique(d) && e in d
    ensures Lookup(d, e.key) == Some(e.value)
  {
    if d[0] != e {
      assert e in d[1..];
      UniqueLookup(d[1..], e);
    }
  }

  lemma {:induction false} AllOfSeparate(final: Heap, refs: set<string>, d: Entries, subs: seq<Doc>)
    requires Good(final, refs, d) && Keywords(final, d) && Lookup(d, "allOf") == Some(List(subs))
    ensures AllOfOk(final, d, subs) && StepSeparate(final, refs, AllOfStep(map[], d, subs).0)
  {
    LookupIn(d, "allOf");
    VariantsIn(subs);
    var members, parent := NonNullSubsNow(map[], subs), Drop(d, "allOf");
    DropGood(final, refs, d, "allOf");
    forall k ensures Lookup(parent, k) == if k == "allOf" then None else Lookup(d, k) { LookupDrop(d, "allOf", k); }
    MembersKeep(final, refs, parent, members);
    SettledChain(map[], final, PropsOf(parent));
    MembersSame(map[], final, parent, members);
    if AddMembers(parent, members).Some? {
      var merged := AddMembers(parent, members).value;
      forall k | k in {"$ref", "oneOf", "allOf"} ensures !HasKey(merged, k) {}
    }
  }

  lemma PlainSeparate(final: Heap, refs: set<string>, d: Entries)
    requires Good(final, refs, d) && (PropsOf(d).Some? ==> Readable(final, PropsOf(d).value))
    ensures PlainOk(final, d) && StepSeparate(final, refs, PlainStep(map[], d))
  {
    if HasKey(d, "const") { LookupIn(d, "const"); }
    if HasKey(d, "default") { LookupIn(d, "default"); }
    if HasKey(d, "required") { LookupIn(d, "required"); }
    if HasKey(d, "properties") { LookupIn(d, "properties"); }
    if HasKey(d, "items") { LookupIn(d, "items"); }
  }

  lemma KeywordSeparate(final: Heap, refs: set<string>, d: Entries)
    requires Good(final, refs, d) && Keywords(final, d)
    ensures KeywordOk(final, d) && StepSeparate(final, refs, KeywordStep(map[], d).0)
  {
    if HasKey(d, "oneOf") { LookupIn(d, "oneOf"); }
    if HasKey(d, "oneOf") && Truth(map[], Lookup(d, "oneOf").value) {
      var variants := Lookup(d, "oneOf").value;
      if variants.List? { OneOfSeparate(final, refs, d, variants.items); }
    } else if HasKey(d, "allOf") {
      var subs := Lookup(d, "allOf").value;
      if subs.List? { AllOfSeparate(final, refs, d, subs.items); }
    } else {
      PlainSeparate(final, refs, d);
    }
  }

  lemma {:induction false} NodeSeparate(final: Heap, refs: set<string>, c: Doc, root: Doc)
    requires Separate(final, refs, c) && Closed(final, refs, root)
    ensures NodeOk(final, c, root) && StepSeparate(final, refs, StepOf(map[], c, root).0)
  {
    if c.Dict? {
      var d := c.entries;
      match Lookup(d, "$ref")
      case None => KeywordSeparate(final, refs, d);
      case Some(ref) =>
        LookupIn(d, "$ref");
        if IsRef(ref) { assert ref == Scalar(Str(ref.value.s)); }
        if ResolveNow(map[], ref, root).Some? {
          RefKeeps(final, refs, ResolveNow(map[], ref, root).value, d);
        } else {
          RestSeparate(final, refs, d);
        }
    }
  }

  lemma {:induction false} RestSeparate(final: Heap, refs: set<string>, d: Entries)
    requires Good(final, refs, d) && Keywords(final, d) && HasKey(d, "$ref")
    ensures var rest := Drop(d, "$ref");
            KeywordOk(final, rest) && StepSeparate(final, refs, KeywordStep(map[], rest).0)
  {
    DropGood(final, refs, d, "$ref");
    forall k ensures Lookup(Drop(d, "$ref"), k) == if k == "$ref" then None else Lookup(d, k) {
      LookupDrop(d, "$ref", k);
    }
    KeywordSeparate(final, refs, Drop(d, "$ref"));
  }

  lemma {:induction false} SeparateSteady(depth: nat, final: Heap, refs: set<string>, c: Doc, root: Doc)
    requires Separate(final, refs, c) && Closed(final, refs, root)
    ensures Steady(depth, final, c, root)
    decreases depth
  {
    if depth > 0 {
      NodeSeparate(final, refs, c, root);
      match StepOf(map[], c, root).0
      case Rewritten(next, _) => SeparateSteady(depth - 1, final, refs, next, root);
      case Loop(props, _) =>
        if props.Dict? {
          forall e | e in props.entries ensures Steady(depth - 1, final, e.value, root) {
            SeparateSteady(depth - 1, final, refs, e.value, root);
          }
        }
      case Single(items, _) => SeparateSteady(depth - 1, final, refs, items, root);
      case _ =>
    }
  }

  /** Main theorem: on a document of separate schemas with acyclic references the in-place run stops, with
      the outcome of the run by value. */
  lemma SeparateTerminates(final: Heap, refs: set<string>, c: Doc, path: string, root: Doc) returns (limit: nat)
    requires AcyclicRefs(Plain(root)) && Separate(final, refs, c) && Closed(final, refs, root)
    ensures forall depth: nat :: limit <= depth ==>
              && !Slim(depth, map[], c, path, root).Exhausted?
              && Agree(final, Slim(depth, map[], c, path, root),
                       SlimSchema(depth, Plain(c), Config, path, Plain(root)))
  {
    forall depth: nat ensures Steady(depth, final, c, root) { SeparateSteady(depth, final, refs, c, root); }
    limit := InPlaceTerminates(final, c, path, root);
    SettledReady(map[], final, c);
    forall depth: nat | limit <= depth
      ensures !Slim(depth, map[], c, path, root).Exhausted?
      ensures Agree(final, Slim(depth, map[], c, path, root), SlimSchema(depth, Plain(c), Config, path, Plain(root)))
    {
      InPlaceAgrees(depth, final, map[], c, path, root);
    }
  }
}
