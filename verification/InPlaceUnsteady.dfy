/** A document that is not steady, and whose run in config mode stops all the same: the one whose late
    reference warns about a field its definition does not have. */
module InPlaceUnsteady {
  import opened Json
  import opened SchemaTemplate
  import opened Text
  import opened InPlace
  import opened InPlaceSteps
  import opened InPlaceSizes
  import opened InPlaceTermination
  import opened InPlaceExamples
  import opened InPlaceWarningExample

  // ---------- schemas without keywords ----------

  /** Nothing to resolve or merge. */
  predicate NoKeyword(d: Entries) {
    && (Lookup(d, "$ref").Some? ==> !IsRef(Lookup(d, "$ref").value))
    && (Lookup(d, "oneOf").Some? ==> !Lookup(d, "oneOf").value.List?)
    && (Lookup(d, "allOf").Some? ==> !Lookup(d, "allOf").value.List?)
  }

  lemma NoKeywordStep(h: Heap, full: Heap, c: Doc, root: Doc)
    requires c.Dict? ==> NoKeyword(Content(h, c))
    ensures StepHeld(full, h, c, root) && !StepOf(h, c, root).0.Rewritten?
  {
    if c.Dict? {
      var d := Content(h, c);
      LookupDrop(d, "$ref", "oneOf");
      LookupDrop(d, "$ref", "allOf");
    }
  }

  lemma NoKeywordHeld(full: Heap, c: Doc, root: Doc)
    requires forall h: Heap | Covered(h, full) :: c.Dict? ==> NoKeyword(Content(h, c))
    ensures AlwaysHeld(full, c, root)
  {
    forall n: nat ensures ChainHeld(n, full, c, root) {
      forall h: Heap | Covered(h, full)
        ensures StepHeld(full, h, c, root) && !StepOf(h, c, root).0.Rewritten?
      {
        NoKeywordStep(h, full, c, root);
      }
    }
  }

  /** One rewriting, the same whatever has been changed. */
  lemma OneStepHeld(full: Heap, c: Doc, next: Doc, root: Doc)
    requires AlwaysHeld(full, next, root)
    requires forall h: Heap | Covered(h, full) ::
               StepHeld(full, h, c, root) && StepOf(h, c, root).0 == Rewritten(next, 0)
    ensures AlwaysHeld(full, c, root)
  {
    forall n: nat ensures ChainHeld(n, full, c, root) {
      if n > 0 { assert ChainHeld(n - 1, full, next, root); }
    }
  }

  // ---------- the schemas of the document ----------

  function FullOf(y: string): Heap {
    Extended(y, EMPTY)
  }

  lemma CoveredKeys(h: Heap, y: string)
    requires Covered(h, FullOf(y))
    ensures h.Keys <= {SHARED}
  {
  }

  lemma LinkHeld(a: string, y: string, fields: Entries)
    requires '/' !in a
    ensures AlwaysHeld(FullOf(y), Link(a), Root(a, Needy(y), fields))
  {
    var root, next := Root(a, Needy(y), fields), Dict(None, Needy(y).entries);
    NeedyPlainly(y);
    NoKeywordHeld(FullOf(y), next, root);
    LookupOne("$ref", RefTo(a), "$ref");
    forall h: Heap | Covered(h, FullOf(y))
      ensures StepHeld(FullOf(y), h, Link(a), root) && StepOf(h, Link(a), root).0 == Rewritten(next, 0)
    {
      CoveredKeys(h, y);
      LinkStep(h, a, Needy(y), fields);
      ResolveDefinition(h, a, Needy(y), fields);
    }
    OneStepHeld(FullOf(y), Link(a), next, root);
  }

  lemma BetweenHeld(a: string, y: string, fields: Entries)
    ensures AlwaysHeld(FullOf(y), Dict(None, Between(y)), Root(a, Needy(y), fields))
  {
    var root, next := Root(a, Needy(y), fields), Dict(None, Joined(y));
    JoinedPlainly(y);
    NoKeywordHeld(FullOf(y), next, root);
    forall h: Heap | Covered(h, FullOf(y))
      ensures StepHeld(FullOf(y), h, Dict(None, Between(y)), root)
      ensures StepOf(h, Dict(None, Between(y)), root).0 == Rewritten(next, 0)
    {
      CoveredKeys(h, y);
      MemberHeld(h, y, Drop(Between(y), "allOf"));
    }
    OneStepHeld(FullOf(y), Dict(None, Between(y)), next, root);
  }

  lemma {:induction false} MemberHeld(h: Heap, y: string, before: Entries)
    requires PropsOnly(before) && h.Keys <= {SHARED}
    ensures var subs := NonNullSubsNow(h, [Member(y, EMPTY)]);
            && MembersHeld(FullOf(y), h, before, subs)
            && MergeSubsNow(h, before, subs).Some?
            && MergeSubsNow(h, before, subs).value.entries
               == Set(before, "properties", Dict(Some(SHARED), One(y, EMPTY)))
  {
    var m, v := Member(y, EMPTY), Dict(Some(8), One(y, EMPTY));
    var es := One("properties", v);
    LookupOne("properties", v, "type");
    assert [m][1..] == [] && NonNullSubsNow(h, [m][1..]) == [];
    assert NonNullSubsNow(h, [m]) == [m] + [] == [m];
    OverlayOne([], y, EMPTY);
    assert es[1..] == [];
    assert EntryHeld(FullOf(y), h, before, es[0]);
    var next := AddEntry(h, before, es[0]).value;
    assert next.entries == Set(before, "properties", Dict(Some(SHARED), One(y, EMPTY)));
    assert SubHeld(FullOf(y), next.heap, next.entries, es[1..]);
    assert MergeSubNow(next.heap, next.entries, es[1..]) == Some(next);
    assert MergeSubNow(h, before, es) == Some(next);
    assert MergeSubsNow(next.heap, next.entries, [m][1..]) == Some(next);
    assert MembersHeld(FullOf(y), next.heap, next.entries, [m][1..]);
  }

  lemma ExtendingHeld(a: string, y: string, fields: Entries)
    requires '/' !in a
    ensures AlwaysHeld(FullOf(y), Extending(a, y, EMPTY), Root(a, Needy(y), fields))
  {
    var root, next := Root(a, Needy(y), fields), Dict(None, Between(y));
    BetweenHeld(a, y, fields);
    LookupTwo("$ref", RefTo(a), "allOf", List([Member(y, EMPTY)]), "$ref");
    OverlayOne(Needy(y).entries, "allOf", List([Member(y, EMPTY)]));
    forall h: Heap | Covered(h, FullOf(y))
      ensures StepHeld(FullOf(y), h, Extending(a, y, EMPTY), root)
      ensures StepOf(h, Extending(a, y, EMPTY), root).0 == Rewritten(next, 0)
    {
      CoveredKeys(h, y);
      ExtendingStep(h, a, y, EMPTY, Needy(y), fields);
      ResolveDefinition(h, a, Needy(y), fields);
    }
    OneStepHeld(FullOf(y), Extending(a, y, EMPTY), next, root);
  }

  // ---------- the whole document ----------

  predicate Kind(c: Doc, a: string, y: string) {
    c.Dict? ==>
      || c == Link(a) || c == Extending(a, y, EMPTY)
      || (NoKeyword(c.entries) && (c.id == Some(SHARED) ==> c.entries == []))
  }

  predicate Kinds(c: Doc, a: string, y: string) {
    Kind(c, a, y) &&
    match c
    case Scalar(_) => true
    case List(items) => forall x | x in items :: Kinds(x, a, y)
    case Dict(_, entries) => forall e | e in entries :: Kinds(e.value, a, y)
  }

  lemma {:induction false} KindInside(c: Doc, whole: Doc, a: string, y: string)
    requires Inside(c, whole) && Kinds(whole, a, y)
    ensures Kinds(c, a, y)
    decreases whole
  {
    if c != whole {
      match whole
      case List(items) =>
        var x :| x in items && Inside(c, x);
        KindInside(c, x, a, y);
      case Dict(_, entries) =>
        var e :| e in entries && Inside(c, e.value);
        KindInside(c, e.value, a, y);
    }
  }

  lemma OneNoKeyword(k: string, v: Doc)
    requires v.Dict?
    ensures NoKeyword(One(k, v))
  {
    LookupOne(k, v, "$ref");
    LookupOne(k, v, "oneOf");
    LookupOne(k, v, "allOf");
  }

  lemma TwoNoKeyword(k: string, v: Doc, l: string, w: Doc)
    requires v.Dict? && (w.Dict? || l == "required")
    ensures NoKeyword(Two(k, v, l, w))
  {
    LookupTwo(k, v, l, w, "$ref");
    LookupTwo(k, v, l, w, "oneOf");
    LookupTwo(k, v, l, w, "allOf");
  }

  lemma {:induction false} KindsOne(id: nat, k: string, v: Doc, a: string, y: string)
    requires v.Dict? && Kinds(v, a, y) && id != SHARED
    ensures Kinds(Dict(Some(id), One(k, v)), a, y)
  {
    OneNoKeyword(k, v);
  }

  lemma {:induction false} KindsTwo(id: nat, k: string, v: Doc, l: string, w: Doc, a: string, y: string)
    requires v.Dict? && (w.Dict? || l == "required") && Kinds(v, a, y) && Kinds(w, a, y) && id != SHARED
    ensures Kinds(Dict(Some(id), Two(k, v, l, w)), a, y)
  {
    TwoNoKeyword(k, v, l, w);
  }

  lemma {:induction false} ReferringKinds(a: string, y: string)
    ensures Kinds(Link(a), a, y) && Kinds(Extending(a, y, EMPTY), a, y)
  {
    var v := Dict(Some(8), One(y, EMPTY));
    assert Kinds(EMPTY, a, y);
    KindsOne(8, y, EMPTY, a, y);
    KindsOne(7, "properties", v, a, y);
    assert Kinds(List([Member(y, EMPTY)]), a, y);
  }

  lemma {:induction false} NeedyKinds(a: string, y: string)
    ensures Kinds(Needy(y), a, y)
  {
    assert Kinds(OneName(y), a, y) && Kinds(Dict(Some(SHARED), []), a, y);
    KindsTwo(3, "properties", Dict(Some(SHARED), []), "required", OneName(y), a, y);
  }

  lemma {:induction false} LateKinds(a: string, x: string, y: string, z: string)
    ensures Kinds(Late(a, x, y, z), a, y)
  {
    ReferringKinds(a, y);
    NeedyKinds(a, y);
    KindsTwo(2, x, Extending(a, y, EMPTY), z, Link(a), a, y);
    KindsOne(1, a, Needy(y), a, y);
    KindsTwo(0, "definitions", Dict(Some(1), One(a, Needy(y))), "properties", Dict(Some(2), Fields(a, x, y, z)), a, y);
  }

  lemma KindHeld(c: Doc, a: string, x: string, y: string, z: string)
    requires '/' !in a && Kind(c, a, y)
    ensures AlwaysHeld(FullOf(y), c, Late(a, x, y, z))
  {
    var fields := Fields(a, x, y, z);
    if c == Link(a) {
      LinkHeld(a, y, fields);
    } else if c == Extending(a, y, EMPTY) {
      ExtendingHeld(a, y, fields);
    } else {
      forall h: Heap | Covered(h, FullOf(y)) ensures c.Dict? ==> NoKeyword(Content(h, c)) {
        if c.Dict? && c.id == Some(SHARED) && SHARED in h { ExtendedNoKeyword(h[SHARED], y); }
      }
      NoKeywordHeld(FullOf(y), c, Late(a, x, y, z));
    }
  }

  lemma ExtendedNoKeyword(d: Entries, y: string)
    requires forall e | e in d :: e == Entry(y, EMPTY)
    ensures NoKeyword(d)
  {
    forall k: string | Lookup(d, k).Some? ensures Lookup(d, k).value == EMPTY { LookupIn(d, k); }
  }

  lemma EmptyInside(a: string, x: string, y: string, z: string)
    ensures Inside(EMPTY, Late(a, x, y, z))
  {
    var v := Dict(Some(8), One(y, EMPTY));
    assert v.entries[0] in v.entries && Inside(EMPTY, v);
    var m := Member(y, EMPTY);
    assert m.entries[0] in m.entries && Inside(EMPTY, m);
    var l := List([m]);
    assert m in l.items && Inside(EMPTY, l);
    var ext := Extending(a, y, EMPTY);
    assert ext.entries[1] in ext.entries && Inside(EMPTY, ext);
    var props := Dict(Some(2), Fields(a, x, y, z));
    assert props.entries[0] in props.entries && Inside(EMPTY, props);
    var root := Late(a, x, y, z);
    assert root.entries[1] in root.entries;
  }

  lemma LateHeld(a: string, x: string, y: string, z: string)
    requires '/' !in a
    ensures Held(FullOf(y), Late(a, x, y, z))
  {
    var root := Late(a, x, y, z);
    LateKinds(a, x, y, z);
    EmptyInside(a, x, y, z);
    forall c: Doc | Inside(c, root) ensures Kind(c, a, y) && AlwaysHeld(FullOf(y), c, root) {
      KindInside(c, root, a, y);
      KindHeld(c, a, x, y, z);
    }
  }

  // ---------- its order ----------

  /** No reference inside. */
  predicate Bare(d: Doc) {
    match d
    case Scalar(_) => true
    case List(items) => forall x | x in items :: Bare(x)
    case Dict(_, entries) => BareEntries(entries)
  }

  predicate BareEntries(d: Entries)
    decreases d, 0
  {
    forall e | e in d :: (e.key == "$ref" ==> !IsRef(e.value)) && Bare(e.value)
  }

  /** Extended dicts rank 0, references 1. */
  function RankOf(n: Name): nat {
    match n case Shared(_) => 0 case Ref(_) => 1
  }

  lemma {:induction false} BareBelow(d: Doc, full: Heap, root: Doc)
    requires Bare(d)
    ensures Below(1, d, full, root, RankOf)
  {
    match d
    case List(items) => forall x | x in items ensures Below(1, x, full, root, RankOf) { BareBelow(x, full, root); }
    case Dict(id, entries) =>
      if !(id.Some? && id.value in full) {
        forall e | e in entries
          ensures RefBelow(1, e, full, root, RankOf) && Below(1, e.value, full, root, RankOf)
        {
          BareBelow(e.value, full, root);
        }
      }
    case _ =>
  }

  lemma {:induction false} BareTargets(y: string, node: Doc, parts: seq<string>)
    requires Bare(node)
    ensures forall t | t in Targets(FullOf(y), node, parts) :: Bare(t)
    decreases |parts|, 1
  {
    if parts != [] && node.Dict? {
      BareContent(y, node);
      BareTargetsIn(y, FullContent(FullOf(y), node), parts);
    }
  }

  lemma {:induction false} BareTargetsIn(y: string, d: Entries, parts: seq<string>)
    requires parts != [] && BareEntries(d)
    ensures forall t | t in TargetsIn(FullOf(y), d, parts) :: Bare(t)
    decreases |parts|, 0, |d|
  {
    if d != [] {
      assert d[0] in d && forall e | e in d[1..] :: e in d;
      BareTargets(y, d[0].value, parts[1..]);
      BareTargetsIn(y, d[1..], parts);
    }
  }

  lemma {:induction false} BareContent(y: string, d: Doc)
    requires d.Dict? && Bare(d)
    ensures BareEntries(FullContent(FullOf(y), d))
  {
  }

  lemma {:induction false} DefinitionsTargets(full: Heap, defs: Doc, props: Doc, names: seq<string>)
    requires 0 !in full
    ensures Targets(full, Dict(Some(0), Two("definitions", defs, "properties", props)), ["definitions"] + names)
            == Targets(full, defs, names)
  {
    var d := Two("definitions", defs, "properties", props);
    var parts := ["definitions"] + names;
    assert parts[1..] == names && d[1..] == One("properties", props) && One("properties", props)[1..] == [];
    assert TargetsIn(full, One("properties", props), parts) == [] + [];
    assert TargetsIn(full, d, parts) == Targets(full, defs, names) + [];
  }

  lemma RefSplit(s: string)
    requires IsRef(Scalar(Str(s)))
    ensures RefParts(Scalar(Str(s))) == ["definitions"] + SplitSlash(s[|REF_PREFIX|..])
  {
    var rest := s[|REF_PREFIX|..];
    assert s == REF_PREFIX + rest && s[2..] == "definitions" + "/" + rest;
    SplitSegment("definitions", rest);
  }

  lemma NeedyBare(a: string, y: string)
    ensures Bare(Dict(Some(1), One(a, Needy(y))))
  {
    assert Bare(Dict(Some(SHARED), [])) && Bare(OneName(y));
    assert Bare(Needy(y));
  }

  lemma LateTargets(a: string, x: string, y: string, z: string, s: string)
    ensures forall t | t in TargetsOf(FullOf(y), s, Late(a, x, y, z)) :: Bare(t)
  {
    if IsRef(Scalar(Str(s))) {
      var names := SplitSlash(s[|REF_PREFIX|..]);
      RefSplit(s);
      NeedyBare(a, y);
      BareTargets(y, Dict(Some(1), One(a, Needy(y))), names);
      DefinitionsTargets(FullOf(y), Dict(Some(1), One(a, Needy(y))), Dict(Some(2), Fields(a, x, y, z)), names);
    }
  }

  lemma LateAcyclic(a: string, x: string, y: string, z: string)
    ensures AcyclicExtended(FullOf(y), Late(a, x, y, z))
  {
    var root, full := Late(a, x, y, z), FullOf(y);
    forall s: string, t: Doc | t in TargetsOf(full, s, root) && t.Dict?
      ensures AllBelow(RankOf(Ref(s)), FullContent(full, t), full, root, RankOf)
    {
      LateTargets(a, x, y, z, s);
      BareContent(y, t);
      forall e | e in FullContent(full, t)
        ensures RefBelow(1, e, full, root, RankOf) && Below(1, e.value, full, root, RankOf)
      {
        BareBelow(e.value, full, root);
      }
    }
    assert Ordered(full, root, RankOf);
  }

  /** Main theorem: the run stops, at the outcome with the late warning, although the document is not steady. */
  lemma LateStops(a: string, x: string, y: string, z: string) returns (limit: nat)
    requires '/' !in a
    ensures forall depth: nat :: limit <= depth ==>
              !Slim(depth, map[], Late(a, x, y, z), "", Late(a, x, y, z)).Exhausted?
  {
    LateHeld(a, x, y, z);
    LateAcyclic(a, x, y, z);
    assert Inside(Late(a, x, y, z), Late(a, x, y, z));
    limit := InPlaceStops(FullOf(y), Late(a, x, y, z), Late(a, x, y, z), "");
  }

  /** The diverging documents have no such order: extended, their references lead back to themselves. */
  lemma CyclicNotOrdered(full: Heap, a: string, x: string, y: string)
    requires '/' !in a && Held(full, Cyclic(a, x, y))
    ensures !AcyclicExtended(full, Cyclic(a, x, y))
  {
    var root := Cyclic(a, x, y);
    if AcyclicExtended(full, root) {
      assert Inside(root, root);
      var limit := InPlaceStops(full, root, root, "");
      CyclicDiverges(limit, a, x, y);
    }
  }

  lemma UnlockingNotOrdered(full: Heap, a: string, x: string, y: string, q: string)
    requires '/' !in a && '/' !in y && Held(full, Unlocking(a, x, y, q))
    ensures !AcyclicExtended(full, Unlocking(a, x, y, q))
  {
    var root := Unlocking(a, x, y, q);
    if AcyclicExtended(full, root) {
      assert Inside(root, root);
      var limit := InPlaceStops(full, root, root, "");
      UnlockingDiverges(limit, a, x, y, q);
    }
  }
}
