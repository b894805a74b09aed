/** Which schema is rendered for `oneOf` and `allOf`, read off the document by position and by key:
    `_slim_oneof` and `_slim_allof` of azext_edge/edge/providers/adr/helpers.py, by value. */
module SchemaUnions {
  import opened Json
  import opened JsonLaws
  import opened SchemaTemplate

  // ---------- what the documents say ----------

  /** A schema of type "null". */
  predicate OfTypeNull(v: Json) {
    v.Obj? && Find(v.fields, "type") == Some(Str("null"))
  }

  /** Variant `i` is the one rendered: the first that is not of type "null", or the first of all when every
      one is. */
  predicate Rendered(variants: seq<Json>, i: nat) {
    && i < |variants|
    && if forall v | v in variants :: OfTypeNull(v) then i == 0
       else !OfTypeNull(variants[i]) && forall j | 0 <= j < i :: OfTypeNull(variants[j])
  }

  lemma {:induction false} RenderedExists(variants: seq<Json>) returns (i: nat)
    requires variants != []
    ensures Rendered(variants, i)
  {
    if forall v | v in variants :: OfTypeNull(v) { return 0; }
    i := 0;
    if OfTypeNull(variants[0]) {
      var v :| v in variants && !OfTypeNull(v);
      assert v in variants[1..];
      var j := RenderedExists(variants[1..]);
      i := j + 1;
      assert forall k | 0 <= k < j :: variants[1..][k] == variants[k + 1];
    }
  }

  /** The positions of the variants that could have been rendered. */
  function Candidates(variants: seq<Json>): set<nat> {
    set i: nat | i < |variants| && !OfTypeNull(variants[i])
  }

  /** `over` laid over `under`, key by key, in the order of the keys. */
  ghost predicate Laid(d: Dict, under: Dict, over: Dict) {
    && Distinct(d) && Keys(d) == Extend(Keys(under), Keys(over))
    && forall k :: Find(d, k) == if Has(over, k) then Find(over, k) else Find(under, k)
  }

  /** The variant over its parent: its value wins, but two `properties` dicts are united. */
  ghost predicate VariantOver(d: Dict, parent: Dict, variant: Dict) {
    && Distinct(d) && Keys(d) == Extend(Keys(parent), Keys(variant))
    && (forall k | k != "properties" :: Find(d, k) == if Has(variant, k) then Find(variant, k) else Find(parent, k))
    && match (Find(parent, "properties"), Find(variant, "properties"))
       case (Some(mine), Some(more)) =>
         && mine.Obj? && more.Obj?
         && exists both: Dict :: Find(d, "properties") == Some(Obj(both)) && Laid(both, mine.fields, more.fields)
       case (None, more) => Find(d, "properties") == more
       case (mine, None) => Find(d, "properties") == mine
  }

  /** Both have `properties`, and not both as dicts: Python's TypeError. */
  predicate Clash(parent: Dict, variant: Dict) {
    match (Find(parent, "properties"), Find(variant, "properties"))
    case (Some(mine), Some(more)) => !mine.Obj? || !more.Obj?
    case _ => false
  }

  /** A dict as Python has it, and so its `properties`. */
  predicate Sound(d: Dict) {
    Distinct(d) && match Find(d, "properties") case Some(Obj(props)) => Distinct(props) case _ => true
  }

  // ---------- oneOf ----------

  /** The variant with the united `properties` in place of its own. */
  function WithUnited(merged: Dict, chosen: Dict): Dict {
    match (Find(merged, "properties"), Find(chosen, "properties"))
    case (Some(Obj(mine)), Some(Obj(more))) => Put(chosen, "properties", Obj(Update(mine, more)))
    case _ => chosen
  }

  lemma {:induction false} VariantUpdates(merged: Dict, chosen: Dict)
    requires Distinct(chosen)
    ensures MergeVariant(merged, chosen)
            == if Clash(merged, chosen) then None else Some(Update(merged, WithUnited(merged, chosen)))
    decreases |chosen|
  {
    if chosen != [] {
      var f, rest := chosen[0], chosen[1..];
      if f.key == "properties" && Find(merged, "properties").Some? {
        var mine := Find(merged, "properties").value;
        if mine.Obj? && f.value.Obj? {
          var both := Obj(Update(mine.fields, f.value.fields));
          VariantUpdates(Put(merged, f.key, both), rest);
          UnitedHere(merged, chosen, both);
        }
      } else {
        VariantUpdates(Put(merged, f.key, f.value), rest);
        UnitedLater(merged, chosen);
      }
    }
  }

  /** The properties come first in the variant. */
  lemma {:induction false} UnitedHere(merged: Dict, chosen: Dict, both: Json)
    requires Distinct(chosen) && chosen != [] && chosen[0].key == "properties" && chosen[0].value.Obj?
    requires Find(merged, "properties").Some? && Find(merged, "properties").value.Obj? && both.Obj?
    requires both == Obj(Update(Find(merged, "properties").value.fields, chosen[0].value.fields))
    ensures var next := Put(merged, "properties", both);
            && WithUnited(next, chosen[1..]) == chosen[1..] && !Clash(next, chosen[1..]) && !Clash(merged, chosen)
            && Update(merged, WithUnited(merged, chosen)) == Update(next, chosen[1..])
  {
    assert Find(chosen[1..], "properties") == None;
    assert WithUnited(merged, chosen) == [Field("properties", both)] + chosen[1..];
    assert ([Field("properties", both)] + chosen[1..])[1..] == chosen[1..];
  }

  /** Another key comes first, or the parent has no properties. */
  lemma {:induction false} UnitedLater(merged: Dict, chosen: Dict)
    requires Distinct(chosen) && chosen != []
    requires chosen[0].key != "properties" || Find(merged, "properties") == None
    ensures var f := chosen[0];
            var next := Put(merged, f.key, f.value);
            && (Clash(merged, chosen) <==> Clash(next, chosen[1..]))
            && Update(merged, WithUnited(merged, chosen)) == Update(next, WithUnited(next, chosen[1..]))
  {
    var f, rest := chosen[0], chosen[1..];
    PutIs(merged, f.key, f.value);
    if f.key == "properties" {
      assert Find(rest, "properties") == None;
    } else {
      UnitedCons(merged, f, rest);
      assert chosen == [f] + rest;
      assert ([f] + WithUnited(merged, rest))[1..] == WithUnited(merged, rest);
    }
  }

  lemma {:induction false} UnitedCons(merged: Dict, f: Field, rest: Dict)
    requires f.key != "properties"
    ensures WithUnited(merged, [f] + rest) == [f] + WithUnited(merged, rest)
    ensures Find([f] + rest, "properties") == Find(rest, "properties")
  {
    assert ([f] + rest)[1..] == rest;
  }

  lemma {:induction false} UnitedIs(merged: Dict, chosen: Dict)
    requires Sound(merged) && Sound(chosen) && !Clash(merged, chosen)
    ensures VariantOver(Update(merged, WithUnited(merged, chosen)), merged, chosen)
  {
    var over := WithUnited(merged, chosen);
    match (Find(merged, "properties"), Find(chosen, "properties"))
    case (Some(Obj(mine)), Some(Obj(more))) =>
      UpdateIs(mine, more);
      PutIs(chosen, "properties", Obj(Update(mine, more)));
      KeyIff(chosen, "properties");
      ExtendOne(Keys(chosen), "properties");
      UpdateIs(merged, over);
      assert Laid(Update(mine, more), mine, more);
    case _ => UpdateIs(merged, over);
  }

  lemma {:induction false} VariantMerged(merged: Dict, chosen: Dict)
    requires Sound(merged) && Sound(chosen)
    ensures MergeVariant(merged, chosen) == None <==> Clash(merged, chosen)
    ensures MergeVariant(merged, chosen).Some? ==> VariantOver(MergeVariant(merged, chosen).value, merged, chosen)
  {
    VariantUpdates(merged, chosen);
    if !Clash(merged, chosen) { UnitedIs(merged, chosen); }
  }

  lemma {:induction false} FirstKept(variants: seq<Json>, i: nat)
    requires Rendered(variants, i)
    ensures var kept := NonNullVariants(variants);
            (if kept != [] then kept[0] else variants[0]) == variants[i]
    ensures (NonNullVariants(variants) == []) <==> forall v | v in variants :: OfTypeNull(v)
  {
    if OfTypeNull(variants[0]) {
      assert forall v | v in variants :: v == variants[0] || v in variants[1..];
      assert forall v | v in variants[1..] :: v in variants;
      NoneKept(variants[1..]);
      if i > 0 {
        assert variants[1..][i - 1] == variants[i];
        assert forall j | 0 <= j < i - 1 :: variants[1..][j] == variants[j + 1];
        FirstKept(variants[1..], i - 1);
      }
    } else {
      assert variants[0] in variants;
    }
  }

  lemma {:induction false} NoneKept(variants: seq<Json>)
    ensures NonNullVariants(variants) == [] <==> forall v | v in variants :: OfTypeNull(v)
  {
    if variants != [] {
      NoneKept(variants[1..]);
      assert forall v | v in variants :: v == variants[0] || v in variants[1..];
      assert variants[0] in variants && forall v | v in variants[1..] :: v in variants;
    }
  }

  lemma {:induction false} KeptCount(variants: seq<Json>)
    ensures |NonNullVariants(variants)| == |Candidates(variants)|
  {
    if variants != [] {
      var rest := variants[1..];
      KeptCount(rest);
      Shifted(Candidates(rest));
      var moved := Moved(Candidates(rest));
      assert forall i: nat | i < |rest| :: rest[i] == variants[i + 1];
      forall i: nat ensures i in Candidates(variants) <==> i in moved || (i == 0 && !OfTypeNull(variants[0])) {
        if i > 0 && i in Candidates(variants) { assert i - 1 in Candidates(rest); }
      }
      if OfTypeNull(variants[0]) {
        assert Candidates(variants) == moved;
      } else {
        assert Candidates(variants) == moved + {0};
      }
    }
  }

  function Moved(s: set<nat>): set<nat> {
    set i | i in s :: i + 1
  }

  lemma {:induction false} Shifted(s: set<nat>)
    ensures |Moved(s)| == |s|
    decreases |s|
  {
    if s != {} {
      var x :| x in s;
      Shifted(s - {x});
      MovedSplits(s, x);
    }
  }

  lemma MovedSplits(s: set<nat>, x: nat)
    requires x in s
    ensures Moved(s) == Moved(s - {x}) + {x + 1} && x + 1 !in Moved(s - {x})
  {
    forall y ensures y in Moved(s) <==> y in Moved(s - {x}) || y == x + 1 {
      if y in Moved(s) && y != x + 1 {
        var i :| i in s && y == i + 1;
        assert i in s - {x};
      }
      assert x + 1 in Moved(s);
    }
  }

  /** An outcome with a message noted before its own. */
  function Noting(note: seq<Warning>, o: Outcome<Json>): Outcome<Json> {
    match o case Done(v, ws) => Done(v, note + ws) case other => other
  }

  /** Main theorem: in config mode, and in schema mode with one variant, an object with a `oneOf` is rendered
      as the parent overlaid with the first variant that is not of type "null", and a message is noted when
      there is more than one such variant. It is an error if that variant is no dict, or if it and the parent
      have `properties` that are not both dicts. */
  lemma OneOfRenders(
    depth: nat, d: Dict, variants: seq<Json>, i: nat, mode: Mode, path: string, root: Json) returns (merged: Dict)
    requires Sound(d) && Find(d, "$ref") == None && Find(d, "oneOf") == Some(Arr(variants))
    requires Rendered(variants, i) && (variants[i].Obj? ==> Sound(variants[i].fields))
    requires mode == Config || |variants| == 1
    ensures var parent := Without(d, "oneOf");
            var n := |Candidates(variants)|;
            if !variants[i].Obj? || Clash(parent, variants[i].fields) then
              SlimSchema(depth + 1, Obj(d), mode, path, root) == Malformed
            else
              && VariantOver(merged, parent, variants[i].fields)
              && SlimSchema(depth + 1, Obj(d), mode, path, root)
                 == Noting(if n > 1 then [Collapsed(path, n)] else [], SlimSchema(depth, Obj(merged), mode, path, root))
  {
    var parent, n := Without(d, "oneOf"), |Candidates(variants)|;
    merged := [];
    WithoutSound(d, "oneOf");
    OneOfTaken(d, variants, mode, root);
    OneOfShapeIs(d, variants, i, mode);
    if variants[i].Obj? {
      VariantMerged(parent, variants[i].fields);
      merged := (match MergeVariant(parent, variants[i].fields) case Some(m) => m case None => []);
    }
    ShapeRenders(depth, d, Obj(merged), if n > 1 then n else 0, mode, path, root);
  }

  lemma {:induction false} WithoutSound(d: Dict, k: string)
    requires Sound(d) && k != "properties"
    ensures Sound(Without(d, k)) && Find(Without(d, k), "properties") == Find(d, "properties")
  {
    WithoutIs(d, k);
  }

  lemma {:induction false} ShapeRenders(
    depth: nat, d: Dict, next: Json, n: nat, mode: Mode, path: string, root: Json)
    ensures ShapeOf(Obj(d), mode, root) == Broken ==> SlimSchema(depth + 1, Obj(d), mode, path, root) == Malformed
    ensures ShapeOf(Obj(d), mode, root) == Again(next, n) ==>
              SlimSchema(depth + 1, Obj(d), mode, path, root)
              == Noting(if n > 0 then [Collapsed(path, n)] else [], SlimSchema(depth, next, mode, path, root))
  {
  }

  lemma {:induction false} OneOfTaken(d: Dict, variants: seq<Json>, mode: Mode, root: Json)
    requires Find(d, "$ref") == None && Find(d, "oneOf") == Some(Arr(variants)) && variants != []
    ensures ShapeOf(Obj(d), mode, root) == OneOfShape(d, variants, mode)
  {
  }

  lemma {:induction false} OneOfShapeIs(d: Dict, variants: seq<Json>, i: nat, mode: Mode)
    requires Rendered(variants, i) && (mode == Config || |variants| == 1)
    ensures var n := |Candidates(variants)|;
            var m := if variants[i].Obj? then MergeVariant(Without(d, "oneOf"), variants[i].fields) else None;
            OneOfShape(d, variants, mode)
            == match m case Some(merged) => Again(Obj(merged), if n > 1 then n else 0) case None => Broken
  {
    FirstKept(variants, i);
    KeptCount(variants);
  }

  // ---------- allOf ----------

  /** A member that takes part: a dict not of type "null". */
  predicate Live(v: Json) {
    v.Obj? && !OfTypeNull(v)
  }

  predicate Holds(v: Json, k: string) {
    Live(v) && Has(v.fields, k)
  }

  function PropsIn(v: Json): Option<Json> {
    if Live(v) then Find(v.fields, "properties") else None
  }

  predicate HoldsProp(v: Json, k: string) {
    match PropsIn(v) case Some(Obj(props)) => Has(props, k) case _ => false
  }

  /** The keys of the members in the order met, and those of their `properties`. */
  function MemberKeys(subs: seq<Json>): seq<string> {
    if subs == [] then []
    else (if Live(subs[0]) then Keys(subs[0].fields) else []) + MemberKeys(subs[1..])
  }

  function MemberPropKeys(subs: seq<Json>): seq<string> {
    if subs == [] then []
    else (match PropsIn(subs[0]) case Some(Obj(props)) => Keys(props) case _ => []) + MemberPropKeys(subs[1..])
  }

  /** `properties` that are no dict, where a member adds to them or brings them. */
  predicate Unmergeable(parent: Dict, subs: seq<Json>) {
    exists v | v in subs :: Blocks(parent, v)
  }

  predicate Blocks(parent: Dict, v: Json) {
    && PropsIn(v).Some?
    && (!PropsIn(v).value.Obj? || (Has(parent, "properties") && !Find(parent, "properties").value.Obj?))
  }

  function ParentProps(parent: Dict): Dict {
    match Find(parent, "properties") case Some(Obj(props)) => props case _ => []
  }

  /** The members merged into the parent: any key but `properties` has the parent's value, else that of the
      first member holding it; an entry of `properties` that of the last member holding it, else the parent's. */
  ghost predicate MembersInto(d: Dict, parent: Dict, subs: seq<Json>) {
    && Distinct(d) && Keys(d) == Extend(Keys(parent), MemberKeys(subs))
    && (forall k | k != "properties" && Has(parent, k) :: Find(d, k) == Find(parent, k))
    && (forall k, i | k != "properties" && !Has(parent, k) && 0 <= i < |subs| && Holds(subs[i], k)
                      && (forall j | 0 <= j < i :: !Holds(subs[j], k)) :: Find(d, k) == Find(subs[i].fields, k))
    && (forall k | k != "properties" && !Has(parent, k) && (forall v | v in subs :: !Holds(v, k)) :: Find(d, k) == None)
    && if forall v | v in subs :: PropsIn(v) == None then Find(d, "properties") == Find(parent, "properties")
       else exists both: Dict :: Find(d, "properties") == Some(Obj(both)) && PropsInto(both, ParentProps(parent), subs)
  }

  ghost predicate PropsInto(both: Dict, mine: Dict, subs: seq<Json>) {
    && Distinct(both) && Keys(both) == Extend(Keys(mine), MemberPropKeys(subs))
    && (forall k, i | 0 <= i < |subs| && HoldsProp(subs[i], k)
                      && (forall j | i < j < |subs| :: !HoldsProp(subs[j], k)) ::
          Find(both, k) == Find(PropsIn(subs[i]).value.fields, k))
    && (forall k | forall v | v in subs :: !HoldsProp(v, k) :: Find(both, k) == Find(mine, k))
  }

  // The same by recursion on the members.

  function FirstFound(subs: seq<Json>, k: string): Option<Json> {
    if subs == [] then None else if Holds(subs[0], k) then Find(subs[0].fields, k) else FirstFound(subs[1..], k)
  }

  function LastFound(subs: seq<Json>, k: string): Option<Json> {
    if subs == [] then None
    else
      var later := LastFound(subs[1..], k);
      if later.Some? then later
      else if HoldsProp(subs[0], k) then Find(PropsIn(subs[0]).value.fields, k)
      else None
  }

  lemma {:induction false} FirstFoundAt(subs: seq<Json>, k: string, i: nat)
    requires i < |subs| && Holds(subs[i], k) && forall j | 0 <= j < i :: !Holds(subs[j], k)
    ensures FirstFound(subs, k) == Find(subs[i].fields, k)
  {
    if i > 0 {
      assert !Holds(subs[0], k) && subs[1..][i - 1] == subs[i];
      assert forall j | 0 <= j < i - 1 :: subs[1..][j] == subs[j + 1];
      FirstFoundAt(subs[1..], k, i - 1);
    }
  }

  lemma {:induction false} NoneFound(subs: seq<Json>, k: string)
    requires forall v | v in subs :: !Holds(v, k)
    ensures FirstFound(subs, k) == None
  {
    if subs != [] {
      assert subs[0] in subs && forall v | v in subs[1..] :: v in subs;
      NoneFound(subs[1..], k);
    }
  }

  lemma {:induction false} LastFoundAt(subs: seq<Json>, k: string, i: nat)
    requires i < |subs| && HoldsProp(subs[i], k) && forall j | i < j < |subs| :: !HoldsProp(subs[j], k)
    ensures LastFound(subs, k) == Find(PropsIn(subs[i]).value.fields, k)
  {
    assert forall j | 0 <= j < |subs| - 1 :: subs[1..][j] == subs[j + 1];
    if i > 0 {
      LastFoundAt(subs[1..], k, i - 1);
    } else {
      forall v | v in subs[1..] ensures !HoldsProp(v, k) {
        var j :| 0 <= j < |subs| - 1 && subs[1..][j] == v;
      }
      NoneFoundLast(subs[1..], k);
    }
  }

  lemma {:induction false} NoneFoundLast(subs: seq<Json>, k: string)
    requires forall v | v in subs :: !HoldsProp(v, k)
    ensures LastFound(subs, k) == None
  {
    if subs != [] {
      assert subs[0] in subs && forall v | v in subs[1..] :: v in subs;
      NoneFoundLast(subs[1..], k);
    }
  }

  /** One member merged. */
  ghost predicate MemberInto(d: Dict, parent: Dict, sub: Dict) {
    && Distinct(d) && Keys(d) == Extend(Keys(parent), Keys(sub))
    && (forall k | k != "properties" :: Find(d, k) == if Has(parent, k) then Find(parent, k) else Find(sub, k))
    && match Find(sub, "properties")
       case Some(Obj(more)) => Find(d, "properties") == Some(Obj(Update(ParentProps(parent), more)))
       case _ => Find(d, "properties") == Find(parent, "properties")
  }

  predicate SubClash(parent: Dict, sub: Dict) {
    Has(sub, "properties")
    && (!Find(sub, "properties").value.Obj? || (Has(parent, "properties") && !Find(parent, "properties").value.Obj?))
  }

  /** The state after the first key of a member. */
  function AfterFirst(merged: Dict, f: Field): Dict {
    if f.key != "properties" then if Has(merged, f.key) then merged else Put(merged, f.key, f.value)
    else match f.value
      case Obj(more) => Put(merged, f.key, Obj(Update(ParentProps(merged), more)))
      case _ => merged
  }

  lemma {:induction false} FirstMerged(merged: Dict, sub: Dict)
    requires sub != []
    ensures MergeSub(merged, sub)
            == if SubClash(merged, sub[..1]) then None else MergeSub(AfterFirst(merged, sub[0]), sub[1..])
  {
    FindOne(sub[0], "properties");
    assert sub[..1] == [sub[0]];
    if sub[0].key == "properties" {
      assert SubClash(merged, sub[..1])
             <==> !sub[0].value.Obj? || (Has(merged, "properties") && !Find(merged, "properties").value.Obj?);
    }
  }

  lemma {:induction false} FindOne(f: Field, k: string)
    ensures Find([f], k) == if f.key == k then Some(f.value) else None
  {
    assert [f][1..] == [];
  }

  lemma {:induction false} AfterFirstIs(merged: Dict, f: Field)
    requires Distinct(merged)
    ensures Distinct(AfterFirst(merged, f))
    ensures f.key != "properties" || f.value.Obj? ==> Keys(AfterFirst(merged, f)) == Extend(Keys(merged), [f.key])
    ensures forall k | k != f.key :: Find(AfterFirst(merged, f), k) == Find(merged, k)
    ensures f.key != "properties" ==>
              Find(AfterFirst(merged, f), f.key) == if Has(merged, f.key) then Find(merged, f.key) else Some(f.value)
    ensures f.key == "properties" && f.value.Obj? ==>
              Find(AfterFirst(merged, f), f.key) == Some(Obj(Update(ParentProps(merged), f.value.fields)))
  {
    KeyIff(merged, f.key);
    ExtendOne(Keys(merged), f.key);
    PutIs(merged, f.key, f.value);
    if f.value.Obj? { PutIs(merged, f.key, Obj(Update(ParentProps(merged), f.value.fields))); }
  }

  lemma {:induction false} SubClashFirst(merged: Dict, sub: Dict)
    requires sub != [] && Distinct(merged) && Distinct(sub)
    ensures SubClash(merged, sub)
            <==> SubClash(merged, sub[..1]) || SubClash(AfterFirst(merged, sub[0]), sub[1..])
  {
    var f, rest := sub[0], sub[1..];
    assert sub[..1] == [f];
    FindOne(f, "properties");
    AfterFirstIs(merged, f);
    if f.key == "properties" {
      assert Find(rest, "properties") == None && Find(sub, "properties") == Some(f.value);
    } else {
      assert Find(rest, "properties") == Find(sub, "properties");
      assert Find(AfterFirst(merged, f), "properties") == Find(merged, "properties");
    }
  }

  lemma {:induction false} SubFails(merged: Dict, sub: Dict)
    requires Distinct(merged) && Distinct(sub)
    ensures MergeSub(merged, sub) == None <==> SubClash(merged, sub)
    ensures MergeSub(merged, sub).Some? ==>
              Distinct(MergeSub(merged, sub).value)
              && Keys(MergeSub(merged, sub).value) == Extend(Keys(merged), Keys(sub))
    decreases |sub|
  {
    if sub != [] {
      FirstMerged(merged, sub);
      SubClashFirst(merged, sub);
      AfterFirstIs(merged, sub[0]);
      assert sub == [sub[0]] + sub[1..] && sub[..1] == [sub[0]];
      KeysCons(sub[0], sub[1..]);
      ExtendCons(Keys(merged), sub[0].key, Keys(sub[1..]));
      SubFails(AfterFirst(merged, sub[0]), sub[1..]);
    }
  }

  lemma {:induction false} SubFinds(merged: Dict, sub: Dict, k: string)
    requires Distinct(merged) && Distinct(sub) && MergeSub(merged, sub).Some?
    ensures var found := Find(MergeSub(merged, sub).value, k);
            if k != "properties" then found == if Has(merged, k) then Find(merged, k) else Find(sub, k)
            else match Find(sub, "properties")
              case Some(Obj(more)) => found == Some(Obj(Update(ParentProps(merged), more)))
              case _ => found == Find(merged, "properties")
    decreases |sub|
  {
    if sub != [] {
      FirstMerged(merged, sub);
      AfterFirstIs(merged, sub[0]);
      assert sub[..1] == [sub[0]] && sub[..1][1..] == [];
      SubFinds(AfterFirst(merged, sub[0]), sub[1..], k);
    }
  }

  lemma {:induction false} SubMerged(merged: Dict, sub: Dict)
    requires Distinct(merged) && Distinct(sub)
    ensures MergeSub(merged, sub) == None <==> SubClash(merged, sub)
    ensures MergeSub(merged, sub).Some? ==> MemberInto(MergeSub(merged, sub).value, merged, sub)
  {
    SubFails(merged, sub);
    if MergeSub(merged, sub).Some? {
      forall k: string ensures k != "properties" ==>
        Find(MergeSub(merged, sub).value, k) == if Has(merged, k) then Find(merged, k) else Find(sub, k)
      {
        SubFinds(merged, sub, k);
      }
      SubFinds(merged, sub, "properties");
    }
  }

  function MoreProps(mine: Dict, v: Json): Dict {
    match PropsIn(v) case Some(Obj(more)) => Update(mine, more) case _ => mine
  }

  /** The `properties` entries of all members, laid over one another. */
  function AllProps(mine: Dict, subs: seq<Json>): Dict
    decreases |subs|
  {
    if subs == [] then mine else AllProps(MoreProps(mine, subs[0]), subs[1..])
  }

  ghost predicate SoundMembers(subs: seq<Json>) {
    forall v | v in subs && v.Obj? :: Sound(v.fields)
  }

  lemma {:induction false} MembersStep(merged: Dict, subs: seq<Json>)
    requires subs != [] && Sound(merged) && SoundMembers(subs)
    ensures SoundMembers(subs[1..])
    ensures !Live(subs[0]) ==> MergeSubs(merged, NonNullSubs(subs)) == MergeSubs(merged, NonNullSubs(subs[1..]))
    ensures Live(subs[0]) ==>
              match MergeSub(merged, subs[0].fields)
              case None => MergeSubs(merged, NonNullSubs(subs)) == None
              case Some(next) =>
                && Sound(next) && MemberInto(next, merged, subs[0].fields)
                && MergeSubs(merged, NonNullSubs(subs)) == MergeSubs(next, NonNullSubs(subs[1..]))
  {
    assert subs[0] in subs && forall v | v in subs[1..] :: v in subs;
    if Live(subs[0]) {
      var sub := subs[0].fields;
      SubMerged(merged, sub);
      assert ([subs[0]] + NonNullSubs(subs[1..]))[1..] == NonNullSubs(subs[1..]);
      match Find(sub, "properties")
      case Some(Obj(more)) => UpdateIs(ParentProps(merged), more);
      case _ =>
    }
  }

  lemma {:induction false} MembersFail(merged: Dict, subs: seq<Json>)
    requires Sound(merged) && SoundMembers(subs)
    ensures MergeSubs(merged, NonNullSubs(subs)) == None <==> Unmergeable(merged, subs)
    ensures MergeSubs(merged, NonNullSubs(subs)).Some? ==>
              var d := MergeSubs(merged, NonNullSubs(subs)).value;
              Distinct(d) && Keys(d) == Extend(Keys(merged), MemberKeys(subs))
    decreases |subs|
  {
    if subs != [] {
      MembersStep(merged, subs);
      UnmergeableCons(merged, subs);
      var mine := if Live(subs[0]) then Keys(subs[0].fields) else [];
      ExtendConcat(Keys(merged), mine, MemberKeys(subs[1..]));
      if !Live(subs[0]) {
        MembersFail(merged, subs[1..]);
      } else {
        SubMerged(merged, subs[0].fields);
        if MergeSub(merged, subs[0].fields).Some? {
          MembersFail(MergeSub(merged, subs[0].fields).value, subs[1..]);
          UnmergeableNext(merged, MergeSub(merged, subs[0].fields).value, subs);
        }
      }
    }
  }

  lemma UnmergeableCons(parent: Dict, subs: seq<Json>)
    requires subs != []
    ensures Unmergeable(parent, subs) <==> Blocks(parent, subs[0]) || Unmergeable(parent, subs[1..])
    ensures Live(subs[0]) ==> (Blocks(parent, subs[0]) <==> SubClash(parent, subs[0].fields))
  {
    assert forall v | v in subs :: v == subs[0] || v in subs[1..];
    assert subs[0] in subs && forall v | v in subs[1..] :: v in subs;
  }

  lemma UnmergeableNext(parent: Dict, next: Dict, subs: seq<Json>)
    requires subs != [] && Live(subs[0]) && !Blocks(parent, subs[0]) && MemberInto(next, parent, subs[0].fields)
    ensures Unmergeable(next, subs[1..]) <==> Unmergeable(parent, subs[1..])
  {
    if PropsIn(subs[0]).None? {
      assert Find(next, "properties") == Find(parent, "properties");
    } else {
      assert Has(parent, "properties") ==> Find(parent, "properties").value.Obj?;
      assert Find(next, "properties").value.Obj?;
    }
  }

  lemma {:induction false} MembersFind(merged: Dict, subs: seq<Json>, k: string)
    requires Sound(merged) && SoundMembers(subs) && k != "properties"
    requires MergeSubs(merged, NonNullSubs(subs)).Some?
    ensures Find(MergeSubs(merged, NonNullSubs(subs)).value, k)
            == if Has(merged, k) then Find(merged, k) else FirstFound(subs, k)
    decreases |subs|
  {
    if subs != [] {
      MembersStep(merged, subs);
      if Live(subs[0]) {
        MembersFind(MergeSub(merged, subs[0].fields).value, subs[1..], k);
      } else {
        MembersFind(merged, subs[1..], k);
      }
    }
  }

  lemma {:induction false} MembersProps(merged: Dict, subs: seq<Json>)
    requires Sound(merged) && SoundMembers(subs)
    requires MergeSubs(merged, NonNullSubs(subs)).Some?
    ensures Find(MergeSubs(merged, NonNullSubs(subs)).value, "properties")
            == if forall v | v in subs :: PropsIn(v) == None then Find(merged, "properties")
               else Some(Obj(AllProps(ParentProps(merged), subs)))
    decreases |subs|
  {
    if subs != [] {
      MembersStep(merged, subs);
      UnmergeableCons(merged, subs);
      MembersFail(merged, subs);
      assert forall v | v in subs :: v == subs[0] || v in subs[1..];
      assert subs[0] in subs && forall v | v in subs[1..] :: v in subs;
      if Live(subs[0]) {
        MembersProps(MergeSub(merged, subs[0].fields).value, subs[1..]);
      } else {
        MembersProps(merged, subs[1..]);
      }
      if forall v | v in subs[1..] :: PropsIn(v) == None {
        NoMoreProps(MoreProps(ParentProps(merged), subs[0]), subs[1..]);
      }
      OneProps(ParentProps(merged), subs);
    }
  }

  lemma {:induction false} OneProps(mine: Dict, subs: seq<Json>)
    requires subs != []
    ensures AllProps(mine, subs[..1]) == MoreProps(mine, subs[0])
    ensures AllProps(mine, subs) == AllProps(AllProps(mine, subs[..1]), subs[1..])
  {
    assert subs[..1][0] == subs[0] && subs[..1][1..] == [];
  }

  lemma {:induction false} NoMoreProps(mine: Dict, subs: seq<Json>)
    requires forall v | v in subs :: PropsIn(v) == None
    ensures AllProps(mine, subs) == mine
    decreases |subs|
  {
    if subs != [] {
      assert subs[0] in subs && forall v | v in subs[1..] :: v in subs;
      NoMoreProps(mine, subs[1..]);
    }
  }

  lemma {:induction false} AllPropsIs(mine: Dict, subs: seq<Json>)
    requires Distinct(mine) && SoundMembers(subs)
    ensures Distinct(AllProps(mine, subs)) && Keys(AllProps(mine, subs)) == Extend(Keys(mine), MemberPropKeys(subs))
    ensures forall k :: Find(AllProps(mine, subs), k)
                        == if LastFound(subs, k).Some? then LastFound(subs, k) else Find(mine, k)
    decreases |subs|
  {
    if subs != [] {
      var next := AllProps(mine, subs[..1]);
      OneProps(mine, subs);
      assert subs[0] in subs && forall v | v in subs[1..] :: v in subs;
      var own := match PropsIn(subs[0]) case Some(Obj(props)) => Keys(props) case _ => [];
      ExtendConcat(Keys(mine), own, MemberPropKeys(subs[1..]));
      if PropsIn(subs[0]).Some? && PropsIn(subs[0]).value.Obj? { UpdateIs(mine, PropsIn(subs[0]).value.fields); }
      AllPropsIs(next, subs[1..]);
    }
  }

  lemma {:induction false} PropsMerged(mine: Dict, subs: seq<Json>)
    requires Distinct(mine) && SoundMembers(subs)
    ensures PropsInto(AllProps(mine, subs), mine, subs)
  {
    AllPropsIs(mine, subs);
    forall k, i | 0 <= i < |subs| && HoldsProp(subs[i], k) && (forall j | i < j < |subs| :: !HoldsProp(subs[j], k))
      ensures Find(AllProps(mine, subs), k) == Find(PropsIn(subs[i]).value.fields, k)
    {
      LastFoundAt(subs, k, i);
    }
    forall k | forall v | v in subs :: !HoldsProp(v, k) ensures Find(AllProps(mine, subs), k) == Find(mine, k) {
      NoneFoundLast(subs, k);
    }
  }

  lemma {:induction false} MembersMerged(parent: Dict, subs: seq<Json>)
    requires Sound(parent) && SoundMembers(subs)
    ensures MergeSubs(parent, NonNullSubs(subs)) == None <==> Unmergeable(parent, subs)
    ensures MergeSubs(parent, NonNullSubs(subs)).Some? ==>
              MembersInto(MergeSubs(parent, NonNullSubs(subs)).value, parent, subs)
  {
    MembersFail(parent, subs);
    if MergeSubs(parent, NonNullSubs(subs)).Some? {
      var d := MergeSubs(parent, NonNullSubs(subs)).value;
      MembersProps(parent, subs);
      PropsMerged(ParentProps(parent), subs);
      forall k | k != "properties"
        ensures Find(d, k) == if Has(parent, k) then Find(parent, k) else FirstFound(subs, k)
      {
        MembersFind(parent, subs, k);
      }
      forall k, i | 0 <= i < |subs| && Holds(subs[i], k) && (forall j | 0 <= j < i :: !Holds(subs[j], k))
        ensures FirstFound(subs, k) == Find(subs[i].fields, k)
      {
        FirstFoundAt(subs, k, i);
      }
      forall k | forall v | v in subs :: !Holds(v, k) ensures FirstFound(subs, k) == None {
        NoneFound(subs, k);
      }
    }
  }

  /** Main theorem: in config mode an object with an `allOf`, and no `oneOf` Python reads as true, is rendered as
      its members merged into it. */
  lemma AllOfRenders(depth: nat, d: Dict, subs: seq<Json>, path: string, root: Json) returns (merged: Dict)
    requires Sound(d) && SoundMembers(subs) && Find(d, "$ref") == None && Find(d, "allOf") == Some(Arr(subs))
    requires Has(d, "oneOf") ==> !Truthy(Find(d, "oneOf").value)
    ensures var parent := Without(d, "allOf");
            if Unmergeable(parent, subs) then SlimSchema(depth + 1, Obj(d), Config, path, root) == Malformed
            else
              && MembersInto(merged, parent, subs)
              && SlimSchema(depth + 1, Obj(d), Config, path, root)
                 == Noting([], SlimSchema(depth, Obj(merged), Config, path, root))
  {
    var parent := Without(d, "allOf");
    WithoutSound(d, "allOf");
    MembersMerged(parent, subs);
    AllOfTaken(d, subs, root);
    merged := (match MergeSubs(parent, NonNullSubs(subs)) case Some(m) => m case None => []);
    ShapeRenders(depth, d, Obj(merged), 0, Config, path, root);
  }

  lemma {:induction false} AllOfTaken(d: Dict, subs: seq<Json>, root: Json)
    requires Find(d, "$ref") == None && Find(d, "allOf") == Some(Arr(subs))
    requires Has(d, "oneOf") ==> !Truthy(Find(d, "oneOf").value)
    ensures ShapeOf(Obj(d), Config, root) == AllOfShape(d, subs, Config)
  {
  }

  // ---------- the conditions, key by key ----------

  /** The variant rendered and the variants counted, in the words of the document. */
  lemma {:induction false} RenderedIff(variants: seq<Json>, i: nat, j: nat)
    ensures Rendered(variants, i)
            <==> && i < |variants|
                 && ((&& (forall k | 0 <= k < i ::
                            variants[k].Obj? && Find(variants[k].fields, "type") == Some(Str("null")))
                      && !(variants[i].Obj? && Find(variants[i].fields, "type") == Some(Str("null"))))
                     || (i == 0 && forall v | v in variants :: v.Obj? && Find(v.fields, "type") == Some(Str("null"))))
    ensures j in Candidates(variants)
            <==> j < |variants| && !(variants[j].Obj? && Find(variants[j].fields, "type") == Some(Str("null")))
  {
    if i < |variants| { assert variants[i] in variants; }
  }

  /** A key of the schema rendered for a variant. */
  lemma {:induction false} VariantKey(d: Dict, parent: Dict, variant: Dict, k: string)
    requires VariantOver(d, parent, variant) && k != "properties"
    ensures Find(d, k) == if Find(variant, k) != None then Find(variant, k) else Find(parent, k)
  {
  }

  /** An entry of its `properties`. */
  lemma {:induction false} VariantProperty(d: Dict, parent: Dict, variant: Dict, k: string)
    requires VariantOver(d, parent, variant)
    ensures Find(parent, "properties") == None ==> Find(d, "properties") == Find(variant, "properties")
    ensures Find(variant, "properties") == None ==> Find(d, "properties") == Find(parent, "properties")
    ensures forall mine: Dict, more: Dict |
              Find(parent, "properties") == Some(Obj(mine)) && Find(variant, "properties") == Some(Obj(more)) ::
              && Find(d, "properties").Some? && Find(d, "properties").value.Obj?
              && Find(Find(d, "properties").value.fields, k)
                 == if Find(more, k) != None then Find(more, k) else Find(mine, k)
  {
  }

  /** A key that the parent has, or that member `i` is the first to hold. */
  lemma {:induction false} MemberKey(d: Dict, parent: Dict, subs: seq<Json>, k: string, i: nat)
    requires MembersInto(d, parent, subs) && k != "properties"
    ensures Find(parent, k) != None ==> Find(d, k) == Find(parent, k)
    ensures Find(parent, k) == None && i < |subs|
            && subs[i].Obj? && Find(subs[i].fields, "type") != Some(Str("null")) && Find(subs[i].fields, k) != None
            && (forall j | 0 <= j < i ::
                  !subs[j].Obj? || Find(subs[j].fields, "type") == Some(Str("null")) || Find(subs[j].fields, k) == None)
            ==> Find(d, k) == Find(subs[i].fields, k)
  {
    if i < |subs| {
      assert Holds(subs[i], k) <==> subs[i].Obj? && Find(subs[i].fields, "type") != Some(Str("null"))
                                    && Find(subs[i].fields, k) != None;
    }
  }

  /** An entry of `properties` that member `i` is the last to hold. */
  lemma {:induction false} MemberProperty(d: Dict, parent: Dict, subs: seq<Json>, more: Dict, k: string, i: nat)
    requires MembersInto(d, parent, subs) && i < |subs|
    requires subs[i].Obj? && Find(subs[i].fields, "type") != Some(Str("null"))
    requires Find(subs[i].fields, "properties") == Some(Obj(more)) && Find(more, k) != None
    requires forall j | i < j < |subs| ::
               || !subs[j].Obj? || Find(subs[j].fields, "type") == Some(Str("null"))
               || Find(subs[j].fields, "properties") == None || !Find(subs[j].fields, "properties").value.Obj?
               || Find(Find(subs[j].fields, "properties").value.fields, k) == None
    ensures Find(d, "properties").Some? && Find(d, "properties").value.Obj?
    ensures Find(Find(d, "properties").value.fields, k) == Find(more, k)
  {
    assert subs[i] in subs && PropsIn(subs[i]) == Some(Obj(more)) && HoldsProp(subs[i], k);
    forall j | i < j < |subs| ensures !HoldsProp(subs[j], k) {}
  }

  /** An entry of `properties` that no member holds is the parent's. */
  lemma {:induction false} ParentProperty(d: Dict, parent: Dict, subs: seq<Json>, k: string)
    requires MembersInto(d, parent, subs)
    requires forall v | v in subs && v.Obj? && Find(v.fields, "type") != Some(Str("null")) ::
               Find(v.fields, "properties") == None || !Find(v.fields, "properties").value.Obj?
               || Find(Find(v.fields, "properties").value.fields, k) == None
    requires Find(d, "properties").Some? && Find(d, "properties").value.Obj?
    requires Find(parent, "properties").Some? && Find(parent, "properties").value.Obj?
    ensures Find(Find(d, "properties").value.fields, k) == Find(Find(parent, "properties").value.fields, k)
  {
    forall v | v in subs ensures !HoldsProp(v, k) {}
  }
}
