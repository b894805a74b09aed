/** Which schema is rendered for `oneOf` and `allOf`, and what becomes of a shared dict, in config mode as it
    runs: `_slim_oneof` and `_slim_allof` of azext_edge/edge/providers/adr/helpers.py, read off the document
    and the changes made so far. */
module InPlaceUnions {
  import opened Json
  import opened JsonLaws
  import opened DocLaws
  import opened SchemaTemplate
  import opened InPlace
  import opened InPlaceSteps
  import U = SchemaUnions

  // ---------- what the documents say now ----------

  predicate OfTypeNull(h: Heap, v: Doc) {
    v.Dict? && Lookup(Content(h, v), "type") == Some(Scalar(Str("null")))
  }

  /** The first variant that is not of type "null", or the first of all when every one is. */
  predicate Rendered(h: Heap, variants: seq<Doc>, i: nat) {
    && i < |variants|
    && if forall v | v in variants :: OfTypeNull(h, v) then i == 0
       else !OfTypeNull(h, variants[i]) && forall j | 0 <= j < i :: OfTypeNull(h, variants[j])
  }

  function Candidates(h: Heap, variants: seq<Doc>): set<nat> {
    set i: nat | i < |variants| && !OfTypeNull(h, variants[i])
  }

  /** `over` laid over `under`, key by key. */
  ghost predicate Laid(d: Entries, under: Entries, over: Entries) {
    && Unique(d) && EntryKeys(d) == Extend(EntryKeys(under), EntryKeys(over))
    && forall k :: Lookup(d, k) == if Lookup(over, k).Some? then Lookup(over, k) else Lookup(under, k)
  }

  /** The variant over its parent, with two `properties` dicts united in a new one. */
  ghost predicate VariantOver(h: Heap, d: Entries, parent: Entries, variant: Entries) {
    && Unique(d) && EntryKeys(d) == Extend(EntryKeys(parent), EntryKeys(variant))
    && (forall k | k != "properties" ::
          Lookup(d, k) == if Lookup(variant, k).Some? then Lookup(variant, k) else Lookup(parent, k))
    && match (Lookup(parent, "properties"), Lookup(variant, "properties"))
       case (Some(mine), Some(more)) =>
         && mine.Dict? && more.Dict?
         && exists both: Entries ::
              Lookup(d, "properties") == Some(Dict(None, both)) && Laid(both, Content(h, mine), Content(h, more))
       case (None, more) => Lookup(d, "properties") == more
       case (mine, None) => Lookup(d, "properties") == mine
  }

  predicate Clash(parent: Entries, variant: Entries) {
    match (Lookup(parent, "properties"), Lookup(variant, "properties"))
    case (Some(mine), Some(more)) => !mine.Dict? || !more.Dict?
    case _ => false
  }

  /** Dicts as Python has them. */
  predicate Sound(h: Heap, d: Entries) {
    Unique(d) && match Lookup(d, "properties")
                 case Some(props) => props.Dict? ==> Unique(Content(h, props))
                 case None => true
  }

  // ---------- oneOf ----------

  function WithUnited(h: Heap, merged: Entries, chosen: Entries): Entries {
    match (Lookup(merged, "properties"), Lookup(chosen, "properties"))
    case (Some(mine), Some(more)) =>
      if mine.Dict? && more.Dict? then
        Set(chosen, "properties", Dict(None, Overlay(Content(h, mine), Content(h, more))))
      else chosen
    case _ => chosen
  }

  lemma {:induction false} VariantUpdates(h: Heap, merged: Entries, chosen: Entries)
    requires Unique(chosen)
    ensures MergeVariantNow(h, merged, chosen)
            == if Clash(merged, chosen) then None else Some(Overlay(merged, WithUnited(h, merged, chosen)))
    decreases |chosen|
  {
    if chosen != [] {
      var f, rest := chosen[0], chosen[1..];
      if f.key == "properties" && Lookup(merged, "properties").Some? {
        var mine := Lookup(merged, "properties").value;
        if mine.Dict? && f.value.Dict? {
          var both := Dict(None, Overlay(Content(h, mine), Content(h, f.value)));
          VariantUpdates(h, Set(merged, f.key, both), rest);
          UnitedHere(h, merged, chosen, both);
        }
      } else {
        VariantUpdates(h, Set(merged, f.key, f.value), rest);
        UnitedLater(h, merged, chosen);
      }
    }
  }

  lemma {:induction false} UnitedHere(h: Heap, merged: Entries, chosen: Entries, both: Doc)
    requires Unique(chosen) && chosen != [] && chosen[0].key == "properties" && chosen[0].value.Dict?
    requires Lookup(merged, "properties").Some? && Lookup(merged, "properties").value.Dict?
    requires both == Dict(None, Overlay(Content(h, Lookup(merged, "properties").value), Content(h, chosen[0].value)))
    ensures var next := Set(merged, "properties", both);
            && WithUnited(h, next, chosen[1..]) == chosen[1..] && !Clash(next, chosen[1..]) && !Clash(merged, chosen)
            && Overlay(merged, WithUnited(h, merged, chosen)) == Overlay(next, chosen[1..])
  {
    assert Lookup(chosen[1..], "properties") == None;
    assert WithUnited(h, merged, chosen) == [Entry("properties", both)] + chosen[1..];
    assert ([Entry("properties", both)] + chosen[1..])[1..] == chosen[1..];
  }

  lemma {:induction false} UnitedLater(h: Heap, merged: Entries, chosen: Entries)
    requires Unique(chosen) && chosen != []
    requires chosen[0].key != "properties" || Lookup(merged, "properties") == None
    ensures var f := chosen[0];
            var next := Set(merged, f.key, f.value);
            && (Clash(merged, chosen) <==> Clash(next, chosen[1..]))
            && Overlay(merged, WithUnited(h, merged, chosen)) == Overlay(next, WithUnited(h, next, chosen[1..]))
  {
    var f, rest := chosen[0], chosen[1..];
    SetIs(merged, f.key, f.value);
    if f.key == "properties" {
      assert Lookup(rest, "properties") == None;
    } else {
      assert Lookup(rest, "properties") == Lookup(chosen, "properties");
      if WithUnited(h, merged, chosen) != chosen {
        assert WithUnited(h, merged, chosen) == [f] + WithUnited(h, merged, rest);
        assert ([f] + WithUnited(h, merged, rest))[1..] == WithUnited(h, merged, rest);
      }
    }
  }

  lemma {:induction false} UnitedIs(h: Heap, merged: Entries, chosen: Entries)
    requires Sound(h, merged) && Sound(h, chosen) && !Clash(merged, chosen)
    ensures VariantOver(h, Overlay(merged, WithUnited(h, merged, chosen)), merged, chosen)
  {
    var over := WithUnited(h, merged, chosen);
    if Lookup(merged, "properties").Some? && Lookup(chosen, "properties").Some? {
      var mine, more := Lookup(merged, "properties").value, Lookup(chosen, "properties").value;
      var both := Overlay(Content(h, mine), Content(h, more));
      OverlayIs(Content(h, mine), Content(h, more));
      SetIs(chosen, "properties", Dict(None, both));
      EntryKeyIff(chosen, "properties");
      ExtendOne(EntryKeys(chosen), "properties");
      OverlayIs(merged, over);
      assert Laid(both, Content(h, mine), Content(h, more));
    } else {
      OverlayIs(merged, over);
    }
  }

  lemma {:induction false} VariantMerged(h: Heap, merged: Entries, chosen: Entries)
    requires Sound(h, merged) && Sound(h, chosen)
    ensures var m := MergeVariantNow(h, merged, chosen);
            (m == None <==> Clash(merged, chosen)) && (m.Some? ==> VariantOver(h, m.value, merged, chosen))
  {
    VariantUpdates(h, merged, chosen);
    if !Clash(merged, chosen) { UnitedIs(h, merged, chosen); }
  }

  lemma {:induction false} FirstKept(h: Heap, variants: seq<Doc>, i: nat)
    requires Rendered(h, variants, i)
    ensures var kept := NonNullVariantsNow(h, variants);
            (if kept != [] then kept[0] else variants[0]) == variants[i]
  {
    NoneKept(h, variants);
    if exists v :: v in variants && !OfTypeNull(h, v) { FirstOf(h, variants, i); }
  }

  lemma {:induction false} FirstOf(h: Heap, variants: seq<Doc>, i: nat)
    requires i < |variants| && !OfTypeNull(h, variants[i]) && forall j | 0 <= j < i :: OfTypeNull(h, variants[j])
    ensures NonNullVariantsNow(h, variants) != [] && NonNullVariantsNow(h, variants)[0] == variants[i]
  {
    if i > 0 {
      assert variants[1..][i - 1] == variants[i];
      assert forall j | 0 <= j < i - 1 :: variants[1..][j] == variants[j + 1];
      FirstOf(h, variants[1..], i - 1);
    }
  }

  lemma {:induction false} NoneKept(h: Heap, variants: seq<Doc>)
    ensures NonNullVariantsNow(h, variants) == [] <==> forall v | v in variants :: OfTypeNull(h, v)
  {
    if variants != [] {
      NoneKept(h, variants[1..]);
      assert forall v | v in variants :: v == variants[0] || v in variants[1..];
      assert variants[0] in variants && forall v | v in variants[1..] :: v in variants;
    }
  }

  lemma {:induction false} KeptCount(h: Heap, variants: seq<Doc>)
    ensures |NonNullVariantsNow(h, variants)| == |Candidates(h, variants)|
  {
    if variants != [] {
      var rest := variants[1..];
      KeptCount(h, rest);
      U.Shifted(Candidates(h, rest));
      var moved := U.Moved(Candidates(h, rest));
      assert forall i: nat | i < |rest| :: rest[i] == variants[i + 1];
      forall i: nat ensures i in Candidates(h, variants) <==> i in moved || (i == 0 && !OfTypeNull(h, variants[0])) {
        if i > 0 && i in Candidates(h, variants) { assert i - 1 in Candidates(h, rest); }
      }
      if OfTypeNull(h, variants[0]) {
        assert Candidates(h, variants) == moved;
      } else {
        assert Candidates(h, variants) == moved + {0};
      }
    }
  }

  function Noting(note: seq<Warning>, r: Result<Doc>): Result<Doc> {
    match r case Finished(v, ws, h) => Finished(v, note + ws, h) case other => other
  }

  /** Main theorem: whatever the run has changed so far, a dict with a `oneOf` is rendered as the parent overlaid
      with the first variant that is not of type "null" now, and a message is noted when there are more. No
      dict is changed by this step. */
  lemma OneOfRuns(
    depth: nat, h: Heap, c: Doc, variants: seq<Doc>, i: nat, path: string, root: Doc) returns (merged: Entries)
    requires c.Dict? && Sound(h, Content(h, c))
    requires Lookup(Content(h, c), "$ref") == None && Lookup(Content(h, c), "oneOf") == Some(List(variants))
    requires Rendered(h, variants, i) && (variants[i].Dict? ==> Sound(h, Content(h, variants[i])))
    ensures var parent := Drop(Content(h, c), "oneOf");
            var n := |Candidates(h, variants)|;
            if !variants[i].Dict? || Clash(parent, Content(h, variants[i])) then
              Slim(depth + 1, h, c, path, root) == Failed
            else
              && VariantOver(h, merged, parent, Content(h, variants[i]))
              && Slim(depth + 1, h, c, path, root)
                 == Noting(if n > 1 then [Collapsed(path, n)] else [], Slim(depth, h, Dict(None, merged), path, root))
  {
    var d, n := Content(h, c), |Candidates(h, variants)|;
    merged := [];
    DropSound(h, d, "oneOf");
    OneOfTaken(h, c, variants, root);
    OneOfStepIs(h, d, variants, i);
    if variants[i].Dict? {
      var chosen := Content(h, variants[i]);
      VariantMerged(h, Drop(d, "oneOf"), chosen);
      merged := (match MergeVariantNow(h, Drop(d, "oneOf"), chosen) case Some(m) => m case None => []);
    }
    StepRuns(depth, h, c, Dict(None, merged), if n > 1 then n else 0, path, root);
  }

  lemma {:induction false} StepRuns(depth: nat, h: Heap, c: Doc, next: Doc, n: nat, path: string, root: Doc)
    ensures StepOf(h, c, root) == (Unusable, h) ==> Slim(depth + 1, h, c, path, root) == Failed
    ensures StepOf(h, c, root) == (Rewritten(next, n), h) ==>
              Slim(depth + 1, h, c, path, root)
              == Noting(if n > 0 then [Collapsed(path, n)] else [], Slim(depth, h, next, path, root))
  {
  }

  lemma OneOfTaken(h: Heap, c: Doc, variants: seq<Doc>, root: Doc)
    requires c.Dict? && variants != []
    requires Lookup(Content(h, c), "$ref") == None && Lookup(Content(h, c), "oneOf") == Some(List(variants))
    ensures StepOf(h, c, root) == (OneOfStep(h, Content(h, c), variants), h)
  {
  }

  lemma {:induction false} OneOfStepIs(h: Heap, d: Entries, variants: seq<Doc>, i: nat)
    requires Rendered(h, variants, i)
    ensures var n := |Candidates(h, variants)|;
            var m := if variants[i].Dict? then MergeVariantNow(h, Drop(d, "oneOf"), Content(h, variants[i])) else None;
            OneOfStep(h, d, variants)
            == match m case Some(merged) => Rewritten(Dict(None, merged), if n > 1 then n else 0) case None => Unusable
  {
    FirstKept(h, variants, i);
    KeptCount(h, variants);
  }

  // ---------- allOf ----------

  predicate Live(h: Heap, v: Doc) {
    v.Dict? && !OfTypeNull(h, v)
  }

  predicate Holds(h: Heap, v: Doc, k: string) {
    Live(h, v) && Lookup(Content(h, v), k).Some?
  }

  function PropsIn(h: Heap, v: Doc): Option<Doc> {
    if Live(h, v) then Lookup(Content(h, v), "properties") else None
  }

  predicate HoldsProp(h: Heap, v: Doc, k: string) {
    match PropsIn(h, v) case Some(p) => p.Dict? && Lookup(Content(h, p), k).Some? case None => false
  }

  function MemberKeys(h: Heap, subs: seq<Doc>): seq<string> {
    if subs == [] then []
    else (if Live(h, subs[0]) then EntryKeys(Content(h, subs[0])) else []) + MemberKeys(h, subs[1..])
  }

  function PropKeys(h: Heap, v: Doc): seq<string> {
    match PropsIn(h, v) case Some(p) => (if p.Dict? then EntryKeys(Content(h, p)) else []) case None => []
  }

  function MemberPropKeys(h: Heap, subs: seq<Doc>): seq<string> {
    if subs == [] then [] else PropKeys(h, subs[0]) + MemberPropKeys(h, subs[1..])
  }

  predicate Blocks(h: Heap, parent: Entries, v: Doc) {
    && PropsIn(h, v).Some?
    && (!PropsIn(h, v).value.Dict? || (PropsOf(parent).Some? && !PropsOf(parent).value.Dict?))
  }

  predicate Unmergeable(h: Heap, parent: Entries, subs: seq<Doc>) {
    exists v | v in subs :: Blocks(h, parent, v)
  }

  function ParentProps(h: Heap, parent: Entries): Entries {
    match PropsOf(parent) case Some(p) => (if p.Dict? then Content(h, p) else []) case None => []
  }

  /** The dict that would be extended, if the parent's `properties` have an identity. */
  function SharedId(parent: Entries): Option<nat> {
    match PropsOf(parent) case Some(p) => (if p.Dict? then p.id else None) case None => None
  }

  /** The extended dict is not itself a member or the `properties` of one: parsed JSON shares nothing. */
  predicate Apart(h: Heap, id: Option<nat>, subs: seq<Doc>) {
    id.Some? ==> forall v | v in subs && v.Dict? ::
      v.id != id && match PropsIn(h, v) case Some(p) => p.Dict? ==> p.id != id case None => true
  }

  ghost predicate PropsInto(h: Heap, both: Entries, mine: Entries, subs: seq<Doc>) {
    && Unique(both) && EntryKeys(both) == Extend(EntryKeys(mine), MemberPropKeys(h, subs))
    && (forall k, i | 0 <= i < |subs| && HoldsProp(h, subs[i], k)
                      && (forall j | i < j < |subs| :: !HoldsProp(h, subs[j], k)) ::
          Lookup(both, k) == Lookup(Content(h, PropsIn(h, subs[i]).value), k))
    && (forall k | forall v | v in subs :: !HoldsProp(h, v, k) :: Lookup(both, k) == Lookup(mine, k))
  }

  /** The members merged into the parent, in `d`, and the changes made so far, in `now`. The `properties` of `d`
      are those of the parent, extended; a dict with an identity holds the extension itself, and no other dict
      is changed. */
  ghost predicate MembersInto(h: Heap, now: Heap, d: Entries, parent: Entries, subs: seq<Doc>) {
    && Unique(d) && EntryKeys(d) == Extend(EntryKeys(parent), MemberKeys(h, subs))
    && (forall k | k != "properties" && Lookup(parent, k).Some? :: Lookup(d, k) == Lookup(parent, k))
    && (forall k, i | k != "properties" && Lookup(parent, k).None? && 0 <= i < |subs| && Holds(h, subs[i], k)
                      && (forall j | 0 <= j < i :: !Holds(h, subs[j], k)) ::
          Lookup(d, k) == Lookup(Content(h, subs[i]), k))
    && (forall k | k != "properties" && Lookup(parent, k).None? && (forall v | v in subs :: !Holds(h, v, k)) ::
          Lookup(d, k) == None)
    && (if forall v | v in subs :: PropsIn(h, v) == None then now == h && PropsOf(d) == PropsOf(parent)
        else
          && PropsOf(d).Some? && PropsOf(d).value.Dict? && PropsOf(d).value.id == SharedId(parent)
          && PropsInto(h, Content(now, PropsOf(d).value), ParentProps(h, parent), subs))
    && OnlyShared(h, now, SharedId(parent))
  }

  ghost predicate OnlyShared(h: Heap, now: Heap, id: Option<nat>) {
    forall x | x in h || x in now :: Some(x) != id ==> x in h && x in now && now[x] == h[x]
  }

  // The same by recursion on the members.

  function FirstFound(h: Heap, subs: seq<Doc>, k: string): Option<Doc> {
    if subs == [] then None
    else if Holds(h, subs[0], k) then Lookup(Content(h, subs[0]), k)
    else FirstFound(h, subs[1..], k)
  }

  function LastFound(h: Heap, subs: seq<Doc>, k: string): Option<Doc> {
    if subs == [] then None
    else
      var later := LastFound(h, subs[1..], k);
      if later.Some? then later
      else if HoldsProp(h, subs[0], k) then Lookup(Content(h, PropsIn(h, subs[0]).value), k)
      else None
  }

  lemma {:induction false} FirstFoundAt(h: Heap, subs: seq<Doc>, k: string, i: nat)
    requires i < |subs| && Holds(h, subs[i], k) && forall j | 0 <= j < i :: !Holds(h, subs[j], k)
    ensures FirstFound(h, subs, k) == Lookup(Content(h, subs[i]), k)
  {
    if i > 0 {
      assert !Holds(h, subs[0], k) && subs[1..][i - 1] == subs[i];
      assert forall j | 0 <= j < i - 1 :: subs[1..][j] == subs[j + 1];
      FirstFoundAt(h, subs[1..], k, i - 1);
    }
  }

  lemma {:induction false} NoneFound(h: Heap, subs: seq<Doc>, k: string)
    requires forall v | v in subs :: !Holds(h, v, k)
    ensures FirstFound(h, subs, k) == None
  {
    if subs != [] {
      assert subs[0] in subs && forall v | v in subs[1..] :: v in subs;
      NoneFound(h, subs[1..], k);
    }
  }

  lemma {:induction false} LastFoundAt(h: Heap, subs: seq<Doc>, k: string, i: nat)
    requires i < |subs| && HoldsProp(h, subs[i], k) && forall j | i < j < |subs| :: !HoldsProp(h, subs[j], k)
    ensures LastFound(h, subs, k) == Lookup(Content(h, PropsIn(h, subs[i]).value), k)
  {
    assert forall j | 0 <= j < |subs| - 1 :: subs[1..][j] == subs[j + 1];
    if i > 0 {
      LastFoundAt(h, subs[1..], k, i - 1);
    } else {
      forall v | v in subs[1..] ensures !HoldsProp(h, v, k) {
        var j :| 0 <= j < |subs| - 1 && subs[1..][j] == v;
      }
      NoneFoundLast(h, subs[1..], k);
    }
  }

  lemma {:induction false} NoneFoundLast(h: Heap, subs: seq<Doc>, k: string)
    requires forall v | v in subs :: !HoldsProp(h, v, k)
    ensures LastFound(h, subs, k) == None
  {
    if subs != [] {
      assert subs[0] in subs && forall v | v in subs[1..] :: v in subs;
      NoneFoundLast(h, subs[1..], k);
    }
  }

  // ---------- one member ----------

  predicate SubClash(parent: Entries, sub: Entries) {
    PropsOf(sub).Some? && (!PropsOf(sub).value.Dict? || (PropsOf(parent).Some? && !PropsOf(parent).value.Dict?))
  }

  function Mine(merged: Entries): Doc {
    LookupOr(merged, "properties", Dict(None, []))
  }

  /** The `properties` after a member that has some, and the changes made. */
  function Joined(h: Heap, merged: Entries, more: Doc): Doc
    requires Mine(merged).Dict? && more.Dict?
  {
    Dict(Mine(merged).id, Overlay(Mine(merged).entries, Content(h, more)))
  }

  function HeapAfter(h: Heap, merged: Entries, sub: Entries): Heap {
    match PropsOf(sub)
    case Some(more) =>
      if more.Dict? && Mine(merged).Dict? && Mine(merged).id.Some? then
        Write(h, Mine(merged), Overlay(Content(h, Mine(merged)), Content(h, more)))
      else h
    case None => h
  }

  lemma {:induction false} SubFails(h: Heap, merged: Entries, sub: Entries)
    requires Unique(merged) && Unique(sub)
    ensures MergeSubNow(h, merged, sub) == None <==> SubClash(merged, sub)
    decreases |sub|
  {
    if sub != [] {
      FirstAdded(h, merged, sub[0]);
      if AddEntry(h, merged, sub[0]).Some? {
        var next := AddEntry(h, merged, sub[0]).value;
        SubFails(next.heap, next.entries, sub[1..]);
      }
    }
  }

  lemma {:induction false} SubKeys(h: Heap, merged: Entries, sub: Entries)
    requires Unique(merged) && MergeSubNow(h, merged, sub).Some?
    ensures Unique(MergeSubNow(h, merged, sub).value.entries)
    ensures EntryKeys(MergeSubNow(h, merged, sub).value.entries) == Extend(EntryKeys(merged), EntryKeys(sub))
    decreases |sub|
  {
    if sub != [] {
      var f, rest := sub[0], sub[1..];
      assert sub == [f] + rest;
      EntryKeysCons(f, rest);
      ExtendCons(EntryKeys(merged), f.key, EntryKeys(rest));
      FirstAdded(h, merged, f);
      var next := AddEntry(h, merged, f).value;
      SubKeys(next.heap, next.entries, rest);
    }
  }

  lemma {:induction false} SubHeap(h: Heap, merged: Entries, sub: Entries)
    requires Unique(merged) && Unique(sub) && MergeSubNow(h, merged, sub).Some?
    ensures MergeSubNow(h, merged, sub).value.heap == HeapAfter(h, merged, sub)
    decreases |sub|
  {
    if sub != [] {
      var f, rest := sub[0], sub[1..];
      FirstAdded(h, merged, f);
      OneEntry(h, merged, f);
      var next := AddEntry(h, merged, f).value;
      SubHeap(next.heap, next.entries, rest);
      if f.key == "properties" {
        assert PropsOf(rest) == None && PropsOf(sub) == Some(f.value);
      } else {
        assert PropsOf(rest) == PropsOf(sub) && Mine(next.entries) == Mine(merged);
      }
    }
  }

  lemma {:induction false} SubNow(h: Heap, merged: Entries, sub: Entries)
    requires Unique(merged) && Unique(sub)
    ensures var m := MergeSubNow(h, merged, sub);
            && (m == None <==> SubClash(merged, sub))
            && (m.Some? ==>
                  && Unique(m.value.entries) && EntryKeys(m.value.entries) == Extend(EntryKeys(merged), EntryKeys(sub))
                  && m.value.heap == HeapAfter(h, merged, sub))
  {
    SubFails(h, merged, sub);
    if MergeSubNow(h, merged, sub).Some? {
      SubKeys(h, merged, sub);
      SubHeap(h, merged, sub);
    }
  }

  lemma {:induction false} FirstAdded(h: Heap, merged: Entries, f: Entry)
    requires Unique(merged)
    ensures AddEntry(h, merged, f) == None <==> f.key == "properties" && (!f.value.Dict? || !Mine(merged).Dict?)
    ensures AddEntry(h, merged, f).Some? ==>
              var next := AddEntry(h, merged, f).value;
              && Unique(next.entries) && EntryKeys(next.entries) == Extend(EntryKeys(merged), [f.key])
              && (forall k | k != f.key :: Lookup(next.entries, k) == Lookup(merged, k))
              && next.heap == HeapAfter(h, merged, [f])
              && Lookup(next.entries, f.key)
                 == if f.key == "properties" then Some(Joined(h, merged, f.value))
                    else if Lookup(merged, f.key).Some? then Lookup(merged, f.key) else Some(f.value)
  {
    OneEntry(h, merged, f);
    if f.key == "properties" {
      if f.value.Dict? && Mine(merged).Dict? { SetIs(merged, f.key, Joined(h, merged, f.value)); }
    } else {
      EntryKeyIff(merged, f.key);
      ExtendOne(EntryKeys(merged), f.key);
      SetIs(merged, f.key, f.value);
    }
  }

  lemma {:induction false} OneEntry(h: Heap, merged: Entries, f: Entry)
    ensures HeapAfter(h, merged, [f])
            == if f.key == "properties" && f.value.Dict? && Mine(merged).Dict? && Mine(merged).id.Some? then
                 Write(h, Mine(merged), Overlay(Content(h, Mine(merged)), Content(h, f.value)))
               else h
  {
    assert [f][1..] == [] && Lookup([f][1..], "properties") == None;
    assert PropsOf([f]) == if f.key == "properties" then Some(f.value) else None;
  }

  lemma {:induction false} SubFinds(h: Heap, merged: Entries, sub: Entries, k: string)
    requires Unique(merged) && Unique(sub) && MergeSubNow(h, merged, sub).Some?
    ensures var found := Lookup(MergeSubNow(h, merged, sub).value.entries, k);
            if k != "properties" then found == if Lookup(merged, k).Some? then Lookup(merged, k) else Lookup(sub, k)
            else match PropsOf(sub)
              case Some(more) => more.Dict? && Mine(merged).Dict? && found == Some(Joined(h, merged, more))
              case None => found == PropsOf(merged)
    decreases |sub|
  {
    if sub != [] {
      FirstAdded(h, merged, sub[0]);
      var next := AddEntry(h, merged, sub[0]).value;
      SubFinds(next.heap, next.entries, sub[1..], k);
    }
  }

  // ---------- all members ----------

  ghost predicate SoundMembers(h: Heap, subs: seq<Doc>) {
    forall v | v in subs && v.Dict? :: Sound(h, Content(h, v))
  }

  function MoreProps(h: Heap, mine: Entries, v: Doc): Entries {
    match PropsIn(h, v) case Some(p) => (if p.Dict? then Overlay(mine, Content(h, p)) else mine) case None => mine
  }

  function AllProps(h: Heap, mine: Entries, subs: seq<Doc>): Entries
    decreases |subs|
  {
    if subs == [] then mine else AllProps(h, MoreProps(h, mine, subs[0]), subs[1..])
  }

  /** Between two members only the shared dict has changed, and it holds what has been merged. */
  ghost predicate Between(start: Heap, h: Heap, id: Option<nat>, merged: Entries, subs: seq<Doc>) {
    && Unique(merged) && SharedId(merged) == id && OnlyShared(start, h, id)
    && Apart(start, id, subs) && SoundMembers(start, subs)
  }

  lemma SameReads(start: Heap, h: Heap, id: Option<nat>, subs: seq<Doc>, v: Doc)
    requires OnlyShared(start, h, id) && Apart(start, id, subs) && v in subs && v.Dict?
    ensures Content(h, v) == Content(start, v)
    ensures PropsIn(start, v).Some? && PropsIn(start, v).value.Dict? ==>
              Content(h, PropsIn(start, v).value) == Content(start, PropsIn(start, v).value)
  {
  }

  lemma {:induction false} WriteIs(h: Heap, mine: Doc, more: Entries)
    requires mine.Dict?
    ensures var now := if mine.id.Some? then Write(h, mine, Overlay(Content(h, mine), more)) else h;
            && Content(now, Dict(mine.id, Overlay(mine.entries, more))) == Overlay(Content(h, mine), more)
            && OnlyShared(h, now, mine.id)
  {
  }

  lemma {:induction false} MemberStep(start: Heap, h: Heap, id: Option<nat>, merged: Entries, subs: seq<Doc>)
    requires subs != [] && Between(start, h, id, merged, subs)
    requires Live(start, subs[0])
    ensures var v := subs[0];
            var m := MergeSubNow(h, merged, Content(h, v));
            && Content(h, v) == Content(start, v)
            && (m == None <==> Blocks(start, merged, v))
            && (m.Some? ==>
                  && Between(start, m.value.heap, id, m.value.entries, subs[1..])
                  && EntryKeys(m.value.entries) == Extend(EntryKeys(merged), EntryKeys(Content(start, v)))
                  && ParentProps(m.value.heap, m.value.entries) == MoreProps(start, ParentProps(h, merged), v)
                  && (PropsIn(start, v) == None ==> m.value.heap == h && PropsOf(m.value.entries) == PropsOf(merged))
                  && (PropsIn(start, v).Some? ==>
                        PropsOf(m.value.entries).Some? && PropsOf(m.value.entries).value.Dict?))
  {
    var v := subs[0];
    assert v in subs && forall x | x in subs[1..] :: x in subs;
    SameReads(start, h, id, subs, v);
    var sub := Content(h, v);
    SubNow(h, merged, sub);
    if !SubClash(merged, sub) {
      SubFinds(h, merged, sub, "properties");
      if PropsOf(sub).Some? { WriteIs(h, Mine(merged), Content(h, PropsOf(sub).value)); }
    }
  }

  lemma {:induction false} SkipStep(start: Heap, h: Heap, id: Option<nat>, merged: Entries, subs: seq<Doc>)
    requires subs != [] && Between(start, h, id, merged, subs)
    ensures Between(start, h, id, merged, subs[1..])
    ensures !Live(start, subs[0]) ==> NonNullSubsNow(start, subs) == NonNullSubsNow(start, subs[1..])
    ensures Live(start, subs[0]) ==>
              && NonNullSubsNow(start, subs) != [] && NonNullSubsNow(start, subs)[0] == subs[0]
              && NonNullSubsNow(start, subs)[1..] == NonNullSubsNow(start, subs[1..])
  {
    assert forall x | x in subs[1..] :: x in subs;
    assert ([subs[0]] + NonNullSubsNow(start, subs[1..]))[1..] == NonNullSubsNow(start, subs[1..]);
  }

  /** The state after the first member, if it takes part. */
  function AfterMember(start: Heap, h: Heap, merged: Entries, v: Doc): Option<Merged> {
    if Live(start, v) then MergeSubNow(h, merged, Content(h, v)) else Some(Merged(merged, h))
  }

  lemma {:induction false} MembersCons(start: Heap, h: Heap, id: Option<nat>, merged: Entries, subs: seq<Doc>)
    requires subs != [] && Between(start, h, id, merged, subs)
    ensures MergeSubsNow(h, merged, NonNullSubsNow(start, subs))
            == match AfterMember(start, h, merged, subs[0])
               case None => None
               case Some(m) => MergeSubsNow(m.heap, m.entries, NonNullSubsNow(start, subs[1..]))
    ensures AfterMember(start, h, merged, subs[0]) == None <==> Blocks(start, merged, subs[0])
    ensures match AfterMember(start, h, merged, subs[0])
            case None => true
            case Some(m) =>
              && Between(start, m.heap, id, m.entries, subs[1..])
              && EntryKeys(m.entries)
                 == Extend(EntryKeys(merged), if Live(start, subs[0]) then EntryKeys(Content(start, subs[0])) else [])
              && ParentProps(m.heap, m.entries) == MoreProps(start, ParentProps(h, merged), subs[0])
              && (PropsIn(start, subs[0]) == None ==> m.heap == h && PropsOf(m.entries) == PropsOf(merged))
              && (PropsIn(start, subs[0]).Some? ==> PropsOf(m.entries).Some? && PropsOf(m.entries).value.Dict?)
  {
    SkipStep(start, h, id, merged, subs);
    if Live(start, subs[0]) { MemberStep(start, h, id, merged, subs); }
  }

  lemma UnmergeableCons(start: Heap, parent: Entries, subs: seq<Doc>)
    requires subs != []
    ensures Unmergeable(start, parent, subs)
            <==> Blocks(start, parent, subs[0]) || Unmergeable(start, parent, subs[1..])
  {
    assert forall v | v in subs :: v == subs[0] || v in subs[1..];
    assert subs[0] in subs && forall v | v in subs[1..] :: v in subs;
  }

  lemma UnmergeableNext(start: Heap, parent: Entries, next: Entries, v: Doc, subs: seq<Doc>)
    requires !Blocks(start, parent, v)
    requires PropsIn(start, v) == None ==> PropsOf(next) == PropsOf(parent)
    requires PropsIn(start, v).Some? ==> PropsOf(next).Some? && PropsOf(next).value.Dict?
    ensures Unmergeable(start, next, subs) <==> Unmergeable(start, parent, subs)
  {
    assert forall x :: Blocks(start, next, x) <==> Blocks(start, parent, x);
  }

  lemma {:induction false} MembersFail(start: Heap, h: Heap, id: Option<nat>, merged: Entries, subs: seq<Doc>)
    requires Between(start, h, id, merged, subs)
    ensures var m := MergeSubsNow(h, merged, NonNullSubsNow(start, subs));
            && (m == None <==> Unmergeable(start, merged, subs))
            && (m.Some? ==>
                  && Unique(m.value.entries) && OnlyShared(start, m.value.heap, id) && SharedId(m.value.entries) == id
                  && EntryKeys(m.value.entries) == Extend(EntryKeys(merged), MemberKeys(start, subs))
                  && ParentProps(m.value.heap, m.value.entries) == AllProps(start, ParentProps(h, merged), subs))
    decreases |subs|
  {
    if subs != [] {
      MembersCons(start, h, id, merged, subs);
      UnmergeableCons(start, merged, subs);
      var own := if Live(start, subs[0]) then EntryKeys(Content(start, subs[0])) else [];
      ExtendConcat(EntryKeys(merged), own, MemberKeys(start, subs[1..]));
      match AfterMember(start, h, merged, subs[0])
      case None =>
      case Some(m) =>
        UnmergeableNext(start, merged, m.entries, subs[0], subs[1..]);
        MembersFail(start, m.heap, id, m.entries, subs[1..]);
    }
  }

  lemma {:induction false} MembersProps(start: Heap, h: Heap, id: Option<nat>, merged: Entries, subs: seq<Doc>)
    requires Between(start, h, id, merged, subs)
    requires MergeSubsNow(h, merged, NonNullSubsNow(start, subs)).Some?
    ensures var m := MergeSubsNow(h, merged, NonNullSubsNow(start, subs)).value;
            if forall v | v in subs :: PropsIn(start, v) == None then
              m.heap == h && PropsOf(m.entries) == PropsOf(merged)
            else PropsOf(m.entries).Some? && PropsOf(m.entries).value.Dict?
    decreases |subs|
  {
    if subs != [] {
      MembersCons(start, h, id, merged, subs);
      assert forall v | v in subs :: v == subs[0] || v in subs[1..];
      assert subs[0] in subs && forall v | v in subs[1..] :: v in subs;
      var m := AfterMember(start, h, merged, subs[0]).value;
      MembersProps(start, m.heap, id, m.entries, subs[1..]);
    }
  }

  lemma {:induction false} MembersFind(
    start: Heap, h: Heap, id: Option<nat>, merged: Entries, subs: seq<Doc>, k: string)
    requires Between(start, h, id, merged, subs) && k != "properties"
    requires MergeSubsNow(h, merged, NonNullSubsNow(start, subs)).Some?
    ensures Lookup(MergeSubsNow(h, merged, NonNullSubsNow(start, subs)).value.entries, k)
            == if Lookup(merged, k).Some? then Lookup(merged, k) else FirstFound(start, subs, k)
    decreases |subs|
  {
    if subs != [] {
      MembersCons(start, h, id, merged, subs);
      var m := AfterMember(start, h, merged, subs[0]).value;
      if Live(start, subs[0]) {
        assert subs[0] in subs;
        SameReads(start, h, id, subs, subs[0]);
        SubFinds(h, merged, Content(h, subs[0]), k);
      }
      MembersFind(start, m.heap, id, m.entries, subs[1..], k);
    }
  }

  lemma {:induction false} AllPropsKeys(start: Heap, mine: Entries, subs: seq<Doc>)
    requires Unique(mine) && SoundMembers(start, subs)
    ensures Unique(AllProps(start, mine, subs))
    ensures EntryKeys(AllProps(start, mine, subs)) == Extend(EntryKeys(mine), MemberPropKeys(start, subs))
    decreases |subs|
  {
    if subs != [] {
      assert forall v | v in subs[1..] :: v in subs;
      ExtendConcat(EntryKeys(mine), PropKeys(start, subs[0]), MemberPropKeys(start, subs[1..]));
      MorePropsIs(start, mine, subs);
      AllPropsKeys(start, MoreProps(start, mine, subs[0]), subs[1..]);
    }
  }

  lemma {:induction false} MorePropsIs(start: Heap, mine: Entries, subs: seq<Doc>)
    requires Unique(mine) && SoundMembers(start, subs) && subs != []
    ensures var more := MoreProps(start, mine, subs[0]);
            && Unique(more) && EntryKeys(more) == Extend(EntryKeys(mine), PropKeys(start, subs[0]))
            && forall k ::
                 Lookup(more, k)
                 == if HoldsProp(start, subs[0], k) then Lookup(Content(start, PropsIn(start, subs[0]).value), k)
                    else Lookup(mine, k)
  {
    assert subs[0] in subs;
    if PropsIn(start, subs[0]).Some? && PropsIn(start, subs[0]).value.Dict? {
      OverlayIs(mine, Content(start, PropsIn(start, subs[0]).value));
    }
  }

  lemma {:induction false} AllPropsFind(start: Heap, mine: Entries, subs: seq<Doc>, k: string)
    requires Unique(mine) && SoundMembers(start, subs)
    ensures Lookup(AllProps(start, mine, subs), k)
            == if LastFound(start, subs, k).Some? then LastFound(start, subs, k) else Lookup(mine, k)
    decreases |subs|
  {
    if subs != [] {
      assert forall v | v in subs[1..] :: v in subs;
      MorePropsIs(start, mine, subs);
      AllPropsFind(start, MoreProps(start, mine, subs[0]), subs[1..], k);
    }
  }

  lemma {:induction false} PropsMerged(start: Heap, mine: Entries, subs: seq<Doc>)
    requires Unique(mine) && SoundMembers(start, subs)
    ensures PropsInto(start, AllProps(start, mine, subs), mine, subs)
  {
    AllPropsKeys(start, mine, subs);
    forall k: string
      ensures Lookup(AllProps(start, mine, subs), k)
              == if LastFound(start, subs, k).Some? then LastFound(start, subs, k) else Lookup(mine, k)
    {
      AllPropsFind(start, mine, subs, k);
    }
    forall k, i | 0 <= i < |subs| && HoldsProp(start, subs[i], k)
                  && (forall j | i < j < |subs| :: !HoldsProp(start, subs[j], k))
      ensures Lookup(AllProps(start, mine, subs), k) == Lookup(Content(start, PropsIn(start, subs[i]).value), k)
    {
      LastFoundAt(start, subs, k, i);
    }
    forall k | forall v | v in subs :: !HoldsProp(start, v, k)
      ensures Lookup(AllProps(start, mine, subs), k) == Lookup(mine, k)
    {
      NoneFoundLast(start, subs, k);
    }
  }

  lemma {:induction false} MembersMerged(h: Heap, parent: Entries, subs: seq<Doc>)
    requires Sound(h, parent) && SoundMembers(h, subs) && Apart(h, SharedId(parent), subs)
    ensures var m := MergeSubsNow(h, parent, NonNullSubsNow(h, subs));
            && (m == None <==> Unmergeable(h, parent, subs))
            && (m.Some? ==> MembersInto(h, m.value.heap, m.value.entries, parent, subs))
  {
    var id := SharedId(parent);
    MembersFail(h, h, id, parent, subs);
    if MergeSubsNow(h, parent, NonNullSubsNow(h, subs)).Some? {
      var d := MergeSubsNow(h, parent, NonNullSubsNow(h, subs)).value.entries;
      MembersProps(h, h, id, parent, subs);
      PropsMerged(h, ParentProps(h, parent), subs);
      forall k | k != "properties"
        ensures Lookup(d, k) == if Lookup(parent, k).Some? then Lookup(parent, k) else FirstFound(h, subs, k)
      {
        MembersFind(h, h, id, parent, subs, k);
      }
      forall k, i | 0 <= i < |subs| && Holds(h, subs[i], k) && (forall j | 0 <= j < i :: !Holds(h, subs[j], k))
        ensures FirstFound(h, subs, k) == Lookup(Content(h, subs[i]), k)
      {
        FirstFoundAt(h, subs, k, i);
      }
      forall k | forall v | v in subs :: !Holds(h, v, k) ensures FirstFound(h, subs, k) == None {
        NoneFound(h, subs, k);
      }
    }
  }

  /** Main theorem: whatever the run has changed so far, a dict with an `allOf`, and no `oneOf` Python reads as
      true, is rendered as its members merged into it. The one dict this can change is that of the parent's
      `properties`, which is left holding the members' entries too. */
  lemma AllOfRuns(
    depth: nat, h: Heap, c: Doc, subs: seq<Doc>, path: string, root: Doc) returns (merged: Entries, now: Heap)
    requires c.Dict? && Sound(h, Content(h, c)) && SoundMembers(h, subs)
    requires Lookup(Content(h, c), "$ref") == None && Lookup(Content(h, c), "allOf") == Some(List(subs))
    requires Lookup(Content(h, c), "oneOf").Some? ==> !Truth(h, Lookup(Content(h, c), "oneOf").value)
    requires Apart(h, SharedId(Content(h, c)), subs)
    ensures var parent := Drop(Content(h, c), "allOf");
            if Unmergeable(h, parent, subs) then Slim(depth + 1, h, c, path, root) == Failed
            else
              && MembersInto(h, now, merged, parent, subs)
              && Slim(depth + 1, h, c, path, root) == Noting([], Slim(depth, now, Dict(None, merged), path, root))
  {
    var parent := Drop(Content(h, c), "allOf");
    DropSound(h, Content(h, c), "allOf");
    MembersMerged(h, parent, subs);
    AllOfTaken(h, c, subs, root);
    AllOfStepRuns(depth, h, c, subs, path, root);
    merged, now := [], h;
    if MergeSubsNow(h, parent, NonNullSubsNow(h, subs)).Some? {
      var m := MergeSubsNow(h, parent, NonNullSubsNow(h, subs)).value;
      merged, now := m.entries, m.heap;
    }
  }

  lemma {:induction false} DropSound(h: Heap, d: Entries, k: string)
    requires Sound(h, d) && k != "properties"
    ensures Sound(h, Drop(d, k)) && PropsOf(Drop(d, k)) == PropsOf(d)
  {
    DropIs(d, k);
  }

  lemma AllOfStepRuns(depth: nat, h: Heap, c: Doc, subs: seq<Doc>, path: string, root: Doc)
    requires c.Dict? && StepOf(h, c, root) == AllOfStep(h, Content(h, c), subs)
    ensures Slim(depth + 1, h, c, path, root)
            == match MergeSubsNow(h, Drop(Content(h, c), "allOf"), NonNullSubsNow(h, subs))
               case Some(m) => Noting([], Slim(depth, m.heap, Dict(None, m.entries), path, root))
               case None => Failed
  {
    match MergeSubsNow(h, Drop(Content(h, c), "allOf"), NonNullSubsNow(h, subs))
    case Some(m) =>
      match Slim(depth, m.heap, Dict(None, m.entries), path, root) {
        case Finished(v, ws, end) => assert [] + ws == ws;
        case _ =>
      }
    case None =>
  }

  lemma AllOfTaken(h: Heap, c: Doc, subs: seq<Doc>, root: Doc)
    requires c.Dict?
    requires Lookup(Content(h, c), "$ref") == None && Lookup(Content(h, c), "allOf") == Some(List(subs))
    requires Lookup(Content(h, c), "oneOf").Some? ==> !Truth(h, Lookup(Content(h, c), "oneOf").value)
    ensures StepOf(h, c, root) == AllOfStep(h, Content(h, c), subs)
  {
  }

  // ---------- the conditions, key by key ----------

  lemma {:induction false} RenderedIff(h: Heap, variants: seq<Doc>, i: nat, j: nat)
    ensures Rendered(h, variants, i)
            <==> && i < |variants|
                 && ((&& (forall k | 0 <= k < i ::
                            variants[k].Dict? && Lookup(Content(h, variants[k]), "type") == Some(Scalar(Str("null"))))
                      && !(variants[i].Dict? && Lookup(Content(h, variants[i]), "type") == Some(Scalar(Str("null")))))
                     || (i == 0 && forall v | v in variants ::
                                     v.Dict? && Lookup(Content(h, v), "type") == Some(Scalar(Str("null")))))
    ensures j in Candidates(h, variants)
            <==> && j < |variants|
                 && !(variants[j].Dict? && Lookup(Content(h, variants[j]), "type") == Some(Scalar(Str("null"))))
  {
    if i < |variants| { assert variants[i] in variants; }
  }

  lemma {:induction false} VariantKey(h: Heap, d: Entries, parent: Entries, variant: Entries, k: string)
    requires VariantOver(h, d, parent, variant) && k != "properties"
    ensures Lookup(d, k) == if Lookup(variant, k) != None then Lookup(variant, k) else Lookup(parent, k)
  {
  }

  lemma {:induction false} VariantProperty(h: Heap, d: Entries, parent: Entries, variant: Entries, k: string)
    requires VariantOver(h, d, parent, variant)
    ensures Lookup(parent, "properties") == None ==> Lookup(d, "properties") == Lookup(variant, "properties")
    ensures Lookup(variant, "properties") == None ==> Lookup(d, "properties") == Lookup(parent, "properties")
    ensures forall mine: Doc, more: Doc |
              Lookup(parent, "properties") == Some(mine) && Lookup(variant, "properties") == Some(more) ::
              && mine.Dict? && more.Dict? && Lookup(d, "properties").Some? && Lookup(d, "properties").value.Dict?
              && Lookup(d, "properties").value.id == None
              && Lookup(Lookup(d, "properties").value.entries, k)
                 == if Lookup(Content(h, more), k) != None then Lookup(Content(h, more), k)
                    else Lookup(Content(h, mine), k)
  {
  }

  /** A member holds a key, or an entry of its `properties`. */
  lemma {:induction false} HoldsIff(h: Heap, v: Doc, k: string)
    ensures Holds(h, v, k)
            <==> && v.Dict? && Lookup(Content(h, v), "type") != Some(Scalar(Str("null")))
                 && Lookup(Content(h, v), k) != None
    ensures HoldsProp(h, v, k)
            <==> && Holds(h, v, "properties") && Lookup(Content(h, v), "properties").value.Dict?
                 && Lookup(Content(h, Lookup(Content(h, v), "properties").value), k) != None
  {
  }

  /** A key that the parent has, or that member `i` is the first to hold. */
  lemma {:induction false} MemberKey(
    h: Heap, now: Heap, d: Entries, parent: Entries, subs: seq<Doc>, k: string, i: nat)
    requires i < |subs| && Holds(h, subs[i], k) && forall j | 0 <= j < i :: !Holds(h, subs[j], k)
    requires k != "properties" && MembersInto(h, now, d, parent, subs)
    ensures Lookup(d, k) == if Lookup(parent, k) != None then Lookup(parent, k) else Lookup(Content(h, subs[i]), k)
  {
  }

  /** An entry of `properties` that member `i` is the last to hold is found in the extended dict itself, as it is
      after the step; no other dict has changed. */
  lemma {:induction false} MemberProperty(
    h: Heap, now: Heap, d: Entries, parent: Entries, subs: seq<Doc>, k: string, i: nat)
    requires i < |subs| && HoldsProp(h, subs[i], k) && forall j | i < j < |subs| :: !HoldsProp(h, subs[j], k)
    requires MembersInto(h, now, d, parent, subs)
    ensures PropsOf(d).Some? && PropsOf(d).value.Dict?
    ensures Lookup(Content(now, PropsOf(d).value), k)
            == Lookup(Content(h, Lookup(Content(h, subs[i]), "properties").value), k)
    ensures PropsOf(parent).Some? && PropsOf(parent).value.Dict? ==> PropsOf(d).value.id == PropsOf(parent).value.id
    ensures forall x | x in h && Some(x) != PropsOf(d).value.id :: x in now && now[x] == h[x]
  {
    assert subs[i] in subs && PropsIn(h, subs[i]) != None;
  }
}
