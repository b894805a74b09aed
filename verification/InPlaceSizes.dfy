/** Sizes of schemas in a document whose extended dicts hold their members' entries as well: every call goes
    on with something smaller, whatever the run has changed by then. */
module InPlaceSizes {
  import opened Json
  import opened SchemaTemplate
  import opened InPlace
  import opened InPlaceSteps
  import opened InPlaceRuns
  import opened InPlaceSeparate

  // ---------- the extended document ----------

  ghost predicate Inside(d: Doc, whole: Doc) {
    d == whole ||
    match whole
    case Scalar(_) => false
    case List(items) => exists x | x in items :: Inside(d, x)
    case Dict(_, entries) => exists e | e in entries :: Inside(d, e.value)
  }

  lemma {:induction false} InsideInside(a: Doc, b: Doc, c: Doc)
    requires Inside(a, b) && Inside(b, c)
    ensures Inside(a, c)
    decreases c
  {
    if b != c {
      match c
      case List(items) =>
        var x :| x in items && Inside(b, x);
        InsideInside(a, b, x);
      case Dict(_, entries) =>
        var e :| e in entries && Inside(b, e.value);
        InsideInside(a, b, e.value);
    }
  }

  lemma {:induction false} EntryInside(e: Entry, d: Doc, root: Doc)
    requires d.Dict? && e in d.entries && Inside(d, root)
    ensures Inside(e.value, root)
  {
    assert Inside(e.value, d);
    InsideInside(e.value, d, root);
  }

  lemma {:induction false} ItemInside(x: Doc, d: Doc, root: Doc)
    requires d.List? && x in d.items && Inside(d, root)
    ensures Inside(x, root)
  {
    assert Inside(x, d);
    InsideInside(x, d, root);
  }

  /** `full` gives every dict that may be extended all entries it may come to hold. */
  ghost predicate Part(d: Entries, full: Heap, id: nat)
    requires id in full
  {
    Unique(d) && forall e | e in d :: e in full[id]
  }

  ghost predicate Covered(h: Heap, full: Heap) {
    forall id | id in h :: id in full && Part(h[id], full, id)
  }

  /** It starts with what the document's dicts hold, and all of it comes from the document. */
  ghost predicate Full(full: Heap, root: Doc) {
    && (forall d: Doc | Inside(d, root) && d.Dict? && d.id.Some? && d.id.value in full ::
          Part(d.entries, full, d.id.value))
    && (forall id, e | id in full && e in full[id] :: Inside(e.value, root))
  }

  // ---------- extensions that stay within it ----------

  /** A member's `properties` go into a dict that is `full` with them, or bring nothing new. */
  predicate EntryHeld(full: Heap, h: Heap, merged: Entries, f: Entry) {
    f.key == "properties" && f.value.Dict? ==>
      match PropsOf(merged)
      case Some(Dict(Some(id), entries)) =>
        var mine := Content(h, PropsOf(merged).value);
        || (id in full && forall e | e in Content(h, f.value) :: e in full[id])
        || Overlay(mine, Content(h, f.value)) == mine
      case _ => true
  }

  predicate SubHeld(full: Heap, h: Heap, merged: Entries, sub: Entries)
    decreases |sub|
  {
    sub == [] ||
    (EntryHeld(full, h, merged, sub[0]) &&
     match AddEntry(h, merged, sub[0])
     case None => true
     case Some(next) => SubHeld(full, next.heap, next.entries, sub[1..]))
  }

  predicate MembersHeld(full: Heap, h: Heap, merged: Entries, subs: seq<Doc>)
    decreases |subs|
  {
    subs == [] || !subs[0].Dict? ||
    (SubHeld(full, h, merged, Content(h, subs[0])) &&
     match MergeSubNow(h, merged, Content(h, subs[0]))
     case None => true
     case Some(next) => MembersHeld(full, next.heap, next.entries, subs[1..]))
  }

  predicate KeywordHeld(full: Heap, h: Heap, d: Entries) {
    (Lookup(d, "oneOf").Some? && Truth(h, Lookup(d, "oneOf").value)) ||
    match Lookup(d, "allOf")
    case Some(List(subs)) => MembersHeld(full, h, Drop(d, "allOf"), NonNullSubsNow(h, subs))
    case _ => true
  }

  predicate StepHeld(full: Heap, h: Heap, c: Doc, root: Doc) {
    c.Dict? ==>
      var d := Content(h, c);
      match Lookup(d, "$ref")
      case None => KeywordHeld(full, h, d)
      case Some(ref) => ResolveNow(h, ref, root).Some? || KeywordHeld(full, h, Drop(d, "$ref"))
  }

  /** Whatever the extended dicts hold by then, the schemas a schema is rewritten to extend within `full`. */
  ghost predicate ChainHeld(n: nat, full: Heap, c: Doc, root: Doc)
    decreases n
  {
    n > 0 ==>
      forall h: Heap | Covered(h, full) ::
        && StepHeld(full, h, c, root)
        && (StepOf(h, c, root).0.Rewritten? ==> ChainHeld(n - 1, full, StepOf(h, c, root).0.schema, root))
  }

  ghost predicate AlwaysHeld(full: Heap, c: Doc, root: Doc) {
    forall n: nat :: ChainHeld(n, full, c, root)
  }

  /** Every dict that an `allOf` anywhere in the document extends also holds its members' entries. */
  ghost predicate Held(full: Heap, root: Doc) {
    Full(full, root) && forall c: Doc | Inside(c, root) :: AlwaysHeld(full, c, root)
  }

  // ---------- sizes ----------

  datatype Name = Shared(id: nat) | Ref(path: string)

  /** A document, the extended dicts, and a size for every extended dict and every reference. */
  datatype Plan = Plan(root: Doc, full: Heap, size: Name -> nat)

  function Weight(p: Plan, d: Doc): nat
    decreases d, 0
  {
    match d
    case Scalar(_) => 1
    case List(items) => 1 + ItemsWeight(p, items)
    case Dict(id, entries) =>
      if id.Some? && id.value in p.full then p.size(Shared(id.value)) else 1 + EntriesWeight(p, entries)
  }

  function ItemsWeight(p: Plan, items: seq<Doc>): nat
    decreases items, 1
  {
    if items == [] then 0 else Weight(p, items[0]) + ItemsWeight(p, items[1..])
  }

  function EntriesWeight(p: Plan, d: Entries): nat
    decreases d, 1
  {
    if d == [] then 0 else EntryWeight(p, d[0]) + EntriesWeight(p, d[1..])
  }

  function EntryWeight(p: Plan, e: Entry): nat
    decreases e, 2
  {
    1 + Weight(p, e.value) + if e.key == "$ref" && IsRef(e.value) then p.size(Ref(e.value.value.s)) else 0
  }

  /** Sizes exceed everything behind them. */
  ghost predicate Sized(p: Plan) {
    && (forall id | id in p.full :: EntriesWeight(p, p.full[id]) < p.size(Shared(id)))
    && (forall s: string, h: Heap | Covered(h, p.full) && ResolveNow(h, Scalar(Str(s)), p.root).Some? ::
          EntriesWeight(p, Content(h, ResolveNow(h, Scalar(Str(s)), p.root).value)) < p.size(Ref(s)))
  }

  ghost predicate Sound(p: Plan) {
    Held(p.full, p.root) && Sized(p)
  }

  // ---------- weights of merged entries ----------

  function HeldWeight(p: Plan, d: Entries, k: string): nat {
    match Lookup(d, k) case Some(v) => EntryWeight(p, Entry(k, v)) case None => 0
  }

  lemma {:induction false} SetWeight(p: Plan, d: Entries, k: string, v: Doc)
    ensures EntriesWeight(p, Set(d, k, v)) + HeldWeight(p, d, k) == EntriesWeight(p, d) + EntryWeight(p, Entry(k, v))
  {
    if d == [] {
      assert [Entry(k, v)][1..] == [];
    } else if d[0].key == k {
      assert ([Entry(k, v)] + d[1..])[1..] == d[1..] && d[0] == Entry(k, d[0].value);
    } else {
      SetWeight(p, d[1..], k, v);
      assert ([d[0]] + Set(d[1..], k, v))[1..] == Set(d[1..], k, v);
    }
  }

  lemma {:induction false} OverlayWeight(p: Plan, d: Entries, more: Entries)
    ensures EntriesWeight(p, Overlay(d, more)) <= EntriesWeight(p, d) + EntriesWeight(p, more)
    decreases |more|
  {
    if more != [] {
      assert more[0] == Entry(more[0].key, more[0].value);
      SetWeight(p, d, more[0].key, more[0].value);
      OverlayWeight(p, Set(d, more[0].key, more[0].value), more[1..]);
    }
  }

  lemma {:induction false} DropWeight(p: Plan, d: Entries, k: string)
    ensures EntriesWeight(p, Drop(d, k)) + HeldWeight(p, d, k) <= EntriesWeight(p, d)
  {
    if d != [] {
      DropWeight(p, d[1..], k);
      assert d[0] == Entry(d[0].key, d[0].value);
      assert ([d[0]] + Drop(d[1..], k))[1..] == Drop(d[1..], k);
    }
  }

  lemma {:induction false} MemberWeight(p: Plan, d: Entries, e: Entry)
    requires e in d
    ensures EntryWeight(p, e) <= EntriesWeight(p, d)
  {
    if d[0] != e {
      assert e in d[1..];
      MemberWeight(p, d[1..], e);
    }
  }

  lemma {:induction false} RemoveWeight(p: Plan, s: Entries, i: nat)
    requires i < |s|
    ensures EntriesWeight(p, s) == EntryWeight(p, s[i]) + EntriesWeight(p, s[..i] + s[i + 1..])
  {
    if i == 0 {
      assert s[..0] + s[1..] == s[1..];
    } else {
      RemoveWeight(p, s[1..], i - 1);
      var rest := s[..i] + s[i + 1..];
      assert rest[0] == s[0] && rest[1..] == s[1..][..i - 1] + s[1..][i..];
    }
  }

  /** Some of the entries, none twice, weigh no more than all of them. */
  lemma {:induction false} PartWeight(p: Plan, d: Entries, s: Entries)
    requires Unique(d) && forall e | e in d :: e in s
    ensures EntriesWeight(p, d) <= EntriesWeight(p, s)
  {
    if d != [] {
      assert d[0] in d && d[0] in s;
      var i :| 0 <= i < |s| && s[i] == d[0];
      RemoveWeight(p, s, i);
      var rest := s[..i] + s[i + 1..];
      forall e | e in d[1..] ensures e in rest {
        UniqueLookup(d[1..], e);
        assert e in d && e != d[0];
        var j :| 0 <= j < |s| && s[j] == e;
        if j < i { assert rest[j] == e; } else { assert rest[j - 1] == e; }
      }
      PartWeight(p, d[1..], rest);
    }
  }

  lemma {:induction false} ItemWeight(p: Plan, items: seq<Doc>, x: Doc)
    requires x in items
    ensures Weight(p, x) <= ItemsWeight(p, items)
  {
    if items[0] != x {
      assert x in items[1..];
      ItemWeight(p, items[1..], x);
    }
  }

  lemma {:induction false} SubsWeight(p: Plan, h: Heap, vs: seq<Doc>)
    ensures ItemsWeight(p, NonNullSubsNow(h, vs)) <= ItemsWeight(p, vs)
    ensures forall v | v in NonNullSubsNow(h, vs) :: v in vs
    ensures forall v | v in NonNullVariantsNow(h, vs) :: v in vs
  {
    if vs != [] {
      SubsWeight(p, h, vs[1..]);
      assert vs[0] in vs && forall v | v in vs[1..] :: v in vs;
      var rest := NonNullSubsNow(h, vs[1..]);
      assert ([vs[0]] + rest)[1..] == rest;
    }
  }

  // ---------- schemas in hand ----------

  /** What is known of a `properties` dict in hand: it holds values of the document, within its weight. */
  ghost predicate PropsFed(h: Heap, p: Plan, v: Doc) {
    v.Dict? ==>
      && (forall e | e in Content(h, v) :: Inside(e.value, p.root))
      && 1 + EntriesWeight(p, Content(h, v)) <= Weight(p, v)
      && (v.id.Some? && v.id.value in p.full ==> Part(Content(h, v), p.full, v.id.value))
  }

  ghost predicate EntryFed(h: Heap, p: Plan, e: Entry) {
    if e.key == "properties" then PropsFed(h, p, e.value) else Inside(e.value, p.root)
  }

  ghost predicate Fed(h: Heap, p: Plan, d: Entries) {
    forall e | e in d :: EntryFed(h, p, e)
  }

  lemma {:induction false} InsideFed(h: Heap, p: Plan, v: Doc)
    requires Sound(p) && Covered(h, p.full) && Inside(v, p.root)
    ensures PropsFed(h, p, v)
  {
    if v.Dict? {
      if v.id.Some? && v.id.value in p.full {
        assert Part(Content(h, v), p.full, v.id.value);
        PartWeight(p, Content(h, v), p.full[v.id.value]);
      } else {
        forall e | e in v.entries ensures Inside(e.value, p.root) { EntryInside(e, v, p.root); }
      }
    }
  }

  /** The entries of a dict of the document. */
  lemma {:induction false} ContentFed(h: Heap, p: Plan, v: Doc)
    requires Sound(p) && Covered(h, p.full) && Inside(v, p.root) && v.Dict?
    ensures Fed(h, p, Content(h, v)) && 1 + EntriesWeight(p, Content(h, v)) <= Weight(p, v)
  {
    InsideFed(h, p, v);
    forall e | e in Content(h, v) ensures EntryFed(h, p, e) { InsideFed(h, p, e.value); }
  }

  lemma PropsLater(h: Heap, later: Heap, p: Plan, v: Doc)
    requires Sound(p) && Covered(h, p.full) && Covered(later, p.full) && h.Keys <= later.Keys
    requires PropsFed(h, p, v)
    ensures PropsFed(later, p, v)
  {
    if v.Dict? && v.id.Some? && v.id.value in later {
      PartWeight(p, later[v.id.value], p.full[v.id.value]);
    }
  }

  lemma FedLater(h: Heap, later: Heap, p: Plan, d: Entries)
    requires Sound(p) && Covered(h, p.full) && Covered(later, p.full) && h.Keys <= later.Keys
    requires Fed(h, p, d)
    ensures Fed(later, p, d)
  {
    forall e | e in d ensures EntryFed(later, p, e) {
      if e.key == "properties" { PropsLater(h, later, p, e.value); }
    }
  }

  lemma {:induction false} SetFed(h: Heap, p: Plan, d: Entries, k: string, v: Doc)
    requires Fed(h, p, d) && EntryFed(h, p, Entry(k, v))
    ensures Fed(h, p, Set(d, k, v))
  {
    SetMembers(d, k, v);
  }

  lemma {:induction false} DropFed(h: Heap, p: Plan, d: Entries, k: string)
    requires Fed(h, p, d)
    ensures Fed(h, p, Drop(d, k))
  {
    DropMembers(d, k);
  }

  lemma {:induction false} LookupFed(h: Heap, p: Plan, d: Entries, k: string)
    requires Fed(h, p, d) && Lookup(d, k).Some?
    ensures EntryFed(h, p, Entry(k, Lookup(d, k).value))
    ensures EntryWeight(p, Entry(k, Lookup(d, k).value)) <= EntriesWeight(p, d)
  {
    LookupIn(d, k);
    MemberWeight(p, d, Entry(k, Lookup(d, k).value));
  }

  // ---------- the merges ----------

  /** Entries after a merge, within a weight. */
  ghost predicate Within(h: Heap, p: Plan, d: Entries, w: nat) {
    Fed(h, p, d) && EntriesWeight(p, d) <= w
  }

  lemma {:induction false} SetWithin(h: Heap, p: Plan, d: Entries, k: string, v: Doc)
    requires Fed(h, p, d) && EntryFed(h, p, Entry(k, v))
    ensures Within(h, p, Set(d, k, v), EntriesWeight(p, d) + EntryWeight(p, Entry(k, v)))
  {
    SetFed(h, p, d, k, v);
    SetWeight(p, d, k, v);
  }

  /** A dict built from two others. */
  lemma {:induction false} BothFed(h: Heap, p: Plan, mine: Doc, theirs: Doc)
    requires mine.Dict? && theirs.Dict? && PropsFed(h, p, mine) && PropsFed(h, p, theirs)
    ensures var both := Dict(None, Overlay(Content(h, mine), Content(h, theirs)));
            PropsFed(h, p, both) && Weight(p, both) < Weight(p, mine) + Weight(p, theirs)
  {
    OverlayWeight(p, Content(h, mine), Content(h, theirs));
    OverlayMembers(Content(h, mine), Content(h, theirs));
  }

  lemma {:induction false} ReplaceProps(h: Heap, p: Plan, d: Entries, v: Doc, more: nat)
    requires Fed(h, p, d) && PropsOf(d).Some? && PropsFed(h, p, v)
    requires Weight(p, v) <= Weight(p, PropsOf(d).value) + more
    ensures Within(h, p, Set(d, "properties", v), EntriesWeight(p, d) + more)
  {
    SetFed(h, p, d, "properties", v);
    SetWeight(p, d, "properties", v);
  }

  lemma {:induction false} VariantWithin(h: Heap, p: Plan, merged: Entries, chosen: Entries)
    requires Fed(h, p, merged) && Fed(h, p, chosen)
    ensures var m := MergeVariantNow(h, merged, chosen);
            m.Some? ==> Within(h, p, m.value, EntriesWeight(p, merged) + EntriesWeight(p, chosen))
    decreases |chosen|
  {
    if chosen != [] {
      var f := chosen[0];
      assert f in chosen && f == Entry(f.key, f.value) && forall e | e in chosen[1..] :: e in chosen;
      assert EntryFed(h, p, f);
      if f.key != "properties" || PropsOf(merged).None? {
        SetWithin(h, p, merged, f.key, f.value);
        VariantWithin(h, p, Set(merged, f.key, f.value), chosen[1..]);
      } else {
        var mine := PropsOf(merged).value;
        if mine.Dict? && f.value.Dict? {
          var both := Dict(None, Overlay(Content(h, mine), Content(h, f.value)));
          LookupFed(h, p, merged, "properties");
          BothFed(h, p, mine, f.value);
          ReplaceProps(h, p, merged, both, Weight(p, f.value));
          VariantWithin(h, p, Set(merged, f.key, both), chosen[1..]);
        }
      }
    }
  }

  /** The state after a step of an `allOf` merge. */
  ghost predicate Added(h: Heap, p: Plan, m: Merged, w: nat) {
    Covered(m.heap, p.full) && h.Keys <= m.heap.Keys && Within(m.heap, p, m.entries, w)
  }

  lemma {:induction false} SharedGrows(h: Heap, p: Plan, mine: Doc, more: Entries)
    requires Sound(p) && Covered(h, p.full) && mine.Dict? && mine.id.Some? && mine.id.value in p.full
    requires PropsFed(h, p, mine)
    requires (forall e | e in more :: e in p.full[mine.id.value]) || Overlay(Content(h, mine), more) == Content(h, mine)
    ensures var later := Write(h, mine, Overlay(Content(h, mine), more));
            Covered(later, p.full) && PropsFed(later, p, Dict(mine.id, Overlay(mine.entries, more)))
  {
    var id, now := mine.id.value, Overlay(Content(h, mine), more);
    var later := Write(h, mine, now);
    OverlayPart(p.full, id, Content(h, mine), more, now);
    assert Covered(later, p.full);
    assert Content(later, Dict(mine.id, Overlay(mine.entries, more))) == now;
    PartWeight(p, now, p.full[id]);
  }

  /** The in-place extension. */
  lemma {:induction false} SharedAdded(h: Heap, p: Plan, merged: Entries, f: Entry)
    requires Sound(p) && Covered(h, p.full) && Fed(h, p, merged) && EntryHeld(p.full, h, merged, f)
    requires f.key == "properties" && f.value.Dict? && PropsFed(h, p, f.value)
    requires PropsOf(merged).Some? && PropsOf(merged).value.Dict? && PropsOf(merged).value.id.Some?
    ensures AddEntry(h, merged, f).Some?
    ensures Added(h, p, AddEntry(h, merged, f).value, EntriesWeight(p, merged) + EntryWeight(p, f))
  {
    var mine := PropsOf(merged).value;
    var more := Content(h, f.value);
    var grown := Dict(mine.id, Overlay(mine.entries, more));
    var later := Write(h, mine, Overlay(Content(h, mine), more));
    LookupFed(h, p, merged, "properties");
    if mine.id.value in p.full {
      SharedGrows(h, p, mine, more);
    } else {
      assert mine.id.value !in h && later == h && grown == mine;
    }
    FedLater(h, later, p, merged);
    ReplaceProps(later, p, merged, grown, 0);
  }

  lemma {:induction false} OverlayPart(full: Heap, id: nat, d: Entries, more: Entries, now: Entries)
    requires id in full && Part(d, full, id) && now == Overlay(d, more)
    requires (forall e | e in more :: e in full[id]) || now == d
    ensures Part(now, full, id)
    decreases |more|
  {
    if now != d && more != [] {
      var next := Set(d, more[0].key, more[0].value);
      assert more[0] == Entry(more[0].key, more[0].value) && more[0] in more;
      SetMembers(d, more[0].key, more[0].value);
      SetUnique(d, more[0].key, more[0].value);
      assert forall e | e in more[1..] :: e in more;
      OverlayPart(full, id, next, more[1..], now);
    }
  }

  lemma {:induction false} FreshAdded(h: Heap, p: Plan, merged: Entries, f: Entry)
    requires Covered(h, p.full) && Fed(h, p, merged) && PropsFed(h, p, f.value)
    requires f.key == "properties" && f.value.Dict? && PropsOf(merged).None?
    ensures AddEntry(h, merged, f).Some?
    ensures Added(h, p, AddEntry(h, merged, f).value, EntriesWeight(p, merged) + EntryWeight(p, f))
  {
    OverlayWeight(p, [], Content(h, f.value));
    OverlayMembers([], Content(h, f.value));
    SetWithin(h, p, merged, f.key, Dict(None, Overlay([], Content(h, f.value))));
  }

  lemma {:induction false} UnsharedAdded(h: Heap, p: Plan, merged: Entries, f: Entry)
    requires Covered(h, p.full) && Fed(h, p, merged) && PropsFed(h, p, f.value)
    requires f.key == "properties" && f.value.Dict?
    requires PropsOf(merged).Some? && PropsOf(merged).value.Dict? && PropsOf(merged).value.id.None?
    ensures AddEntry(h, merged, f).Some?
    ensures Added(h, p, AddEntry(h, merged, f).value, EntriesWeight(p, merged) + EntryWeight(p, f))
  {
    var mine := PropsOf(merged).value;
    LookupFed(h, p, merged, "properties");
    BothFed(h, p, mine, f.value);
    ReplaceProps(h, p, merged, Dict(None, Overlay(mine.entries, Content(h, f.value))), Weight(p, f.value));
  }

  lemma {:induction false} EntryAdded(h: Heap, p: Plan, merged: Entries, f: Entry)
    requires Sound(p) && Covered(h, p.full) && Fed(h, p, merged) && EntryHeld(p.full, h, merged, f) && EntryFed(h, p, f)
    ensures var m := AddEntry(h, merged, f);
            m.Some? ==> Added(h, p, m.value, EntriesWeight(p, merged) + EntryWeight(p, f))
  {
    if f.key != "properties" {
      SetWithin(h, p, merged, f.key, f.value);
    } else if f.value.Dict? && PropsOf(merged).None? {
      FreshAdded(h, p, merged, f);
    } else if f.value.Dict? && PropsOf(merged).value.Dict? {
      if PropsOf(merged).value.id.Some? { SharedAdded(h, p, merged, f); } else { UnsharedAdded(h, p, merged, f); }
    }
  }

  lemma {:induction false} SubAdded(h: Heap, p: Plan, merged: Entries, sub: Entries)
    requires Sound(p) && Covered(h, p.full) && Fed(h, p, merged) && Fed(h, p, sub) && SubHeld(p.full, h, merged, sub)
    ensures var m := MergeSubNow(h, merged, sub);
            m.Some? ==> Added(h, p, m.value, EntriesWeight(p, merged) + EntriesWeight(p, sub))
    decreases |sub|
  {
    if sub != [] {
      assert sub[0] in sub && forall e | e in sub[1..] :: e in sub;
      EntryAdded(h, p, merged, sub[0]);
      match AddEntry(h, merged, sub[0])
      case None =>
      case Some(next) =>
        FedLater(h, next.heap, p, sub[1..]);
        SubAdded(next.heap, p, next.entries, sub[1..]);
    }
  }

  lemma {:induction false} MembersAdded(h: Heap, p: Plan, merged: Entries, subs: seq<Doc>)
    requires Sound(p) && Covered(h, p.full) && Fed(h, p, merged) && MembersHeld(p.full, h, merged, subs)
    requires forall v | v in subs :: Inside(v, p.root)
    ensures var m := MergeSubsNow(h, merged, subs);
            m.Some? ==> Added(h, p, m.value, EntriesWeight(p, merged) + ItemsWeight(p, subs))
    decreases |subs|
  {
    if subs != [] && subs[0].Dict? {
      assert subs[0] in subs && forall v | v in subs[1..] :: v in subs;
      ContentFed(h, p, subs[0]);
      SubAdded(h, p, merged, Content(h, subs[0]));
      match MergeSubNow(h, merged, Content(h, subs[0]))
      case None =>
      case Some(next) => MembersAdded(next.heap, p, next.entries, subs[1..]);
    }
  }

  // ---------- one call ----------

  lemma {:induction false} WalkInside(h: Heap, p: Plan, node: Doc, parts: seq<string>)
    requires Sound(p) && Covered(h, p.full) && Inside(node, p.root) && WalkNow(h, node, parts).Some?
    ensures Inside(WalkNow(h, node, parts).value, p.root)
    decreases |parts|
  {
    if parts != [] {
      InsideFed(h, p, node);
      LookupIn(Content(h, node), parts[0]);
      WalkInside(h, p, Lookup(Content(h, node), parts[0]).value, parts[1..]);
    }
  }

  /** What a step leaves: a lighter schema in hand, or lighter values of the document. */
  ghost predicate Lighter(h: Heap, p: Plan, step: Step, w: nat) {
    match step
    case Rewritten(next, _) =>
      next.Dict? && next.id.None? && Fed(h, p, next.entries) && EntriesWeight(p, next.entries) < w
    case Loop(props, _) => props.Dict? && PropsFed(h, p, props) && Weight(p, props) <= w
    case Single(items, _) => Inside(items, p.root) && Weight(p, items) <= w
    case _ => true
  }

  ghost predicate StepLighter(h: Heap, p: Plan, r: (Step, Heap), w: nat) {
    !r.0.Unusable? ==> Covered(r.1, p.full) && h.Keys <= r.1.Keys && Lighter(r.1, p, r.0, w)
  }

  lemma {:induction false} PlainLighter(h: Heap, p: Plan, d: Entries)
    requires Sound(p) && Covered(h, p.full) && Fed(h, p, d)
    ensures Lighter(h, p, PlainStep(h, d), EntriesWeight(p, d))
  {
    if Lookup(d, "properties").Some? { LookupFed(h, p, d, "properties"); }
    if Lookup(d, "items").Some? { LookupFed(h, p, d, "items"); }
  }

  lemma {:induction false} OneOfLighter(h: Heap, p: Plan, d: Entries, variants: seq<Doc>)
    requires Sound(p) && Covered(h, p.full) && Fed(h, p, d) && variants != []
    requires Lookup(d, "oneOf") == Some(List(variants))
    ensures Lighter(h, p, OneOfStep(h, d, variants), EntriesWeight(p, d))
  {
    var kept := NonNullVariantsNow(h, variants);
    var chosen := if kept != [] then kept[0] else variants[0];
    SubsWeight(p, h, variants);
    assert chosen in variants by { if kept != [] { assert kept[0] in kept; } }
    LookupFed(h, p, d, "oneOf");
    ItemInside(chosen, List(variants), p.root);
    ItemWeight(p, variants, chosen);
    if chosen.Dict? {
      ContentFed(h, p, chosen);
      DropFed(h, p, d, "oneOf");
      DropWeight(p, d, "oneOf");
      VariantWithin(h, p, Drop(d, "oneOf"), Content(h, chosen));
    }
  }

  lemma {:induction false} AllOfLighter(h: Heap, p: Plan, d: Entries, subs: seq<Doc>)
    requires Sound(p) && Covered(h, p.full) && Fed(h, p, d) && Lookup(d, "allOf") == Some(List(subs))
    requires MembersHeld(p.full, h, Drop(d, "allOf"), NonNullSubsNow(h, subs))
    ensures StepLighter(h, p, AllOfStep(h, d, subs), EntriesWeight(p, d))
  {
    var members := NonNullSubsNow(h, subs);
    SubsWeight(p, h, subs);
    LookupFed(h, p, d, "allOf");
    forall v | v in members ensures Inside(v, p.root) { ItemInside(v, List(subs), p.root); }
    DropFed(h, p, d, "allOf");
    DropWeight(p, d, "allOf");
    MembersAdded(h, p, Drop(d, "allOf"), members);
  }

  lemma {:induction false} KeywordLighter(h: Heap, p: Plan, d: Entries)
    requires Sound(p) && Covered(h, p.full) && Fed(h, p, d) && KeywordHeld(p.full, h, d)
    ensures StepLighter(h, p, KeywordStep(h, d), EntriesWeight(p, d))
  {
    if Lookup(d, "oneOf").Some? && Truth(h, Lookup(d, "oneOf").value) {
      var variants := Lookup(d, "oneOf").value;
      if variants.List? { OneOfLighter(h, p, d, variants.items); }
    } else if Lookup(d, "allOf").Some? {
      var subs := Lookup(d, "allOf").value;
      if subs.List? { AllOfLighter(h, p, d, subs.items); }
    } else {
      PlainLighter(h, p, d);
    }
  }

  lemma {:induction false} RefLighter(h: Heap, p: Plan, d: Entries)
    requires Sound(p) && Covered(h, p.full) && Fed(h, p, d) && Lookup(d, "$ref").Some?
    requires ResolveNow(h, Lookup(d, "$ref").value, p.root).Some?
    ensures var target := ResolveNow(h, Lookup(d, "$ref").value, p.root).value;
            var next := Overlay(Content(h, target), Drop(d, "$ref"));
            Fed(h, p, next) && EntriesWeight(p, next) < EntriesWeight(p, d)
  {
    var ref := Lookup(d, "$ref").value;
    var target, rest := ResolveNow(h, ref, p.root).value, Drop(d, "$ref");
    assert ref == Scalar(Str(ref.value.s));
    assert Inside(p.root, p.root);
    WalkInside(h, p, p.root, RefParts(ref));
    ContentFed(h, p, target);
    DropFed(h, p, d, "$ref");
    DropWeight(p, d, "$ref");
    OverlayWeight(p, Content(h, target), rest);
    OverlayMembers(Content(h, target), rest);
  }

  lemma {:induction false} CallLighter(h: Heap, p: Plan, c: Doc)
    requires Sound(p) && Covered(h, p.full) && StepHeld(p.full, h, c, p.root)
    requires c.Dict? && Fed(h, p, Content(h, c))
    ensures StepLighter(h, p, StepOf(h, c, p.root), EntriesWeight(p, Content(h, c)))
  {
    var d := Content(h, c);
    match Lookup(d, "$ref")
    case None => KeywordLighter(h, p, d);
    case Some(ref) =>
      if ResolveNow(h, ref, p.root).Some? {
        RefLighter(h, p, d);
      } else {
        DropFed(h, p, d, "$ref");
        DropWeight(p, d, "$ref");
        KeywordLighter(h, p, Drop(d, "$ref"));
      }
  }
}
