/** One call of the in-place compiler against one call of the compiler by value: they agree when every
    dict is read with the entries a reading by value has. */
module InPlaceSteps {
  import opened Json
  import opened SchemaTemplate
  import opened InPlace

  // ---------- the document as JSON ----------

  lemma {:induction false} LookupPlain(d: Entries, k: string)
    ensures Find(PlainEntries(d), k) == match Lookup(d, k) case Some(v) => Some(Plain(v)) case None => None
  {
    if d != [] {
      LookupPlain(d[1..], k);
      assert PlainEntries(d)[1..] == PlainEntries(d[1..]);
    }
  }

  lemma {:induction false} SetPlain(d: Entries, k: string, v: Doc)
    ensures PlainEntries(Set(d, k, v)) == Put(PlainEntries(d), k, Plain(v))
  {
    if d == [] {
      assert [Entry(k, v)][1..] == [];
    } else if d[0].key == k {
      assert ([Entry(k, v)] + d[1..])[1..] == d[1..];
      assert PlainEntries(d)[1..] == PlainEntries(d[1..]);
    } else {
      SetPlain(d[1..], k, v);
      assert ([d[0]] + Set(d[1..], k, v))[1..] == Set(d[1..], k, v);
      assert PlainEntries(d)[1..] == PlainEntries(d[1..]);
    }
  }

  lemma {:induction false} OverlayPlain(d: Entries, more: Entries)
    ensures PlainEntries(Overlay(d, more)) == Update(PlainEntries(d), PlainEntries(more))
    decreases |more|
  {
    if more != [] {
      SetPlain(d, more[0].key, more[0].value);
      OverlayPlain(Set(d, more[0].key, more[0].value), more[1..]);
      assert PlainEntries(more)[1..] == PlainEntries(more[1..]);
    }
  }

  lemma {:induction false} DropPlain(d: Entries, k: string)
    ensures PlainEntries(Drop(d, k)) == Without(PlainEntries(d), k)
  {
    if d != [] {
      DropPlain(d[1..], k);
      assert PlainEntries(d)[1..] == PlainEntries(d[1..]);
      assert ([d[0]] + Drop(d[1..], k))[1..] == Drop(d[1..], k);
    }
  }

  lemma {:induction false} PlainEmpty(d: Entries)
    ensures PlainEntries(d) == [] <==> d == []
  {
  }

  lemma {:induction false} PlainAtom(d: Doc, j: Atom)
    ensures Plain(d) == j <==> d == Scalar(j)
  {
  }

  // ---------- Python dicts under repeated updates ----------

  lemma {:induction false} LookupIn(d: Entries, k: string)
    requires Lookup(d, k).Some?
    ensures Entry(k, Lookup(d, k).value) in d
  {
    if d[0].key == k { assert d[0] == Entry(k, Lookup(d, k).value); } else { LookupIn(d[1..], k); }
  }

  lemma {:induction false} LookupSet(d: Entries, k: string, v: Doc, other: string)
    ensures Lookup(Set(d, k, v), other) == if other == k then Some(v) else Lookup(d, other)
  {
    if d == [] {
      assert [Entry(k, v)][1..] == [];
    } else if d[0].key == k {
      assert ([Entry(k, v)] + d[1..])[1..] == d[1..];
    } else {
      LookupSet(d[1..], k, v, other);
      assert ([d[0]] + Set(d[1..], k, v))[1..] == Set(d[1..], k, v);
    }
  }

  lemma {:induction false} LookupOverlay(d: Entries, more: Entries, k: string)
    ensures Lookup(more, k).None? ==> Lookup(Overlay(d, more), k) == Lookup(d, k)
    decreases |more|
  {
    if more != [] {
      LookupSet(d, more[0].key, more[0].value, k);
      LookupOverlay(Set(d, more[0].key, more[0].value), more[1..], k);
    }
  }

  lemma {:induction false} LookupDrop(d: Entries, k: string, other: string)
    ensures Lookup(Drop(d, k), other) == if other == k then None else Lookup(d, other)
  {
    if d != [] {
      LookupDrop(d[1..], k, other);
      assert ([d[0]] + Drop(d[1..], k))[1..] == Drop(d[1..], k);
    }
  }

  lemma {:induction false} OverlayConcat(d: Entries, a: Entries, b: Entries)
    ensures Overlay(Overlay(d, a), b) == Overlay(d, a + b)
    decreases |a|
  {
    if a == [] {
      assert a + b == b;
    } else {
      assert (a + b)[0] == a[0] && (a + b)[1..] == a[1..] + b;
      OverlayConcat(Set(d, a[0].key, a[0].value), a[1..], b);
    }
  }

  lemma {:induction false} SetHead(e: Entry, d: Entries, k: string, v: Doc)
    ensures Set([e] + d, k, v) == if e.key == k then [Entry(k, v)] + d else [e] + Set(d, k, v)
  {
    assert ([e] + d)[1..] == d;
  }

  lemma {:induction false} SetTwice(d: Entries, k: string, v: Doc, w: Doc)
    ensures Set(Set(d, k, v), k, w) == Set(d, k, w)
  {
    if d == [] {
      SetHead(Entry(k, v), [], k, w);
      assert [Entry(k, v)] + [] == [Entry(k, v)];
    } else if d[0].key == k {
      SetHead(Entry(k, v), d[1..], k, w);
    } else {
      SetTwice(d[1..], k, v, w);
      SetHead(d[0], Set(d[1..], k, v), k, w);
    }
  }

  lemma {:induction false} SetSwap(d: Entries, k: string, v: Doc, j: string, w: Doc)
    requires k != j && Lookup(d, k).Some?
    ensures Set(Set(d, k, v), j, w) == Set(Set(d, j, w), k, v)
  {
    if d[0].key == k {
      SetHead(Entry(k, v), d[1..], j, w);
      SetHead(d[0], Set(d[1..], j, w), k, v);
    } else if d[0].key == j {
      SetHead(d[0], Set(d[1..], k, v), j, w);
      SetHead(Entry(j, w), d[1..], k, v);
    } else {
      SetSwap(d[1..], k, v, j, w);
      SetHead(d[0], Set(d[1..], k, v), j, w);
      SetHead(d[0], Set(d[1..], j, w), k, v);
    }
  }

  lemma {:induction false} SetSame(d: Entries, k: string, v: Doc)
    requires Lookup(d, k) == Some(v)
    ensures Set(d, k, v) == d
  {
    if d[0].key == k {
      assert d[0] == Entry(k, v) && [d[0]] + d[1..] == d;
    } else {
      SetSame(d[1..], k, v);
      assert [d[0]] + d[1..] == d;
    }
  }

  /** A key that is there already is set before or after the other updates alike. */
  lemma {:induction false} OverlaySet(d: Entries, k: string, v: Doc, more: Entries)
    requires Lookup(d, k).Some?
    ensures Overlay(Set(d, k, v), more)
            == if Lookup(more, k).Some? then Overlay(d, more) else Set(Overlay(d, more), k, v)
    decreases |more|
  {
    if more != [] {
      var f := more[0];
      if f.key == k {
        SetTwice(d, k, v, f.value);
      } else {
        SetSwap(d, k, v, f.key, f.value);
        LookupSet(d, f.key, f.value, k);
        OverlaySet(Set(d, f.key, f.value), k, v, more[1..]);
      }
    }
  }

  lemma {:induction false} OverlayHas(d: Entries, more: Entries, k: string)
    requires Lookup(d, k).Some?
    ensures Lookup(Overlay(d, more), k).Some?
    decreases |more|
  {
    if more != [] {
      LookupSet(d, more[0].key, more[0].value, k);
      OverlayHas(Set(d, more[0].key, more[0].value), more[1..], k);
    }
  }

  /** Updating twice with the same entries is updating once. */
  lemma {:induction false} OverlayIdempotent(d: Entries, more: Entries)
    ensures Overlay(Overlay(d, more), more) == Overlay(d, more)
    decreases |more|
  {
    if more != [] {
      var f := more[0];
      var start := Set(d, f.key, f.value);
      var q := Overlay(start, more[1..]);
      LookupSet(d, f.key, f.value, f.key);
      OverlayHas(start, more[1..], f.key);
      OverlaySet(q, f.key, f.value, more[1..]);
      OverlayIdempotent(start, more[1..]);
      if Lookup(more[1..], f.key).None? {
        LookupOverlay(start, more[1..], f.key);
        SetSame(q, f.key, f.value);
      }
    }
  }

  // ---------- what the changed dicts hold ----------

  /** `final` gives the dicts that may be extended, with the entries they always end up with. A free
      dict is none of them. */
  predicate Free(final: Heap, d: Doc) {
    d.Dict? && d.id.Some? ==> d.id.value !in final
  }

  /** No such dict anywhere inside. */
  predicate Untouched(final: Heap, d: Doc) {
    Free(final, d) &&
    match d
    case Scalar(_) => true
    case List(items) => forall x | x in items :: Untouched(final, x)
    case Dict(_, entries) => forall e | e in entries :: Untouched(final, e.value)
  }

  /** Every changed dict holds its final entries. */
  ghost predicate Settled(h: Heap, final: Heap) {
    forall id | id in h :: id in final && h[id] == final[id]
  }

  function IdOf(d: Option<Doc>): Option<nat> {
    if d.Some? && d.value.Dict? then d.value.id else None
  }

  /** An extension in progress: `now` is what it makes of the first or of the final entries. */
  ghost predicate Growing(now: Entries, final: Entries, entries: Entries) {
    exists first: Entries, more: Entries ::
      entries == Overlay(first, more) && (now == entries || now == Overlay(final, more))
  }

  /** Every changed dict holds its final entries, but the `properties` of the schema in hand may still
      be growing. */
  ghost predicate Chain(h: Heap, final: Heap, props: Option<Doc>) {
    && (forall id | id in h :: id in final && (Some(id) == IdOf(props) || h[id] == final[id]))
    && (forall id | id in h && Some(id) == IdOf(props) :: Growing(h[id], final[id], props.value.entries))
  }

  lemma {:induction false} NothingAdded(d: Entries)
    ensures d == Overlay(d, [])
  {
  }

  lemma SettledChain(h: Heap, final: Heap, props: Option<Doc>)
    requires Settled(h, final)
    ensures Chain(h, final, props)
  {
    forall id | id in h && Some(id) == IdOf(props)
      ensures Growing(h[id], final[id], props.value.entries)
    {
      NothingAdded(props.value.entries);
      NothingAdded(final[id]);
    }
  }

  predicate Readable(final: Heap, d: Doc) {
    d.Dict? && d.id.Some? && d.id.value in final ==> d.entries == final[d.id.value]
  }

  /** Reading the entries one expects shows that the extension is complete. */
  lemma ChainEnd(h: Heap, final: Heap, props: Option<Doc>)
    requires Chain(h, final, props) && (props.Some? ==> Readable(final, props.value))
    ensures Settled(h, final)
    ensures props.Some? && props.value.Dict? ==> Content(h, props.value) == props.value.entries
  {
    forall id | id in h && Some(id) == IdOf(props) ensures h[id] == final[id] {
      var es := props.value.entries;
      var first, more :| es == Overlay(first, more) && (h[id] == es || h[id] == Overlay(final[id], more));
      OverlayIdempotent(first, more);
    }
  }

  lemma FreeContent(h: Heap, final: Heap, props: Option<Doc>, d: Doc)
    requires Chain(h, final, props) && Free(final, d) && d.Dict?
    ensures Content(h, d) == d.entries
  {
  }

  // ---------- references ----------

  /** The walk passes, and ends at, free dicts only. */
  predicate WalkFree(final: Heap, node: Doc, parts: seq<string>)
    decreases |parts|
  {
    Free(final, node) &&
    (parts != [] && node.Dict? ==>
       match Lookup(node.entries, parts[0])
       case None => true
       case Some(next) => WalkFree(final, next, parts[1..]))
  }

  function PlainOption(d: Option<Doc>): Option<Json> {
    match d case Some(v) => Some(Plain(v)) case None => None
  }

  lemma {:induction false} WalkSame(h: Heap, final: Heap, node: Doc, parts: seq<string>)
    requires h.Keys <= final.Keys && WalkFree(final, node, parts)
    ensures WalkNow(h, node, parts) == WalkNow(map[], node, parts)
    ensures Walk(Plain(node), parts) == PlainOption(WalkNow(map[], node, parts))
    ensures WalkNow(h, node, parts).Some? ==> Free(final, WalkNow(h, node, parts).value)
    decreases |parts|
  {
    if parts != [] && node.Dict? {
      LookupPlain(node.entries, parts[0]);
      match Lookup(node.entries, parts[0])
      case None =>
      case Some(next) => WalkSame(h, final, next, parts[1..]);
    }
  }

  predicate RefFree(final: Heap, ref: Doc, root: Doc) {
    IsRef(ref) ==> WalkFree(final, root, RefParts(ref))
  }

  lemma {:induction false} ResolveSame(h: Heap, final: Heap, ref: Doc, root: Doc)
    requires h.Keys <= final.Keys && RefFree(final, ref, root)
    ensures ResolveNow(h, ref, root) == ResolveNow(map[], ref, root)
    ensures ResolveRef(Plain(ref), Plain(root))
            == match ResolveNow(map[], ref, root) case Some(t) => Some(PlainEntries(t.entries)) case None => None
    ensures ResolveNow(h, ref, root).Some? ==> Free(final, ResolveNow(h, ref, root).value)
  {
    if IsRef(ref) { WalkSame(h, final, root, RefParts(ref)); }
  }

  // ---------- oneOf ----------

  predicate AllFree(final: Heap, vs: seq<Doc>) {
    forall v | v in vs :: Free(final, v)
  }

  lemma {:induction false} NullSame(h: Heap, final: Heap, v: Doc)
    requires h.Keys <= final.Keys && Free(final, v)
    ensures IsNullNow(h, v) == IsNullNow(map[], v) == IsNullVariant(Plain(v))
  {
    if v.Dict? {
      LookupPlain(v.entries, "type");
      if Lookup(v.entries, "type").Some? { PlainAtom(Lookup(v.entries, "type").value, Str("null")); }
    }
  }

  lemma {:induction false} VariantsSame(h: Heap, final: Heap, vs: seq<Doc>)
    requires h.Keys <= final.Keys && AllFree(final, vs)
    ensures NonNullVariantsNow(h, vs) == NonNullVariantsNow(map[], vs)
    ensures PlainItems(NonNullVariantsNow(map[], vs)) == NonNullVariants(PlainItems(vs))
    ensures AllFree(final, NonNullVariantsNow(map[], vs))
  {
    if vs != [] {
      assert vs[0] in vs && forall v | v in vs[1..] :: v in vs;
      NullSame(h, final, vs[0]);
      VariantsSame(h, final, vs[1..]);
      assert PlainItems(vs)[1..] == PlainItems(vs[1..]);
      var rest := NonNullVariantsNow(map[], vs[1..]);
      assert ([vs[0]] + rest)[1..] == rest;
    }
  }

  lemma {:induction false} SubsSame(h: Heap, final: Heap, vs: seq<Doc>)
    requires h.Keys <= final.Keys && AllFree(final, vs)
    ensures NonNullSubsNow(h, vs) == NonNullSubsNow(map[], vs)
    ensures PlainItems(NonNullSubsNow(map[], vs)) == NonNullSubs(PlainItems(vs))
    ensures AllFree(final, NonNullSubsNow(map[], vs))
  {
    if vs != [] {
      assert vs[0] in vs && forall v | v in vs[1..] :: v in vs;
      NullSame(h, final, vs[0]);
      SubsSame(h, final, vs[1..]);
      assert PlainItems(vs)[1..] == PlainItems(vs[1..]);
      var rest := NonNullSubsNow(map[], vs[1..]);
      assert ([vs[0]] + rest)[1..] == rest;
    }
  }

  function PropsOf(d: Entries): Option<Doc> {
    Lookup(d, "properties")
  }

  /** Two `properties` dicts are read together only when the parent's is complete and the variant's
      is never extended. */
  predicate VariantOk(final: Heap, merged: Entries, chosen: Entries)
    decreases |chosen|
  {
    chosen == [] ||
    var f := chosen[0];
    if f.key != "properties" || PropsOf(merged).None? then VariantOk(final, Set(merged, f.key, f.value), chosen[1..])
    else
      var mine := PropsOf(merged).value;
      mine.Dict? && f.value.Dict? ==>
        && Readable(final, mine) && Free(final, f.value)
        && VariantOk(final, Set(merged, f.key, Dict(None, Overlay(mine.entries, f.value.entries))), chosen[1..])
  }

  lemma {:induction false} VariantSame(h: Heap, final: Heap, merged: Entries, chosen: Entries)
    requires Chain(h, final, PropsOf(merged)) && VariantOk(final, merged, chosen)
    ensures MergeVariantNow(h, merged, chosen) == MergeVariantNow(map[], merged, chosen)
    ensures var m := MergeVariantNow(h, merged, chosen);
            && (m.Some? ==> Chain(h, final, PropsOf(m.value)))
            && MergeVariant(PlainEntries(merged), PlainEntries(chosen))
               == match m case Some(es) => Some(PlainEntries(es)) case None => None
    decreases |chosen|
  {
    if chosen != [] {
      var f := chosen[0];
      assert PlainEntries(chosen)[1..] == PlainEntries(chosen[1..]);
      LookupPlain(merged, "properties");
      SetPlain(merged, f.key, f.value);
      LookupSet(merged, f.key, f.value, "properties");
      if f.key != "properties" || PropsOf(merged).None? {
        if f.key == "properties" {
          ChainEnd(h, final, None);
          SettledChain(h, final, Some(f.value));
        }
        VariantSame(h, final, Set(merged, f.key, f.value), chosen[1..]);
      } else {
        var mine := PropsOf(merged).value;
        if mine.Dict? && f.value.Dict? {
          var both := Dict(None, Overlay(mine.entries, f.value.entries));
          ChainEnd(h, final, Some(mine));
          OverlayPlain(mine.entries, f.value.entries);
          SetPlain(merged, f.key, both);
          LookupSet(merged, f.key, both, "properties");
          SettledChain(h, final, Some(both));
          VariantSame(h, final, Set(merged, f.key, both), chosen[1..]);
        }
      }
    }
  }

  // ---------- allOf ----------

  /** A `properties` dict is extended only where that is foreseen, from dicts that are never extended. */
  predicate AddOk(final: Heap, merged: Entries, f: Entry) {
    f.key == "properties" && f.value.Dict? ==>
      && Free(final, f.value)
      && match PropsOf(merged)
         case Some(Dict(Some(id), entries)) => id in final || Overlay(entries, f.value.entries) == entries
         case _ => true
  }

  predicate SubOk(final: Heap, merged: Entries, sub: Entries)
    decreases |sub|
  {
    sub == [] ||
    (AddOk(final, merged, sub[0]) &&
     match AddEntry(map[], merged, sub[0])
     case None => true
     case Some(next) => SubOk(final, next.entries, sub[1..]))
  }

  lemma {:induction false} GrowingMore(now: Entries, final: Entries, entries: Entries, more: Entries)
    requires Growing(now, final, entries)
    ensures Growing(Overlay(now, more), final, Overlay(entries, more))
  {
    var first, l :| entries == Overlay(first, l) && (now == entries || now == Overlay(final, l));
    OverlayConcat(first, l, more);
    OverlayConcat(final, l, more);
    assert Overlay(entries, more) == Overlay(first, l + more);
  }

  /** What one key of a member does to the heap. */
  lemma AddChain(h: Heap, final: Heap, merged: Entries, f: Entry)
    requires Chain(h, final, PropsOf(merged)) && AddOk(final, merged, f)
    requires f.key == "properties" && f.value.Dict? && PropsOf(merged).Some? && PropsOf(merged).value.Dict?
    ensures var mine := PropsOf(merged).value;
            var grown := Dict(mine.id, Overlay(mine.entries, f.value.entries));
            AddEntry(h, merged, f).Some? && Chain(AddEntry(h, merged, f).value.heap, final, Some(grown))
  {
    var mine := PropsOf(merged).value;
    var more := f.value.entries;
    var grown := Dict(mine.id, Overlay(mine.entries, more));
    if mine.id.None? {
      ChainEnd(h, final, Some(mine));
      SettledChain(h, final, Some(grown));
    } else if mine.id.value !in final {
      assert mine.id.value !in h && grown == mine;
    } else if mine.id.value in h {
      GrowingMore(h[mine.id.value], final[mine.id.value], mine.entries, more);
    } else {
      NothingAdded(grown.entries);
      assert Growing(grown.entries, final[mine.id.value], grown.entries);
    }
  }

  lemma AddSame(h: Heap, final: Heap, merged: Entries, f: Entry)
    requires Chain(h, final, PropsOf(merged)) && AddOk(final, merged, f)
    ensures var a, b := AddEntry(h, merged, f), AddEntry(map[], merged, f);
            && (a.Some? <==> b.Some?)
            && (a.Some? ==> a.value.entries == b.value.entries && Chain(a.value.heap, final, PropsOf(a.value.entries)))
  {
    var mine := LookupOr(merged, "properties", Dict(None, []));
    if f.key != "properties" {
      LookupSet(merged, f.key, f.value, "properties");
    } else if mine.Dict? && f.value.Dict? {
      var grown := Dict(mine.id, Overlay(mine.entries, f.value.entries));
      LookupSet(merged, f.key, grown, "properties");
      if PropsOf(merged).Some? {
        AddChain(h, final, merged, f);
      } else {
        ChainEnd(h, final, None);
        SettledChain(h, final, Some(grown));
      }
    }
  }

  /** By value, one key of a member. */
  function MergeEntry(merged: seq<Field>, f: Field): Option<seq<Field>> {
    if f.key == "properties" then
      var mine := match Find(merged, "properties") case Some(p) => p case None => Obj([]);
      if !mine.Obj? || !f.value.Obj? then None
      else Some(Put(merged, f.key, Obj(Update(mine.fields, f.value.fields))))
    else Some(if Has(merged, f.key) then merged else Put(merged, f.key, f.value))
  }

  lemma {:induction false} AddPlain(final: Heap, merged: Entries, f: Entry)
    requires AddOk(final, merged, f)
    ensures MergeEntry(PlainEntries(merged), Field(f.key, Plain(f.value)))
            == match AddEntry(map[], merged, f) case Some(m) => Some(PlainEntries(m.entries)) case None => None
  {
    LookupPlain(merged, f.key);
    SetPlain(merged, f.key, f.value);
    if f.key == "properties" {
      var mine := LookupOr(merged, "properties", Dict(None, []));
      if mine.Dict? && f.value.Dict? {
        OverlayPlain(mine.entries, f.value.entries);
        SetPlain(merged, f.key, Dict(mine.id, Overlay(mine.entries, f.value.entries)));
      }
    }
  }

  lemma {:induction false} MergeSubStep(merged: seq<Field>, sub: seq<Field>)
    requires sub != []
    ensures MergeSub(merged, sub)
            == match MergeEntry(merged, sub[0]) case Some(next) => MergeSub(next, sub[1..]) case None => None
  {
  }

  function AddAll(merged: Entries, sub: Entries): Option<Entries>
    decreases |sub|
  {
    if sub == [] then Some(merged)
    else match AddEntry(map[], merged, sub[0])
      case None => None
      case Some(next) => AddAll(next.entries, sub[1..])
  }

  function PlainMerge(m: Option<Entries>): Option<seq<Field>> {
    match m case Some(es) => Some(PlainEntries(es)) case None => None
  }

  lemma {:induction false} SubSame(h: Heap, final: Heap, merged: Entries, sub: Entries)
    requires Chain(h, final, PropsOf(merged)) && SubOk(final, merged, sub)
    ensures var m := MergeSubNow(h, merged, sub);
            && (match m case Some(n) => AddAll(merged, sub) == Some(n.entries) case None => AddAll(merged, sub) == None)
            && (m.Some? ==> Chain(m.value.heap, final, PropsOf(m.value.entries)))
    ensures MergeSub(PlainEntries(merged), PlainEntries(sub)) == PlainMerge(AddAll(merged, sub))
    decreases |sub|
  {
    if sub != [] {
      AddSame(h, final, merged, sub[0]);
      AddPlain(final, merged, sub[0]);
      assert PlainEntries(sub)[1..] == PlainEntries(sub[1..]);
      MergeSubStep(PlainEntries(merged), PlainEntries(sub));
      match AddEntry(h, merged, sub[0])
      case None =>
      case Some(next) => SubSame(next.heap, final, next.entries, sub[1..]);
    }
  }

  function AddMembers(merged: Entries, subs: seq<Doc>): Option<Entries>
    decreases |subs|
  {
    if subs == [] then Some(merged)
    else if !subs[0].Dict? then None
    else match AddAll(merged, subs[0].entries)
      case None => None
      case Some(next) => AddMembers(next, subs[1..])
  }

  predicate MembersOk(final: Heap, merged: Entries, subs: seq<Doc>)
    decreases |subs|
  {
    subs == [] ||
    (subs[0].Dict? ==>
       && Free(final, subs[0]) && SubOk(final, merged, subs[0].entries)
       && match AddAll(merged, subs[0].entries)
          case None => true
          case Some(next) => MembersOk(final, next, subs[1..]))
  }

  lemma {:induction false} MembersSame(h: Heap, final: Heap, merged: Entries, subs: seq<Doc>)
    requires Chain(h, final, PropsOf(merged)) && MembersOk(final, merged, subs)
    ensures var m := MergeSubsNow(h, merged, subs);
            && (match m
                case Some(n) => AddMembers(merged, subs) == Some(n.entries)
                case None => AddMembers(merged, subs) == None)
            && (m.Some? ==> Chain(m.value.heap, final, PropsOf(m.value.entries)))
    ensures MergeSubs(PlainEntries(merged), PlainItems(subs)) == PlainMerge(AddMembers(merged, subs))
    decreases |subs|
  {
    if subs != [] && subs[0].Dict? {
      FreeContent(h, final, PropsOf(merged), subs[0]);
      SubSame(h, final, merged, subs[0].entries);
      assert PlainItems(subs)[1..] == PlainItems(subs[1..]);
      match MergeSubNow(h, merged, subs[0].entries)
      case None =>
      case Some(next) => MembersSame(next.heap, final, next.entries, subs[1..]);
    }
  }

  // ---------- one call ----------

  function ChosenOf(variants: seq<Doc>): Doc
    requires variants != []
  {
    var kept := NonNullVariantsNow(map[], variants);
    if kept != [] then kept[0] else variants[0]
  }

  predicate OneOfOk(final: Heap, d: Entries, variants: seq<Doc>)
    requires variants != []
  {
    && AllFree(final, variants)
    && (ChosenOf(variants).Dict? ==> VariantOk(final, Drop(d, "oneOf"), ChosenOf(variants).entries))
  }

  predicate AllOfOk(final: Heap, d: Entries, subs: seq<Doc>) {
    AllFree(final, subs) && MembersOk(final, Drop(d, "allOf"), NonNullSubsNow(map[], subs))
  }

  /** The last call of a chain finds the `properties` complete, and what is output is never changed. */
  predicate PlainOk(final: Heap, d: Entries) {
    && (PropsOf(d).Some? ==> Readable(final, PropsOf(d).value))
    && (Lookup(d, "const").Some? ==> Untouched(final, Lookup(d, "const").value))
    && (Lookup(d, "default").Some? ==> Untouched(final, Lookup(d, "default").value))
    && (Lookup(d, "required").Some? ==> Free(final, Lookup(d, "required").value))
  }

  predicate KeywordOk(final: Heap, d: Entries) {
    if Lookup(d, "oneOf").Some? && Truth(map[], Lookup(d, "oneOf").value) then
      var variants := Lookup(d, "oneOf").value;
      Free(final, variants) && (variants.List? ==> OneOfOk(final, d, variants.items))
    else
      && (Lookup(d, "oneOf").Some? ==> Free(final, Lookup(d, "oneOf").value))
      && if Lookup(d, "allOf").Some? then
           Lookup(d, "allOf").value.List? ==> AllOfOk(final, d, Lookup(d, "allOf").value.items)
         else PlainOk(final, d)
  }

  predicate Grows(final: Heap, props: Option<Doc>) {
    IdOf(props).Some? && IdOf(props).value in final
  }

  /** What one call reads is what a reading by value would find. */
  predicate NodeOk(final: Heap, c: Doc, root: Doc) {
    if !c.Dict? then Untouched(final, c)
    else
      && Free(final, c)
      && match Lookup(c.entries, "$ref")
         case None => KeywordOk(final, c.entries)
         case Some(ref) =>
           && RefFree(final, ref, root)
           && (Grows(final, PropsOf(c.entries)) ==> Unique(c.entries))
           && (ResolveNow(map[], ref, root).None? ==> KeywordOk(final, Drop(c.entries, "$ref")))
  }

  /** The same step, in documents and by value. */
  predicate Matches(step: Step, shape: Shape) {
    match step
    case Output(v) => shape == Verbatim(Plain(v)) || shape == Constant(Plain(v))
        || (shape.Leaf? && shape.default == Plain(v))
    case Rewritten(next, n) => shape == Shape.Again(Plain(next), n)
    case Loop(props, required) => props.Dict? && shape == Object(PlainEntries(props.entries), Plain(required))
    case Single(items, default) => shape.Array? && shape.items == Plain(items) && shape.default == Plain(default)
    case Unusable => shape.Broken?
  }

  /** What a step leaves for the rest of the run. */
  ghost predicate Leaves(h: Heap, final: Heap, step: Step) {
    match step
    case Rewritten(next, _) => next.Dict? && next.id.None? && Chain(h, final, PropsOf(next.entries))
    case Output(v) => Settled(h, final) && Untouched(final, v)
    case Loop(props, required) => Settled(h, final) && Readable(final, props) && Free(final, required)
    case Single(_, default) => Settled(h, final) && Untouched(final, default)
    case Unusable => true
  }

  lemma {:induction false} TruthSame(h: Heap, final: Heap, d: Doc)
    requires d.Dict? ==> Content(h, d) == d.entries
    ensures Truth(h, d) == Truth(map[], d) == Truthy(Plain(d))
  {
    match d
    case Dict(_, entries) => PlainEmpty(entries);
    case List(items) => assert PlainItems(items) == [] <==> items == [];
    case Scalar(v) =>
  }

  lemma {:induction false} OneOfSame(h: Heap, final: Heap, d: Entries, variants: seq<Doc>)
    requires variants != [] && Chain(h, final, PropsOf(d)) && OneOfOk(final, d, variants)
    ensures OneOfStep(h, d, variants) == OneOfStep(map[], d, variants)
    ensures Matches(OneOfStep(h, d, variants), OneOfShape(PlainEntries(d), PlainItems(variants), Config))
    ensures Leaves(h, final, OneOfStep(h, d, variants))
  {
    VariantsSame(h, final, variants);
    DropPlain(d, "oneOf");
    LookupDrop(d, "oneOf", "properties");
    var kept := NonNullVariantsNow(map[], variants);
    var chosen := ChosenOf(variants);
    SameLength(kept);
    SameLength(variants);
    if kept != [] { assert chosen == kept[0] && chosen in kept; } else { assert chosen in variants; }
    if chosen.Dict? {
      FreeContent(h, final, PropsOf(d), chosen);
      VariantSame(h, final, Drop(d, "oneOf"), chosen.entries);
    }
  }

  lemma {:induction false} SameLength(items: seq<Doc>)
    ensures |PlainItems(items)| == |items|
    ensures items != [] ==> PlainItems(items)[0] == Plain(items[0])
  {
    if items != [] { SameLength(items[1..]); }
  }

  lemma {:induction false} AllOfSame(h: Heap, final: Heap, d: Entries, subs: seq<Doc>)
    requires Chain(h, final, PropsOf(d)) && AllOfOk(final, d, subs)
    ensures AllOfStep(h, d, subs).0 == AllOfStep(map[], d, subs).0
    ensures Matches(AllOfStep(h, d, subs).0, AllOfShape(PlainEntries(d), PlainItems(subs), Config))
    ensures Leaves(AllOfStep(h, d, subs).1, final, AllOfStep(h, d, subs).0)
  {
    SubsSame(h, final, subs);
    DropPlain(d, "allOf");
    LookupDrop(d, "allOf", "properties");
    SettledChain(map[], final, PropsOf(d));
    MembersSame(h, final, Drop(d, "allOf"), NonNullSubsNow(map[], subs));
    MembersSame(map[], final, Drop(d, "allOf"), NonNullSubsNow(map[], subs));
  }

  lemma {:induction false} FirstTypePlain(ts: seq<Doc>)
    ensures Plain(FirstType(ts)) == FirstNonNull(PlainItems(ts))
  {
    if ts != [] {
      PlainAtom(ts[0], Str("null"));
      assert PlainItems(ts)[1..] == PlainItems(ts[1..]);
      FirstTypePlain(ts[1..]);
    }
  }

  lemma {:induction false} TypePlain(d: Entries)
    ensures TypeOf(d) == Scalar(Str("array")) <==> RawType(PlainEntries(d)) == Str("array")
  {
    LookupPlain(d, "type");
    PlainAtom(TypeOf(d), Str("array"));
    var t := LookupOr(d, "type", Scalar(Str("string")));
    if t.List? { FirstTypePlain(t.items); }
  }

  lemma {:induction false} PlainStepSame(h: Heap, final: Heap, d: Entries)
    requires Chain(h, final, PropsOf(d)) && PlainOk(final, d)
    ensures PlainStep(h, d) == PlainStep(map[], d)
    ensures Matches(PlainStep(h, d), PlainShape(PlainEntries(d)))
    ensures Leaves(h, final, PlainStep(h, d))
  {
    LookupPlain(d, "const");
    LookupPlain(d, "properties");
    LookupPlain(d, "default");
    LookupPlain(d, "required");
    LookupPlain(d, "items");
    ChainEnd(h, final, PropsOf(d));
    TruthSame(h, final, LookupOr(d, "properties", Dict(None, [])));
    TypePlain(d);
  }

  lemma {:induction false} KeywordSame(h: Heap, final: Heap, d: Entries)
    requires Chain(h, final, PropsOf(d)) && KeywordOk(final, d)
    ensures KeywordStep(h, d).0 == KeywordStep(map[], d).0
    ensures Matches(KeywordStep(h, d).0, KeywordShape(PlainEntries(d), Config))
    ensures Leaves(KeywordStep(h, d).1, final, KeywordStep(h, d).0)
  {
    LookupPlain(d, "oneOf");
    LookupPlain(d, "allOf");
    if Lookup(d, "oneOf").Some? { TruthSame(h, final, Lookup(d, "oneOf").value); }
    if Lookup(d, "oneOf").Some? && Truth(h, Lookup(d, "oneOf").value) {
      var variants := Lookup(d, "oneOf").value;
      if variants.List? {
        SameLength(variants.items);
        OneOfSame(h, final, d, variants.items);
      }
    } else if Lookup(d, "allOf").Some? {
      var subs := Lookup(d, "allOf").value;
      if subs.List? { AllOfSame(h, final, d, subs.items); }
    } else {
      PlainStepSame(h, final, d);
    }
  }

  /** What every Python dict guarantees: no key twice. */
  predicate Unique(d: Entries) {
    d == [] || (Lookup(d[1..], d[0].key).None? && Unique(d[1..]))
  }

  lemma {:induction false} OverlaidWins(d: Entries, more: Entries, k: string)
    requires Unique(more) && Lookup(more, k).Some?
    ensures Lookup(Overlay(d, more), k) == Lookup(more, k)
    decreases |more|
  {
    LookupSet(d, more[0].key, more[0].value, k);
    if more[0].key == k {
      LookupOverlay(Set(d, k, more[0].value), more[1..], k);
    } else {
      OverlaidWins(Set(d, more[0].key, more[0].value), more[1..], k);
    }
  }

  lemma {:induction false} DropUnique(d: Entries, k: string)
    requires Unique(d)
    ensures Unique(Drop(d, k))
  {
    if d != [] {
      DropUnique(d[1..], k);
      LookupDrop(d[1..], k, d[0].key);
      assert ([d[0]] + Drop(d[1..], k))[1..] == Drop(d[1..], k);
    }
  }

  lemma {:induction false} RefSame(h: Heap, final: Heap, c: Entries, ref: Doc, root: Doc)
    requires Chain(h, final, PropsOf(c)) && RefFree(final, ref, root)
    requires Grows(final, PropsOf(c)) ==> Unique(c)
    requires ResolveNow(map[], ref, root).Some?
    ensures var target := ResolveNow(map[], ref, root).value;
            var next := Overlay(target.entries, Drop(c, "$ref"));
            && ResolveNow(h, ref, root) == Some(target) && Content(h, target) == target.entries
            && Chain(h, final, PropsOf(next))
            && PlainEntries(next) == Update(PlainEntries(target.entries), Without(PlainEntries(c), "$ref"))
  {
    ResolveSame(h, final, ref, root);
    var target := ResolveNow(map[], ref, root).value;
    var rest := Drop(c, "$ref");
    FreeContent(h, final, PropsOf(c), target);
    DropPlain(c, "$ref");
    OverlayPlain(target.entries, rest);
    LookupDrop(c, "$ref", "properties");
    if Grows(final, PropsOf(c)) {
      DropUnique(c, "$ref");
      OverlaidWins(target.entries, rest, "properties");
    } else {
      assert Settled(h, final);
      SettledChain(h, final, PropsOf(Overlay(target.entries, rest)));
    }
  }

  /** One call in place and one call by value take the same step, and leave the heap in order. */
  lemma {:induction false} StepSame(h: Heap, final: Heap, c: Doc, root: Doc)
    requires c.Dict? ==> Chain(h, final, PropsOf(c.entries))
    requires !c.Dict? ==> Settled(h, final)
    requires NodeOk(final, c, root)
    ensures StepOf(h, c, root).0 == StepOf(map[], c, root).0
    ensures Matches(StepOf(h, c, root).0, ShapeOf(Plain(c), Config, Plain(root)))
    ensures Leaves(StepOf(h, c, root).1, final, StepOf(h, c, root).0)
  {
    if c.Dict? {
      var d := c.entries;
      FreeContent(h, final, PropsOf(d), c);
      LookupPlain(d, "$ref");
      match Lookup(d, "$ref")
      case None => KeywordSame(h, final, d);
      case Some(ref) =>
        ResolveSame(h, final, ref, root);
        if ResolveNow(map[], ref, root).Some? {
          RefSame(h, final, d, ref, root);
        } else {
          UnresolvedSame(h, final, d);
        }
    }
  }

  lemma {:induction false} UnresolvedSame(h: Heap, final: Heap, d: Entries)
    requires Chain(h, final, PropsOf(d)) && KeywordOk(final, Drop(d, "$ref"))
    ensures var rest := Drop(d, "$ref");
            && PlainEntries(rest) == Without(PlainEntries(d), "$ref")
            && (rest == [] <==> PlainEntries(rest) == [])
            && (rest == [] ==> Settled(h, final))
            && KeywordStep(h, rest).0 == KeywordStep(map[], rest).0
            && Matches(KeywordStep(h, rest).0, KeywordShape(PlainEntries(rest), Config))
            && Leaves(KeywordStep(h, rest).1, final, KeywordStep(h, rest).0)
  {
    var rest := Drop(d, "$ref");
    DropPlain(d, "$ref");
    LookupDrop(d, "$ref", "properties");
    PlainEmpty(rest);
    if rest == [] { ChainEnd(h, final, None); }
    KeywordSame(h, final, rest);
  }
}
