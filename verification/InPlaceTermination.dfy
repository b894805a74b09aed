/** Config mode as it runs stops whenever references stay acyclic once every dict that an `allOf` extends
    also holds its members' entries, whether or not the run agrees with the reading by value. */
module InPlaceTermination {
  import opened Json
  import opened SchemaTemplate
  import opened InPlace
  import opened InPlaceSteps
  import opened InPlaceRuns
  import opened InPlaceSizes

  // ---------- the run ----------

  ghost predicate InHand(h: Heap, p: Plan, c: Doc) {
    c.Dict? ==> Fed(h, p, Content(h, c)) && AlwaysHeld(p.full, c, p.root)
  }

  function Cost(h: Heap, p: Plan, c: Doc): nat {
    if c.Dict? then 1 + EntriesWeight(p, Content(h, c)) else 1
  }

  lemma {:induction false} DocumentInHand(h: Heap, p: Plan, c: Doc)
    requires Sound(p) && Covered(h, p.full) && Inside(c, p.root)
    ensures InHand(h, p, c) && Cost(h, p, c) <= Weight(p, c)
  {
    if c.Dict? { ContentFed(h, p, c); }
  }

  lemma NextHeld(h: Heap, p: Plan, c: Doc)
    requires Covered(h, p.full) && AlwaysHeld(p.full, c, p.root)
    ensures StepHeld(p.full, h, c, p.root)
    ensures StepOf(h, c, p.root).0.Rewritten? ==> AlwaysHeld(p.full, StepOf(h, c, p.root).0.schema, p.root)
  {
    assert ChainHeld(1, p.full, c, p.root);
    if StepOf(h, c, p.root).0.Rewritten? {
      var next := StepOf(h, c, p.root).0.schema;
      forall n: nat ensures ChainHeld(n, p.full, next, p.root) { assert ChainHeld(n + 1, p.full, c, p.root); }
    }
  }

  ghost predicate Stops<T>(p: Plan, h: Heap, r: Result<T>) {
    !r.Exhausted? && (r.Finished? ==> Covered(r.heap, p.full) && h.Keys <= r.heap.Keys)
  }

  /** What the run goes on with costs less. */
  ghost predicate Onward(h: Heap, p: Plan, step: Step, cost: nat) {
    match step
    case Rewritten(next, _) => InHand(h, p, next) && Cost(h, p, next) < cost
    case Loop(props, _) => props.Dict? && PropsFed(h, p, props) && Weight(p, props) < cost
    case Single(items, _) => InHand(h, p, items) && Cost(h, p, items) < cost
    case _ => true
  }

  lemma CallOnward(h: Heap, p: Plan, c: Doc)
    requires Sound(p) && Covered(h, p.full) && InHand(h, p, c)
    ensures var r := StepOf(h, c, p.root);
            !r.0.Unusable? ==> Covered(r.1, p.full) && h.Keys <= r.1.Keys && Onward(r.1, p, r.0, Cost(h, p, c))
  {
    if c.Dict? {
      NextHeld(h, p, c);
      CallLighter(h, p, c);
      var (step, now) := StepOf(h, c, p.root);
      if step.Single? { DocumentInHand(now, p, step.items); }
    }
  }

  lemma {:induction false} RunStops(depth: nat, h: Heap, p: Plan, c: Doc, path: string)
    requires Sound(p) && Covered(h, p.full) && InHand(h, p, c) && Cost(h, p, c) <= depth
    ensures Stops(p, h, Slim(depth, h, c, path, p.root))
    decreases depth, 0
  {
    CallOnward(h, p, c);
    var r := StepOf(h, c, p.root);
    if !r.0.Unusable? { FollowStops(depth - 1, r.1, p, r.0, path); }
  }

  lemma {:induction false} FollowStops(depth: nat, h: Heap, p: Plan, step: Step, path: string)
    requires Sound(p) && Covered(h, p.full) && Onward(h, p, step, depth + 1)
    ensures Stops(p, h, Follow(depth, h, step, path, p.root))
    decreases depth, 3
  {
    match step
    case Rewritten(next, _) => RunStops(depth, h, p, next, path);
    case Single(items, _) => RunStops(depth, h, p, items, path + "[]");
    case Loop(props, _) => LoopStops(depth, h, p, props, 0, |Content(h, props)|, path);
    case _ =>
  }

  lemma {:induction false} LoopStops(depth: nat, h: Heap, p: Plan, props: Doc, i: nat, n: nat, path: string)
    requires Sound(p) && Covered(h, p.full) && props.Dict? && PropsFed(h, p, props)
    requires Weight(p, props) <= depth && i <= n
    ensures Stops(p, h, SlimEntries(depth, h, props, i, n, path, p.root))
    decreases depth, 1, n - i
  {
    if i < n && |Content(h, props)| == n {
      var f := Content(h, props)[i];
      MemberWeight(p, Content(h, props), f);
      DocumentInHand(h, p, f.value);
      RunStops(depth, h, p, f.value, JoinPath(path, f.key));
      var first := Slim(depth, h, f.value, JoinPath(path, f.key), p.root);
      if first.Finished? {
        PropsLater(h, first.heap, p, props);
        LoopStops(depth, first.heap, p, props, i + 1, n, path);
      }
    }
  }

  // ---------- acyclic references ----------

  type Rank = Name -> nat

  /** What the dicts of the extended document hold. */
  function FullContent(full: Heap, d: Doc): Entries
    requires d.Dict?
  {
    if d.id.Some? && d.id.value in full then full[d.id.value] else d.entries
  }

  /** Everything a path may lead to there. */
  function Targets(full: Heap, node: Doc, parts: seq<string>): seq<Doc>
    decreases |parts|, 1
  {
    if parts == [] then [node] else if !node.Dict? then [] else TargetsIn(full, FullContent(full, node), parts)
  }

  function TargetsIn(full: Heap, d: Entries, parts: seq<string>): seq<Doc>
    requires parts != []
    decreases |parts|, 0, |d|
  {
    if d == [] then []
    else (if d[0].key == parts[0] then Targets(full, d[0].value, parts[1..]) else []) + TargetsIn(full, d[1..], parts)
  }

  function TargetsOf(full: Heap, s: string, root: Doc): seq<Doc> {
    if IsRef(Scalar(Str(s))) then Targets(full, root, RefParts(Scalar(Str(s)))) else []
  }

  /** Every extended dict and every reference that leads somewhere, mentioned in `d`, ranks below `k`. */
  ghost predicate Below(k: nat, d: Doc, full: Heap, root: Doc, rank: Rank)
    decreases d
  {
    match d
    case Scalar(_) => true
    case List(items) => forall x | x in items :: Below(k, x, full, root, rank)
    case Dict(id, entries) =>
      if id.Some? && id.value in full then rank(Shared(id.value)) < k
      else forall e | e in entries :: RefBelow(k, e, full, root, rank) && Below(k, e.value, full, root, rank)
  }

  ghost predicate RefBelow(k: nat, e: Entry, full: Heap, root: Doc, rank: Rank) {
    e.key == "$ref" && IsRef(e.value) && TargetsOf(full, e.value.value.s, root) != [] ==> rank(Ref(e.value.value.s)) < k
  }

  ghost predicate AllBelow(k: nat, d: Entries, full: Heap, root: Doc, rank: Rank) {
    forall e | e in d :: RefBelow(k, e, full, root, rank) && Below(k, e.value, full, root, rank)
  }

  /** In the extended document no dict and no reference leads back to itself. */
  ghost predicate Ordered(full: Heap, root: Doc, rank: Rank) {
    && (forall id | id in full :: AllBelow(rank(Shared(id)), full[id], full, root, rank))
    && (forall s: string, t: Doc | t in TargetsOf(full, s, root) && t.Dict? ::
          AllBelow(rank(Ref(s)), FullContent(full, t), full, root, rank))
  }

  ghost predicate AcyclicExtended(full: Heap, root: Doc) {
    exists rank: Rank :: Ordered(full, root, rank)
  }

  // ---------- sizes from an order ----------

  /** The size of `d` with what ranks below `k` counted in full. */
  ghost function Size(k: nat, d: Doc, full: Heap, root: Doc, rank: Rank): nat
    decreases 2 * k, d, 0
  {
    match d
    case Scalar(_) => 1
    case List(items) => 1 + ItemsSize(k, items, full, root, rank)
    case Dict(id, entries) =>
      if id.Some? && id.value in full then
        var r := rank(Shared(id.value));
        if r < k then 1 + EntriesSize(r, full[id.value], full, root, rank) else 0
      else 1 + EntriesSize(k, entries, full, root, rank)
  }

  ghost function ItemsSize(k: nat, items: seq<Doc>, full: Heap, root: Doc, rank: Rank): nat
    decreases 2 * k, items, 1
  {
    if items == [] then 0 else Size(k, items[0], full, root, rank) + ItemsSize(k, items[1..], full, root, rank)
  }

  ghost function EntriesSize(k: nat, d: Entries, full: Heap, root: Doc, rank: Rank): nat
    decreases 2 * k, d, 1
  {
    if d == [] then 0 else EntrySize(k, d[0], full, root, rank) + EntriesSize(k, d[1..], full, root, rank)
  }

  ghost function EntrySize(k: nat, e: Entry, full: Heap, root: Doc, rank: Rank): nat
    decreases 2 * k, e, 2
  {
    1 + Size(k, e.value, full, root, rank)
    + if e.key == "$ref" && IsRef(e.value) then RefSize(k, e.value.value.s, full, root, rank) else 0
  }

  ghost function RefSize(k: nat, s: string, full: Heap, root: Doc, rank: Rank): nat
    decreases 2 * k, s, 0
  {
    var targets := TargetsOf(full, s, root);
    if targets == [] then 1
    else if rank(Ref(s)) < k then 1 + TargetsSize(rank(Ref(s)), targets, full, root, rank)
    else 0
  }

  ghost function TargetsSize(k: nat, targets: seq<Doc>, full: Heap, root: Doc, rank: Rank): nat
    decreases 2 * k + 1, |targets|
  {
    if targets == [] then 0
    else
      (if targets[0].Dict? then EntriesSize(k, FullContent(full, targets[0]), full, root, rank) else 0)
      + TargetsSize(k, targets[1..], full, root, rank)
  }

  /** The sizes an order gives. */
  ghost function SizeOf(n: Name, full: Heap, root: Doc, rank: Rank): nat {
    match n
    case Shared(id) => if id in full then 1 + EntriesSize(rank(n), full[id], full, root, rank) else 0
    case Ref(s) => 1 + TargetsSize(rank(n), TargetsOf(full, s, root), full, root, rank)
  }

  ghost function PlanOf(full: Heap, root: Doc, rank: Rank): Plan {
    Plan(root, full, n => SizeOf(n, full, root, rank))
  }

  lemma {:induction false} SizeIsWeight(k: nat, d: Doc, full: Heap, root: Doc, rank: Rank)
    requires Below(k, d, full, root, rank)
    ensures Weight(PlanOf(full, root, rank), d) == Size(k, d, full, root, rank)
    decreases d, 0
  {
    match d
    case List(items) => ItemsSizeIsWeight(k, items, full, root, rank);
    case Dict(id, entries) =>
      if !(id.Some? && id.value in full) { EntriesSizeIsWeight(k, entries, full, root, rank); }
    case _ =>
  }

  lemma {:induction false} ItemsSizeIsWeight(k: nat, items: seq<Doc>, full: Heap, root: Doc, rank: Rank)
    requires forall x | x in items :: Below(k, x, full, root, rank)
    ensures ItemsWeight(PlanOf(full, root, rank), items) == ItemsSize(k, items, full, root, rank)
    decreases items, 1
  {
    if items != [] {
      assert items[0] in items && forall x | x in items[1..] :: x in items;
      SizeIsWeight(k, items[0], full, root, rank);
      ItemsSizeIsWeight(k, items[1..], full, root, rank);
    }
  }

  lemma {:induction false} RefSizeIsSize(k: nat, e: Entry, full: Heap, root: Doc, rank: Rank)
    requires RefBelow(k, e, full, root, rank) && e.key == "$ref" && IsRef(e.value)
    ensures var s := e.value.value.s;
            RefSize(k, s, full, root, rank) == SizeOf(Ref(s), full, root, rank)
  {
    var s := e.value.value.s;
    if TargetsOf(full, s, root) == [] { assert TargetsSize(rank(Ref(s)), [], full, root, rank) == 0; }
  }

  lemma {:induction false} EntrySizeIsWeight(k: nat, e: Entry, full: Heap, root: Doc, rank: Rank)
    requires RefBelow(k, e, full, root, rank) && Below(k, e.value, full, root, rank)
    ensures EntryWeight(PlanOf(full, root, rank), e) == EntrySize(k, e, full, root, rank)
    decreases e, 2
  {
    SizeIsWeight(k, e.value, full, root, rank);
    if e.key == "$ref" && IsRef(e.value) { RefSizeIsSize(k, e, full, root, rank); }
  }

  lemma {:induction false} EntriesSizeIsWeight(k: nat, d: Entries, full: Heap, root: Doc, rank: Rank)
    requires AllBelow(k, d, full, root, rank)
    ensures EntriesWeight(PlanOf(full, root, rank), d) == EntriesSize(k, d, full, root, rank)
    decreases d, 1
  {
    if d != [] {
      assert d[0] in d && forall e | e in d[1..] :: e in d;
      EntrySizeIsWeight(k, d[0], full, root, rank);
      EntriesSizeIsWeight(k, d[1..], full, root, rank);
    }
  }

  /** What a reference leads to in any covered heap is among its targets. */
  lemma {:induction false} WalkTargets(h: Heap, full: Heap, root: Doc, node: Doc, parts: seq<string>)
    requires Covered(h, full) && Full(full, root) && Inside(node, root) && WalkNow(h, node, parts).Some?
    ensures WalkNow(h, node, parts).value in Targets(full, node, parts)
    ensures Inside(WalkNow(h, node, parts).value, root)
    decreases |parts|
  {
    if parts != [] {
      ContentInside(h, full, root, node);
      var content := Content(h, node);
      var next := Lookup(content, parts[0]).value;
      LookupIn(content, parts[0]);
      WalkTargets(h, full, root, next, parts[1..]);
      InTargets(full, FullContent(full, node), parts, Entry(parts[0], next), WalkNow(h, next, parts[1..]).value);
    }
  }

  lemma {:induction false} ContentInside(h: Heap, full: Heap, root: Doc, d: Doc)
    requires Covered(h, full) && Full(full, root) && Inside(d, root) && d.Dict?
    ensures forall e | e in Content(h, d) :: Inside(e.value, root) && e in FullContent(full, d)
    ensures d.id.Some? && d.id.value in full ==> Part(Content(h, d), full, d.id.value)
  {
    if !(d.id.Some? && d.id.value in full) {
      forall e | e in d.entries ensures Inside(e.value, root) { EntryInside(e, d, root); }
    }
  }

  lemma {:induction false} InTargets(full: Heap, d: Entries, parts: seq<string>, e: Entry, t: Doc)
    requires parts != [] && e in d && e.key == parts[0] && t in Targets(full, e.value, parts[1..])
    ensures t in TargetsIn(full, d, parts)
  {
    if d[0] != e {
      assert e in d[1..];
      InTargets(full, d[1..], parts, e, t);
    }
  }

  lemma {:induction false} TargetSize(k: nat, targets: seq<Doc>, t: Doc, full: Heap, root: Doc, rank: Rank)
    requires t in targets && t.Dict?
    ensures EntriesSize(k, FullContent(full, t), full, root, rank) <= TargetsSize(k, targets, full, root, rank)
  {
    if targets[0] != t {
      assert t in targets[1..];
      TargetSize(k, targets[1..], t, full, root, rank);
    }
  }

  lemma RefSized(full: Heap, root: Doc, rank: Rank, s: string, h: Heap)
    requires Full(full, root) && Ordered(full, root, rank) && Covered(h, full)
    requires ResolveNow(h, Scalar(Str(s)), root).Some?
    ensures var p := PlanOf(full, root, rank);
            EntriesWeight(p, Content(h, ResolveNow(h, Scalar(Str(s)), root).value)) < p.size(Ref(s))
  {
    var p, t := PlanOf(full, root, rank), ResolveNow(h, Scalar(Str(s)), root).value;
    assert Inside(root, root);
    WalkTargets(h, full, root, root, RefParts(Scalar(Str(s))));
    ContentInside(h, full, root, t);
    assert t in TargetsOf(full, s, root);
    TargetSize(rank(Ref(s)), TargetsOf(full, s, root), t, full, root, rank);
    EntriesSizeIsWeight(rank(Ref(s)), FullContent(full, t), full, root, rank);
    if t.id.Some? && t.id.value in full { PartWeight(p, Content(h, t), full[t.id.value]); }
  }

  lemma OrderedSized(full: Heap, root: Doc, rank: Rank)
    requires Full(full, root) && Ordered(full, root, rank)
    ensures Sized(PlanOf(full, root, rank))
  {
    var p := PlanOf(full, root, rank);
    forall id | id in p.full ensures EntriesWeight(p, p.full[id]) < p.size(Shared(id)) {
      EntriesSizeIsWeight(rank(Shared(id)), full[id], full, root, rank);
    }
    forall s: string, h: Heap | Covered(h, p.full) && ResolveNow(h, Scalar(Str(s)), p.root).Some?
      ensures EntriesWeight(p, Content(h, ResolveNow(h, Scalar(Str(s)), p.root).value)) < p.size(Ref(s))
    {
      RefSized(full, root, rank, s, h);
    }
  }

  /** Main theorem: when every dict that an `allOf` extends is given its members' entries as well, and no
      reference and no extended dict then leads back to itself, the in-place run stops at one fixed outcome,
      on every schema of the document. */
  lemma InPlaceStops(full: Heap, root: Doc, c: Doc, path: string) returns (limit: nat)
    requires Held(full, root) && AcyclicExtended(full, root) && Inside(c, root)
    ensures !Slim(limit, map[], c, path, root).Exhausted?
    ensures forall depth: nat :: limit <= depth ==>
              Slim(depth, map[], c, path, root) == Slim(limit, map[], c, path, root)
  {
    var rank: Rank :| Ordered(full, root, rank);
    var p := PlanOf(full, root, rank);
    OrderedSized(full, root, rank);
    DocumentInHand(map[], p, c);
    limit := Cost(map[], p, c);
    RunStops(limit, map[], p, c, path);
    forall depth: nat | limit <= depth
      ensures Slim(depth, map[], c, path, root) == Slim(limit, map[], c, path, root)
    {
      RunDepthIrrelevant(limit, depth, map[], c, path, root);
    }
  }
}
