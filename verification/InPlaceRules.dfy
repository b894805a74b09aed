/** What config mode as it runs makes of every construct but the unions, read off the document and the changes
    made so far (azext_edge/edge/providers/adr/helpers.py). */
module InPlaceRules {
  import opened Json
  import opened SchemaTemplate
  import opened SchemaRules
  import opened Text
  import opened InPlace
  import opened InPlaceSteps
  import opened DocLaws
  import U = InPlaceUnions

  // ---------- references ----------

  /** The nodes met along the parts of a path, as they are now. */
  ghost predicate LeadsNow(h: Heap, nodes: seq<Doc>, parts: seq<string>) {
    && |nodes| == |parts| + 1
    && forall i | 0 <= i < |parts| ::
         nodes[i].Dict? && Lookup(Content(h, nodes[i]), parts[i]) == Some(nodes[i + 1])
  }

  ghost predicate ReachesNow(h: Heap, root: Doc, parts: seq<string>, target: Doc) {
    exists nodes: seq<Doc> :: LeadsNow(h, nodes, parts) && nodes[0] == root && nodes[|parts|] == target
  }

  lemma {:induction false} WalkLeadsNow(h: Heap, nodes: seq<Doc>, parts: seq<string>)
    requires LeadsNow(h, nodes, parts)
    ensures WalkNow(h, nodes[0], parts) == Some(nodes[|parts|])
    decreases |parts|
  {
    if parts != [] {
      assert Lookup(Content(h, nodes[0]), parts[0]) == Some(nodes[1]);
      assert forall i | 0 <= i < |parts| - 1 :: nodes[1..][i] == nodes[i + 1] && parts[1..][i] == parts[i + 1];
      WalkLeadsNow(h, nodes[1..], parts[1..]);
    }
  }

  lemma {:induction false} WalkFindsNow(h: Heap, node: Doc, parts: seq<string>) returns (nodes: seq<Doc>)
    requires WalkNow(h, node, parts).Some?
    ensures LeadsNow(h, nodes, parts) && nodes[0] == node && nodes[|parts|] == WalkNow(h, node, parts).value
    decreases |parts|
  {
    if parts == [] { return [node]; }
    var rest := WalkFindsNow(h, Lookup(Content(h, node), parts[0]).value, parts[1..]);
    nodes := [node] + rest;
    forall i | 0 <= i < |parts|
      ensures nodes[i].Dict? && Lookup(Content(h, nodes[i]), parts[i]) == Some(nodes[i + 1])
    {
      if i > 0 { assert nodes[i] == rest[i - 1] && parts[i] == parts[1..][i - 1] && nodes[i + 1] == rest[i]; }
    }
  }

  /** A reference resolves to the dict that its path leads to now. */
  lemma ResolvesNowIff(h: Heap, ref: Doc, root: Doc, target: Doc)
    ensures ResolveNow(h, ref, root) == Some(target)
            <==> && target.Dict? && ref.Scalar? && ref.value.Str?
                 && var s := ref.value.s;
                    |s| >= 14 && s[..14] == "#/definitions/" && ReachesNow(h, root, SplitSlash(s[2..]), target)
  {
    if ref.Scalar? && ref.value.Str? {
      PrefixIff(ref.value.s);
      if |ref.value.s| >= 14 { WalkNowIff(h, root, SplitSlash(ref.value.s[2..]), target); }
    }
  }

  lemma {:induction false} WalkNowIff(h: Heap, root: Doc, parts: seq<string>, target: Doc)
    ensures WalkNow(h, root, parts) == Some(target) <==> ReachesNow(h, root, parts, target)
  {
    if nodes: seq<Doc> :| LeadsNow(h, nodes, parts) && nodes[0] == root && nodes[|parts|] == target {
      WalkLeadsNow(h, nodes, parts);
    }
    if WalkNow(h, root, parts) == Some(target) {
      var nodes := WalkFindsNow(h, root, parts);
    }
  }

  /** Main theorem: a reference that resolves is rendered as its target, as it is now, overlaid with the other
      keys beside it, in a dict shared with nothing; one that does not is dropped. */
  lemma RefRuns(depth: nat, h: Heap, c: Doc, path: string, root: Doc) returns (merged: Entries)
    requires c.Dict? && Unique(Content(h, c)) && Lookup(Content(h, c), "$ref").Some?
    requires match ResolveNow(h, Lookup(Content(h, c), "$ref").value, root)
             case Some(target) => Unique(Content(h, target))
             case None => true
    ensures var d := Content(h, c);
            match ResolveNow(h, Lookup(d, "$ref").value, root)
            case Some(target) =>
              && U.Laid(merged, Content(h, target), Drop(d, "$ref"))
              && Slim(depth + 1, h, c, path, root) == U.Noting([], Slim(depth, h, Dict(None, merged), path, root))
            case None =>
              Slim(depth + 1, h, c, path, root)
              == if forall e | e in d :: e.key == "$ref" then Finished(NIL, [], h)
                 else Slim(depth + 1, h, Dict(None, Drop(d, "$ref")), path, root)
  {
    var d := Content(h, c);
    var rest := Drop(d, "$ref");
    DropIs(d, "$ref");
    merged := [];
    match ResolveNow(h, Lookup(d, "$ref").value, root)
    case Some(target) =>
      merged := Overlay(Content(h, target), rest);
      OverlayIs(Content(h, target), rest);
      RefTaken(depth, h, c, merged, path, root);
    case None =>
      NothingElseNow(d, "$ref");
      assert Lookup(rest, "$ref") == None;
  }

  lemma {:induction false} RefTaken(depth: nat, h: Heap, c: Doc, merged: Entries, path: string, root: Doc)
    requires StepOf(h, c, root) == (Rewritten(Dict(None, merged), 0), h)
    ensures Slim(depth + 1, h, c, path, root) == U.Noting([], Slim(depth, h, Dict(None, merged), path, root))
  {
    match Slim(depth, h, Dict(None, merged), path, root)
    case Finished(v, ws, end) => assert [] + ws == ws;
    case _ =>
  }

  lemma {:induction false} NothingElseNow(d: Entries, k: string)
    ensures Drop(d, k) == [] <==> forall e | e in d :: e.key == k
  {
    if d != [] {
      NothingElseNow(d[1..], k);
      assert forall e | e in d :: e == d[0] || e in d[1..];
      assert d[0] in d && forall e | e in d[1..] :: e in d;
    }
  }

  // ---------- constants, leaves and arrays ----------

  predicate SimpleNow(h: Heap, d: Entries) {
    && Lookup(d, "$ref") == None && Lookup(d, "allOf") == None
    && match Lookup(d, "oneOf") case None => true case Some(v) => !Truth(h, v)
  }

  predicate NoPropsNow(h: Heap, d: Entries) {
    match Lookup(d, "properties") case None => true case Some(v) => !Truth(h, v)
  }

  /** What Python reads as false: also a dict that holds nothing now. */
  lemma TruthIff(h: Heap, v: Doc)
    ensures Truth(h, v) <==> match v
                             case Scalar(j) => j !in {Null, Bool(false), Num(0.0), Str("")}
                             case List(items) => |items| > 0
                             case Dict(_, _) => |Content(h, v)| > 0
  {
  }

  /** The schema is an array with items: of that type, or with it as the first entry but "null" of a list. */
  ghost predicate ArrayNow(d: Entries) {
    && Lookup(d, "items").Some?
    && match Lookup(d, "type")
       case Some(List(ts)) =>
         exists i | 0 <= i < |ts| :: ArrayAt(ts, i)
       case Some(t) => t == Scalar(Str("array"))
       case None => false
  }

  predicate ArrayAt(ts: seq<Doc>, i: nat)
    requires i < |ts|
  {
    ts[i] == Scalar(Str("array")) && forall j | 0 <= j < i :: ts[j] == Scalar(Str("null"))
  }

  lemma {:induction false} FirstTypeIff(ts: seq<Doc>)
    ensures FirstType(ts) == Scalar(Str("array")) <==> exists i | 0 <= i < |ts| :: ArrayAt(ts, i)
  {
    if ts != [] {
      var rest := ts[1..];
      FirstTypeIff(rest);
      if ts[0] == Scalar(Str("null")) {
        if i :| 0 <= i < |rest| && ArrayAt(rest, i) {
          assert forall j | 0 < j < i + 1 :: ts[j] == rest[j - 1];
          assert ArrayAt(ts, i + 1);
        }
        if i :| 0 <= i < |ts| && ArrayAt(ts, i) {
          assert forall j | 0 <= j < i - 1 :: rest[j] == ts[j + 1];
          assert ArrayAt(rest, i - 1);
        }
      } else if ts[0] == Scalar(Str("array")) {
        assert ArrayAt(ts, 0);
      }
    }
  }

  /** Main theorem: what is rendered without a loop. A constant is itself; an array the list of its item's
      rendering, or its default when that is null; a leaf its default, or null. */
  lemma {:induction false} SimpleRuns(depth: nat, h: Heap, c: Doc, path: string, root: Doc)
    ensures !c.Dict? ==> Slim(depth + 1, h, c, path, root) == Finished(c, [], h)
    ensures c.Dict? && SimpleNow(h, Content(h, c)) ==>
              var d := Content(h, c);
              var default := match Lookup(d, "default") case Some(v) => v case None => Scalar(Null);
              if Lookup(d, "const").Some? then
                Slim(depth + 1, h, c, path, root) == Finished(Lookup(d, "const").value, [], h)
              else NoPropsNow(h, d) ==>
                if ArrayNow(d) then
                  Slim(depth + 1, h, c, path, root)
                  == match Slim(depth, h, Lookup(d, "items").value, path + "[]", root)
                     case Finished(v, ws, now) => Finished(if v == Scalar(Null) then default else List([v]), ws, now)
                     case failure => failure
                else Slim(depth + 1, h, c, path, root) == Finished(default, [], h)
  {
    if c.Dict? && SimpleNow(h, Content(h, c)) {
      PlainStepTaken(h, c, root);
      ArrayIff(Content(h, c));
    }
  }

  lemma PlainStepTaken(h: Heap, c: Doc, root: Doc)
    requires c.Dict? && SimpleNow(h, Content(h, c))
    ensures StepOf(h, c, root) == (PlainStep(h, Content(h, c)), h)
  {
  }

  lemma {:induction false} ArrayIff(d: Entries)
    ensures ArrayNow(d) <==> TypeOf(d) == Scalar(Str("array")) && Lookup(d, "items").Some?
  {
    match Lookup(d, "type")
    case Some(List(ts)) => FirstTypeIff(ts);
    case _ =>
  }

  // ---------- objects ----------

  /** One pass over the live dict: the changes before each entry and at the end, the values rendered and the
      messages noted on the way. */
  ghost predicate Pass(
    depth: nat, heaps: seq<Heap>, props: Doc, i: nat, n: nat, values: Entries, notes: seq<seq<Warning>>,
    path: string, root: Doc)
    requires props.Dict?
  {
    && i <= n && |values| == |notes| == n - i && |heaps| == n - i + 1
    && (forall h | h in heaps :: |Content(h, props)| == n)
    && (forall j | 0 <= j < n - i ::
          Passed(depth, heaps[j], heaps[j + 1], props, i + j, values[j], notes[j], path, root))
  }

  /** Entry `k` of the live dict is rendered under its own path. */
  predicate Passed(
    depth: nat, h: Heap, next: Heap, props: Doc, k: nat, rendered: Entry, note: seq<Warning>, path: string, root: Doc)
    requires props.Dict?
  {
    && k < |Content(h, props)|
    && var e := Content(h, props)[k];
       rendered.key == e.key
       && Slim(depth, h, e.value, Named(path, e.key), root) == Finished(rendered.value, note, next)
  }

  function Flat(notes: seq<seq<Warning>>): seq<Warning> {
    if notes == [] then [] else notes[0] + Flat(notes[1..])
  }

  /** Main theorem: a loop that finishes went over the dict entry by entry, reading each from the dict as it was
      then, and the dict had the same size throughout. */
  lemma {:induction false} LoopPasses(
    depth: nat, h: Heap, props: Doc, i: nat, n: nat, path: string, root: Doc)
    returns (heaps: seq<Heap>, values: Entries, notes: seq<seq<Warning>>)
    requires props.Dict? && i <= n && SlimEntries(depth, h, props, i, n, path, root).Finished?
    ensures Pass(depth, heaps, props, i, n, values, notes, path, root) && heaps[0] == h
    ensures SlimEntries(depth, h, props, i, n, path, root) == Finished(values, Flat(notes), heaps[n - i])
    decreases n - i
  {
    if i == n { return [h], [], []; }
    var f := Content(h, props)[i];
    NamedIs(path, f.key);
    var first := Slim(depth, h, f.value, JoinPath(path, f.key), root);
    var later, vs, more := LoopPasses(depth, first.heap, props, i + 1, n, path, root);
    heaps, values, notes := [h] + later, [Entry(f.key, first.value)] + vs, [first.warnings] + more;
    assert notes[1..] == more;
    PassCons(depth, h, first, later, props, i, n, vs, more, path, root);
  }

  lemma {:induction false} PassCons(
    depth: nat, h: Heap, first: Result<Doc>, later: seq<Heap>, props: Doc, i: nat, n: nat, vs: Entries,
    more: seq<seq<Warning>>, path: string, root: Doc)
    requires props.Dict? && i < n && |Content(h, props)| == n && first.Finished?
    requires Pass(depth, later, props, i + 1, n, vs, more, path, root) && later[0] == first.heap
    requires var f := Content(h, props)[i]; Slim(depth, h, f.value, Named(path, f.key), root) == first
    ensures Pass(depth, [h] + later, props, i, n, [Entry(Content(h, props)[i].key, first.value)] + vs,
                 [first.warnings] + more, path, root)
  {
    var f := Content(h, props)[i];
    var heaps, values, notes := [h] + later, [Entry(f.key, first.value)] + vs, [first.warnings] + more;
    forall j | 0 <= j < n - i
      ensures Passed(depth, heaps[j], heaps[j + 1], props, i + j, values[j], notes[j], path, root)
    {
      if j > 0 {
        assert heaps[j] == later[j - 1] && heaps[j + 1] == later[j];
        assert values[j] == vs[j - 1] && notes[j] == more[j - 1];
        assert Passed(depth, later[j - 1], later[j], props, i + 1 + (j - 1), vs[j - 1], more[j - 1], path, root);
      }
    }
    forall x | x in heaps ensures |Content(x, props)| == n {
      if x != h { assert x in later; }
    }
  }

  /** And it raises the error for a resized dict right after the entry that resized it. */
  lemma {:induction false} LoopResized(depth: nat, h: Heap, props: Doc, i: nat, n: nat, path: string, root: Doc)
    requires props.Dict? && i < n && |Content(h, props)| == n
    requires var f := Content(h, props)[i];
             var first := Slim(depth, h, f.value, Named(path, f.key), root);
             first.Finished? && |Content(first.heap, props)| != n
    ensures SlimEntries(depth, h, props, i, n, path, root) == Resized
  {
    NamedIs(path, Content(h, props)[i].key);
  }

  /** The schema's own dict is the one gone over; what it requires decides what is noted at the end. */
  lemma {:induction false} ObjectRuns(depth: nat, h: Heap, c: Doc, props: Doc, path: string, root: Doc)
    requires c.Dict? && SimpleNow(h, Content(h, c)) && Lookup(Content(h, c), "const") == None
    requires Lookup(Content(h, c), "properties") == Some(props) && props.Dict? && Content(h, props) != []
    ensures var required := match Lookup(Content(h, c), "required") case Some(v) => v case None => List([]);
            var n := |Content(h, props)|;
            Slim(depth + 1, h, c, path, root)
            == if NamesOf(h, required) == None then Failed
               else match SlimEntries(depth, h, props, 0, n, path, root)
                 case Finished(vs, ws, now) =>
                   var nulls := NullRequired(PlainEntries(vs), NamesOf(h, required).value, path);
                   Finished(Dict(None, vs), ws + (if nulls == [] then [] else [RequiredNull(nulls)]), now)
                 case Exhausted => Exhausted
                 case Failed => Failed
                 case Resized => Resized
  {
    PlainStepTaken(h, c, root);
  }

  /** The names `set(required)` holds now. */
  lemma {:induction false} NamesNowIff(h: Heap, required: Doc, name: string)
    ensures NamesOf(h, required) == None
            <==> match required
                 case Scalar(v) => !v.Str?
                 case List(items) => exists x | x in items :: !x.Scalar?
                 case Dict(_, _) => false
    ensures NamesOf(h, required).Some? ==>
              (name in NamesOf(h, required).value
               <==> match required
                    case Scalar(v) => |name| == 1 && name[0] in v.s
                    case List(items) => Scalar(Str(name)) in items
                    case Dict(_, _) => Lookup(Content(h, required), name).Some?)
  {
    match required
    case Scalar(v) => RequiresIff(v, name);
    case List(items) =>
      if x :| x in items && !x.Scalar? {
        var i :| 0 <= i < |items| && items[i] == x;
      }
      ItemNames(items, name);
    case Dict(_, _) =>
      RequiresIff(Obj(PlainEntries(Content(h, required))), name);
      LookupPlain(Content(h, required), name);
  }

  lemma {:induction false} ItemNames(items: seq<Doc>, name: string)
    ensures name in Strings(PlainItems(items)) <==> Scalar(Str(name)) in items
  {
    if items != [] {
      ItemNames(items[1..], name);
      PlainAtom(items[0], Str(name));
      assert PlainItems(items)[1..] == PlainItems(items[1..]);
      assert Scalar(Str(name)) in items <==> Scalar(Str(name)) == items[0] || Scalar(Str(name)) in items[1..];
    }
  }
}
