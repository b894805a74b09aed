/** The data-point list of a dataset in azext_edge/edge/providers/adr/assets.py: add, import and
    remove, read as a map from names to points in which the last copy of a name wins. */
module DataPoints {

  datatype Point<T> = Point(name: string, details: T)

  // ---------- the list as a map ----------

  function View<T>(points: seq<Point<T>>): map<string, Point<T>> {
    if points == [] then map[]
    else View(points[..|points| - 1])[points[|points| - 1].name := points[|points| - 1]]
  }

  function Names<T>(points: seq<Point<T>>): seq<string> {
    seq(|points|, i requires 0 <= i < |points| => points[i].name)
  }

  /** Names without repetition, each at its first position. */
  function FirstSeen(names: seq<string>): seq<string> {
    if names == [] then []
    else
      var n := |names| - 1;
      var seen := FirstSeen(names[..n]);
      if names[n] in seen then seen else seen + [names[n]]
  }

  // ---------- dict literals and their order ----------

  /** `d[p["name"]] = p` on an insertion-ordered dict held as its values. */
  function Put<T>(dict: seq<Point<T>>, p: Point<T>): seq<Point<T>> {
    if dict == [] then [p]
    else if dict[0].name == p.name then [p] + dict[1..]
    else [dict[0]] + Put(dict[1..], p)
  }

  predicate Unique<T>(points: seq<Point<T>>) {
    forall i, j | 0 <= i < j < |points| :: points[i].name != points[j].name
  }

  lemma {:induction false} PutNames<T>(dict: seq<Point<T>>, p: Point<T>)
    ensures Names(Put(dict, p)) == if p.name in Names(dict) then Names(dict) else Names(dict) + [p.name]
  {
    if dict != [] {
      assert Names(dict) == [dict[0].name] + Names(dict[1..]);
      if dict[0].name != p.name {
        PutNames(dict[1..], p);
        assert Names(Put(dict, p)) == [dict[0].name] + Names(Put(dict[1..], p));
      }
    }
  }

  lemma {:induction false} ViewConcat<T>(a: seq<Point<T>>, b: seq<Point<T>>)
    ensures View(a + b) == View(a) + View(b)
  {
    if b == [] {
      assert a + b == a;
    } else {
      var n := |b| - 1;
      assert (a + b)[..|a + b| - 1] == a + b[..n];
      ViewConcat(a, b[..n]);
    }
  }

  lemma {:induction false} ViewKeys<T>(points: seq<Point<T>>)
    ensures forall n :: n in View(points) <==> n in Names(points)
    ensures forall n | n in View(points) :: View(points)[n] in points && View(points)[n].name == n
  {
    if points != [] {
      var k := |points| - 1;
      ViewKeys(points[..k]);
      assert Names(points) == Names(points[..k]) + [points[k].name];
      assert forall p | p in points[..k] :: p in points;
    }
  }

  lemma {:induction false} PutUnique<T>(dict: seq<Point<T>>, p: Point<T>)
    requires Unique(dict)
    ensures Unique(Put(dict, p))
  {
    var put := Put(dict, p);
    PutNames(dict, p);
    assert |Names(put)| == |put| && |Names(dict)| == |dict|;
    forall i, j | 0 <= i < j < |put| ensures put[i].name != put[j].name {
      assert Names(put)[i] == put[i].name && Names(put)[j] == put[j].name;
      assert i < |dict| && Names(dict)[i] == dict[i].name;
      assert j < |dict| ==> Names(dict)[j] == dict[j].name;
    }
  }

  lemma ViewOne<T>(p: Point<T>)
    ensures View([p]) == map[p.name := p]
  {
    assert [p][..0] == [];
  }

  lemma UniqueTail<T>(dict: seq<Point<T>>)
    requires Unique(dict) && dict != []
    ensures Unique(dict[1..]) && dict[0].name !in View(dict[1..])
  {
    var tail := dict[1..];
    forall i, j | 0 <= i < j < |tail| ensures tail[i].name != tail[j].name {
      assert tail[i] == dict[i + 1] && tail[j] == dict[j + 1];
    }
    ViewKeys(tail);
    forall i | 0 <= i < |tail| ensures Names(tail)[i] != dict[0].name {
      assert tail[i] == dict[i + 1];
    }
  }

  lemma {:induction false} ReplacedHead<T>(head: Point<T>, tail: seq<Point<T>>, p: Point<T>)
    requires head.name == p.name && p.name !in View(tail)
    ensures View([p] + tail) == View([head] + tail)[p.name := p]
  {
    ViewConcat([head], tail);
    ViewConcat([p], tail);
    ViewOne(head);
    ViewOne(p);
  }

  lemma {:induction false} KeptHead<T>(head: Point<T>, tail: seq<Point<T>>, put: seq<Point<T>>, p: Point<T>)
    requires View(put) == View(tail)[p.name := p]
    ensures View([head] + put) == View([head] + tail)[p.name := p]
  {
    ViewConcat([head], tail);
    ViewConcat([head], put);
  }

  lemma {:induction false} PutView<T>(dict: seq<Point<T>>, p: Point<T>)
    requires Unique(dict)
    ensures View(Put(dict, p)) == View(dict)[p.name := p]
  {
    if dict == [] {
      ViewOne(p);
    } else {
      var head, tail := dict[0], dict[1..];
      assert dict == [head] + tail;
      UniqueTail(dict);
      if head.name == p.name {
        ReplacedHead(head, tail, p);
      } else {
        PutView(tail, p);
        KeptHead(head, tail, Put(tail, p), p);
      }
    }
  }

  // ---------- the operations as functions of the list ----------

  /** `{point["name"]: point for point in points}`. */
  function DictOf<T>(points: seq<Point<T>>): seq<Point<T>> {
    if points == [] then [] else Put(DictOf(points[..|points| - 1]), points[|points| - 1])
  }

  /** The merge loop over the file's dict. */
  function Overlay<T>(original: seq<Point<T>>, file: seq<Point<T>>, replace: bool): seq<Point<T>> {
    if file == [] then original
    else
      var n := |file| - 1;
      var merged := Overlay(original, file[..n], replace);
      if file[n].name in Names(original) && !replace then merged else Put(merged, file[n])
  }

  function Imported<T>(points: seq<Point<T>>, file: seq<Point<T>>, replace: bool): seq<Point<T>> {
    Overlay(DictOf(points), DictOf(file), replace)
  }

  function Removed<T>(points: seq<Point<T>>, name: string): seq<Point<T>> {
    if points == [] then []
    else
      var n := |points| - 1;
      Removed(points[..n], name) + if points[n].name != name then [points[n]] else []
  }

  // ---------- laws ----------

  lemma {:induction false} FirstSeenSet(names: seq<string>)
    ensures forall n :: n in FirstSeen(names) <==> n in names
  {
    if names != [] {
      FirstSeenSet(names[..|names| - 1]);
      assert names == names[..|names| - 1] + [names[|names| - 1]];
    }
  }

  lemma {:induction false} DictOfIs<T>(points: seq<Point<T>>)
    ensures Unique(DictOf(points))
    ensures View(DictOf(points)) == View(points)
    ensures Names(DictOf(points)) == FirstSeen(Names(points))
  {
    if points != [] {
      var n := |points| - 1;
      DictOfIs(points[..n]);
      PutView(DictOf(points[..n]), points[n]);
      PutUnique(DictOf(points[..n]), points[n]);
      PutNames(DictOf(points[..n]), points[n]);
      assert Names(points)[..n] == Names(points[..n]);
    }
  }

  lemma {:induction false} FirstSeenSnoc(names: seq<string>, x: string)
    ensures FirstSeen(names + [x]) == if x in names then FirstSeen(names) else FirstSeen(names) + [x]
    ensures x in FirstSeen(names) <==> x in names
  {
    assert (names + [x])[..|names|] == names;
    FirstSeenSet(names);
  }

  lemma {:induction false} OverlayIs<T>(original: seq<Point<T>>, file: seq<Point<T>>, replace: bool)
    requires Unique(original)
    ensures Unique(Overlay(original, file, replace))
    ensures Names(Overlay(original, file, replace)) == FirstSeen(Names(original) + Names(file))
  {
    if file == [] {
      assert Names(original) + Names(file) == Names(original);
      UniqueFirstSeen(original);
    } else {
      var n := |file| - 1;
      var earlier, p := file[..n], file[n];
      OverlayIs(original, earlier, replace);
      OverlayStep(original, earlier, p, replace);
      assert file == earlier + [p];
    }
  }

  lemma {:induction false} OverlayStep<T>(original: seq<Point<T>>, earlier: seq<Point<T>>, p: Point<T>, replace: bool)
    requires Unique(Overlay(original, earlier, replace))
    requires Names(Overlay(original, earlier, replace)) == FirstSeen(Names(original) + Names(earlier))
    ensures Unique(Overlay(original, earlier + [p], replace))
    ensures Names(Overlay(original, earlier + [p], replace)) == FirstSeen(Names(original) + Names(earlier + [p]))
  {
    assert (earlier + [p])[..|earlier|] == earlier;
    assert Names(original) + Names(earlier + [p]) == (Names(original) + Names(earlier)) + [p.name];
    FirstSeenSnoc(Names(original) + Names(earlier), p.name);
    PutUnique(Overlay(original, earlier, replace), p);
    PutNames(Overlay(original, earlier, replace), p);
  }

  lemma OverlayMaps<K, V>(under: map<K, V>, over: map<K, V>, k: K, v: V)
    ensures (under + over)[k := v] == under + over[k := v]
    ensures if k in over then under[k := v] + over == under + over else under[k := v] + over == (under + over)[k := v]
  {
  }

  lemma {:induction false} OverlayView<T>(original: seq<Point<T>>, file: seq<Point<T>>, replace: bool)
    requires Unique(original)
    ensures View(Overlay(original, file, replace))
            == if replace then View(original) + View(file) else View(file) + View(original)
  {
    if file != [] {
      var n := |file| - 1;
      var earlier, p := file[..n], file[n];
      OverlayView(original, earlier, replace);
      OverlayIs(original, earlier, replace);
      PutView(Overlay(original, earlier, replace), p);
      KnownName(original, p.name);
      if replace {
        OverlayMaps(View(original), View(earlier), p.name, p);
      } else {
        OverlayMaps(View(earlier), View(original), p.name, p);
      }
    }
  }

  lemma {:induction false} KnownName<T>(points: seq<Point<T>>, name: string)
    ensures name in Names(points) <==> name in View(points)
  {
    ViewKeys(points);
  }

  lemma {:induction false} UniqueFirstSeen<T>(points: seq<Point<T>>)
    requires Unique(points)
    ensures FirstSeen(Names(points)) == Names(points)
  {
    if points != [] {
      var n := |points| - 1;
      assert Names(points)[..n] == Names(points[..n]);
      UniqueFirstSeen(points[..n]);
      assert Names(points) == Names(points[..n]) + [points[n].name];
      assert forall i | 0 <= i < n :: Names(points[..n])[i] == points[i].name;
    }
  }

  /** Import as a whole: unique names in first-seen order, and the file laid over or under the list. */
  lemma {:induction false} ImportedIs<T>(points: seq<Point<T>>, file: seq<Point<T>>, replace: bool)
    ensures var merged := Imported(points, file, replace);
            && Unique(merged)
            && View(merged) == (if replace then View(points) + View(file) else View(file) + View(points))
            && Names(merged) == FirstSeen(Names(points) + Names(file))
  {
    DictOfIs(points);
    DictOfIs(file);
    OverlayIs(DictOf(points), DictOf(file), replace);
    OverlayView(DictOf(points), DictOf(file), replace);
    FirstSeenTwice(Names(points), Names(file));
  }

  lemma {:induction false} FirstSeenTwice(a: seq<string>, b: seq<string>)
    ensures FirstSeen(FirstSeen(a) + FirstSeen(b)) == FirstSeen(a + b)
  {
    if b == [] {
      FirstSeenIdempotent(a);
      assert FirstSeen(a) + FirstSeen(b) == FirstSeen(a) && a + b == a;
    } else {
      var n := |b| - 1;
      FirstSeenTwice(a, b[..n]);
      assert (a + b)[..|a + b| - 1] == a + b[..n];
      SeenAgain(a, b[..n], b[n]);
    }
  }

  /** One more name, new to the second list or not. */
  lemma {:induction false} SeenAgain(a: seq<string>, b: seq<string>, x: string)
    requires FirstSeen(FirstSeen(a) + FirstSeen(b)) == FirstSeen(a + b)
    ensures var seen := if x in FirstSeen(b) then FirstSeen(b) else FirstSeen(b) + [x];
            FirstSeen(FirstSeen(a) + seen)
            == if x in FirstSeen(a + b) then FirstSeen(a + b) else FirstSeen(a + b) + [x]
  {
    var shorter := FirstSeen(a) + FirstSeen(b);
    FirstSeenSet(a);
    FirstSeenSet(b);
    FirstSeenSet(a + b);
    FirstSeenSet(shorter);
    if x !in FirstSeen(b) {
      assert FirstSeen(a) + (FirstSeen(b) + [x]) == shorter + [x];
      FirstSeenSnoc(shorter, x);
    }
  }

  lemma {:induction false} FirstSeenIdempotent(a: seq<string>)
    ensures FirstSeen(FirstSeen(a)) == FirstSeen(a)
  {
    if a != [] {
      var n := |a| - 1;
      FirstSeenIdempotent(a[..n]);
      var seen := FirstSeen(a[..n]);
      if a[n] !in seen { assert (seen + [a[n]])[..|seen|] == seen; }
    }
  }

  /** Lists with unique names are equal when their names and their maps are. */
  lemma {:induction false} UniqueDetermined<T>(a: seq<Point<T>>, b: seq<Point<T>>)
    requires Unique(a) && Unique(b) && Names(a) == Names(b) && View(a) == View(b)
    ensures a == b
  {
    assert |Names(a)| == |a| && |Names(b)| == |b|;
    forall i | 0 <= i < |a| ensures a[i] == b[i] {
      assert Names(a)[i] == Names(b)[i];
      UniqueView(a, i);
      UniqueView(b, i);
    }
  }

  lemma {:induction false} UniqueView<T>(points: seq<Point<T>>, i: nat)
    requires Unique(points) && i < |points|
    ensures points[i].name in View(points) && View(points)[points[i].name] == points[i]
  {
    ViewKeys(points);
    assert Names(points)[i] == points[i].name;
    var p := View(points)[points[i].name];
    var j :| 0 <= j < |points| && points[j] == p;
  }

  /** Main theorem: importing the same file again, with the same flag, changes nothing. */
  lemma ImportIdempotent<T>(points: seq<Point<T>>, file: seq<Point<T>>, replace: bool)
    ensures Imported(Imported(points, file, replace), file, replace) == Imported(points, file, replace)
  {
    var once := Imported(points, file, replace);
    ImportedIs(points, file, replace);
    ImportedIs(once, file, replace);
    assert View(Imported(once, file, replace)) == View(once);
    var names := Names(points) + Names(file);
    FirstSeenAgain(Names(points), Names(file));
    UniqueDetermined(Imported(once, file, replace), once);
  }

  lemma {:induction false} FirstSeenAgain(a: seq<string>, b: seq<string>)
    ensures FirstSeen(FirstSeen(a + b) + b) == FirstSeen(a + b)
  {
    FirstSeenIdempotent(a + b);
    FirstSeenSet(a + b);
    KnownTail(FirstSeen(a + b), b);
  }

  lemma {:induction false} KnownTail(seen: seq<string>, b: seq<string>)
    requires forall x | x in b :: x in seen
    ensures FirstSeen(seen + b) == FirstSeen(seen)
  {
    if b == [] {
      assert seen + b == seen;
    } else {
      var n := |b| - 1;
      assert (seen + b)[..|seen + b| - 1] == seen + b[..n];
      assert forall x | x in b[..n] :: x in b;
      KnownTail(seen, b[..n]);
      assert b[n] in b;
      FirstSeenSet(seen);
    }
  }

  /** The points of any other name, each where it stood among them, copies included. */
  lemma {:induction false} RemovedIs<T>(a: seq<Point<T>>, b: seq<Point<T>>, p: Point<T>, name: string)
    ensures Removed<T>([], name) == [] && Removed([p], name) == if p.name == name then [] else [p]
    ensures Removed(a + b, name) == Removed(a, name) + Removed(b, name)
  {
    assert [p][..0] == [];
    if b == [] {
      assert a + b == a;
    } else {
      var n := |b| - 1;
      assert (a + b)[..|a + b| - 1] == a + b[..n];
      RemovedIs(a, b[..n], p, name);
    }
  }

  lemma {:induction false} RemovedView<T>(points: seq<Point<T>>, name: string)
    ensures View(Removed(points, name)) == View(points) - {name}
  {
    if points != [] {
      var n := |points| - 1;
      RemovedView(points[..n], name);
      var kept := if points[n].name != name then [points[n]] else [];
      ViewConcat(Removed(points[..n], name), kept);
      if kept != [] { assert kept[..0] == []; }
    }
  }

  // ---------- the object ----------

  class Dataset<T(0)> {
    var dataPoints: seq<Point<T>>

    /** Rejects a known name unless `replace`; otherwise appends, even beside an older copy. */
    method Add(p: Point<T>, replace: bool) returns (added: bool)
      modifies this
      ensures added == (replace || p.name !in View(old(dataPoints)))
      ensures dataPoints == old(dataPoints) + if added then [p] else []
    {
      var present := false;
      for i := 0 to |dataPoints|
        invariant present <==> p.name in Names(dataPoints[..i])
      {
        assert Names(dataPoints[..i + 1]) == Names(dataPoints[..i]) + [dataPoints[i].name];
        if dataPoints[i].name == p.name { present := true; }
      }
      assert dataPoints[..|dataPoints|] == dataPoints;
      ViewKeys(dataPoints);
      added := replace || !present;
      if added { dataPoints := dataPoints + [p]; }
    }

    method Import(file: seq<Point<T>>, replace: bool)
      modifies this
      ensures dataPoints == Imported(old(dataPoints), file, replace)
    {
      var original := AsDict(dataPoints);
      var filePoints := AsDict(file);
      var merged := original;
      for i := 0 to |filePoints|
        invariant merged == Overlay(original, filePoints[..i], replace)
      {
        assert filePoints[..i + 1][..i] == filePoints[..i];
        if replace || filePoints[i].name !in Names(original) {
          merged := Put(merged, filePoints[i]);
        }
      }
      assert filePoints[..|filePoints|] == filePoints;
      dataPoints := merged;
    }

    static method AsDict(points: seq<Point<T>>) returns (dict: seq<Point<T>>)
      ensures dict == DictOf(points)
    {
      dict := [];
      for i := 0 to |points|
        invariant dict == DictOf(points[..i])
      {
        assert points[..i + 1][..i] == points[..i];
        dict := Put(dict, points[i]);
      }
      assert points[..|points|] == points;
    }

    method Remove(name: string)
      modifies this
      ensures dataPoints == Removed(old(dataPoints), name)
    {
      var kept: seq<Point<T>> := [];
      for i := 0 to |dataPoints|
        invariant dataPoints == old(dataPoints) && kept == Removed(dataPoints[..i], name)
      {
        assert dataPoints[..i + 1][..i] == dataPoints[..i];
        if dataPoints[i].name != name { kept := kept + [dataPoints[i]]; }
      }
      assert dataPoints[..|dataPoints|] == dataPoints;
      dataPoints := kept;
    }
  }

  // ---------- whole sessions ----------

  datatype Op<T> =
    | AddOp(point: Point<T>, replace: bool)
    | ImportOp(file: seq<Point<T>>, replace: bool)
    | RemoveOp(name: string)

  function Apply<T>(points: seq<Point<T>>, op: Op<T>): seq<Point<T>> {
    match op
    case AddOp(p, replace) => points + if replace || p.name !in View(points) then [p] else []
    case ImportOp(file, replace) => Imported(points, file, replace)
    case RemoveOp(name) => Removed(points, name)
  }

  /** The same operation on a map: put-if-absent or put, overlay either way, delete. */
  function ApplyMap<T>(m: map<string, Point<T>>, op: Op<T>): map<string, Point<T>> {
    match op
    case AddOp(p, replace) => if replace || p.name !in m then m[p.name := p] else m
    case ImportOp(file, replace) => if replace then m + View(file) else View(file) + m
    case RemoveOp(name) => m - {name}
  }

  function Run<T>(points: seq<Point<T>>, ops: seq<Op<T>>): seq<Point<T>>
    decreases |ops|
  {
    if ops == [] then points else Run(Apply(points, ops[0]), ops[1..])
  }

  function RunMap<T>(m: map<string, Point<T>>, ops: seq<Op<T>>): map<string, Point<T>>
    decreases |ops|
  {
    if ops == [] then m else RunMap(ApplyMap(m, ops[0]), ops[1..])
  }

  lemma {:induction false} ApplyRefines<T>(points: seq<Point<T>>, op: Op<T>)
    ensures View(Apply(points, op)) == ApplyMap(View(points), op)
  {
    match op
    case AddOp(p, replace) =>
      ViewConcat(points, [p]);
      assert [p][..0] == [] && points + [] == points;
    case ImportOp(file, replace) => ImportedIs(points, file, replace);
    case RemoveOp(name) => RemovedView(points, name);
  }

  /** Main theorem: any sequence of add, import and remove acts on the list as on the map. */
  lemma {:induction false} RunRefines<T>(points: seq<Point<T>>, ops: seq<Op<T>>)
    ensures View(Run(points, ops)) == RunMap(View(points), ops)
    decreases |ops|
  {
    if ops != [] {
      ApplyRefines(points, ops[0]);
      RunRefines(Apply(points, ops[0]), ops[1..]);
    }
  }
}
