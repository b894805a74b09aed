/** `parse_dot_notation` of azext_edge/edge/util/common.py: `a.b=v` pairs become a nested dict. */
module DotNotation {
  import opened Json
  import opened Text

  datatype Tree = Leaf(value: string) | Node(entries: Entries)

  type Entries = map<string, Tree>

  type Path = seq<string>

  datatype Assignment = Assignment(path: Path, value: string)

  // ---------- one pair ----------

  function SplitDots(s: string): (parts: seq<string>)
    ensures |parts| > 0
  {
    if s == "" then [""]
    else
      var rest := SplitDots(s[1..]);
      if s[0] == '.' then [""] + rest else [[s[0]] + rest[0]] + rest[1..]
  }

  /** `partition("=")`: the text before and after the first '=', if there is one. */
  function Partition(s: string): Option<(string, string)> {
    if s == "" then None
    else if s[0] == '=' then Some(("", s[1..]))
    else match Partition(s[1..])
      case Some(p) => Some(([s[0]] + p.0, p.1))
      case None => None
  }

  function ReadPair(pair: string): (r: Option<Assignment>)
    ensures r.Some? ==> r.value.path != []
  {
    match Partition(pair)
    case Some(p) => Some(Assignment(SplitDots(Strip(p.0)), Strip(p.1)))
    case None => None
  }

  // ---------- building the tree ----------

  function SubEntries(entries: Entries, key: string): Entries {
    if key in entries && entries[key].Node? then entries[key].entries else map[]
  }

  /** Walk to the last key, replacing anything that is not a dict, and store the value. */
  function Store(entries: Entries, path: Path, value: string): Entries
    requires path != []
    decreases |path|
  {
    if |path| == 1 then entries[path[0] := Leaf(value)]
    else entries[path[0] := Node(Store(SubEntries(entries, path[0]), path[1..], value))]
  }

  function StoreAll(assignments: seq<Assignment>): Entries
    requires forall a | a in assignments :: a.path != []
  {
    if assignments == [] then map[]
    else
      var n := |assignments| - 1;
      assert assignments[n] in assignments;
      Store(StoreAll(assignments[..n]), assignments[n].path, assignments[n].value)
  }

  function ReadPairs(pairs: seq<string>): (r: seq<Assignment>)
    ensures forall a | a in r :: a.path != []
  {
    if pairs == [] then []
    else
      var n := |pairs| - 1;
      match ReadPair(pairs[n])
      case Some(a) => ReadPairs(pairs[..n]) + [a]
      case None => ReadPairs(pairs[..n])
  }

  // ---------- the dicts themselves ----------

  datatype Slot = Value(text: string) | Dict(dict: NestedDict)

  /** A Python dict whose values are texts or further dicts, changed in place. */
  class NestedDict {
    var slots: map<string, Slot>
    ghost var Repr: set<NestedDict>
    ghost var Model: Entries

    /** The dicts below are separate trees, and `Model` is what they hold. */
    ghost predicate Valid()
      reads this, Repr
      decreases Repr
    {
      && this in Repr
      && slots.Keys == Model.Keys
      && (forall k | k in slots ::
            match slots[k]
            case Value(text) => Model[k] == Leaf(text)
            case Dict(d) => d in Repr && d.Repr <= Repr - {this} && d.Valid() && Model[k] == Node(d.Model))
      && (forall j, k | j in slots && k in slots && j != k && slots[j].Dict? && slots[k].Dict? ::
            slots[j].dict.Repr !! slots[k].dict.Repr)
    }

    constructor ()
      ensures Valid() && fresh(Repr) && Model == map[] && Repr == {this}
    {
      slots := map[];
      Repr := {this};
      Model := map[];
    }

    /** The dict under a key; anything else there is replaced by a new one. */
    method Child(key: string) returns (child: NestedDict)
      requires Valid()
      modifies this
      ensures Valid() && fresh(Repr - old(Repr))
      ensures slots == old(slots)[key := Dict(child)]
      ensures child.Model == SubEntries(old(Model), key)
      ensures Model == old(Model)[key := Node(child.Model)]
    {
      if key in slots && slots[key].Dict? {
        child := slots[key].dict;
      } else {
        child := new NestedDict();
        slots := slots[key := Dict(child)];
        Repr := Repr + {child};
        Model := Model[key := Node(map[])];
      }
    }

    method SetText(key: string, text: string)
      requires Valid()
      modifies this
      ensures Valid() && Repr == old(Repr) && Model == old(Model)[key := Leaf(text)]
    {
      slots := slots[key := Value(text)];
      Model := Model[key := Leaf(text)];
    }

    /** The walk down to the last key. */
    method Set(path: Path, value: string)
      requires Valid() && path != []
      modifies Repr
      ensures Valid() && fresh(Repr - old(Repr))
      ensures Model == Store(old(Model), path, value)
      decreases |path|
    {
      var key := path[0];
      if |path| == 1 {
        SetText(key, value);
        return;
      }
      var current := Child(key);
      assert slots[key] == Dict(current);
      label entered:
      current.Set(path[1..], value);
      OthersKept@entered(key, current);
      Refresh(key, current);
    }

    /** A change inside one entry leaves the others in order. */
    twostate lemma OthersKept(key: string, new child: NestedDict)
      requires old(Valid()) && key in old(slots) && old(slots)[key] == Dict(child)
      requires unchanged(this)
      requires child.Valid() && fresh(child.Repr - old(child.Repr))
      requires forall d | d in old(Repr) && d !in old(child.Repr) :: unchanged(d)
      ensures ValidBut(key, child)
    {
      assert this !in old(child.Repr);
      forall k | k in slots && k != key && slots[k].Dict?
        ensures old(slots[k].dict.Repr) == slots[k].dict.Repr && slots[k].dict.Repr !! child.Repr
        ensures slots[k].dict.Valid()
      {
        var d := slots[k].dict;
        assert old(d.Repr) !! old(child.Repr);
      }
    }

    /** Every entry is in order, except that `key` may hold more than is recorded. */
    ghost predicate ValidBut(key: string, child: NestedDict)
      reads this, Repr, child, child.Repr
    {
      && this in Repr && slots.Keys == Model.Keys
      && key in slots && slots[key] == Dict(child) && child.Valid() && this !in child.Repr
      && (forall k | k in slots && k != key ::
            match slots[k]
            case Value(text) => Model[k] == Leaf(text)
            case Dict(d) =>
              && d in Repr && d.Repr <= Repr - {this} && d.Valid() && Model[k] == Node(d.Model)
              && d.Repr !! child.Repr)
      && (forall j, k | j in slots && k in slots && j != k && j != key && k != key && slots[j].Dict?
          && slots[k].Dict? ::
            slots[j].dict.Repr !! slots[k].dict.Repr)
    }

    /** Records what an entered dict has become. */
    ghost method Refresh(key: string, child: NestedDict)
      requires ValidBut(key, child)
      modifies this
      ensures Valid() && slots == old(slots)
      ensures Repr == old(Repr) + child.Repr && Model == old(Model)[key := Node(child.Model)]
    {
      Repr := Repr + child.Repr;
      Model := Model[key := Node(child.Model)];
    }
  }

  method ParseDotNotation(pairs: seq<string>) returns (result: NestedDict)
    ensures result.Valid() && fresh(result.Repr)
    ensures result.Model == StoreAll(ReadPairs(pairs))
  {
    result := new NestedDict();
    for i := 0 to |pairs|
      invariant result.Valid() && fresh(result.Repr)
      invariant result.Model == StoreAll(ReadPairs(pairs[..i]))
    {
      assert pairs[..i + 1][..i] == pairs[..i];
      var read := ReadPair(pairs[i]);
      if read.Some? {
        assert (ReadPairs(pairs[..i]) + [read.value])[..|ReadPairs(pairs[..i])|] == ReadPairs(pairs[..i]);
        result.Set(read.value.path, read.value.value);
      }
    }
    assert pairs[..|pairs|] == pairs;
  }

  // ---------- which pair decides a leaf ----------

  function LeafAt(entries: Entries, path: Path): Option<string>
    decreases |path|
  {
    if path == [] || path[0] !in entries then None
    else if |path| == 1 then (match entries[path[0]] case Leaf(v) => Some(v) case Node(_) => None)
    else LeafAt(SubEntries(entries, path[0]), path[1..])
  }

  /** Equal, or one a prefix of the other. */
  predicate Related(p: Path, q: Path) {
    p <= q || q <= p
  }

  lemma {:induction false} StoredLeaf(entries: Entries, path: Path, value: string, at: Path)
    requires path != []
    ensures LeafAt(Store(entries, path, value), at)
            == if at == path then Some(value) else if Related(path, at) then None else LeafAt(entries, at)
    decreases |path|
  {
    if at == [] {
      assert at <= path;
    } else if at[0] != path[0] {
    } else if |path| == 1 {
      assert path == [path[0]] && (|at| == 1 ==> at == [at[0]]);
      if |at| > 1 { assert path <= at; }
    } else if |at| == 1 {
      assert at == [path[0]] && at <= path;
    } else {
      assert path == [path[0]] + path[1..] && at == [at[0]] + at[1..];
      StoredLeaf(SubEntries(entries, path[0]), path[1..], value, at[1..]);
      assert Related(path, at) <==> Related(path[1..], at[1..]);
    }
  }

  /** Some pair sets `at` to `value`, and no later one touches an equal, shorter or longer path. */
  predicate LastWord(assignments: seq<Assignment>, at: Path, value: string) {
    exists i | 0 <= i < |assignments| ::
      && assignments[i] == Assignment(at, value)
      && forall j | i < j < |assignments| :: !Related(assignments[j].path, at)
  }

  lemma LastWordSnoc(earlier: seq<Assignment>, last: Assignment, at: Path, value: string)
    ensures LastWord(earlier + [last], at, value)
            <==> last == Assignment(at, value) || (LastWord(earlier, at, value) && !Related(last.path, at))
  {
    var all, n := earlier + [last], |earlier|;
    assert all[n] == last && forall i | 0 <= i < n :: all[i] == earlier[i];
    if LastWord(earlier, at, value) && !Related(last.path, at) {
      var i :| 0 <= i < n && earlier[i] == Assignment(at, value)
               && forall j | i < j < n :: !Related(earlier[j].path, at);
      assert all[i] == Assignment(at, value);
    }
    if LastWord(all, at, value) && last != Assignment(at, value) {
      var i :| 0 <= i < |all| && all[i] == Assignment(at, value)
               && forall j | i < j < |all| :: !Related(all[j].path, at);
      assert earlier[i] == Assignment(at, value) && !Related(all[n].path, at);
      assert forall j | i < j < n :: earlier[j] == all[j];
    }
  }

  /** Main theorem. */
  lemma {:induction false} LeafIffLastWord(assignments: seq<Assignment>, at: Path, value: string)
    requires forall a | a in assignments :: a.path != []
    ensures LeafAt(StoreAll(assignments), at) == Some(value) <==> LastWord(assignments, at, value)
  {
    if assignments != [] {
      var n := |assignments| - 1;
      var earlier, last := assignments[..n], assignments[n];
      assert last in assignments && assignments == earlier + [last];
      LeafIffLastWord(earlier, at, value);
      StoredLeaf(StoreAll(earlier), last.path, last.value, at);
      LastWordSnoc(earlier, last, at, value);
      if last.path == at { assert Related(last.path, at); }
    }
  }

  // ---------- rebuilding a tree from its leaves ----------

  /** No empty dict below the root. */
  predicate Full(t: Tree) {
    t.Node? ==> forall k | k in t.entries :: t.entries[k] != Node(map[]) && Full(t.entries[k])
  }

  lemma {:induction false} StoreFull(entries: Entries, path: Path, value: string)
    requires path != [] && Full(Node(entries))
    ensures Full(Node(Store(entries, path, value))) && path[0] in Store(entries, path, value)
    decreases |path|
  {
    if |path| > 1 {
      StoreFull(SubEntries(entries, path[0]), path[1..], value);
    }
  }

  lemma {:induction false} StoreAllFull(assignments: seq<Assignment>)
    requires forall a | a in assignments :: a.path != []
    ensures Full(Node(StoreAll(assignments)))
  {
    if assignments != [] {
      var n := |assignments| - 1;
      assert assignments[n] in assignments;
      StoreAllFull(assignments[..n]);
      StoreFull(StoreAll(assignments[..n]), assignments[n].path, assignments[n].value);
    }
  }

  /** Every entry of a full dict leads to a leaf. */
  lemma {:induction false} SomeLeaf(t: Tree, key: string) returns (path: Path)
    requires Full(t) && t.Node? && key in t.entries
    ensures path != [] && path[0] == key && LeafAt(t.entries, path).Some?
    decreases t
  {
    match t.entries[key]
    case Leaf(_) => path := [key];
    case Node(sub) =>
      var inner :| inner in sub;
      var rest := SomeLeaf(t.entries[key], inner);
      path := [key] + rest;
      assert path[1..] == rest;
  }

  /** A full tree is determined by its leaves. */
  lemma {:induction false} SameLeaves(a: Tree, b: Tree)
    requires a.Node? && b.Node? && Full(a) && Full(b)
    requires forall p: Path :: LeafAt(a.entries, p) == LeafAt(b.entries, p)
    ensures a == b
    decreases a
  {
    forall k | k in a.entries ensures k in b.entries {
      var p := SomeLeaf(a, k);
      assert LeafAt(a.entries, p) == LeafAt(b.entries, p);
    }
    forall k | k in b.entries ensures k in a.entries {
      var p := SomeLeaf(b, k);
      assert LeafAt(a.entries, p) == LeafAt(b.entries, p);
    }
    forall k | k in a.entries ensures a.entries[k] == b.entries[k] {
      var x, y := a.entries[k], b.entries[k];
      assert LeafAt(a.entries, [k]) == LeafAt(b.entries, [k]);
      if x.Node? && y.Node? {
        forall p: Path ensures LeafAt(x.entries, p) == LeafAt(y.entries, p) {
          if p != [] {
            var q := [k] + p;
            assert q[1..] == p && LeafAt(a.entries, q) == LeafAt(b.entries, q);
          }
        }
        SameLeaves(x, y);
      }
    }
  }

  /** The pairs list exactly the leaves of the tree, in any order and any number of times. */
  ghost predicate Lists(assignments: seq<Assignment>, entries: Entries) {
    && (forall a | a in assignments :: LeafAt(entries, a.path) == Some(a.value))
    && (forall p: Path | LeafAt(entries, p).Some? :: Assignment(p, LeafAt(entries, p).value) in assignments)
  }

  lemma {:induction false} LeavesUnrelated(entries: Entries, p: Path, q: Path)
    requires LeafAt(entries, p).Some? && LeafAt(entries, q).Some? && Related(p, q)
    ensures p == q
    decreases |p|
  {
    assert p[0] == q[0] && p == [p[0]] + p[1..] && q == [q[0]] + q[1..];
    if |p| > 1 && |q| > 1 {
      LeavesUnrelated(SubEntries(entries, p[0]), p[1..], q[1..]);
    } else {
      assert |p| == |q|;
    }
  }

  /** Main theorem: storing the leaves of a tree without empty subtrees, in any order, rebuilds it. */
  lemma {:induction false} Rebuild(assignments: seq<Assignment>, entries: Entries)
    requires Full(Node(entries)) && Lists(assignments, entries)
    ensures (forall a | a in assignments :: a.path != []) && StoreAll(assignments) == entries
  {
    StoreAllFull(assignments);
    forall p: Path ensures LeafAt(StoreAll(assignments), p) == LeafAt(entries, p) {
      if LeafAt(entries, p).Some? {
        LastOccurrence(assignments, entries, p);
        LeafIffLastWord(assignments, p, LeafAt(entries, p).value);
      } else if LeafAt(StoreAll(assignments), p).Some? {
        var v := LeafAt(StoreAll(assignments), p).value;
        LeafIffLastWord(assignments, p, v);
        assert Assignment(p, v) in assignments;
      }
    }
    SameLeaves(Node(StoreAll(assignments)), Node(entries));
  }

  lemma {:induction false} LastOccurrence(assignments: seq<Assignment>, entries: Entries, p: Path)
    requires Lists(assignments, entries) && LeafAt(entries, p).Some?
    ensures LastWord(assignments, p, LeafAt(entries, p).value)
  {
    var a := Assignment(p, LeafAt(entries, p).value);
    var i := LastIndex(assignments, a);
    forall j | i < j < |assignments| ensures !Related(assignments[j].path, p) {
      assert assignments[j] in assignments;
      if Related(assignments[j].path, p) {
        LeavesUnrelated(entries, assignments[j].path, p);
      }
    }
  }

  lemma {:induction false} LastIndex(assignments: seq<Assignment>, a: Assignment) returns (i: nat)
    requires a in assignments
    ensures i < |assignments| && assignments[i] == a
    ensures forall j | i < j < |assignments| :: assignments[j] != a
  {
    var n := |assignments| - 1;
    if assignments[n] == a { return n; }
    i := LastIndex(assignments[..n], a);
    assert forall j | i < j < n :: assignments[..n][j] == assignments[j];
  }

  // ---------- the same from text ----------

  function JoinDots(parts: seq<string>): string
    requires parts != []
  {
    if |parts| == 1 then parts[0] else parts[0] + "." + JoinDots(parts[1..])
  }

  function PairText(a: Assignment): string
    requires a.path != []
  {
    JoinDots(a.path) + "=" + a.value
  }

  /** Keys free of the separators, and no spaces at the ends of the path or the value. */
  predicate Printable(a: Assignment) {
    && a.path != []
    && (forall k | k in a.path :: '.' !in k && '=' !in k)
    && Strip(JoinDots(a.path)) == JoinDots(a.path)
    && Strip(a.value) == a.value
  }

  lemma {:induction false} SplitDotsJoin(k: string, rest: string)
    requires '.' !in k
    ensures SplitDots(k) == [k] && SplitDots(k + "." + rest) == [k] + SplitDots(rest)
  {
    var whole := k + "." + rest;
    if k == "" {
      assert whole[1..] == rest;
    } else {
      assert whole[1..] == k[1..] + "." + rest;
      SplitDotsJoin(k[1..], rest);
      assert k == [k[0]] + k[1..];
    }
  }

  lemma {:induction false} SplitJoined(parts: seq<string>)
    requires parts != [] && forall k | k in parts :: '.' !in k && '=' !in k
    ensures SplitDots(JoinDots(parts)) == parts && '=' !in JoinDots(parts)
  {
    assert parts[0] in parts;
    if |parts| == 1 {
      SplitDotsJoin(parts[0], "");
      assert parts == [parts[0]];
    } else {
      assert forall k | k in parts[1..] :: k in parts;
      SplitJoined(parts[1..]);
      SplitDotsJoin(parts[0], JoinDots(parts[1..]));
      assert parts == [parts[0]] + parts[1..];
    }
  }

  lemma {:induction false} PartitionJoin(path: string, value: string)
    requires '=' !in path
    ensures Partition(path + "=" + value) == Some((path, value))
  {
    var whole := path + "=" + value;
    if path == "" {
      assert whole[1..] == value;
    } else {
      assert whole[1..] == path[1..] + "=" + value;
      PartitionJoin(path[1..], value);
      assert path == [path[0]] + path[1..];
    }
  }

  lemma ReadText(a: Assignment)
    requires Printable(a)
    ensures ReadPair(PairText(a)) == Some(a)
  {
    SplitJoined(a.path);
    PartitionJoin(JoinDots(a.path), a.value);
  }

  /** Main theorem about one pair: without an "=" it is skipped. Otherwise white space around the two sides of
      the first "=" is dropped, and the left side is cut at every dot. */
  lemma {:induction false} ReadPairIs(parts: seq<string>, a: string, b: string, value: string, c: string, d: string)
    requires parts != [] && forall k | k in parts :: '.' !in k && '=' !in k
    requires forall x | x in a + b + c + d :: x in " \t\n\U{0b}\U{0c}\r\U{1c}\U{1d}\U{1e}\U{1f}"
    requires Trim(JoinDots(parts)) && Trim(value)
    ensures ReadPair(a + JoinDots(parts) + b + "=" + (c + value + d)) == Some(Assignment(parts, value))
  {
    var left, right := a + JoinDots(parts) + b, c + value + d;
    SplitJoined(parts);
    Sides(a, b, c, d);
    assert '=' !in left;
    PartitionJoin(left, right);
    StripIs(a, JoinDots(parts), b);
    StripIs(c, value, d);
  }

  lemma Sides(a: string, b: string, c: string, d: string)
    requires forall x | x in a + b + c + d :: x in " \t\n\U{0b}\U{0c}\r\U{1c}\U{1d}\U{1e}\U{1f}"
    ensures forall x | x in a + b :: x in " \t\n\U{0b}\U{0c}\r\U{1c}\U{1d}\U{1e}\U{1f}"
    ensures forall x | x in c + d :: x in " \t\n\U{0b}\U{0c}\r\U{1c}\U{1d}\U{1e}\U{1f}"
    ensures '=' !in a && '=' !in b
  {
    forall x | x in a || x in b || x in c || x in d
      ensures x in " \t\n\U{0b}\U{0c}\r\U{1c}\U{1d}\U{1e}\U{1f}"
    {
      assert x in a + b + c + d;
    }
  }

  /** The pairs are read in order, those without an "=" left out. */
  lemma {:induction false} PairsRead(pairs: seq<string>, pair: string)
    ensures ReadPairs([]) == []
    ensures ReadPairs(pairs + [pair]) == ReadPairs(pairs) + match ReadPair(pair) case Some(a) => [a] case None => []
  {
    assert (pairs + [pair])[..|pairs|] == pairs;
  }

  /** No white space at the ends. */
  predicate Trim(s: string) {
    s != "" ==>
      && s[0] !in " \t\n\U{0b}\U{0c}\r\U{1c}\U{1d}\U{1e}\U{1f}"
      && s[|s| - 1] !in " \t\n\U{0b}\U{0c}\r\U{1c}\U{1d}\U{1e}\U{1f}"
  }

  /** A pair is skipped if and only if it holds no "=". */
  lemma {:induction false} SkippedIff(pair: string)
    ensures ReadPair(pair) == None <==> '=' !in pair
  {
    if pair != "" {
      SkippedIff(pair[1..]);
      assert pair == [pair[0]] + pair[1..];
    }
  }

  lemma {:induction false} ReadTexts(assignments: seq<Assignment>, pairs: seq<string>)
    requires |pairs| == |assignments|
    requires forall i | 0 <= i < |pairs| :: Printable(assignments[i]) && pairs[i] == PairText(assignments[i])
    ensures ReadPairs(pairs) == assignments
  {
    if pairs != [] {
      var n := |pairs| - 1;
      ReadTexts(assignments[..n], pairs[..n]);
      ReadText(assignments[n]);
      assert assignments == assignments[..n] + [assignments[n]];
    }
  }

  /** A tree printed as `a.b=v` pairs in any order parses back to itself. */
  lemma {:induction false} RebuildFromText(assignments: seq<Assignment>, pairs: seq<string>, entries: Entries)
    requires Full(Node(entries)) && Lists(assignments, entries)
    requires |pairs| == |assignments|
    requires forall i | 0 <= i < |pairs| :: Printable(assignments[i]) && pairs[i] == PairText(assignments[i])
    ensures StoreAll(ReadPairs(pairs)) == entries
  {
    ReadTexts(assignments, pairs);
    Rebuild(assignments, entries);
  }
}
