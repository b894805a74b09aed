/** What the dictionary of `parse_resource_id` (azext_edge/edge/util/id_tools.py) holds under every key, in
    terms of the segments of the id. */
module ResourceIdKeys {
  import opened Json
  import opened Text
  import opened ResourceId
  import opened ResourceIdLaws
  import opened ResourceIdGrammar

  // ---------- the segments ----------

  function NamespaceWords(ns: Option<string>): seq<string> {
    match ns case Some(n) => ["providers", n] case None => []
  }

  function ChildWords(cs: seq<Child>): seq<string> {
    if cs == [] then []
    else ChildWords(cs[..|cs| - 1])
         + (NamespaceWords(cs[|cs| - 1].namespace) + [cs[|cs| - 1].kind, cs[|cs| - 1].name])
  }

  /** All segments of an id. */
  function Words(id: Id): seq<string> {
    ["subscriptions", id.subscription]
    + (match id.group case Some(g) => ["resourceGroups", g] case None => [])
    + (match id.root
       case Some(r) => ["providers", r.namespace, r.kind, r.name] + ChildWords(r.children)
       case None => [])
  }

  /** Each segment with a slash behind it. */
  function Trailing(words: seq<string>): string {
    if words == [] then "" else words[0] + "/" + Trailing(words[1..])
  }

  /** The path from below the provider's namespace to the type of child `n`. */
  function PathTo(r: Root, n: nat): string
    requires 1 <= n <= |r.children|
  {
    Trailing([r.kind, r.name] + ChildWords(r.children[..n - 1]) + NamespaceWords(r.children[n - 1].namespace))
  }

  lemma {:induction false} SlashedConcat(a: seq<string>, b: seq<string>)
    ensures Slashed(a + b) == Slashed(a) + Slashed(b)
  {
    if a == [] {
      assert a + b == b;
    } else {
      assert (a + b)[1..] == a[1..] + b;
      SlashedConcat(a[1..], b);
    }
  }

  lemma SlashedPairIs(a: string, b: string)
    ensures Slashed([a, b]) == "/" + a + ("/" + b)
  {
    assert [a, b][1..] == [b] && [b][1..] == [] && Slashed([]) == "";
    assert Slashed([b]) == "/" + b + "";
    assert Slashed([b]) == "/" + b;
  }

  lemma {:induction false} TrailingConcat(a: seq<string>, b: seq<string>)
    ensures Trailing(a + b) == Trailing(a) + Trailing(b)
  {
    if a == [] {
      assert a + b == b;
    } else {
      assert (a + b)[1..] == a[1..] + b;
      TrailingConcat(a[1..], b);
    }
  }

  lemma TrailingPair(a: string, b: string)
    ensures Trailing([a, b]) == a + "/" + b + "/"
  {
    assert [a, b][1..] == [b] && [b][1..] == [];
    assert Trailing([b]) == b + "/";
  }

  // ---------- the printed text ----------

  lemma ChildText(c: Child)
    ensures PrintChild(c) == Slashed(NamespaceWords(c.namespace) + [c.kind, c.name])
  {
    SlashedConcat(NamespaceWords(c.namespace), [c.kind, c.name]);
    SlashedPairIs(c.kind, c.name);
    NamespaceText(c.namespace);
    ChildTextParts(PrintNamespace(c.namespace), c.kind, c.name);
  }

  lemma NamespaceText(ns: Option<string>)
    ensures PrintNamespace(ns) == Slashed(NamespaceWords(ns))
  {
    if ns.Some? {
      SlashedPairIs("providers", ns.value);
      WordText("/providers", ns.value);
      assert "/" + "providers" == "/providers" && "/providers" + "/" == PROVIDERS;
    }
  }

  lemma WordText(word: string, s: string)
    ensures word + ("/" + s) == word + "/" + s
  {
  }

  lemma ChildTextParts(ns: string, kind: string, name: string)
    ensures ns + "/" + kind + "/" + name == ns + ("/" + kind + ("/" + name))
  {
  }

  lemma {:induction false} ChildrenText(cs: seq<Child>)
    ensures PrintChildren(cs) == Slashed(ChildWords(cs))
  {
    if cs != [] {
      var n := |cs| - 1;
      assert cs == cs[..n] + [cs[n]];
      ChildrenText(cs[..n]);
      PrintSnoc(cs[..n], cs[n]);
      ChildText(cs[n]);
      SlashedConcat(ChildWords(cs[..n]), NamespaceWords(cs[n].namespace) + [cs[n].kind, cs[n].name]);
    }
  }

  lemma RootTextIs(r: Root)
    ensures PrintRoot(r) == Slashed(["providers", r.namespace, r.kind, r.name] + ChildWords(r.children))
  {
    var front, mid, kids := ["providers", r.namespace], [r.kind, r.name], ChildWords(r.children);
    ChildrenText(r.children);
    NamespaceText(Some(r.namespace));
    SlashedPairIs(r.kind, r.name);
    assert ["providers", r.namespace, r.kind, r.name] == front + mid;
    SlashedThree(front, mid, kids);
    RootTextParts(PROVIDERS + r.namespace, r.kind, r.name, PrintChildren(r.children));
  }

  lemma {:induction false} SlashedThree(a: seq<string>, b: seq<string>, c: seq<string>)
    ensures Slashed(a + b + c) == Slashed(a) + Slashed(b) + Slashed(c)
  {
    SlashedConcat(a + b, c);
    SlashedConcat(a, b);
  }

  lemma RootTextParts(ns: string, kind: string, name: string, kids: string)
    ensures ns + "/" + kind + "/" + name + kids == ns + ("/" + kind + ("/" + name)) + kids
  {
  }

  /** Main theorem: the printed id is its segments, each behind a slash. */
  lemma PrintedIs(id: Id)
    ensures PrintId(id) == Slashed(Words(id))
  {
    var first := ["subscriptions", id.subscription];
    var group := match id.group case Some(g) => ["resourceGroups", g] case None => [];
    var root := match id.root
                case Some(r) => ["providers", r.namespace, r.kind, r.name] + ChildWords(r.children)
                case None => [];
    SlashedThree(first, group, root);
    SubscriptionText(id.subscription);
    GroupTextIs(id.group);
    if id.root.Some? { RootTextIs(id.root.value); }
  }

  lemma SubscriptionText(s: string)
    ensures Slashed(["subscriptions", s]) == SUBSCRIPTIONS + s
  {
    SlashedPairIs("subscriptions", s);
    WordText("/subscriptions", s);
    assert "/" + "subscriptions" == "/subscriptions" && "/subscriptions" + "/" == SUBSCRIPTIONS;
  }

  lemma GroupTextIs(group: Option<string>)
    ensures PrintGroup(group) == Slashed(match group case Some(g) => ["resourceGroups", g] case None => [])
  {
    if group.Some? {
      SlashedPairIs("resourceGroups", group.value);
      WordText("/resourceGroups", group.value);
      assert "/" + "resourceGroups" == "/resourceGroups" && "/resourceGroups" + "/" == GROUPS;
    }
  }

  // ---------- the paths of the parents ----------

  lemma StepWords(ns: Option<string>)
    ensures Trailing(NamespaceWords(ns)) == NamespaceStep(ns)
  {
    if ns.Some? {
      TrailingPair("providers", ns.value);
      assert "providers" + "/" == "providers/";
    }
  }

  lemma {:induction false} ParentPathIs(r: Root, n: nat)
    requires 1 <= n <= |r.children|
    ensures ParentPath(r, n) == PathTo(r, n)
  {
    var c, before := r.children[n - 1], r.children[..n - 1];
    TrailingConcat([r.kind, r.name] + ChildWords(before), NamespaceWords(c.namespace));
    StepWords(c.namespace);
    TrailingPair(r.kind, r.name);
    if n == 1 {
      assert [r.kind, r.name] + ChildWords(before) == [r.kind, r.name];
    } else {
      var p, earlier := r.children[n - 2], r.children[..n - 2];
      ParentPathIs(r, n - 1);
      assert before[..n - 2] == earlier && before[n - 2] == p;
      var front, mid, last := [r.kind, r.name] + ChildWords(earlier), NamespaceWords(p.namespace), [p.kind, p.name];
      assert [r.kind, r.name] + ChildWords(before) == front + mid + last;
      TrailingConcat(front + mid, last);
      TrailingPair(p.kind, p.name);
      PathParts(Trailing(front + mid), p.kind, p.name);
    }
  }

  lemma PathParts(before: string, kind: string, name: string)
    ensures before + kind + "/" + name + "/" == before + (kind + "/" + name + "/")
  {
  }

  lemma {:induction false} ParentEntriesAt(r: Root, upTo: nat, key: Key)
    requires upTo <= |r.children|
    ensures LookUp(ParentEntries(r, upTo), key)
            == if key.ChildParent? && 1 <= key.n <= upTo then Some(ParentPath(r, key.n)) else None
  {
    if upTo > 0 { ParentEntriesAt(r, upTo - 1, key); }
  }

  // ---------- every key ----------

  /** The text, or the other when it is empty. */
  function Else(s: string, otherwise: string): string {
    if s == "" then otherwise else s
  }

  /** What an identifier has under a key; `children` is the text of its children. */
  function Expected(id: Id, children: string, key: Key): Option<string> {
    match id.root
    case None =>
      if key == Subscription then Some(id.subscription) else if key == ResourceGroup then id.group else None
    case Some(r) =>
      var k := |r.children|;
      match key
      case Subscription => Some(id.subscription)
      case ResourceGroup => id.group
      case Namespace => Some(r.namespace)
      case Type => Some(r.kind)
      case Name => Some(r.name)
      case Children => Some(children)
      case ChildNamespace(n) => if 1 <= n <= k then r.children[n - 1].namespace else None
      case ChildType(n) => if 1 <= n <= k then Some(r.children[n - 1].kind) else None
      case ChildName(n) => if 1 <= n <= k then Some(r.children[n - 1].name) else None
      case ChildParent(n) => if 1 <= n <= k then Some(PathTo(r, n)) else None
      case ResourceParent => if r.name == "" then None else Some(if k == 0 then "" else PathTo(r, k))
      case ResourceNamespace => Some(r.namespace)
      case ResourceType => Some(if k == 0 then r.kind else Else(r.children[k - 1].kind, r.kind))
      case ResourceName => Some(if k == 0 then r.name else Else(r.children[k - 1].name, r.name))
  }

  lemma {:induction false} ChildEntryAt(cs: seq<Child>, key: Key)
    ensures LookUp(ChildEntries(cs), key)
            == match key
               case ChildNamespace(n) => if 1 <= n <= |cs| then cs[n - 1].namespace else None
               case ChildType(n) => if 1 <= n <= |cs| then Some(cs[n - 1].kind) else None
               case ChildName(n) => if 1 <= n <= |cs| then Some(cs[n - 1].name) else None
               case _ => None
  {
    if (key.ChildNamespace? || key.ChildType? || key.ChildName?) && 1 <= key.n <= |cs| {
      EntryAt(cs, key.n);
    } else {
      NoEntry(cs, key);
    }
  }

  lemma {:induction false} EntryAt(cs: seq<Child>, n: nat)
    requires 1 <= n <= |cs|
    ensures LookUp(ChildEntries(cs), ChildNamespace(n)) == cs[n - 1].namespace
    ensures LookUp(ChildEntries(cs), ChildType(n)) == Some(cs[n - 1].kind)
    ensures LookUp(ChildEntries(cs), ChildName(n)) == Some(cs[n - 1].name)
  {
    ChildEntriesAt(cs, n);
  }

  lemma {:induction false} NoEntry(cs: seq<Child>, key: Key)
    requires !((key.ChildNamespace? || key.ChildType? || key.ChildName?) && 1 <= key.n <= |cs|)
    ensures LookUp(ChildEntries(cs), key) == None
  {
    ChildEntriesKeys(cs);
  }

  lemma GroupEntryAt(id: Id, children: string, key: Key)
    ensures LookUp(GroupEntries(id, children), key)
            == match key
               case Subscription => Some(id.subscription)
               case ResourceGroup => id.group
               case Namespace => (match id.root case Some(r) => Some(r.namespace) case None => None)
               case Type => (match id.root case Some(r) => Some(r.kind) case None => None)
               case Name => (match id.root case Some(r) => Some(r.name) case None => None)
               case Children => (match id.root case Some(_) => Some(children) case None => None)
               case _ => None
  {
  }

  lemma ParentEntryAt(id: Id, key: Key)
    ensures LookUp(Parents(id), key)
            == match id.root
               case None => None
               case Some(r) =>
                 var k := |r.children|;
                 if key.ChildParent? && 1 <= key.n <= k then Some(PathTo(r, key.n))
                 else if key == ResourceParent && r.name != "" then Some(if k == 0 then "" else PathTo(r, k))
                 else None
  {
    match id.root
    case Some(r) =>
      var k := |r.children|;
      ParentEntriesAt(r, k, key);
      LookUpAdd(ParentEntries(r, k), RootParent(r), key);
      if key.ChildParent? && 1 <= key.n <= k { ParentPathIs(r, key.n); }
      if k > 0 { ParentPathIs(r, k); }
    case None =>
  }

  /** Main theorem: whatever string the id expression matches, its dictionary holds this and no more. */
  lemma EveryKey(rid: string, id: Id, key: Key)
    requires rid != "" && ParseId(rid) == Some(id)
    ensures LookUp(Dictionary(rid).fields, key) == Expected(id, ResourceId.ChildrenText(rid), key)
    ensures Dictionary(rid).lastChild == if ChildList(id) == [] then None else Some(|ChildList(id)|)
  {
    var children := ResourceId.ChildrenText(rid);
    GroupEntryAt(id, children, key);
    ChildEntryAt(ChildList(id), key);
    ParentEntryAt(id, key);
    TargetEntryAt(id, key);
    FourLookUps(GroupEntries(id, children), ChildEntries(ChildList(id)), Parents(id), Targets(id), key);
  }

  lemma TargetEntryAt(id: Id, key: Key)
    ensures LookUp(Targets(id), key)
            == match (id.root, key)
               case (Some(r), ResourceNamespace) => Some(r.namespace)
               case (Some(r), ResourceType) =>
                 Some(if r.children == [] then r.kind else Else(r.children[|r.children| - 1].kind, r.kind))
               case (Some(r), ResourceName) =>
                 Some(if r.children == [] then r.name else Else(r.children[|r.children| - 1].name, r.name))
               case _ => None
  {
  }

  lemma FourLookUps(a: Kwargs, b: Kwargs, c: Kwargs, d: Kwargs, key: Key)
    ensures LookUp(a + b + c + d, key)
            == if LookUp(d, key).Some? then LookUp(d, key)
               else if LookUp(c, key).Some? then LookUp(c, key)
               else if LookUp(b, key).Some? then LookUp(b, key)
               else LookUp(a, key)
  {
  }

  /** Main theorem: the id printed from given segments is read back under every key as those segments. */
  lemma PrintedKeys(id: Id, key: Key)
    requires CleanId(id) && Unambiguous(ChildList(id))
    ensures var d := Dictionary(Slashed(Words(id)));
            && LookUp(d.fields, key) == Expected(id, Slashed(ChildWords(ChildList(id))), key)
            && d.lastChild == if ChildList(id) == [] then None else Some(|ChildList(id)|)
  {
    PrintedIs(id);
    RoundTrip(id);
    if id.root.Some? { PrintedChildrenText(id); }
    ChildrenText(ChildList(id));
    assert PrintId(id) != "";
    EveryKey(PrintId(id), id, key);
  }

  lemma PrintedChildrenText(id: Id)
    requires CleanId(id) && id.root.Some?
    ensures ResourceId.ChildrenText(PrintId(id)) == PrintChildren(id.root.value.children)
  {
    var r := id.root.value;
    var rest := PrintGroup(id.group) + PrintRoot(r);
    GroupRoundTrip(id);
    ProviderRoundTrip(r);
    SubscriptionsFolded();
    WordConcat(SUBSCRIPTIONS, id.subscription, rest);
    SegConcat(id.subscription, rest);
    Assoc(SUBSCRIPTIONS + id.subscription, PrintGroup(id.group), PrintRoot(r));
  }

  /** The blank string has no entries, and one the id expression does not match only its name. */
  lemma OtherStrings(rid: string)
    ensures Dictionary("") == Parsed(map[], None)
    ensures rid != "" && (|rid| < 15 || Lower(rid[..15]) != "/subscriptions/") ==>
              Dictionary(rid) == Parsed(map[Name := rid], None)
    ensures |rid| >= 15 && Lower(rid[..15]) == "/subscriptions/" ==> ParseId(rid).Some?
  {
    SubscriptionsFolded();
  }

  // ---------- printing any dictionary ----------

  /** The children of a dictionary up to level `k`. */
  function ChildAt(kwargs: Kwargs, n: nat): Child
    requires ChildType(n) in kwargs && ChildName(n) in kwargs
  {
    Child(LookUp(kwargs, ChildNamespace(n)), kwargs[ChildType(n)], kwargs[ChildName(n)])
  }

  /** Levels 1 to `k` are complete, and the next one is not. */
  predicate Complete(kwargs: Kwargs, k: nat) {
    && (forall n: nat | 1 <= n <= k :: ChildType(n) in kwargs && ChildName(n) in kwargs)
    && !(ChildType(k + 1) in kwargs && ChildName(k + 1) in kwargs)
  }

  function LevelWords(kwargs: Kwargs, from: nat, k: nat): seq<string>
    requires forall n: nat | from <= n <= k :: ChildType(n) in kwargs && ChildName(n) in kwargs
    decreases k + 1 - from
  {
    if from > k then []
    else
      var c := ChildAt(kwargs, from);
      NamespaceWords(c.namespace) + [c.kind, c.name] + LevelWords(kwargs, from + 1, k)
  }

  lemma {:induction false} LevelsPrint(kwargs: Kwargs, from: nat, k: nat)
    requires Complete(kwargs, k) && 1 <= from <= k + 1
    ensures ChildrenFrom(kwargs, from)
            == Slashed(LevelWords(kwargs, from, k) + NamespaceWords(LookUp(kwargs, ChildNamespace(k + 1))))
    decreases k + 1 - from
  {
    var last := NamespaceWords(LookUp(kwargs, ChildNamespace(k + 1)));
    if from > k {
      LastLevel(kwargs, from);
      assert LevelWords(kwargs, from, k) + last == last;
    } else {
      LevelsPrint(kwargs, from + 1, k);
      OneLevel(kwargs, from, LevelWords(kwargs, from + 1, k), last);
    }
  }

  lemma {:induction false} LastLevel(kwargs: Kwargs, n: nat)
    requires !(ChildType(n) in kwargs && ChildName(n) in kwargs)
    ensures ChildrenFrom(kwargs, n) == Slashed(NamespaceWords(LookUp(kwargs, ChildNamespace(n))))
  {
    var ns := LookUp(kwargs, ChildNamespace(n));
    NamespaceText(ns);
    assert PrintNamespace(ns) + "" == PrintNamespace(ns);
  }

  lemma {:induction false} OneLevel(kwargs: Kwargs, n: nat, rest: seq<string>, last: seq<string>)
    requires ChildType(n) in kwargs && ChildName(n) in kwargs && ChildrenFrom(kwargs, n + 1) == Slashed(rest + last)
    ensures var c := ChildAt(kwargs, n);
            ChildrenFrom(kwargs, n) == Slashed(NamespaceWords(c.namespace) + [c.kind, c.name] + rest + last)
  {
    var c := ChildAt(kwargs, n);
    var own := NamespaceWords(c.namespace) + [c.kind, c.name];
    ChildFromEntry(kwargs, c, n);
    ChildText(c);
    SlashedConcat(own, rest + last);
    assert own + rest + last == own + (rest + last);
  }

  /** Main theorem: any dictionary with a subscription is printed segment by segment until a key is missing: the
      group if there is one, the provider's namespace, its type and name if both are there, and the children up
      to the first incomplete level, of which only a namespace is printed. */
  lemma {:induction false} PrintsUntilMissing(kwargs: Kwargs, k: nat)
    requires Subscription in kwargs && Complete(kwargs, k)
    ensures var front := ["subscriptions", kwargs[Subscription]]
                         + (if ResourceGroup in kwargs then ["resourceGroups", kwargs[ResourceGroup]] else []);
            var provider :=
              if Namespace !in kwargs then []
              else if Type !in kwargs || Name !in kwargs then ["providers", kwargs[Namespace]]
              else ["providers", kwargs[Namespace]] + [kwargs[Type], kwargs[Name]]
                   + (LevelWords(kwargs, 1, k) + NamespaceWords(LookUp(kwargs, ChildNamespace(k + 1))));
            PrintKwargs(kwargs) == Some(Slashed(front + provider))
  {
    var first := ["subscriptions", kwargs[Subscription]];
    var group := if ResourceGroup in kwargs then ["resourceGroups", kwargs[ResourceGroup]] else [];
    SubscriptionText(kwargs[Subscription]);
    GroupTextIs(LookUp(kwargs, ResourceGroup));
    if Namespace in kwargs {
      NamespaceText(Some(kwargs[Namespace]));
      if Type in kwargs && Name in kwargs {
        var kids := LevelWords(kwargs, 1, k) + NamespaceWords(LookUp(kwargs, ChildNamespace(k + 1)));
        LevelsPrint(kwargs, 1, k);
        SlashedPairIs(kwargs[Type], kwargs[Name]);
        SlashedThree(["providers", kwargs[Namespace]], [kwargs[Type], kwargs[Name]], kids);
        ProviderParts(PROVIDERS + kwargs[Namespace], kwargs[Type], kwargs[Name], Slashed(kids));
        SlashedThree(first, group, ["providers", kwargs[Namespace]] + [kwargs[Type], kwargs[Name]] + kids);
      } else {
        SlashedThree(first, group, ["providers", kwargs[Namespace]]);
        assert PROVIDERS + kwargs[Namespace] + "" == PROVIDERS + kwargs[Namespace];
      }
    } else {
      SlashedThree(first, group, []);
    }
  }

  lemma ProviderParts(ns: string, kind: string, name: string, kids: string)
    ensures ns + ("/" + kind + "/" + name + kids) == ns + ("/" + kind + ("/" + name)) + kids
  {
  }

  /** Without a subscription there is nothing to print. */
  lemma NothingToPrint(kwargs: Kwargs)
    ensures PrintKwargs(kwargs) == None <==> Subscription !in kwargs
  {
  }

  // ---------- the entries one by one ----------

  /** The entries of an id with a provider. */
  lemma ExpectedRoot(id: Id, r: Root, children: string)
    requires id.root == Some(r)
    ensures Expected(id, children, Subscription) == Some(id.subscription)
    ensures Expected(id, children, ResourceGroup) == id.group
    ensures Expected(id, children, Namespace) == Expected(id, children, ResourceNamespace) == Some(r.namespace)
    ensures Expected(id, children, Type) == Some(r.kind) && Expected(id, children, Name) == Some(r.name)
    ensures Expected(id, children, Children) == Some(children)
    ensures var k := |r.children|;
            Expected(id, children, ResourceType)
            == Some(if k > 0 && r.children[k - 1].kind != "" then r.children[k - 1].kind else r.kind)
    ensures var k := |r.children|;
            Expected(id, children, ResourceName)
            == Some(if k > 0 && r.children[k - 1].name != "" then r.children[k - 1].name else r.name)
  {
  }

  lemma ExpectedLevel(id: Id, r: Root, children: string, n: nat)
    requires id.root == Some(r)
    ensures 1 <= n <= |r.children| ==>
              && Expected(id, children, ChildNamespace(n)) == r.children[n - 1].namespace
              && Expected(id, children, ChildType(n)) == Some(r.children[n - 1].kind)
              && Expected(id, children, ChildName(n)) == Some(r.children[n - 1].name)
    ensures n == 0 || n > |r.children| ==>
              && Expected(id, children, ChildNamespace(n)) == Expected(id, children, ChildType(n)) == None
              && Expected(id, children, ChildName(n)) == Expected(id, children, ChildParent(n)) == None
  {
  }

  /** And the parent paths: the path of child `n`, its type and its name are, slash by slash, the segments from
      the root's type on. */
  lemma ExpectedParent(id: Id, r: Root, children: string, n: nat)
    requires id.root == Some(r)
    ensures 1 <= n <= |r.children| ==>
              && Expected(id, children, ChildParent(n)).Some?
              && Expected(id, children, ChildParent(n)).value
                 + r.children[n - 1].kind + "/" + r.children[n - 1].name + "/"
                 == Trailing([r.kind, r.name] + ChildWords(r.children[..n]))
    ensures Expected(id, children, ResourceParent)
            == if r.name == "" then None
               else if r.children == [] then Some("")
               else Expected(id, children, ChildParent(|r.children|))
  {
    if 1 <= n <= |r.children| { PathGoesOn(r, n); }
  }

  lemma PathGoesOn(r: Root, n: nat)
    requires 1 <= n <= |r.children|
    ensures var c := r.children[n - 1];
            PathTo(r, n) + c.kind + "/" + c.name + "/" == Trailing([r.kind, r.name] + ChildWords(r.children[..n]))
  {
    var c := r.children[n - 1];
    assert r.children[..n][..n - 1] == r.children[..n - 1] && r.children[..n][n - 1] == c;
    var before := [r.kind, r.name] + ChildWords(r.children[..n - 1]) + NamespaceWords(c.namespace);
    assert [r.kind, r.name] + ChildWords(r.children[..n]) == before + [c.kind, c.name];
    TrailingConcat(before, [c.kind, c.name]);
    TrailingPair(c.kind, c.name);
    PathParts(Trailing(before), c.kind, c.name);
  }
}
