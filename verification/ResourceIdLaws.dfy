/** Round trips of resource ids: printing and parsing, by identifier and by dictionary. */
module ResourceIdLaws {
  import opened Json
  import opened ResourceId
  import opened Text

  predicate Clean(s: string) {
    '/' !in s
  }

  predicate OneLine(s: string) {
    '\n' !in s
  }

  predicate IsProviders(s: string) {
    Lower(s) == "providers"
  }

  predicate CleanChild(c: Child) {
    && Clean(c.kind) && Clean(c.name) && OneLine(c.kind) && OneLine(c.name)
    && (c.namespace.Some? ==> Clean(c.namespace.value) && OneLine(c.namespace.value))
  }

  predicate CleanChildren(cs: seq<Child>) {
    forall c | c in cs :: CleanChild(c)
  }

  /** Slash-free segments; the child part, matched by `.*`, also without newlines. */
  predicate CleanId(id: Id) {
    && Clean(id.subscription)
    && (id.group.Some? ==> Clean(id.group.value))
    && (id.root.Some? ==>
          var r := id.root.value;
          Clean(r.namespace) && Clean(r.kind) && Clean(r.name) && CleanChildren(r.children))
  }

  /** Only the last child may lack a namespace and have type "providers". */
  predicate Unambiguous(cs: seq<Child>) {
    forall i | 0 <= i < |cs| - 1 :: cs[i].namespace.None? ==> !IsProviders(cs[i].kind)
  }

  predicate Tail(s: string) {
    s == "" || s[0] == '/'
  }

  // ---------- scanning printed text ----------

  lemma {:induction false} SegConcat(a: string, rest: string)
    requires Clean(a) && Tail(rest)
    ensures Seg(a + rest) == a && After(a + rest) == rest
  {
    if a == "" {
      assert a + rest == rest;
    } else {
      assert (a + rest)[1..] == a[1..] + rest;
      SegConcat(a[1..], rest);
    }
  }

  lemma PairConcat(kind: string, name: string, rest: string)
    requires Clean(kind) && Clean(name) && Tail(rest)
    ensures MatchPair("/" + kind + "/" + name + rest) == Some((kind, name, rest))
  {
    var s := "/" + kind + "/" + name + rest;
    var r := "/" + name + rest;
    assert s[1..] == kind + r;
    SegConcat(kind, r);
    assert r[1..] == name + rest;
    SegConcat(name, rest);
  }

  lemma PairSplits(s: string)
    requires MatchPair(s).Some?
    ensures var p := MatchPair(s).value;
            s == "/" + p.0 + "/" + p.1 + p.2 && Clean(p.0) && Clean(p.1) && Tail(p.2)
  {
    var t := s[1..];
    var r := After(t);
    assert t == Seg(t) + r && r[1..] == Seg(r[1..]) + After(r[1..]);
    Resplit(s, t, Seg(t), r, Seg(r[1..]), After(r[1..]));
  }

  lemma Resplit(s: string, t: string, a: string, r: string, b: string, c: string)
    requires s != "" && s[0] == '/' && t == s[1..] && t == a + r
    requires r != "" && r[0] == '/' && r[1..] == b + c
    ensures s == "/" + a + "/" + b + c
  {
    assert s == "/" + t && r == "/" + r[1..];
  }

  /** A keyword is matched exactly by its first segment. */
  lemma KeywordSegment(t: string, r: string)
    requires Clean(t) && Tail(r)
    ensures Keyword("/" + t + r, PROVIDERS) <==> r != "" && IsProviders(t)
    ensures Keyword("/" + t + r, PROVIDERS) ==> ("/" + t + r)[|PROVIDERS|..] == r[1..]
  {
    ProvidersParts();
    KeywordWord(t, r, "providers");
  }

  lemma KeywordWord(t: string, r: string, word: string)
    requires Clean(t) && Clean(word) && Tail(r)
    ensures var pattern := "/" + word + "/";
            && (Keyword("/" + t + r, pattern) <==> r != "" && Lower(t) == Lower(word))
            && (Keyword("/" + t + r, pattern) ==> ("/" + t + r)[|pattern|..] == r[1..])
  {
    var s, pattern := "/" + t + r, "/" + word + "/";
    if Keyword(s, pattern) { KeywordLength(t, r, word); }
    if r != "" && |t| == |word| {
      assert s[..|pattern|] == "/" + t + "/" && s[|pattern|..] == r[1..];
      LowerInside(t, word);
    }
  }

  lemma SlashesAt(t: string, r: string)
    requires Clean(t) && Tail(r)
    ensures var s := "/" + t + r;
            && (forall i | 1 <= i <= |t| :: s[i] != '/')
            && (r != "" ==> s[|t| + 1] == '/')
  {
    var s := "/" + t + r;
    forall i | 1 <= i <= |t| ensures s[i] != '/' { assert s[i] == t[i - 1]; }
  }

  lemma KeywordLength(t: string, r: string, word: string)
    requires Clean(t) && Clean(word) && Tail(r) && Keyword("/" + t + r, "/" + word + "/")
    ensures |t| == |word| && r != ""
  {
    var s, pattern := "/" + t + r, "/" + word + "/";
    var n := |pattern|;
    SlashesAt(t, r);
    SlashesAt(word, "/");
    forall i | 0 <= i < n ensures s[i] == '/' <==> pattern[i] == '/' {
      assert Lower(s[..n])[i] == Fold(s[i]) && Lower(pattern)[i] == Fold(pattern[i]);
    }
  }

  lemma LowerInside(t: string, word: string)
    ensures Lower("/" + t + "/") == Lower("/" + word + "/") <==> Lower(t) == Lower(word)
  {
    var a, b := "/" + t + "/", "/" + word + "/";
    if Lower(a) == Lower(b) {
      assert |a| == |b|;
      forall i | 0 <= i < |t| ensures Lower(t)[i] == Lower(word)[i] {
        assert Lower(a)[i + 1] == Lower(b)[i + 1] && a[i + 1] == t[i] && b[i + 1] == word[i];
      }
    }
    if Lower(t) == Lower(word) {
      forall i | 0 <= i < |a| ensures Lower(a)[i] == Lower(b)[i] {
        if 1 <= i <= |t| { assert Lower(t)[i - 1] == Lower(word)[i - 1] && a[i] == t[i - 1] && b[i] == word[i - 1]; }
      }
    }
  }

  lemma PrefixKeyword(x: string)
    ensures Keyword(PROVIDERS + x, PROVIDERS) && (PROVIDERS + x)[|PROVIDERS|..] == x
  {
    assert (PROVIDERS + x)[..|PROVIDERS|] == PROVIDERS;
  }

  lemma ProvidersParts()
    ensures PROVIDERS == "/" + "providers" + "/"
    ensures Lower("providers") == "providers"
  {
  }

  lemma WordConcat(word: string, a: string, rest: string)
    ensures (word + a + rest)[..|word|] == word && (word + a + rest)[|word|..] == a + rest
    ensures word + a + rest == word + (a + rest)
  {
  }

  lemma PairWord(word: string, b: string, a: string, rest: string)
    requires word == "/" + b + "/" && Clean(b) && Clean(a) && Tail(rest)
    ensures MatchPair(word + (a + rest)) == Some((b, a, rest)) && Tail(word + (a + rest))
  {
    PairConcat(b, a, rest);
    assert word + (a + rest) == "/" + b + "/" + a + rest;
  }

  lemma PrintChildTail(c: Child, rest: string)
    requires CleanChild(c) && Tail(rest)
    ensures Tail(PrintChild(c) + rest) && MatchPair(PrintChild(c) + rest).Some?
  {
    match c.namespace
    case None =>
      PairConcat(c.kind, c.name, rest);
      assert PrintChild(c) + rest == "/" + c.kind + "/" + c.name + rest;
    case Some(ns) =>
      var more := "/" + c.kind + "/" + c.name + rest;
      ProvidersParts();
      PairWord(PROVIDERS, "providers", ns, more);
      SpliceNamespace(PROVIDERS, ns, c.kind, c.name, rest);
  }

  /** What the child expression finds at the start of two slash-led segments. */
  lemma MatchChildIs(t: string, n: string, rest: string)
    requires Clean(t) && Clean(n) && Tail(rest)
    ensures MatchChild("/" + t + "/" + n + rest)
            == if IsProviders(t) && MatchPair(rest).Some? then
                 var p := MatchPair(rest).value; Some((Child(Some(n), p.0, p.1), p.2))
               else Some((Child(None, t, n), rest))
  {
    var s := "/" + t + "/" + n + rest;
    var r := "/" + n + rest;
    assert s == "/" + t + r && r[1..] == n + rest;
    KeywordSegment(t, r);
    SegConcat(n, rest);
    PairConcat(t, n, rest);
  }

  lemma MatchChildPrinted(c: Child, rest: string)
    requires CleanChild(c) && Tail(rest)
    ensures c.namespace.Some? || !IsProviders(c.kind) || MatchPair(rest).None?
            ==> MatchChild(PrintChild(c) + rest) == Some((c, rest))
    ensures c.namespace.None? && IsProviders(c.kind) && MatchPair(rest).Some?
            ==> MatchChild(PrintChild(c) + rest).Some? && MatchChild(PrintChild(c) + rest).value.0 != c
  {
    match c.namespace
    case None =>
      assert PrintChild(c) + rest == "/" + c.kind + "/" + c.name + rest;
      MatchChildIs(c.kind, c.name, rest);
    case Some(ns) =>
      var more := "/" + c.kind + "/" + c.name + rest;
      SpliceNamespace(PROVIDERS, ns, c.kind, c.name, rest);
      PrefixKeyword(ns + more);
      SegConcat(ns, more);
      PairConcat(c.kind, c.name, rest);
  }

  lemma {:induction false} PrintChildrenTail(cs: seq<Child>)
    requires CleanChildren(cs)
    ensures Tail(PrintChildren(cs))
    ensures MatchPair(PrintChildren(cs)).Some? <==> cs != []
    ensures OneLine(PrintChildren(cs))
  {
    if cs != [] {
      assert cs[0] in cs && forall c | c in cs[1..] :: c in cs;
      PrintChildrenTail(cs[1..]);
      PrintChildTail(cs[0], PrintChildren(cs[1..]));
    }
  }

  /** Such a child is read as the namespace of the one after it. */
  predicate Swallows(c: Child, rest: seq<Child>) {
    c.namespace.None? && IsProviders(c.kind) && rest != []
  }

  lemma UnambiguousTail(cs: seq<Child>)
    requires cs != []
    ensures Unambiguous(cs)
            <==> !Swallows(cs[0], cs[1..]) && Unambiguous(cs[1..])
  {
    if Unambiguous(cs) {
      forall i | 0 <= i < |cs[1..]| - 1 ensures cs[1..][i].namespace.None? ==> !IsProviders(cs[1..][i].kind) {
        assert cs[1..][i] == cs[i + 1];
      }
    }
    if !Swallows(cs[0], cs[1..]) && Unambiguous(cs[1..]) {
      forall i | 0 <= i < |cs| - 1 ensures cs[i].namespace.None? ==> !IsProviders(cs[i].kind) {
        if i > 0 { assert cs[i] == cs[1..][i - 1]; }
      }
    }
  }

  /** The first child found in a printed chain is the printed one, unless it swallows the next. */
  lemma {:induction false} FirstOfChain(c: Child, rest: seq<Child>)
    requires CleanChild(c) && CleanChildren(rest)
    ensures var found := ChildrenOf(PrintChild(c) + PrintChildren(rest));
            if Swallows(c, rest) then found != [] && found[0] != c else found == [c] + ChildrenOf(PrintChildren(rest))
  {
    PrintChildrenTail(rest);
    MatchChildPrinted(c, PrintChildren(rest));
    ChildrenStep(PrintChild(c) + PrintChildren(rest));
  }

  /** A printed chain parses back exactly when it is unambiguous. */
  lemma {:induction false} ChildrenRoundTrip(cs: seq<Child>)
    requires CleanChildren(cs)
    ensures ChildrenOf(PrintChildren(cs)) == cs <==> Unambiguous(cs)
  {
    if cs != [] {
      var c, rest := cs[0], cs[1..];
      assert c in cs && forall d | d in rest :: d in cs;
      FirstOfChain(c, rest);
      ChildrenRoundTrip(rest);
      UnambiguousTail(cs);
      var found := ChildrenOf(PrintChildren(rest));
      assert cs == [c] + rest;
      assert [c] + found == [c] + rest <==> found == rest by { assert ([c] + found)[1..] == found; }
    }
  }

  // ---------- the round trip of whole identifiers ----------

  lemma NotGroups(s: string)
    requires Keyword(s, PROVIDERS) || s == ""
    ensures !Keyword(s, GROUPS)
  {
    if |s| >= 16 {
      assert Lower(s[..11])[1] == 'p' && Lower(s[..16])[1] == Fold(s[1]);
      assert Lower(GROUPS)[1] == 'r';
    }
  }

  lemma ProviderRoundTrip(r: Root)
    requires Clean(r.namespace) && Clean(r.kind) && Clean(r.name) && CleanChildren(r.children)
    ensures Keyword(PrintRoot(r), PROVIDERS)
    ensures MatchProvider(PrintRoot(r)) == Some((r.namespace, r.kind, r.name, PrintChildren(r.children)))
  {
    var kids := PrintChildren(r.children);
    PrintChildrenTail(r.children);
    var more := "/" + r.kind + "/" + r.name + kids;
    assert PrintRoot(r) == PROVIDERS + (r.namespace + more);
    PrefixKeyword(r.namespace + more);
    SegConcat(r.namespace, more);
    PairConcat(r.kind, r.name, kids);
  }

  lemma GroupRoundTrip(id: Id)
    requires CleanId(id)
    ensures var rest := PrintGroup(id.group) + RootText(id);
            Tail(rest) && AfterGroup(rest) == RootText(id) && MatchGroup(rest) == id.group
  {
    if id.root.Some? { ProviderRoundTrip(id.root.value); }
    NotGroups(RootText(id));
    match id.group
    case None => assert "" + RootText(id) == RootText(id);
    case Some(g) =>
      WordConcat(GROUPS, g, RootText(id));
      SegConcat(g, RootText(id));
  }

  lemma ParsePrefix(word: string, subscription: string, rest: string)
    requires Lower(word) == SUBSCRIPTIONS && Clean(subscription) && Tail(rest)
    ensures ParseId(word + subscription + rest)
            == Some(Id(subscription, MatchGroup(rest), MatchRoot(AfterGroup(rest))))
  {
    var rid := word + subscription + rest;
    WordConcat(word, subscription, rest);
    SubscriptionsFolded();
    SegConcat(subscription, rest);
  }

  lemma SubscriptionsFolded()
    ensures Lower(SUBSCRIPTIONS) == SUBSCRIPTIONS && Lower(PROVIDERS) == PROVIDERS
  {
  }

  lemma RootRoundTrip(id: Id)
    requires CleanId(id)
    ensures MatchRoot(RootText(id)) == id.root <==> Unambiguous(ChildList(id))
  {
    if id.root.Some? {
      ProviderRoundTrip(id.root.value);
      ChildrenRoundTrip(id.root.value.children);
      PrintChildrenTail(id.root.value.children);
    }
  }

  /** Main theorem: printing then parsing gives the identifier back exactly when no child but the
      last lacks a namespace and has type "providers". */
  lemma RoundTrip(id: Id)
    requires CleanId(id)
    ensures ParseId(PrintId(id)) == Some(id) <==> Unambiguous(ChildList(id))
  {
    var rest := PrintGroup(id.group) + RootText(id);
    GroupRoundTrip(id);
    RootRoundTrip(id);
    SubscriptionsFolded();
    ParsePrefix(SUBSCRIPTIONS, id.subscription, rest);
    Assoc(SUBSCRIPTIONS + id.subscription, PrintGroup(id.group), RootText(id));
  }

  // ---------- print after parse ----------

  lemma {:induction false} ParsedChildren(s: string)
    requires Tail(s) && OneLine(s)
    ensures CleanChildren(ChildrenOf(s)) && Unambiguous(ChildrenOf(s))
    decreases |s|
  {
    if MatchChild(s).Some? {
      var (c, rest) := MatchChild(s).value;
      ChildrenStep(s);
      ParsedChild(s);
      ParsedChildren(rest);
      var cs := ChildrenOf(rest);
      assert forall i | 0 < i <= |cs| :: ([c] + cs)[i] == cs[i - 1];
    }
  }

  lemma ParsedChild(s: string)
    requires Tail(s) && OneLine(s) && MatchChild(s).Some?
    ensures var m := MatchChild(s).value;
            && CleanChild(m.0) && Tail(m.1) && OneLine(m.1)
            && (m.0.namespace.None? && IsProviders(m.0.kind) ==> MatchChild(m.1).None?)
  {
    PairOfTail(s);
    var p := MatchPair(s).value;
    PairSplits(s);
    assert s == "/" + p.0 + "/" + p.1 + p.2;
    MatchChildIs(p.0, p.1, p.2);
    assert OneLine(p.2) && OneLine(p.0) && OneLine(p.1) by { PartsOneLine(p.0, p.1, p.2); }
    if MatchPair(p.2).Some? {
      PairSplits(p.2);
      var q := MatchPair(p.2).value;
      PartsOneLine(q.0, q.1, q.2);
    } else {
      PairOfTail(p.2);
    }
  }

  lemma PartsOneLine(a: string, b: string, c: string)
    requires OneLine("/" + a + "/" + b + c)
    ensures OneLine(a) && OneLine(b) && OneLine(c)
  {
    var s := "/" + a + "/" + b + c;
    assert forall x | x in a :: x in s;
    assert forall x | x in b :: x in s;
    assert forall x | x in c :: x in s;
  }

  /** Where there is a child there are two segments. */
  lemma PairOfTail(s: string)
    requires Tail(s)
    ensures MatchChild(s).Some? <==> MatchPair(s).Some?
  {
    if s != "" {
      assert s == "/" + Seg(s[1..]) + After(s[1..]);
      KeywordSegment(Seg(s[1..]), After(s[1..]));
    }
  }

  /** Printing what was parsed is stable, on every string the id expression matches. */
  lemma PrintParseIdempotent(rid: string)
    requires ParseId(rid).Some?
    ensures ParseId(PrintId(ParseId(rid).value)) == ParseId(rid)
  {
    var id := ParseId(rid).value;
    ParsedClean(rid);
    RoundTrip(id);
  }

  lemma ParsedClean(rid: string)
    requires ParseId(rid).Some?
    ensures CleanId(ParseId(rid).value) && Unambiguous(ChildList(ParseId(rid).value))
  {
    var id := ParseId(rid).value;
    if id.root.Some? {
      var s := AfterGroup(After(rid[|SUBSCRIPTIONS|..]));
      var p := MatchPair(After(s[|PROVIDERS|..])).value;
      PairSplits(After(s[|PROVIDERS|..]));
      assert Tail(Line(p.2));
      ParsedChildren(Line(p.2));
    }
  }

  // ---------- the dictionary carries the identifier ----------

  /** What printing reads from a dictionary. */
  ghost predicate Carries(kwargs: Kwargs, id: Id) {
    && LookUp(kwargs, Subscription) == Some(id.subscription)
    && LookUp(kwargs, ResourceGroup) == id.group
    && LookUp(kwargs, Namespace) == (match id.root case Some(r) => Some(r.namespace) case None => None)
    && Describes(kwargs, id)
    && forall k: nat | |ChildList(id)| < k ::
         LookUp(kwargs, ChildType(k)) == None && LookUp(kwargs, ChildNamespace(k)) == None
  }

  lemma GroupLookUps(id: Id, text: string)
    ensures var g := GroupEntries(id, text);
            && LookUp(g, Subscription) == Some(id.subscription)
            && LookUp(g, ResourceGroup) == id.group
            && LookUp(g, Namespace) == (match id.root case Some(r) => Some(r.namespace) case None => None)
  {
  }

  predicate Computed(key: Key) {
    key.ChildParent? || key.ResourceParent? || key.ResourceNamespace? || key.ResourceType? || key.ResourceName?
  }

  lemma {:induction false} ParentKeys(r: Root, upTo: nat)
    requires upTo <= |r.children|
    ensures forall key | key in ParentEntries(r, upTo) :: key.ChildParent? && 1 <= key.n <= upTo
  {
    if upTo > 0 { ParentKeys(r, upTo - 1); }
  }

  lemma ComputedKeys(id: Id)
    ensures forall key | key in Parents(id) || key in Targets(id) :: Computed(key)
  {
    if id.root.Some? { ParentKeys(id.root.value, |id.root.value.children|); }
  }

  lemma ComputedLookUp(base: Kwargs, parents: Kwargs, targets: Kwargs, key: Key)
    requires key !in parents && key !in targets
    ensures LookUp(base + parents + targets, key) == LookUp(base, key)
  {
  }

  lemma BaseCarries(id: Id, text: string)
    ensures Carries(GroupEntries(id, text) + ChildEntries(ChildList(id)), id)
  {
    var groups, entries := GroupEntries(id, text), ChildEntries(ChildList(id));
    EntriesDescribe(id, text);
    GroupLookUps(id, text);
    GroupKeys(id, text);
    ChildEntriesKeys(ChildList(id));
    LookUpAdd(groups, entries, Subscription);
    LookUpAdd(groups, entries, ResourceGroup);
    LookUpAdd(groups, entries, Namespace);
    forall k: nat | |ChildList(id)| < k
      ensures LookUp(groups + entries, ChildType(k)) == None && LookUp(groups + entries, ChildNamespace(k)) == None
    {
      LookUpAdd(groups, entries, ChildType(k));
      LookUpAdd(groups, entries, ChildNamespace(k));
    }
  }

  lemma DictionaryCarries(rid: string)
    requires rid != "" && ParseId(rid).Some?
    ensures Carries(Dictionary(rid).fields, ParseId(rid).value)
  {
    var id := ParseId(rid).value;
    var base := GroupEntries(id, ChildrenText(rid)) + ChildEntries(ChildList(id));
    var all := Dictionary(rid).fields;
    BaseCarries(id, ChildrenText(rid));
    ComputedKeys(id);
    forall key: Key | !Computed(key) ensures LookUp(all, key) == LookUp(base, key) {
      ComputedLookUp(base, Parents(id), Targets(id), key);
    }
    SameLookUps(base, all, id);
  }

  lemma SameLookUps(base: Kwargs, all: Kwargs, id: Id)
    requires Carries(base, id)
    requires forall key: Key | !Computed(key) :: LookUp(all, key) == LookUp(base, key)
    ensures Carries(all, id)
  {
  }

  lemma ChildFromEntry(kwargs: Kwargs, c: Child, k: nat)
    requires ChildType(k) in kwargs && kwargs[ChildType(k)] == c.kind
    requires ChildName(k) in kwargs && kwargs[ChildName(k)] == c.name
    requires LookUp(kwargs, ChildNamespace(k)) == c.namespace
    ensures ChildrenFrom(kwargs, k) == PrintChild(c) + ChildrenFrom(kwargs, k + 1)
  {
    Splice(PrintNamespace(c.namespace), c.kind, c.name, ChildrenFrom(kwargs, k + 1));
  }

  lemma {:induction false} NoChildEntry(kwargs: Kwargs, k: nat)
    requires LookUp(kwargs, ChildType(k)) == None && LookUp(kwargs, ChildNamespace(k)) == None
    ensures ChildrenFrom(kwargs, k) == ""
  {
    assert ChildType(k) !in kwargs;
    assert PrintNamespace(None) + "" == "";
  }

  lemma {:induction false} ChildrenFromCarried(kwargs: Kwargs, id: Id, k: nat)
    requires Carries(kwargs, id) && 1 <= k <= |ChildList(id)| + 1
    ensures ChildrenFrom(kwargs, k) == PrintChildren(ChildList(id)[k - 1..])
    decreases |ChildList(id)| + 1 - k
  {
    var cs := ChildList(id);
    if k <= |cs| {
      DescribedChild(kwargs, id, k);
      ChildFromEntry(kwargs, cs[k - 1], k);
      ChildrenFromCarried(kwargs, id, k + 1);
      assert cs[k - 1..][0] == cs[k - 1] && cs[k - 1..][1..] == cs[k..];
    } else {
      NoChildEntry(kwargs, k);
    }
  }

  /** Printing a parsed dictionary is printing the parsed identifier. */
  lemma DictionaryPrints(rid: string)
    requires rid != "" && ParseId(rid).Some?
    ensures PrintKwargs(Dictionary(rid).fields) == Some(PrintId(ParseId(rid).value))
  {
    DictionaryCarries(rid);
    CarriedPrints(Dictionary(rid).fields, ParseId(rid).value);
  }

  lemma CarriedPrints(kwargs: Kwargs, id: Id)
    requires Carries(kwargs, id)
    ensures PrintKwargs(kwargs) == Some(PrintId(id))
  {
    CarriedGroup(kwargs, id);
    CarriedProvider(kwargs, id);
    assert LookUp(kwargs, Subscription).Some?;
  }

  lemma CarriedGroup(kwargs: Kwargs, id: Id)
    requires LookUp(kwargs, ResourceGroup) == id.group
    ensures GroupText(kwargs) == PrintGroup(id.group)
  {
  }

  lemma CarriedProvider(kwargs: Kwargs, id: Id)
    requires Carries(kwargs, id)
    ensures ProviderText(kwargs) == RootText(id)
  {
    assert Namespace in kwargs <==> LookUp(kwargs, Namespace).Some?;
    if id.root.Some? {
      var r := id.root.value;
      ChildrenFromCarried(kwargs, id, 1);
      assert r.children[0..] == r.children;
      RootEntries(kwargs, r);
    }
  }

  lemma {:induction false} RootEntries(kwargs: Kwargs, r: Root)
    requires LookUp(kwargs, Namespace) == Some(r.namespace)
    requires LookUp(kwargs, Type) == Some(r.kind) && LookUp(kwargs, Name) == Some(r.name)
    requires ChildrenFrom(kwargs, 1) == PrintChildren(r.children)
    ensures ProviderText(kwargs) == PrintRoot(r)
  {
    var kids := ChildrenFrom(kwargs, 1);
    Splice(PROVIDERS + r.namespace, r.kind, r.name, kids);
  }

}
