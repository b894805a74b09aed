/** Exactly which strings `is_valid_resource_id` accepts, how the printed id decomposes into the
    parsed parent, type and name. */
module ResourceIdGrammar {
  import opened Json
  import opened ResourceId
  import opened ResourceIdLaws
  import opened Text

  // ---------- the grammar ----------

  datatype ProviderForm = ProviderForm(word: string, namespace: string, kind: string, name: string, tail: seq<string>)

  /** `/subscriptions/S[/resourceGroups/G][/providers/NS/T/N tail]` with its keywords as written. */
  datatype Form = Form(word: string, subscription: string, group: Option<(string, string)>,
      provider: Option<ProviderForm>)

  function Slashed(tokens: seq<string>): string {
    if tokens == [] then "" else "/" + tokens[0] + Slashed(tokens[1..])
  }

  function GroupForm(group: Option<(string, string)>): string {
    match group case Some(g) => g.0 + g.1 case None => ""
  }

  function FormProvider(p: Option<ProviderForm>): string {
    match p
    case Some(p) => p.word + (p.namespace + ("/" + p.kind + "/" + p.name + Slashed(p.tail)))
    case None => ""
  }

  function Written(f: Form): string {
    f.word + f.subscription + (GroupForm(f.group) + FormProvider(f.provider))
  }

  predicate CleanTokens(tokens: seq<string>) {
    forall t | t in tokens :: Clean(t)
  }

  /** Keywords in any case around slash-free segments. */
  predicate Spelled(f: Form) {
    && Lower(f.word) == Lower(SUBSCRIPTIONS) && Clean(f.subscription)
    && (f.group.Some? ==> Lower(f.group.value.0) == Lower(GROUPS) && Clean(f.group.value.1))
    && (f.provider.Some? ==>
          var p := f.provider.value;
          && Lower(p.word) == Lower(PROVIDERS) && Clean(p.namespace) && Clean(p.kind) && Clean(p.name)
          && CleanTokens(p.tail))
  }

  predicate Grammatical(f: Form) {
    && Spelled(f)
    && (f.provider.Some? ==>
          var tail := f.provider.value.tail;
          (forall t | t in tail :: OneLine(t)) && |tail| % 2 == 0)
  }

  // ---------- tails of segments ----------

  lemma LowerConcat(a: string, b: string)
    ensures Lower(a + b) == Lower(a) + Lower(b)
  {
  }

  lemma {:induction false} SlashedTail(tokens: seq<string>)
    requires CleanTokens(tokens)
    ensures Tail(Slashed(tokens))
    ensures MatchPair(Slashed(tokens)) == if |tokens| < 2 then None
        else Some((tokens[0], tokens[1], Slashed(tokens[2..])))
  {
    if |tokens| == 1 {
      assert Slashed(tokens) == "/" + tokens[0] + "" && Slashed(tokens)[1..] == tokens[0] + "";
      SegConcat(tokens[0], "");
    } else if |tokens| > 1 {
      assert forall t | t in tokens[2..] :: t in tokens;
      SlashedTail(tokens[2..]);
      assert tokens[1..][1..] == tokens[2..];
      assert Slashed(tokens) == "/" + tokens[0] + "/" + tokens[1] + Slashed(tokens[2..]);
      PairConcat(tokens[0], tokens[1], Slashed(tokens[2..]));
    }
  }

  lemma {:induction false} SlashedTwo(tokens: seq<string>)
    requires |tokens| >= 2
    ensures Slashed(tokens) == "/" + tokens[0] + "/" + tokens[1] + Slashed(tokens[2..])
  {
    var rest := tokens[1..];
    assert rest[1..] == tokens[2..];
    assert Slashed(rest) == "/" + rest[0] + Slashed(rest[1..]);
    Assoc("/" + tokens[0], "/" + tokens[1], Slashed(tokens[2..]));
    Assoc("/" + tokens[0], "/", tokens[1]);
  }

  lemma OneLineConcat(a: string, b: string)
    ensures OneLine(a + b) <==> OneLine(a) && OneLine(b)
  {
    assert forall c :: c in a + b <==> c in a || c in b;
  }

  lemma {:induction false} SlashedOneLine(tokens: seq<string>)
    ensures OneLine(Slashed(tokens)) <==> forall t | t in tokens :: OneLine(t)
  {
    if tokens != [] {
      SlashedOneLine(tokens[1..]);
      OneLineConcat("/", tokens[0]);
      OneLineConcat("/" + tokens[0], Slashed(tokens[1..]));
      assert forall t :: t in tokens <==> t == tokens[0] || t in tokens[1..];
    }
  }

  /** How many tokens the first child takes. */
  function Step(tokens: seq<string>): nat
    requires |tokens| >= 2
  {
    if IsProviders(tokens[0]) && |tokens| >= 4 then 4 else 2
  }

  function FirstChild(tokens: seq<string>): Child
    requires |tokens| >= 2
  {
    if Step(tokens) == 4 then Child(Some(tokens[1]), tokens[2], tokens[3]) else Child(None, tokens[0], tokens[1])
  }

  lemma {:induction false} ChildrenOfTokens(tokens: seq<string>)
    requires CleanTokens(tokens)
    ensures ChildrenOf(Slashed(tokens))
            == if |tokens| < 2 then [] else [FirstChild(tokens)] + ChildrenOf(Slashed(tokens[Step(tokens)..]))
  {
    SlashedTail(tokens);
    if |tokens| < 2 {
      PairOfTail(Slashed(tokens));
    } else {
      MatchTokens(tokens);
      ChildrenStep(Slashed(tokens));
    }
  }

  lemma TokensAfterTwo(tokens: seq<string>)
    requires CleanTokens(tokens) && |tokens| >= 2
    ensures var rest := tokens[2..];
            && CleanTokens(rest)
            && (|tokens| >= 4 ==> rest[0] == tokens[2] && rest[1] == tokens[3] && rest[2..] == tokens[4..])
  {
  }

  lemma {:induction false} MatchTokens(tokens: seq<string>)
    requires CleanTokens(tokens) && |tokens| >= 2
    ensures MatchChild(Slashed(tokens)) == Some((FirstChild(tokens), Slashed(tokens[Step(tokens)..])))
  {
    TokensAfterTwo(tokens);
    SlashedTail(tokens[2..]);
    SlashedTwo(tokens);
    MatchChildIs(tokens[0], tokens[1], Slashed(tokens[2..]));
  }

  lemma {:induction false} PrintFirstChild(tokens: seq<string>)
    requires |tokens| >= 2
    ensures Lower(PrintChild(FirstChild(tokens)) + Slashed(tokens[Step(tokens)..])) == Lower(Slashed(tokens))
  {
    SlashedTwo(tokens);
    if Step(tokens) == 4 {
      var rest := tokens[2..];
      SlashedTwo(rest);
      assert rest[2..] == tokens[4..];
      NamespacedLower(tokens[0], tokens[1], tokens[2], tokens[3], Slashed(tokens[4..]));
    } else {
      assert PrintChild(FirstChild(tokens)) == "" + "/" + tokens[0] + "/" + tokens[1];
      assert "" + "/" == "/";
    }
  }

  lemma NamespacedLower(word: string, ns: string, kind: string, name: string, rest: string)
    requires IsProviders(word)
    ensures Lower(PrintChild(Child(Some(ns), kind, name)) + rest)
            == Lower("/" + word + "/" + ns + ("/" + kind + "/" + name + rest))
  {
    var tail := ns + ("/" + kind + "/" + name + rest);
    SpliceNamespace(PROVIDERS, ns, kind, name, rest);
    LowerConcat(PROVIDERS, tail);
    ProvidersLower(word);
    WordConcat("/" + word + "/", ns, "/" + kind + "/" + name + rest);
    LowerConcat("/" + word + "/", tail);
  }

  lemma ProvidersLower(word: string)
    requires IsProviders(word)
    ensures Lower("/" + word + "/") == Lower(PROVIDERS)
  {
    ProvidersParts();
    LowerThree("/", word, "/");
    LowerThree("/", "providers", "/");
    assert Lower("providers") == "providers";
  }

  lemma ReprintStep(first: string, kids: string, rest: string, all: string)
    requires Lower(first + rest) == Lower(all) && |kids| <= |rest|
    ensures |first + kids| <= |all| && (|first + kids| == |all| <==> |kids| == |rest|)
    ensures Lower(kids) == Lower(rest) ==> Lower(first + kids) == Lower(all)
  {
    assert |first + rest| == |all|;
    LowerConcat(first, kids);
    LowerConcat(first, rest);
  }

  ghost predicate Reprints(tokens: seq<string>) {
    var kids := PrintChildren(ChildrenOf(Slashed(tokens)));
    && |kids| <= |Slashed(tokens)|
    && (|kids| == |Slashed(tokens)| <==> |tokens| % 2 == 0)
    && (|tokens| % 2 == 0 ==> Lower(kids) == Lower(Slashed(tokens)))
  }

  lemma {:induction false} ReprintCons(tokens: seq<string>, c: Child, rest: seq<string>)
    requires ChildrenOf(Slashed(tokens)) == [c] + ChildrenOf(Slashed(rest))
    requires Lower(PrintChild(c) + Slashed(rest)) == Lower(Slashed(tokens))
    requires |tokens| % 2 == |rest| % 2 && Reprints(rest)
    ensures Reprints(tokens)
  {
    var cs := ChildrenOf(Slashed(rest));
    assert ([c] + cs)[1..] == cs;
    assert PrintChildren([c] + cs) == PrintChild(c) + PrintChildren(cs);
    ReprintStep(PrintChild(c), PrintChildren(cs), Slashed(rest), Slashed(tokens));
  }

  lemma {:induction false} SlashedLength(tokens: seq<string>)
    ensures |Slashed(tokens)| >= |tokens| && (tokens == [] ==> Slashed(tokens) == "")
  {
    if tokens != [] { SlashedLength(tokens[1..]); }
  }

  lemma NothingReprinted(kids: string, text: string, n: nat)
    requires kids == "" && n < 2 && |text| >= n && (n == 0 ==> text == "")
    ensures |kids| <= |text| && (|kids| == |text| <==> n % 2 == 0) && (n % 2 == 0 ==> Lower(kids) == Lower(text))
  {
  }

  lemma {:induction false} ReprintShort(tokens: seq<string>)
    requires |tokens| < 2 && ChildrenOf(Slashed(tokens)) == []
    ensures Reprints(tokens)
  {
    SlashedLength(tokens);
    NothingReprinted(PrintChildren([]), Slashed(tokens), |tokens|);
  }

  lemma CleanDrop(tokens: seq<string>, k: nat)
    requires CleanTokens(tokens) && k <= |tokens|
    ensures CleanTokens(tokens[k..])
  {
  }

  lemma FirstSizes(tokens: seq<string>)
    requires CleanTokens(tokens) && |tokens| >= 2
    ensures var rest := tokens[Step(tokens)..];
            && |rest| < |tokens| && |rest| % 2 == |tokens| % 2 && CleanTokens(rest)
            && FirstChild(tokens).name == tokens[Step(tokens) - 1]
  {
    CleanDrop(tokens, Step(tokens));
  }

  /** The first child of a tail and the tokens after it. */
  lemma FirstOf(tokens: seq<string>) returns (c: Child, rest: seq<string>)
    requires CleanTokens(tokens) && |tokens| >= 2
    ensures ChildrenOf(Slashed(tokens)) == [c] + ChildrenOf(Slashed(rest))
    ensures Lower(PrintChild(c) + Slashed(rest)) == Lower(Slashed(tokens))
    ensures |rest| < |tokens| && |rest| % 2 == |tokens| % 2 && CleanTokens(rest)
    ensures rest == tokens[|tokens| - |rest|..] && c.name == tokens[|tokens| - |rest| - 1]
  {
    ChildrenOfTokens(tokens);
    PrintFirstChild(tokens);
    FirstSizes(tokens);
    c, rest := FirstChild(tokens), tokens[Step(tokens)..];
  }

  /** Parsing and reprinting a tail of segments loses exactly an odd last segment. */
  lemma {:induction false} ReprintTail(tokens: seq<string>)
    requires CleanTokens(tokens)
    ensures Reprints(tokens)
    decreases |tokens|
  {
    if |tokens| < 2 {
      ChildrenOfTokens(tokens);
      ReprintShort(tokens);
    } else {
      var c, rest := FirstOf(tokens);
      ReprintTail(rest);
      ReprintCons(tokens, c, rest);
    }
  }

  function Tokens(s: string): seq<string>
    decreases |s|
  {
    if s == "" then [] else [Seg(s[1..])] + Tokens(After(s[1..]))
  }

  lemma {:induction false} TokensSlashed(s: string)
    requires Tail(s)
    ensures Slashed(Tokens(s)) == s && CleanTokens(Tokens(s))
    decreases |s|
  {
    if s != "" {
      var t := s[1..];
      TokensSlashed(After(t));
      SlashedCons(Seg(t), Tokens(After(t)));
      assert s == "/" + t && t == Seg(t) + After(t);
      Assoc("/", Seg(t), After(t));
    }
  }

  lemma {:induction false} SlashedCons(token: string, tokens: seq<string>)
    requires Clean(token) && CleanTokens(tokens)
    ensures Slashed([token] + tokens) == "/" + token + Slashed(tokens) && CleanTokens([token] + tokens)
  {
    assert ([token] + tokens)[1..] == tokens;
  }

  // ---------- written forms parse as read ----------

  lemma KeywordOf(word: string, pattern: string, rest: string)
    requires Lower(word) == Lower(pattern)
    ensures Keyword(word + rest, pattern)
    ensures (word + rest)[..|pattern|] == word && (word + rest)[|pattern|..] == rest
  {
  }

  function FormId(f: Form): Id {
    Id(f.subscription,
       match f.group case Some(g) => Some(g.1) case None => None,
       match f.provider
       case Some(p) => Some(Root(p.namespace, p.kind, p.name, ChildrenOf(Slashed(p.tail))))
       case None => None)
  }

  lemma ProviderParses(p: ProviderForm)
    requires Lower(p.word) == Lower(PROVIDERS) && Clean(p.namespace) && Clean(p.kind) && Clean(p.name)
    requires CleanTokens(p.tail) && forall t | t in p.tail :: OneLine(t)
    ensures Keyword(FormProvider(Some(p)), PROVIDERS) && Tail(FormProvider(Some(p)))
    ensures MatchRoot(FormProvider(Some(p))) == Some(Root(p.namespace, p.kind, p.name, ChildrenOf(Slashed(p.tail))))
  {
    var more := "/" + p.kind + "/" + p.name + Slashed(p.tail);
    KeywordOf(p.word, PROVIDERS, p.namespace + more);
    SegConcat(p.namespace, more);
    SlashedTail(p.tail);
    SlashedOneLine(p.tail);
    PairConcat(p.kind, p.name, Slashed(p.tail));
    WordStart(p.word, PROVIDERS);
  }

  lemma WordStart(word: string, pattern: string)
    requires Lower(word) == Lower(pattern) && pattern != "" && pattern[0] == '/'
    ensures word != "" && word[0] == '/'
  {
    assert Lower(word)[0] == Fold('/');
  }

  lemma FormParses(f: Form)
    requires Spelled(f) && (f.provider.Some? ==> forall t | t in f.provider.value.tail :: OneLine(t))
    ensures ParseId(Written(f)) == Some(FormId(f))
  {
    var provider := FormProvider(f.provider);
    var rest := GroupForm(f.group) + provider;
    if f.provider.Some? { ProviderParses(f.provider.value); }
    NotGroups(provider);
    match f.group {
      case None => assert rest == provider;
      case Some(g) =>
        KeywordOf(g.0, GROUPS, g.1 + provider);
        WordConcat(g.0, g.1, provider);
        SegConcat(g.1, provider);
        WordStart(g.0, GROUPS);
    }
    SubscriptionsFolded();
    ParsePrefix(f.word, f.subscription, rest);
  }

  lemma FormReprints(f: Form)
    requires Grammatical(f)
    ensures Lower(PrintId(FormId(f))) == Lower(Written(f))
  {
    var id := FormId(f);
    LowerGroup(f.group);
    LowerProvider(f.provider);
    LowerThree(SUBSCRIPTIONS, id.subscription, PrintGroup(id.group) + RootText(id));
    LowerThree(f.word, f.subscription, GroupForm(f.group) + FormProvider(f.provider));
    LowerConcat(PrintGroup(id.group), RootText(id));
    LowerConcat(GroupForm(f.group), FormProvider(f.provider));
    Assoc(SUBSCRIPTIONS + id.subscription, PrintGroup(id.group), RootText(id));
  }

  lemma LowerThree(a: string, b: string, c: string)
    ensures Lower(a + b + c) == Lower(a) + Lower(b) + Lower(c)
  {
    LowerConcat(a + b, c);
    LowerConcat(a, b);
  }

  lemma LowerGroup(group: Option<(string, string)>)
    requires group.Some? ==> Lower(group.value.0) == Lower(GROUPS)
    ensures Lower(PrintGroup(match group case Some(g) => Some(g.1) case None => None)) == Lower(GroupForm(group))
  {
    match group
    case Some(g) =>
      LowerConcat(GROUPS, g.1);
      LowerConcat(g.0, g.1);
    case None =>
  }

  lemma LowerProvider(p: Option<ProviderForm>)
    requires p.Some? ==> Lower(p.value.word) == Lower(PROVIDERS) && CleanTokens(p.value.tail) && |p.value.tail| % 2 == 0
    ensures p.Some? ==>
              var r := Root(p.value.namespace, p.value.kind, p.value.name, ChildrenOf(Slashed(p.value.tail)));
              Lower(PrintRoot(r)) == Lower(FormProvider(p))
  {
    if p.Some? {
      var q := p.value;
      var kids := PrintChildren(ChildrenOf(Slashed(q.tail)));
      ReprintTail(q.tail);
      var head := "/" + q.kind + "/" + q.name;
      SpliceNamespace(PROVIDERS, q.namespace, q.kind, q.name, kids);
      LowerConcat(PROVIDERS, q.namespace + (head + kids));
      LowerConcat(q.namespace, head + kids);
      LowerConcat(head, kids);
      LowerConcat(q.word, q.namespace + (head + Slashed(q.tail)));
      LowerConcat(q.namespace, head + Slashed(q.tail));
      LowerConcat(head, Slashed(q.tail));
    }
  }

  // ---------- accepted strings are written forms ----------

  /** The group part of what follows a subscription. */
  function ReadGroup(s: string): Option<(string, string)> {
    if Keyword(s, GROUPS) then Some((s[..|GROUPS|], Seg(s[|GROUPS|..]))) else None
  }

  function ReadProvider(s: string): Option<ProviderForm> {
    if !Keyword(s, PROVIDERS) then None
    else
      match MatchPair(After(s[|PROVIDERS|..]))
      case None => None
      case Some(p) => Some(ProviderForm(s[..|PROVIDERS|], Seg(s[|PROVIDERS|..]), p.0, p.1, Tokens(p.2)))
  }

  function Read(rid: string): Form
    requires Keyword(rid, SUBSCRIPTIONS)
  {
    var s := rid[|SUBSCRIPTIONS|..];
    Form(rid[..|SUBSCRIPTIONS|], Seg(s), ReadGroup(After(s)), ReadProvider(AfterGroup(After(s))))
  }

  lemma ReadGroupSplits(s: string)
    ensures s == GroupForm(ReadGroup(s)) + AfterGroup(s)
  {
    if Keyword(s, GROUPS) {
      assert s == s[..|GROUPS|] + s[|GROUPS|..];
      WordConcat(s[..|GROUPS|], Seg(s[|GROUPS|..]), After(s[|GROUPS|..]));
    }
  }

  /** A provider part reprints to at most its own length, and to all of it only when nothing
      follows it, its tail is even, and no newline cuts it short. */
  lemma ProviderLength(s: string)
    ensures var printed := match MatchRoot(s) case Some(r) => PrintRoot(r) case None => "";
            |printed| <= |s| &&
            (|printed| == |s| ==>
               && s == FormProvider(ReadProvider(s))
               && (ReadProvider(s).Some? ==>
                     var p := ReadProvider(s).value;
                     && Lower(p.word) == Lower(PROVIDERS) && Clean(p.namespace) && Clean(p.kind) && Clean(p.name)
                     && CleanTokens(p.tail) && (forall t | t in p.tail :: OneLine(t)) && |p.tail| % 2 == 0))
  {
    if MatchRoot(s).Some? {
      var word, x := s[..|PROVIDERS|], s[|PROVIDERS|..];
      var p := MatchPair(After(x)).value;
      PairSplits(After(x));
      TokensSlashed(p.2);
      assert s == word + (Seg(x) + ("/" + p.0 + "/" + p.1 + p.2));
      var kids := PrintChildren(ChildrenOf(Line(p.2)));
      TokensSlashed(Line(p.2));
      ReprintTail(Tokens(Line(p.2)));
      SpliceNamespace(PROVIDERS, Seg(x), p.0, p.1, kids);
      assert |kids| <= |Line(p.2)| <= |p.2|;
      if |kids| == |p.2| {
        assert Line(p.2) == p.2;
        SlashedOneLine(Tokens(p.2));
      }
    }
  }

  lemma ReadBack(rid: string)
    requires ParseId(rid).Some? && |PrintId(ParseId(rid).value)| == |rid|
    ensures Grammatical(Read(rid)) && Written(Read(rid)) == rid
  {
    var id, f := ParseId(rid).value, Read(rid);
    var s := rid[|SUBSCRIPTIONS|..];
    var r := After(s);
    assert rid == f.word + s && s == f.subscription + r;
    ReadGroupSplits(r);
    ProviderLength(AfterGroup(r));
    assert |PrintGroup(id.group)| == |GroupForm(f.group)|;
    Assoc(SUBSCRIPTIONS + id.subscription, PrintGroup(id.group), RootText(id));
    assert |RootText(id)| == |AfterGroup(r)|;
    WordConcat(f.word, f.subscription, r);
  }

  /** Main theorem: the accepted strings are exactly the grammar's. */
  lemma ValidIffGrammatical(rid: string)
    ensures IsValid(rid) <==> exists f: Form :: Grammatical(f) && Written(f) == rid
  {
    if IsValid(rid) {
      ParsesWhenValid(rid);
      DictionaryPrints(rid);
      ReadBack(rid);
    }
    if f: Form :| Grammatical(f) && Written(f) == rid {
      FormParses(f);
      FormReprints(f);
      assert rid != "" by { WordStart(f.word, SUBSCRIPTIONS); }
      DictionaryPrints(rid);
    }
  }

  lemma ParsesWhenValid(rid: string)
    requires IsValid(rid)
    ensures ParseId(rid).Some?
  {
    assert Dictionary(rid) == Parsed(map[Name := rid], None) ==> Subscription !in Dictionary(rid).fields;
  }

  // ---------- parent, type and name ----------

  /** The kind and name of the last child, else of the root, without the fallback for empty text. */
  function TargetKind(r: Root): string {
    if r.children == [] then r.kind else r.children[|r.children| - 1].kind
  }

  function TargetName(r: Root): string {
    if r.children == [] then r.name else r.children[|r.children| - 1].name
  }

  function ParentText(r: Root): string {
    if r.children == [] then "" else ParentPath(r, |r.children|)
  }

  lemma {:induction false} PrintSnoc(cs: seq<Child>, c: Child)
    ensures PrintChildren(cs + [c]) == PrintChildren(cs) + PrintChild(c)
  {
    if cs == [] {
      assert cs + [c] == [c] && [c][1..] == [];
    } else {
      assert (cs + [c])[1..] == cs[1..] + [c];
      PrintSnoc(cs[1..], c);
    }
  }

  lemma StepText(ns: Option<string>, before: string, kind: string, name: string)
    ensures before + (PrintNamespace(ns) + "/" + kind + "/" + name)
            == before + "/" + NamespaceStep(ns) + kind + "/" + name
  {
    match ns
    case None => assert "" + "/" == "/" && before + "/" + "" == before + "/";
    case Some(n) =>
      assert PROVIDERS == "/" + "providers/";
      NamespacedStep("/", "providers/", n, before, kind, name);
  }

  lemma NamespacedStep(slash: string, word: string, n: string, before: string, kind: string, name: string)
    ensures before + ((slash + word + n) + "/" + kind + "/" + name)
            == before + slash + (word + n + "/") + kind + "/" + name
  {
  }

  /** The text below the namespace, up to child `k`. */
  function Below(r: Root, k: nat): string
    requires k <= |r.children|
  {
    r.kind + "/" + r.name + PrintChildren(r.children[..k])
  }

  lemma BelowStep(r: Root, k: nat)
    requires 1 <= k <= |r.children|
    ensures Below(r, k) == Below(r, k - 1) + PrintChild(r.children[k - 1])
  {
    var c, cs := r.children[k - 1], r.children[..k - 1];
    assert r.children[..k] == cs + [c];
    PrintSnoc(cs, c);
    Assoc(r.kind + "/" + r.name, PrintChildren(cs), PrintChild(c));
  }

  /** The parent path of child `k` is the text before it, then its namespace. */
  lemma {:induction false} ParentPathPrints(r: Root, k: nat)
    requires 1 <= k <= |r.children|
    ensures ParentPath(r, k) == Below(r, k - 1) + "/" + NamespaceStep(r.children[k - 1].namespace)
    ensures Below(r, k) == ParentPath(r, k) + r.children[k - 1].kind + "/" + r.children[k - 1].name
  {
    if k == 1 {
      NoChildBelow(r);
    } else {
      ParentPathPrints(r, k - 1);
    }
    ChildAfterPath(r, k, ParentPath(r, k));
  }

  lemma NoChildBelow(r: Root)
    ensures Below(r, 0) == r.kind + "/" + r.name
  {
    assert PrintChildren(r.children[..0]) == "";
  }

  lemma ChildAfterPath(r: Root, k: nat, path: string)
    requires 1 <= k <= |r.children|
    requires path == Below(r, k - 1) + "/" + NamespaceStep(r.children[k - 1].namespace)
    ensures Below(r, k) == path + r.children[k - 1].kind + "/" + r.children[k - 1].name
  {
    var c := r.children[k - 1];
    BelowStep(r, k);
    StepText(c.namespace, Below(r, k - 1), c.kind, c.name);
  }

  lemma RootDecomposes(r: Root)
    ensures PrintRoot(r) == PROVIDERS + r.namespace + "/" + ParentText(r) + TargetKind(r) + "/" + TargetName(r)
  {
    var below := r.kind + "/" + r.name + PrintChildren(r.children);
    if r.children != [] {
      ParentPathPrints(r, |r.children|);
      assert r.children[..|r.children|] == r.children;
    }
    assert below == ParentText(r) + TargetKind(r) + "/" + TargetName(r);
    Decompose(PROVIDERS + r.namespace, r.kind, r.name, PrintChildren(r.children),
              ParentText(r), TargetKind(r), TargetName(r));
  }

  lemma Decompose(
    head: string, kind: string, name: string, kids: string, parent: string, lastKind: string, lastName: string)
    requires kind + "/" + name + kids == parent + lastKind + "/" + lastName
    ensures head + "/" + kind + "/" + name + kids == head + "/" + parent + lastKind + "/" + lastName
  {
    assert head + "/" + kind + "/" + name + kids == head + "/" + (kind + "/" + name + kids);
    assert head + "/" + parent + lastKind + "/" + lastName == head + "/" + (parent + lastKind + "/" + lastName);
  }

  /** The root's text, put together from its parent, type and name. */
  lemma RootRecomposed(prefix: string, r: Root)
    requires Clean(r.kind) && Clean(r.name) && CleanChildren(r.children) && r.name != ""
    ensures prefix + PrintRoot(r)
            == prefix + (PROVIDERS + r.namespace + "/" + ParentText(r) + LastKind(r) + "/" + LastName(r))
            <==> TargetName(r) != "" && (TargetKind(r) != "" || r.kind == "")
  {
    RootDecomposes(r);
    if r.children != [] { assert r.children[|r.children| - 1] in r.children; }
    CutAtSlash(prefix, PROVIDERS + r.namespace + "/" + ParentText(r), TargetKind(r), TargetName(r),
               LastKind(r), LastName(r));
  }

  /** Main theorem: the dictionary's parent, type and name put together are the printed id, exactly
      when the fallbacks for an empty last type or name do not change anything. */
  lemma PrintedDecomposes(rid: string)
    requires rid != "" && ParseId(rid).Some? && ParseId(rid).value.root.Some?
    requires ParseId(rid).value.root.value.name != ""
    ensures var id := ParseId(rid).value;
            var r := id.root.value;
            var d := Dictionary(rid).fields;
            && ResourceNamespace in d && ResourceParent in d && ResourceType in d && ResourceName in d
            && (PrintId(id)
                == PrintPrefix(id)
                    + (PROVIDERS + d[ResourceNamespace] + "/" + d[ResourceParent] + d[ResourceType] + "/"
                       + d[ResourceName])
                <==> TargetName(r) != "" && (TargetKind(r) != "" || r.kind == ""))
  {
    ParsedClean(rid);
    TargetsInDictionary(rid);
    RootRecomposed(PrintPrefix(ParseId(rid).value), ParseId(rid).value.root.value);
  }

  lemma TargetsInDictionary(rid: string)
    requires rid != "" && ParseId(rid).Some? && ParseId(rid).value.root.Some?
    requires ParseId(rid).value.root.value.name != ""
    ensures var r := ParseId(rid).value.root.value;
            var d := Dictionary(rid).fields;
            && LookUp(d, ResourceNamespace) == Some(r.namespace)
            && LookUp(d, ResourceParent) == Some(ParentText(r))
            && LookUp(d, ResourceType) == Some(LastKind(r))
            && LookUp(d, ResourceName) == Some(LastName(r))
  {
    var id := ParseId(rid).value;
    var base := GroupEntries(id, ChildrenText(rid)) + ChildEntries(ChildList(id));
    LookUpAdd(base + Parents(id), Targets(id), ResourceNamespace);
    LookUpAdd(base + Parents(id), Targets(id), ResourceParent);
    LookUpAdd(base + Parents(id), Targets(id), ResourceType);
    LookUpAdd(base + Parents(id), Targets(id), ResourceName);
    LookUpAdd(base, Parents(id), ResourceParent);
  }

  lemma CutAtSlash(prefix: string, head: string, kind: string, name: string, kind': string, name': string)
    requires Clean(kind) && Clean(name) && Clean(kind') && Clean(name')
    ensures prefix + (head + kind + "/" + name) == prefix + (head + kind' + "/" + name')
            <==> kind == kind' && name == name'
  {
    var a, b := prefix + (head + kind + "/" + name), prefix + (head + kind' + "/" + name');
    var n := |prefix| + |head|;
    assert a[n..] == kind + ("/" + name) && b[n..] == kind' + ("/" + name');
    SegConcat(kind, "/" + name);
    SegConcat(kind', "/" + name');
    assert ("/" + name)[1..] == name && ("/" + name')[1..] == name';
  }

  lemma LongerPath(path: string, kind: string, name: string, step: string)
    ensures path < path + kind + "/" + name + "/" + step
  {
  }

  /** Each child's parent path extends the one before it. */
  lemma ParentsNest(r: Root, k: nat)
    requires 1 <= k < |r.children|
    ensures ParentPath(r, k) < ParentPath(r, k + 1)
  {
    var c := r.children[k - 1];
    LongerPath(ParentPath(r, k), c.kind, c.name, NamespaceStep(r.children[k].namespace));
  }
}
