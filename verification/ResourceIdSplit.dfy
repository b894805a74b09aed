/** The split-based parser of azext_edge/edge/util/az_client.py against the regular-expression parser. */
module ResourceIdSplit {
  import opened Json
  import opened Text
  import opened ResourceId
  import opened ResourceIdLaws
  import opened ResourceIdGrammar

  // ---------- the split-based parser of az_client.py ----------

  datatype Container = Blank | Malformed | Container(subscription: string, group: string, name: string)

  function SplitParse(rid: string): Container {
    if rid == "" then Blank
    else
      var parts := SplitSlash(rid);
      if |parts| < 9 then Malformed else Container(parts[2], parts[4], parts[|parts| - 1])
  }

  lemma SlashFirst(a: string, b: string, rest: string)
    ensures a + ("/" + b + rest) == a + "/" + (b + rest)
  {
  }

  lemma {:induction false} SplitSlashed(a: string, tokens: seq<string>)
    requires Clean(a) && CleanTokens(tokens)
    ensures SplitSlash(a + Slashed(tokens)) == [a] + tokens
    decreases |tokens|
  {
    if tokens == [] {
      assert a + Slashed(tokens) == a;
      SplitSingle(a);
    } else {
      CleanDrop(tokens, 1);
      var rest := tokens[0] + Slashed(tokens[1..]);
      SlashFirst(a, tokens[0], Slashed(tokens[1..]));
      SplitSegment(a, rest);
      SplitSlashed(tokens[0], tokens[1..]);
    }
  }

  lemma WordShape(word: string, pattern: string, bare: string)
    requires pattern == "/" + bare + "/" && Clean(bare) && Lower(word) == Lower(pattern)
    ensures |word| >= 2 && word == "/" + word[1..|word| - 1] + "/" && Clean(word[1..|word| - 1])
  {
    var inner := word[1..|word| - 1];
    forall i | 0 <= i < |word| ensures word[i] == '/' <==> pattern[i] == '/' {
      assert Lower(word)[i] == Fold(word[i]) && Lower(pattern)[i] == Fold(pattern[i]);
    }
    forall i | 0 <= i < |inner| ensures inner[i] != '/' {
      assert inner[i] == word[i + 1] && pattern[i + 1] == bare[i];
    }
    assert pattern[|pattern| - 1] == '/' && pattern[0] == '/';
  }

  /** A segment and the keyword after it split into two parts. */
  lemma {:induction false} SplitWord(a: string, word: string, pattern: string, bare: string, rest: string)
    requires Clean(a) && pattern == "/" + bare + "/" && Clean(bare) && Lower(word) == Lower(pattern)
    ensures SplitSlash(a + (word + rest)) == [a, word[1..|word| - 1]] + SplitSlash(rest)
  {
    WordShape(word, pattern, bare);
    var inner := word[1..|word| - 1];
    SlashTwice(a, inner, rest);
    SplitSegment(a, inner + "/" + rest);
    SplitSegment(inner, rest);
    Append([a], [inner], SplitSlash(rest), [a, inner]);
  }

  lemma SlashTwice(a: string, b: string, rest: string)
    ensures a + (("/" + b + "/") + rest) == a + "/" + (b + "/" + rest)
  {
  }

  lemma KeywordParts()
    ensures SUBSCRIPTIONS == "/" + "subscriptions" + "/"
    ensures GROUPS == "/" + "resourceGroups" + "/"
  {
  }

  lemma {:induction false} SlashedPair(kind: string, name: string, tail: seq<string>)
    requires Clean(kind) && Clean(name) && CleanTokens(tail)
    ensures Slashed([kind, name] + tail) == "/" + kind + "/" + name + Slashed(tail)
    ensures CleanTokens([kind, name] + tail)
  {
    var tokens := [kind, name] + tail;
    assert tokens[0] == kind && tokens[1] == name && tokens[2..] == tail;
    SlashedTwo(tokens);
  }

  lemma Append<T>(a: seq<T>, b: seq<T>, c: seq<T>, ab: seq<T>)
    requires a + b == ab
    ensures a + (b + c) == ab + c
  {
  }

  lemma {:induction false} SplitPath(ns: string, kind: string, name: string, tail: seq<string>)
    requires Clean(ns) && Clean(kind) && Clean(name) && CleanTokens(tail)
    ensures SplitSlash(ns + ("/" + kind + "/" + name + Slashed(tail))) == [ns, kind, name] + tail
  {
    SlashedPair(kind, name, tail);
    SplitSlashed(ns, [kind, name] + tail);
    Append([ns], [kind, name], tail, [ns, kind, name]);
  }

  /** The nine or more parts of a written id with a group and a provider. */
  lemma SplitForm(f: Form)
    requires Spelled(f) && f.group.Some? && f.provider.Some?
    ensures var p := f.provider.value;
            SplitParse(Written(f))
            == Container(f.subscription, f.group.value.1, LastOr(p.tail, p.name))
  {
    var g, p := f.group.value, f.provider.value;
    var path := p.namespace + ("/" + p.kind + "/" + p.name + Slashed(p.tail));
    KeywordParts();
    ProvidersParts();
    SplitPath(p.namespace, p.kind, p.name, p.tail);
    SplitWord(g.1, p.word, PROVIDERS, "providers", path);
    SplitWord(f.subscription, g.0, GROUPS, "resourceGroups", g.1 + (p.word + path));
    SplitWord("", f.word, SUBSCRIPTIONS, "subscriptions", f.subscription + (g.0 + (g.1 + (p.word + path))));
    WrittenParts(f.word, f.subscription, g.0, g.1, p.word + path);
    WordStart(f.word, SUBSCRIPTIONS);
  }

  lemma WrittenParts(w: string, s: string, gw: string, g: string, rest: string)
    ensures w + s + ((gw + g) + rest) == "" + (w + (s + (gw + (g + rest))))
  {
  }

  // ---------- reading any parsed id as a written form ----------

  lemma {:induction false} TokensBack(tokens: seq<string>)
    requires CleanTokens(tokens)
    ensures Tokens(Slashed(tokens)) == tokens
  {
    if tokens != [] {
      CleanDrop(tokens, 1);
      SlashedTail(tokens[1..]);
      TokensBack(tokens[1..]);
      var t := tokens[0] + Slashed(tokens[1..]);
      assert Slashed(tokens) == "/" + t by { Assoc("/", tokens[0], Slashed(tokens[1..])); }
      assert Slashed(tokens)[1..] == t;
      SegConcat(tokens[0], Slashed(tokens[1..]));
      assert [tokens[0]] + tokens[1..] == tokens;
    }
  }

  /** The tail as far as the regular expression sees it, which is up to a newline. */
  function Seen(tail: seq<string>): seq<string> {
    Tokens(Line(Slashed(tail)))
  }

  function LastOr(tokens: seq<string>, name: string): string {
    if tokens == [] then name else tokens[|tokens| - 1]
  }

  /** Without an odd last token. */
  function Paired(tokens: seq<string>): seq<string> {
    tokens[..|tokens| - |tokens| % 2]
  }

  lemma SeenOneLine(tail: seq<string>)
    requires CleanTokens(tail) && forall t | t in tail :: OneLine(t)
    ensures Seen(tail) == tail
  {
    SlashedOneLine(tail);
    TokensBack(tail);
  }

  lemma ProviderWritten(s: string)
    requires MatchRoot(s).Some?
    ensures var p := ReadProvider(s);
            && p.Some? && s == FormProvider(p)
            && Lower(p.value.word) == Lower(PROVIDERS) && CleanTokens(p.value.tail)
            && Clean(p.value.namespace) && Clean(p.value.kind) && Clean(p.value.name)
            && MatchRoot(s) == Some(Root(p.value.namespace, p.value.kind, p.value.name,
                                         ChildrenOf(Slashed(Seen(p.value.tail)))))
  {
    var word, x := s[..|PROVIDERS|], s[|PROVIDERS|..];
    var p := MatchPair(After(x)).value;
    PairSplits(After(x));
    TokensSlashed(p.2);
    TokensSlashed(Line(p.2));
    assert s == word + (Seg(x) + ("/" + p.0 + "/" + p.1 + p.2));
  }

  /** Every parsed id with a provider is its own form, written out. */
  lemma ParsedWritten(rid: string)
    requires ParseId(rid).Some? && ParseId(rid).value.root.Some?
    ensures Spelled(Read(rid)) && Written(Read(rid)) == rid && Read(rid).provider.Some?
    ensures var id, p := ParseId(rid).value, Read(rid).provider.value;
            && id.subscription == Read(rid).subscription
            && id.group == (match Read(rid).group case Some(g) => Some(g.1) case None => None)
            && id.root == Some(Root(p.namespace, p.kind, p.name, ChildrenOf(Slashed(Seen(p.tail)))))
  {
    var s := rid[|SUBSCRIPTIONS|..];
    var r, f := After(s), Read(rid);
    ReadGroupSplits(r);
    ProviderWritten(AfterGroup(r));
    WordConcat(f.word, f.subscription, r);
    assert rid == f.word + s && s == f.subscription + r;
  }

  // ---------- the two names ----------

  lemma PairedRest(tokens: seq<string>, rest: seq<string>)
    requires |rest| < |tokens| && |rest| % 2 == |tokens| % 2 && rest == tokens[|tokens| - |rest|..]
    ensures Paired(tokens) != []
    ensures LastOr(Paired(tokens), "")
            == if Paired(rest) == [] then tokens[|tokens| - |rest| - 1] else LastOr(Paired(rest), "")
  {
    var n := |tokens| - |rest|;
    if |rest| >= 2 { assert Paired(rest)[|Paired(rest)| - 1] == tokens[n + |Paired(rest)| - 1]; }
  }

  /** The children read from a tail end at its last paired token. */
  lemma {:induction false} LastChildName(tokens: seq<string>)
    requires CleanTokens(tokens)
    ensures var cs := ChildrenOf(Slashed(tokens));
            (cs == [] <==> Paired(tokens) == []) && (cs != [] ==> cs[|cs| - 1].name == LastOr(Paired(tokens), ""))
    decreases |tokens|
  {
    if |tokens| < 2 {
      ChildrenOfTokens(tokens);
    } else {
      var c, rest := FirstOf(tokens);
      LastChildName(rest);
      PairedRest(tokens, rest);
      LastCons(c, ChildrenOf(Slashed(rest)));
    }
  }

  lemma LastCons(c: Child, cs: seq<Child>)
    ensures ([c] + cs)[|cs|] == if cs == [] then c else cs[|cs| - 1]
  {
  }

  /** A string the id expression matches with a group and a provider: its identifier, its root and the
      tokens after the root's name. */
  predicate ReadAs(rid: string, id: Id, r: Root, tail: seq<string>) {
    && ParseId(rid) == Some(id) && id.group.Some? && id.root == Some(r)
    && Read(rid).provider.Some? && Read(rid).provider.value.tail == tail
  }

  lemma ReadParts(rid: string, id: Id, r: Root, tail: seq<string>)
    requires ReadAs(rid, id, r, tail)
    ensures CleanTokens(tail) && SplitParse(rid) == Container(id.subscription, id.group.value, LastOr(tail, r.name))
    ensures r.children == ChildrenOf(Slashed(Seen(tail))) && CleanTokens(Seen(tail))
  {
    ParsedWritten(rid);
    SplitForm(Read(rid));
    SlashedTail(tail);
    TokensSlashed(Line(Slashed(tail)));
  }

  lemma EveryParsed(rid: string) returns (id: Id, r: Root, tail: seq<string>)
    requires ParseId(rid).Some? && ParseId(rid).value.group.Some? && ParseId(rid).value.root.Some?
    ensures ReadAs(rid, id, r, tail)
  {
    ParsedWritten(rid);
    id, r, tail := ParseId(rid).value, ParseId(rid).value.root.value, Read(rid).provider.value.tail;
  }

  /** Main theorem: on every string the id expression matches with a group and a provider, the split-based
      parser reads the same subscription and group. As the name it reads the last token of the whole tail;
      the regular expression reads the last paired token before a newline, or the root's name if that is
      empty. */
  lemma ParsersCompared(rid: string, id: Id, r: Root, tail: seq<string>)
    requires ReadAs(rid, id, r, tail)
    ensures SplitParse(rid) == Container(id.subscription, id.group.value, LastOr(tail, r.name))
    ensures LastName(r) == Or(LastOr(Paired(Seen(tail)), r.name), r.name)
  {
    ReadParts(rid, id, r, tail);
    LastChildName(Seen(tail));
    NameOfPaired(r, Paired(Seen(tail)));
  }

  lemma NameOfPaired(r: Root, paired: seq<string>)
    requires r.children == [] <==> paired == []
    requires r.children != [] ==> r.children[|r.children| - 1].name == LastOr(paired, "")
    ensures LastName(r) == Or(LastOr(paired, r.name), r.name)
  {
  }

  lemma LastNames(tail: seq<string>, name: string)
    ensures LastOr(tail, name) == Or(LastOr(Paired(tail), name), name) <==> NameKept(tail, name)
  {
    if |tail| % 2 == 0 { assert Paired(tail) == tail; } else { assert Paired(tail) == tail[..|tail| - 1]; }
  }

  /** The last token names the resource: it is paired, and not empty beside a root with a name, or it is
      left over and repeats the name the tokens before it give. */
  predicate NameKept(tail: seq<string>, name: string) {
    if |tail| % 2 == 0 then LastOr(tail, name) != "" || name == ""
    else tail[|tail| - 1] == Or(LastOr(tail[..|tail| - 1], name), name)
  }

  /** Main theorem: with a tail of one line the names agree exactly when its number of tokens is even and
      the last is not empty beside a root with a name, or it is odd and the last token repeats the name the
      tokens before it give. */
  lemma ParsersAgree(rid: string, id: Id, r: Root, tail: seq<string>)
    requires ReadAs(rid, id, r, tail) && forall t | t in tail :: OneLine(t)
    ensures match SplitParse(rid)
            case Container(subscription, group, name) =>
              && subscription == id.subscription && id.group == Some(group)
              && (name == LastName(r) <==> NameKept(tail, r.name))
            case _ => false
  {
    ParsersCompared(rid, id, r, tail);
    ReadParts(rid, id, r, tail);
    SeenOneLine(tail);
    LastNames(tail, r.name);
  }

  lemma ValidTail(rid: string, id: Id, r: Root, tail: seq<string>)
    requires IsValid(rid) && ReadAs(rid, id, r, tail)
    ensures |tail| % 2 == 0 && forall t | t in tail :: OneLine(t)
  {
    DictionaryPrints(rid);
    ReadBack(rid);
  }

  /** On valid ids only the fallback is left to tell the names apart. */
  lemma ValidParsersAgree(rid: string, id: Id, r: Root, tail: seq<string>)
    requires IsValid(rid) && ReadAs(rid, id, r, tail)
    ensures SplitParse(rid) == Container(id.subscription, id.group.value, TargetName(r))
    ensures SplitParse(rid).name == LastName(r) <==> TargetName(r) != "" || r.name == ""
  {
    ValidTail(rid, id, r, tail);
    ReadParts(rid, id, r, tail);
    SeenOneLine(tail);
    assert Paired(tail) == tail;
    LastChildName(tail);
  }

  /** `/subscriptions/S/resourceGroups/G/providers/NS/T/N/extra`. */
  function WithExtra(s: string, g: string, ns: string, kind: string, name: string, extra: string): Form {
    Form(SUBSCRIPTIONS, s, Some((GROUPS, g)), Some(ProviderForm(PROVIDERS, ns, kind, name, [extra])))
  }

  /** One segment too many: both parsers accept, one names the resource and the other the extra segment. */
  lemma ExtraSegment(s: string, g: string, ns: string, kind: string, name: string, extra: string)
    requires forall t | t in [s, g, ns, kind, name, extra] :: Clean(t) && OneLine(t)
    ensures var rid := Written(WithExtra(s, g, ns, kind, name, extra));
            && ParseId(rid) == Some(Id(s, Some(g), Some(Root(ns, kind, name, []))))
            && SplitParse(rid) == Container(s, g, extra)
            && LastName(ParseId(rid).value.root.value) == name
  {
    var f := WithExtra(s, g, ns, kind, name, extra);
    assert s in [s, g, ns, kind, name, extra] && g in [s, g, ns, kind, name, extra];
    assert ns in [s, g, ns, kind, name, extra] && kind in [s, g, ns, kind, name, extra];
    assert name in [s, g, ns, kind, name, extra] && extra in [s, g, ns, kind, name, extra];
    SplitForm(f);
    FormParses(f);
    ChildrenOfTokens([extra]);
  }
}
