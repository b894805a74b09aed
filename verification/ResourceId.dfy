/** The ARM resource-id parser and printer of azext_edge/edge/util/id_tools.py. */
module ResourceId {
  import opened Json
  import opened Text

  // ---------- text ----------

  /** What `[^/]*` matches at the start of `s`, and what follows it. */
  function Seg(s: string): (t: string)
    ensures '/' !in t && |t| <= |s|
  {
    if s == "" || s[0] == '/' then "" else [s[0]] + Seg(s[1..])
  }

  function After(s: string): (t: string)
    ensures t == "" || t[0] == '/'
    ensures |Seg(s)| + |t| == |s| && Seg(s) + t == s
  {
    if s == "" || s[0] == '/' then s else After(s[1..])
  }

  /** What `.*` matches: everything up to a newline. */
  function Line(s: string): (t: string)
    ensures '\n' !in t && t <= s
    ensures '\n' !in s ==> t == s
    ensures t == "" || t[0] == s[0]
  {
    if s == "" || s[0] == '\n' then "" else [s[0]] + Line(s[1..])
  }

  const SUBSCRIPTIONS := "/subscriptions/"
  const GROUPS := "/resourceGroups/"
  const PROVIDERS := "/providers/"

  /** `s` starts with `word`, in any case. */
  predicate Keyword(s: string, word: string) {
    |word| <= |s| && Lower(s[..|word|]) == Lower(word)
  }

  // ---------- identifiers as data ----------

  datatype Child = Child(namespace: Option<string>, kind: string, name: string)

  datatype Root = Root(namespace: string, kind: string, name: string, children: seq<Child>)

  datatype Id = Id(subscription: string, group: Option<string>, root: Option<Root>)

  // ---------- the two regular expressions ----------

  /** `/[^/]*` + `/[^/]*`, with the rest. */
  function MatchPair(s: string): Option<(string, string, string)> {
    if s == "" || s[0] != '/' || After(s[1..]) == "" then None
    else var r := After(s[1..]); Some((Seg(s[1..]), Seg(r[1..]), After(r[1..])))
  }

  /** One match of the child expression; its optional namespace is tried first. */
  function MatchChild(s: string): Option<(Child, string)> {
    if Keyword(s, PROVIDERS) && MatchPair(After(s[|PROVIDERS|..])).Some? then
      var p := MatchPair(After(s[|PROVIDERS|..])).value;
      Some((Child(Some(Seg(s[|PROVIDERS|..])), p.0, p.1), p.2))
    else match MatchPair(s)
      case Some(p) => Some((Child(None, p.0, p.1), p.2))
      case None => None
  }

  lemma MatchChildShorter(s: string)
    requires MatchChild(s).Some?
    ensures |MatchChild(s).value.1| < |s|
  {
  }

  /** All matches of the child expression, left to right. */
  function ChildrenOf(s: string): seq<Child>
    decreases |s|
  {
    match MatchChild(s)
    case None => []
    case Some(m) => MatchChildShorter(s); [m.0] + ChildrenOf(m.1)
  }

  /** The optional provider part of the id expression, as namespace, type, name and children text. */
  function MatchProvider(s: string): Option<(string, string, string, string)> {
    if !Keyword(s, PROVIDERS) then None
    else match MatchPair(After(s[|PROVIDERS|..]))
      case None => None
      case Some(p) => Some((Seg(s[|PROVIDERS|..]), p.0, p.1, Line(p.2)))
  }

  function MatchRoot(s: string): Option<Root> {
    match MatchProvider(s)
    case None => None
    case Some(p) => Some(Root(p.0, p.1, p.2, ChildrenOf(p.3)))
  }

  function MatchGroup(s: string): Option<string> {
    if Keyword(s, GROUPS) then Some(Seg(s[|GROUPS|..])) else None
  }

  function AfterGroup(s: string): string {
    if Keyword(s, GROUPS) then After(s[|GROUPS|..]) else s
  }

  /** The identifier a string starts with, if the id expression matches at all. */
  function ParseId(rid: string): Option<Id> {
    if !Keyword(rid, SUBSCRIPTIONS) then None
    else
      var s := rid[|SUBSCRIPTIONS|..];
      Some(Id(Seg(s), MatchGroup(After(s)), MatchRoot(AfterGroup(After(s)))))
  }

  // ---------- printing ----------

  function PrintNamespace(ns: Option<string>): string {
    match ns case Some(n) => PROVIDERS + n case None => ""
  }

  function PrintChild(c: Child): string {
    PrintNamespace(c.namespace) + "/" + c.kind + "/" + c.name
  }

  function PrintChildren(cs: seq<Child>): string {
    if cs == [] then "" else PrintChild(cs[0]) + PrintChildren(cs[1..])
  }

  function PrintPrefix(id: Id): string {
    SUBSCRIPTIONS + id.subscription + PrintGroup(id.group)
  }

  function PrintGroup(group: Option<string>): string {
    match group case Some(g) => GROUPS + g case None => ""
  }

  function PrintRoot(r: Root): string {
    PROVIDERS + r.namespace + "/" + r.kind + "/" + r.name + PrintChildren(r.children)
  }

  function RootText(id: Id): string {
    match id.root case Some(r) => PrintRoot(r) case None => ""
  }

  function PrintId(id: Id): string {
    PrintPrefix(id) + RootText(id)
  }

  // ---------- the keyword dictionary ----------

  /** The string keys of the parsed dictionary, `child_type_2` written `ChildType(2)`. */
  datatype Key =
    | Subscription | ResourceGroup | Namespace | Type | Name | Children
    | ChildNamespace(n: nat) | ChildType(n: nat) | ChildName(n: nat) | ChildParent(n: nat)
    | ResourceParent | ResourceNamespace | ResourceType | ResourceName

  type Kwargs = map<Key, string>

  /** `last_child_num` is the one entry that is not text. */
  datatype Parsed = Parsed(fields: Kwargs, lastChild: Option<nat>)

  function ChildEntry(n: nat, c: Child): Kwargs {
    map[ChildType(n) := c.kind, ChildName(n) := c.name]
    + match c.namespace case Some(ns) => map[ChildNamespace(n) := ns] case None => map[]
  }

  function ChildEntries(cs: seq<Child>): Kwargs {
    if cs == [] then map[] else ChildEntries(cs[..|cs| - 1]) + ChildEntry(|cs|, cs[|cs| - 1])
  }

  /** The match groups that took part. */
  function GroupEntries(id: Id, children: string): Kwargs {
    map[Subscription := id.subscription]
    + (match id.group case Some(g) => map[ResourceGroup := g] case None => map[])
    + (match id.root
       case Some(r) => map[Namespace := r.namespace, Type := r.kind, Name := r.name, Children := children]
       case None => map[])
  }

  function ChildList(id: Id): seq<Child> {
    match id.root case Some(r) => r.children case None => []
  }

  /** Path of the parent of child `k` (from 1), below the provider namespace. */
  function ParentPath(r: Root, k: nat): string
    requires 1 <= k <= |r.children|
  {
    (if k == 1 then r.kind + "/" + r.name + "/"
     else ParentPath(r, k - 1) + r.children[k - 2].kind + "/" + r.children[k - 2].name + "/")
    + NamespaceStep(r.children[k - 1].namespace)
  }

  function NamespaceStep(ns: Option<string>): string {
    match ns case Some(n) => "providers/" + n + "/" case None => ""
  }

  function ParentEntries(r: Root, upTo: nat): Kwargs
    requires upTo <= |r.children|
  {
    if upTo == 0 then map[] else ParentEntries(r, upTo - 1)[ChildParent(upTo) := ParentPath(r, upTo)]
  }

  /** The root's own entry, absent when its name is empty. */
  function RootParent(r: Root): Kwargs {
    if r.name == "" then map[]
    else map[ResourceParent := if r.children == [] then "" else ParentPath(r, |r.children|)]
  }

  function Parents(id: Id): Kwargs {
    match id.root
    case None => map[]
    case Some(r) => ParentEntries(r, |r.children|) + RootParent(r)
  }

  function Or(s: string, t: string): string {
    if s != "" then s else t
  }

  function LastKind(r: Root): string {
    if r.children == [] then r.kind else Or(r.children[|r.children| - 1].kind, r.kind)
  }

  function LastName(r: Root): string {
    if r.children == [] then r.name else Or(r.children[|r.children| - 1].name, r.name)
  }

  function Targets(id: Id): Kwargs {
    match id.root
    case None => map[]
    case Some(r) =>
      map[ResourceNamespace := r.namespace, ResourceType := LastKind(r), ResourceName := LastName(r)]
  }

  function ChildrenText(rid: string): string {
    if !Keyword(rid, SUBSCRIPTIONS) then ""
    else match MatchProvider(AfterGroup(After(rid[|SUBSCRIPTIONS|..]))) case Some(p) => p.3 case None => ""
  }

  /** The dictionary `parse_resource_id` returns, without its absent entries. */
  function Dictionary(rid: string): Parsed {
    if rid == "" then Parsed(map[], None)
    else match ParseId(rid)
      case None => Parsed(map[Name := rid], None)
      case Some(id) =>
        var n := |ChildList(id)|;
        Parsed(GroupEntries(id, ChildrenText(rid)) + ChildEntries(ChildList(id)) + Parents(id) + Targets(id),
               if n == 0 then None else Some(n))
  }

  // ---------- the source's methods ----------

  lemma AddUpdate<K, V>(a: map<K, V>, b: map<K, V>, k: K, v: V)
    ensures (a + b)[k := v] == a + b[k := v]
  {
  }

  lemma {:induction false} ChildrenStep(s: string)
    requires MatchChild(s).Some?
    ensures |MatchChild(s).value.1| < |s|
    ensures ChildrenOf(s) == [MatchChild(s).value.0] + ChildrenOf(MatchChild(s).value.1)
  {
    MatchChildShorter(s);
  }

  lemma EntriesStep(base: Kwargs, cs: seq<Child>, k: nat)
    requires k < |cs|
    ensures base + ChildEntries(cs[..k + 1]) == (base + ChildEntries(cs[..k])) + ChildEntry(k + 1, cs[k])
  {
    assert cs[..k + 1][..k] == cs[..k];
  }

  /** The loop over `finditer`, numbering the matches from 1. */
  method CollectChildren(text: string, kwargs: Kwargs) returns (result: Kwargs, last: Option<nat>)
    ensures result == kwargs + ChildEntries(ChildrenOf(text))
    ensures last == if ChildrenOf(text) == [] then None else Some(|ChildrenOf(text)|)
  {
    var rest := text;
    var count: nat := 0;
    result := kwargs;
    ghost var all := ChildrenOf(text);
    while MatchChild(rest).Some?
      invariant count <= |all| && all[count..] == ChildrenOf(rest)
      invariant result == kwargs + ChildEntries(all[..count])
      decreases |rest|
    {
      var (child, next) := MatchChild(rest).value;
      ChildrenStep(rest);
      EntriesStep(kwargs, all, count);
      assert all[count..][1..] == all[count + 1..];
      count := count + 1;
      result := result + ChildEntry(count, child);
      rest := next;
    }
    assert all[..count] == all;
    last := if count > 0 then Some(count) else None;
  }

  method ParseResourceId(rid: string) returns (result: Parsed)
    ensures result == Dictionary(rid)
  {
    if rid == "" {
      return Parsed(map[], None);
    }
    match ParseId(rid)
    case None => result := Parsed(map[Name := rid], None);
    case Some(id) =>
      ChildrenTextParsed(rid);
      var kwargs, last := CollectChildren(ChildrenText(rid), GroupEntries(id, ChildrenText(rid)));
      EntriesDescribe(id, ChildrenText(rid));
      kwargs := GetParentsFromParts(id, kwargs, last);
      result := Parsed(kwargs + Targets(id), last);
  }

  lemma ChildrenTextParsed(rid: string)
    requires ParseId(rid).Some?
    ensures ChildrenOf(ChildrenText(rid)) == ChildList(ParseId(rid).value)
  {
  }

  lemma {:induction false} ChildEntriesAt(cs: seq<Child>, k: nat)
    requires 1 <= k <= |cs|
    ensures ChildType(k) in ChildEntries(cs) && ChildEntries(cs)[ChildType(k)] == cs[k - 1].kind
    ensures ChildName(k) in ChildEntries(cs) && ChildEntries(cs)[ChildName(k)] == cs[k - 1].name
    ensures LookUp(ChildEntries(cs), ChildNamespace(k)) == cs[k - 1].namespace
  {
    if k == |cs| {
      ChildEntriesKeys(cs[..|cs| - 1]);
    } else {
      ChildEntriesAt(cs[..|cs| - 1], k);
    }
  }

  lemma {:induction false} ChildEntriesKeys(cs: seq<Child>)
    ensures forall key | key in ChildEntries(cs) ::
              (key.ChildType? || key.ChildName? || key.ChildNamespace?) && 1 <= key.n <= |cs|
  {
    if cs != [] { ChildEntriesKeys(cs[..|cs| - 1]); }
  }

  function LookUp(kwargs: Kwargs, key: Key): Option<string> {
    if key in kwargs then Some(kwargs[key]) else None
  }

  /** The entries of `kwargs` that the parents are computed from. */
  ghost predicate Describes(kwargs: Kwargs, id: Id) {
    && LookUp(kwargs, Type) == (match id.root case Some(r) => Some(r.kind) case None => None)
    && LookUp(kwargs, Name) == (match id.root case Some(r) => Some(r.name) case None => None)
    && forall k: nat | 1 <= k <= |ChildList(id)| ::
         && LookUp(kwargs, ChildType(k)) == Some(ChildList(id)[k - 1].kind)
         && LookUp(kwargs, ChildName(k)) == Some(ChildList(id)[k - 1].name)
         && LookUp(kwargs, ChildNamespace(k)) == ChildList(id)[k - 1].namespace
  }

  lemma LookUpAdd(a: Kwargs, b: Kwargs, key: Key)
    ensures LookUp(a + b, key) == if key in b then LookUp(b, key) else LookUp(a, key)
  {
  }

  lemma GroupKeys(id: Id, text: string)
    ensures forall key | key in GroupEntries(id, text) :: !key.ChildType? && !key.ChildName? && !key.ChildNamespace?
    ensures LookUp(GroupEntries(id, text), Type) == match id.root case Some(r) => Some(r.kind) case None => None
    ensures LookUp(GroupEntries(id, text), Name) == match id.root case Some(r) => Some(r.name) case None => None
  {
  }

  lemma EntriesDescribe(id: Id, text: string)
    ensures Describes(GroupEntries(id, text) + ChildEntries(ChildList(id)), id)
  {
    var groups, entries := GroupEntries(id, text), ChildEntries(ChildList(id));
    ChildEntriesKeys(ChildList(id));
    GroupKeys(id, text);
    LookUpAdd(groups, entries, Type);
    LookUpAdd(groups, entries, Name);
    forall k: nat | 1 <= k <= |ChildList(id)|
      ensures LookUp(groups + entries, ChildType(k)) == Some(ChildList(id)[k - 1].kind)
      ensures LookUp(groups + entries, ChildName(k)) == Some(ChildList(id)[k - 1].name)
      ensures LookUp(groups + entries, ChildNamespace(k)) == ChildList(id)[k - 1].namespace
    {
      ChildEntriesAt(ChildList(id), k);
      LookUpAdd(groups, entries, ChildType(k));
      LookUpAdd(groups, entries, ChildName(k));
      LookUpAdd(groups, entries, ChildNamespace(k));
    }
  }

  /** Where the builder stands before child `k` adds its namespace. */
  ghost function BuilderAt(r: Root, k: nat): string
    requires 1 <= k <= |r.children|
  {
    if k == 1 then r.kind + "/" + r.name + "/"
    else ParentPath(r, k - 1) + r.children[k - 2].kind + "/" + r.children[k - 2].name + "/"
  }

  lemma DescribedChild(kwargs: Kwargs, id: Id, k: nat)
    requires Describes(kwargs, id) && 1 <= k <= |ChildList(id)|
    ensures var c := ChildList(id)[k - 1];
            && ChildType(k) in kwargs && kwargs[ChildType(k)] == c.kind
            && ChildName(k) in kwargs && kwargs[ChildName(k)] == c.name
            && LookUp(kwargs, ChildNamespace(k)) == c.namespace
  {
    assert LookUp(kwargs, ChildType(k)).Some? && LookUp(kwargs, ChildName(k)).Some?;
  }

  lemma DescribedRoot(kwargs: Kwargs, id: Id)
    requires Describes(kwargs, id)
    ensures Name in kwargs <==> id.root.Some?
    ensures id.root.Some? ==>
              Type in kwargs && kwargs[Type] == id.root.value.kind && kwargs[Name] == id.root.value.name
  {
    assert Name in kwargs <==> LookUp(kwargs, Name).Some?;
    assert Type in kwargs <==> LookUp(kwargs, Type).Some?;
  }

  /** One entry more. */
  lemma ParentStep(kwargs: Kwargs, r: Root, k: nat)
    requires 1 <= k <= |r.children|
    ensures BuilderAt(r, k) + NamespaceStep(r.children[k - 1].namespace) == ParentPath(r, k)
    ensures (kwargs + ParentEntries(r, k - 1))[ChildParent(k) := ParentPath(r, k)] == kwargs + ParentEntries(r, k)
  {
    AddUpdate(kwargs, ParentEntries(r, k - 1), ChildParent(k), ParentPath(r, k));
  }

  lemma ParentsAre(kwargs: Kwargs, id: Id)
    ensures kwargs + Parents(id)
            == match id.root
               case None => kwargs
               case Some(r) => (kwargs + ParentEntries(r, |r.children|)) + RootParent(r)
  {
  }

  /** `_get_parents_from_parts`: `builder` is the joined `parent_builder` list. */
  method GetParentsFromParts(ghost id: Id, kwargs: Kwargs, last: Option<nat>) returns (result: Kwargs)
    requires Describes(kwargs, id)
    requires last == if ChildList(id) == [] then None else Some(|ChildList(id)|)
    ensures result == kwargs + Parents(id)
  {
    result := kwargs;
    var builder := "";
    DescribedRoot(kwargs, id);
    ParentsAre(kwargs, id);
    if last.Some? {
      result, builder := BuildParents(id, kwargs, last.value);
    }
    if Name in kwargs && kwargs[Name] != "" {
      result := result[ResourceParent := builder];
    }
  }

  method BuildParents(ghost id: Id, kwargs: Kwargs, last: nat) returns (result: Kwargs, builder: string)
    requires Describes(kwargs, id) && last == |ChildList(id)| && last > 0
    ensures result == kwargs + ParentEntries(id.root.value, last) && builder == ParentPath(id.root.value, last)
  {
    ghost var r := id.root.value;
    DescribedRoot(kwargs, id);
    result := kwargs;
    builder := kwargs[Type] + "/" + kwargs[Name] + "/";
    var index: nat := 1;
    while index < last
      invariant 1 <= index <= last
      invariant result == kwargs + ParentEntries(r, index - 1)
      invariant builder == BuilderAt(r, index)
    {
      DescribedChild(kwargs, id, index);
      ParentStep(kwargs, r, index);
      builder := builder + NamespaceStep(LookUp(kwargs, ChildNamespace(index)));
      result := result[ChildParent(index) := builder];
      builder := builder + kwargs[ChildType(index)] + "/" + kwargs[ChildName(index)] + "/";
      index := index + 1;
    }
    DescribedChild(kwargs, id, last);
    ParentStep(kwargs, r, last);
    builder := builder + NamespaceStep(LookUp(kwargs, ChildNamespace(last)));
    result := result[ChildParent(last) := builder];
  }

  // ---------- resource_id ----------

  function GroupText(kwargs: Kwargs): string {
    if ResourceGroup in kwargs then GROUPS + kwargs[ResourceGroup] else ""
  }

  function Unprinted(kwargs: Kwargs, k: nat): set<Key> {
    set key | key in kwargs && key.ChildType? && key.n >= k
  }

  lemma UnprintedShrinks(kwargs: Kwargs, k: nat)
    requires ChildType(k) in kwargs
    ensures |Unprinted(kwargs, k + 1)| < |Unprinted(kwargs, k)|
  {
    assert Unprinted(kwargs, k) == Unprinted(kwargs, k + 1) + {ChildType(k)};
  }

  /** The children from level `k` on: a namespace is printed even when its child is incomplete. */
  function ChildrenFrom(kwargs: Kwargs, k: nat): string
    decreases |Unprinted(kwargs, k)|
  {
    PrintNamespace(LookUp(kwargs, ChildNamespace(k)))
    + if ChildType(k) in kwargs && ChildName(k) in kwargs then
        UnprintedShrinks(kwargs, k);
        "/" + kwargs[ChildType(k)] + "/" + kwargs[ChildName(k)] + ChildrenFrom(kwargs, k + 1)
      else ""
  }

  function ProviderText(kwargs: Kwargs): string {
    if Namespace !in kwargs then ""
    else PROVIDERS + kwargs[Namespace]
         + if Type in kwargs && Name in kwargs then
             "/" + kwargs[Type] + "/" + kwargs[Name] + ChildrenFrom(kwargs, 1)
           else ""
  }

  /** Printing any dictionary; `None` is the KeyError for a missing subscription. */
  function PrintKwargs(kwargs: Kwargs): Option<string> {
    if Subscription !in kwargs then None
    else Some(SUBSCRIPTIONS + kwargs[Subscription] + GroupText(kwargs) + ProviderText(kwargs))
  }

  lemma ChildrenFromStep(before: string, kwargs: Kwargs, k: nat)
    ensures var ns := PrintNamespace(LookUp(kwargs, ChildNamespace(k)));
            before + ChildrenFrom(kwargs, k)
            == if ChildType(k) in kwargs && ChildName(k) in kwargs then
                 (before + ns + "/" + kwargs[ChildType(k)] + "/" + kwargs[ChildName(k)]) + ChildrenFrom(kwargs, k + 1)
               else before + ns
  {
    var ns := PrintNamespace(LookUp(kwargs, ChildNamespace(k)));
    if ChildType(k) in kwargs && ChildName(k) in kwargs {
      SpliceNamespace(before, ns, kwargs[ChildType(k)], kwargs[ChildName(k)], ChildrenFrom(kwargs, k + 1));
    } else {
      assert ChildrenFrom(kwargs, k) == ns;
    }
  }

  /** The counted loop of `resource_id`. */
  method AppendChildren(start: string, kwargs: Kwargs) returns (rid: string)
    ensures rid == start + ChildrenFrom(kwargs, 1)
  {
    rid := start;
    var count: nat := 1;
    while true
      invariant rid + ChildrenFrom(kwargs, count) == start + ChildrenFrom(kwargs, 1)
      decreases |Unprinted(kwargs, count)|
    {
      ChildrenFromStep(rid, kwargs, count);
      var ns := PrintNamespace(LookUp(kwargs, ChildNamespace(count)));
      rid := rid + ns;
      if ChildType(count) !in kwargs || ChildName(count) !in kwargs {
        return;
      }
      UnprintedShrinks(kwargs, count);
      rid := rid + "/" + kwargs[ChildType(count)] + "/" + kwargs[ChildName(count)];
      count := count + 1;
    }
  }

  method AppendProvider(prefix: string, kwargs: Kwargs) returns (rid: string)
    ensures rid == prefix + ProviderText(kwargs)
  {
    rid := prefix;
    if Namespace in kwargs {
      var provider := PROVIDERS + kwargs[Namespace];
      rid := rid + provider;
      if Type in kwargs && Name in kwargs {
        SpliceNamespace(prefix, provider, kwargs[Type], kwargs[Name], ChildrenFrom(kwargs, 1));
        rid := rid + "/" + kwargs[Type] + "/" + kwargs[Name];
        rid := AppendChildren(rid, kwargs);
      }
    }
  }

  /** `resource_id`: appends from the left until a key is missing. */
  method PrintResourceId(kwargs: Kwargs) returns (result: Option<string>)
    ensures result == PrintKwargs(kwargs)
  {
    if Subscription !in kwargs {
      return None;
    }
    var rid := SUBSCRIPTIONS + kwargs[Subscription];
    if ResourceGroup in kwargs {
      rid := rid + (GROUPS + kwargs[ResourceGroup]);
    }
    assert rid == SUBSCRIPTIONS + kwargs[Subscription] + GroupText(kwargs);
    rid := AppendProvider(rid, kwargs);
    result := Some(rid);
  }

  /** `is_valid_resource_id` without its exception argument. */
  predicate IsValid(rid: string) {
    rid != "" &&
    match PrintKwargs(Dictionary(rid).fields)
    case None => false
    case Some(printed) => Lower(printed) == Lower(rid)
  }

  method IsValidResourceId(rid: string) returns (valid: bool)
    ensures valid == IsValid(rid)
  {
    if rid == "" { return false; }
    var parsed := ParseResourceId(rid);
    var printed := PrintResourceId(parsed.fields);
    return printed.Some? && Lower(printed.value) == Lower(rid);
  }
}
