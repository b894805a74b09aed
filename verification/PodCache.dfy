/** The read-through pod cache of azext_edge/edge/providers/base.py under arbitrary API failures. */
module PodCache {
  import opened Json

  datatype Pod = Pod(name: string, manifest: string)

  /** Namespace (empty for all namespaces) and label selector. */
  type Key = (string, Option<string>)

  /** What the cluster would answer if asked now. */
  datatype Api = Listed(pods: seq<Pod>) | Refused(status: int) | Crashed

  /** `Raised` is any error but an API refusal, which no branch catches. */
  datatype Response = Pods(pods: seq<Pod>) | AccessDenied(status: int) | Raised

  /** One call of `get_namespaced_pods_by_prefix`; `strict` is the access-error context flag. */
  datatype Call = Call(prefix: string, key: Key, strict: bool, api: Api)

  type Store = map<Key, seq<Pod>>

  function WithPrefix(pods: seq<Pod>, prefix: string): seq<Pod> {
    if pods == [] then []
    else
      var n := |pods| - 1;
      WithPrefix(pods[..n], prefix) + if prefix <= pods[n].name then [pods[n]] else []
  }

  function Respond(store: Store, c: Call): Response {
    if c.key in store then Pods(WithPrefix(store[c.key], c.prefix))
    else match c.api
      case Listed(pods) => Pods(WithPrefix(pods, c.prefix))
      case Refused(status) => if c.strict && (status == 401 || status == 403) then AccessDenied(status) else Pods([])
      case Crashed => Raised
  }

  function Stored(store: Store, c: Call): Store {
    if c.key !in store && c.api.Listed? then store[c.key := c.api.pods] else store
  }

  class Cache {
    var store: Store

    constructor ()
      ensures store == map[]
    {
      store := map[];
    }

    method Filter(pods: seq<Pod>, prefix: string) returns (kept: seq<Pod>)
      ensures kept == WithPrefix(pods, prefix)
    {
      kept := [];
      for i := 0 to |pods|
        invariant kept == WithPrefix(pods[..i], prefix)
      {
        assert pods[..i + 1][..i] == pods[..i];
        if prefix <= pods[i].name { kept := kept + [pods[i]]; }
      }
      assert pods[..|pods|] == pods;
    }

    /** `asked` says whether the API was consulted. */
    method GetPods(c: Call) returns (response: Response, asked: bool)
      modifies this
      ensures response == Respond(old(store), c)
      ensures store == Stored(old(store), c)
      ensures asked <==> c.key !in old(store)
    {
      asked := c.key !in store;
      if asked {
        match c.api
        case Listed(pods) => store := store[c.key := pods];
        case Refused(status) =>
          if c.strict && (status == 401 || status == 403) {
            response := AccessDenied(status);
          } else {
            response := Pods([]);
          }
          return;
        case Crashed =>
          response := Raised;
          return;
      }
      var kept := Filter(store[c.key], c.prefix);
      response := Pods(kept);
    }
  }

  // ---------- what the filter keeps ----------

  /** The pods whose name starts with the prefix, each where it stood among them. */
  lemma {:induction false} WithPrefixIs(pods: seq<Pod>, prefix: string)
    ensures WithPrefix([], prefix) == []
    ensures forall p :: WithPrefix([p], prefix)
                        == if |prefix| <= |p.name| && p.name[..|prefix|] == prefix then [p] else []
    ensures forall more: seq<Pod> ::
              WithPrefix(pods + more, prefix) == WithPrefix(pods, prefix) + WithPrefix(more, prefix)
  {
    forall p: Pod
      ensures WithPrefix([p], prefix) == if |prefix| <= |p.name| && p.name[..|prefix|] == prefix then [p] else []
    {
      assert [p][..0] == [];
    }
    forall more: seq<Pod>
      ensures WithPrefix(pods + more, prefix) == WithPrefix(pods, prefix) + WithPrefix(more, prefix)
    {
      WithPrefixConcat(pods, more, prefix);
    }
  }

  lemma {:induction false} WithPrefixConcat(a: seq<Pod>, b: seq<Pod>, prefix: string)
    ensures WithPrefix(a + b, prefix) == WithPrefix(a, prefix) + WithPrefix(b, prefix)
  {
    if b == [] {
      assert a + b == a;
    } else {
      var n := |b| - 1;
      assert (a + b)[..|a + b| - 1] == a + b[..n];
      WithPrefixConcat(a, b[..n], prefix);
    }
  }

  /** Hence a pod is in the answer exactly when it is listed and its name starts with the prefix, and as
      often as it is listed. */
  lemma {:induction false} KeptIff(pods: seq<Pod>, prefix: string, p: Pod)
    ensures multiset(WithPrefix(pods, prefix))[p]
            == if |prefix| <= |p.name| && p.name[..|prefix|] == prefix then multiset(pods)[p] else 0
  {
    if pods != [] {
      var n := |pods| - 1;
      KeptIff(pods[..n], prefix, p);
      assert pods == pods[..n] + [pods[n]];
    }
  }

  // ---------- whole runs ----------

  /** The store after a run that starts with an empty cache. */
  function After(calls: seq<Call>): Store {
    if calls == [] then map[]
    else var n := |calls| - 1; Stored(After(calls[..n]), calls[n])
  }

  /** The first list the API had to offer for a key, over the run. */
  function FirstListed(calls: seq<Call>, key: Key): Option<seq<Pod>> {
    if calls == [] then None
    else if calls[0].key == key && calls[0].api.Listed? then Some(calls[0].api.pods)
    else FirstListed(calls[1..], key)
  }

  lemma {:induction false} FirstListedSnoc(calls: seq<Call>, c: Call, key: Key)
    ensures FirstListed(calls + [c], key)
            == if FirstListed(calls, key).Some? then FirstListed(calls, key)
               else if c.key == key && c.api.Listed? then Some(c.api.pods)
               else None
  {
    if calls == [] {
      assert calls + [c] == [c] && [c][1..] == [];
    } else {
      assert (calls + [c])[1..] == calls[1..] + [c];
      FirstListedSnoc(calls[1..], c, key);
    }
  }

  /** The cache holds exactly the first successful list of each key. */
  lemma {:induction false} StoreIsFirst(calls: seq<Call>, key: Key)
    ensures key in After(calls) <==> FirstListed(calls, key).Some?
    ensures key in After(calls) ==> After(calls)[key] == FirstListed(calls, key).value
  {
    if calls != [] {
      var n := |calls| - 1;
      StoreIsFirst(calls[..n], key);
      FirstListedSnoc(calls[..n], calls[n], key);
      assert calls == calls[..n] + [calls[n]];
    }
  }

  /** Successful fetches for a key: calls that asked the API and were given a list. */
  function Fetches(calls: seq<Call>, key: Key): nat {
    if calls == [] then 0
    else
      var n := |calls| - 1;
      Fetches(calls[..n], key)
      + if calls[n].key == key && key !in After(calls[..n]) && calls[n].api.Listed? then 1 else 0
  }

  lemma {:induction false} AtMostOneFetch(calls: seq<Call>, key: Key)
    ensures Fetches(calls, key) == if key in After(calls) then 1 else 0
  {
    if calls != [] {
      AtMostOneFetch(calls[..|calls| - 1], key);
    }
  }

  /** Main theorem: once any call for a key has been given a list, every later call for the key, with
      any prefix and whatever the API does meanwhile, answers by filtering that first list. */
  lemma LaterAnswers(calls: seq<Call>, i: nat, j: nat)
    requires i < j < |calls| && calls[i].key == calls[j].key && calls[i].api.Listed?
    ensures FirstListed(calls[..j], calls[j].key).Some?
    ensures Respond(After(calls[..j]), calls[j])
            == Pods(WithPrefix(FirstListed(calls[..j], calls[j].key).value, calls[j].prefix))
    ensures After(calls[..j + 1]) == After(calls[..j])
  {
    var earlier := calls[..j];
    assert earlier[i] == calls[i];
    ListedSomewhere(earlier, i);
    StoreIsFirst(earlier, calls[j].key);
    assert calls[..j + 1][..j] == earlier;
  }

  lemma {:induction false} ListedSomewhere(calls: seq<Call>, i: nat)
    requires i < |calls| && calls[i].api.Listed?
    ensures FirstListed(calls, calls[i].key).Some?
  {
    if i > 0 {
      assert calls[1..][i - 1] == calls[i];
      ListedSomewhere(calls[1..], i - 1);
    }
  }

  /** The call that is given the list answers from it, and stores the whole of it. */
  lemma FirstAnswer(calls: seq<Call>, j: nat)
    requires j < |calls| && FirstListed(calls[..j], calls[j].key).None? && calls[j].api.Listed?
    ensures Respond(After(calls[..j]), calls[j]) == Pods(WithPrefix(calls[j].api.pods, calls[j].prefix))
    ensures After(calls[..j + 1]) == After(calls[..j])[calls[j].key := calls[j].api.pods]
  {
    StoreIsFirst(calls[..j], calls[j].key);
    assert calls[..j + 1][..j] == calls[..j];
  }

  /** Before that, a failure is reported, read as "no pods" or raised, and never stored. */
  lemma EarlierAnswers(calls: seq<Call>, j: nat)
    requires j < |calls| && FirstListed(calls[..j], calls[j].key).None? && !calls[j].api.Listed?
    ensures After(calls[..j + 1]) == After(calls[..j])
    ensures Respond(After(calls[..j]), calls[j])
            == match calls[j].api
               case Refused(status) =>
                 if calls[j].strict && (status == 401 || status == 403) then AccessDenied(status) else Pods([])
               case _ => Raised
  {
    StoreIsFirst(calls[..j], calls[j].key);
    assert calls[..j + 1][..j] == calls[..j];
  }
}
