/** What the dict operations do, by key and by position: lookups, and the order in which keys were first
    set. Python dicts hold no key twice (`Distinct`), and are determined by the two. */
module JsonLaws {
  import opened Json

  /** The six documents Python reads as false. */
  lemma TruthyIff(j: Json)
    ensures Truthy(j) <==> j !in {Null, Bool(false), Num(0.0), Str(""), Arr([]), Obj([])}
  {
  }

  // ---------- keys in the order first set ----------

  function Keys(d: Dict): seq<string> {
    seq(|d|, i requires 0 <= i < |d| => d[i].key)
  }

  /** Keys set one after the other beside known ones: a known key stays where it is. */
  function Extend(known: seq<string>, more: seq<string>): seq<string>
    decreases |more|
  {
    if more == [] then known
    else Extend(if more[0] in known then known else known + [more[0]], more[1..])
  }

  function Except(keys: seq<string>, k: string): seq<string> {
    if keys == [] then []
    else if keys[0] == k then Except(keys[1..], k)
    else [keys[0]] + Except(keys[1..], k)
  }

  lemma {:induction false} ExtendConcat(known: seq<string>, a: seq<string>, b: seq<string>)
    ensures Extend(known, a + b) == Extend(Extend(known, a), b)
    decreases |a|
  {
    if a == [] {
      assert a + b == b;
    } else {
      assert (a + b)[1..] == a[1..] + b;
      ExtendConcat(if a[0] in known then known else known + [a[0]], a[1..], b);
    }
  }

  lemma {:induction false} ExtendOne(known: seq<string>, k: string)
    ensures Extend(known, [k]) == if k in known then known else known + [k]
  {
    assert [k][1..] == [];
  }

  lemma {:induction false} ExtendCons(known: seq<string>, k: string, more: seq<string>)
    ensures Extend(known, [k] + more) == Extend(Extend(known, [k]), more)
  {
    ExtendConcat(known, [k], more);
  }

  lemma KeysCons(f: Field, d: Dict)
    ensures Keys([f] + d) == [f.key] + Keys(d)
  {
  }

  lemma {:induction false} KeyIff(d: Dict, k: string)
    ensures k in Keys(d) <==> Has(d, k)
  {
    if d != [] {
      KeyIff(d[1..], k);
      assert d == [d[0]] + d[1..];
      KeysCons(d[0], d[1..]);
    }
  }

  // ---------- lookups ----------

  /** `d.get(k)` is the value of the first field with that key. */
  lemma {:induction false} FindIff(d: Dict, k: string, v: Json)
    ensures Find(d, k) == Some(v)
            <==> exists i | 0 <= i < |d| :: d[i] == Field(k, v) && forall j | 0 <= j < i :: d[j].key != k
    ensures Find(d, k) == None <==> forall f | f in d :: f.key != k
  {
    if d != [] {
      var rest := d[1..];
      FindIff(rest, k, v);
      assert forall f | f in d :: f == d[0] || f in rest;
      assert d[0] in d && forall f | f in rest :: f in d;
      if d[0].key == k && d[0].value == v { assert d[0] == Field(k, v); }
      if d[0].key != k && Find(rest, k) == Some(v) {
        var i :| 0 <= i < |rest| && rest[i] == Field(k, v) && forall j | 0 <= j < i :: rest[j].key != k;
        assert d[i + 1] == Field(k, v);
        forall j | 0 <= j < i + 1 ensures d[j].key != k { if j > 0 { assert d[j] == rest[j - 1]; } }
      }
      if i :| 0 <= i < |d| && d[i] == Field(k, v) && forall j | 0 <= j < i :: d[j].key != k {
        if i > 0 {
          assert rest[i - 1] == Field(k, v);
          forall j | 0 <= j < i - 1 ensures rest[j].key != k { assert rest[j] == d[j + 1]; }
        }
      }
    }
  }

  /** `d[k] = v` changes one lookup, keeps the order, and appends only a new key. */
  lemma {:induction false} PutIs(d: Dict, k: string, v: Json)
    ensures forall other :: Find(Put(d, k, v), other) == if other == k then Some(v) else Find(d, other)
    ensures Keys(Put(d, k, v)) == Extend(Keys(d), [k])
    ensures Distinct(d) ==> Distinct(Put(d, k, v))
  {
    ExtendOne(Keys(d), k);
    if d == [] {
      assert [Field(k, v)][1..] == [];
    } else if d[0].key == k {
      assert ([Field(k, v)] + d[1..])[1..] == d[1..];
      KeysCons(d[0], d[1..]);
      KeysCons(Field(k, v), d[1..]);
      assert d == [d[0]] + d[1..];
    } else {
      PutIs(d[1..], k, v);
      ExtendOne(Keys(d[1..]), k);
      var next := Put(d[1..], k, v);
      assert ([d[0]] + next)[1..] == next && d == [d[0]] + d[1..];
      KeysCons(d[0], d[1..]);
      KeysCons(d[0], next);
    }
  }

  /** `{**d, **e}`: the second wins, and the first's keys come first. */
  lemma {:induction false} UpdateIs(d: Dict, e: Dict)
    requires Distinct(e)
    ensures forall k :: Find(Update(d, e), k) == if Has(e, k) then Find(e, k) else Find(d, k)
    ensures Keys(Update(d, e)) == Extend(Keys(d), Keys(e))
    ensures Distinct(d) ==> Distinct(Update(d, e))
    decreases |e|
  {
    if e != [] {
      PutIs(d, e[0].key, e[0].value);
      UpdateIs(Put(d, e[0].key, e[0].value), e[1..]);
      assert e == [e[0]] + e[1..];
      KeysCons(e[0], e[1..]);
      ExtendCons(Keys(d), e[0].key, Keys(e[1..]));
    }
  }

  lemma {:induction false} WithoutIs(d: Dict, k: string)
    ensures forall other :: Find(Without(d, k), other) == if other == k then None else Find(d, other)
    ensures Keys(Without(d, k)) == Except(Keys(d), k)
    ensures Distinct(d) ==> Distinct(Without(d, k))
  {
    if d != [] {
      WithoutIs(d[1..], k);
      assert d == [d[0]] + d[1..];
      KeysCons(d[0], d[1..]);
      assert ([d[0].key] + Keys(d[1..]))[1..] == Keys(d[1..]);
      if d[0].key != k {
        assert ([d[0]] + Without(d[1..], k))[1..] == Without(d[1..], k);
        KeysCons(d[0], Without(d[1..], k));
      }
    }
  }

  /** Dicts with the same keys in the same order and the same lookups are the same. */
  lemma {:induction false} DictDetermined(d: Dict, e: Dict)
    requires Distinct(d) && Distinct(e) && Keys(d) == Keys(e) && forall k :: Find(d, k) == Find(e, k)
    ensures d == e
  {
    assert |Keys(d)| == |d| && |Keys(e)| == |e|;
    if d != [] {
      assert Keys(d)[0] == d[0].key && Keys(e)[0] == e[0].key;
      assert Find(d, d[0].key) == Find(e, d[0].key);
      assert Keys(d[1..]) == Keys(d)[1..] && Keys(e[1..]) == Keys(e)[1..];
      forall k ensures Find(d[1..], k) == Find(e[1..], k) {
        assert Find(d, k) == Find(e, k);
      }
      DictDetermined(d[1..], e[1..]);
    }
  }
}
