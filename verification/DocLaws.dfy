/** The dict laws of `JsonLaws` for documents whose dicts have an identity. */
module DocLaws {
  import opened Json
  import opened JsonLaws
  import opened InPlace
  import opened InPlaceSteps

  function EntryKeys(d: Entries): seq<string> {
    seq(|d|, i requires 0 <= i < |d| => d[i].key)
  }

  lemma EntryKeysCons(e: Entry, d: Entries)
    ensures EntryKeys([e] + d) == [e.key] + EntryKeys(d)
  {
  }

  lemma {:induction false} EntryKeyIff(d: Entries, k: string)
    ensures k in EntryKeys(d) <==> Lookup(d, k).Some?
  {
    if d != [] {
      EntryKeyIff(d[1..], k);
      assert d == [d[0]] + d[1..];
      EntryKeysCons(d[0], d[1..]);
    }
  }

  /** `d.get(k)` is the value of the first entry with that key. */
  lemma {:induction false} LookupIff(d: Entries, k: string, v: Doc)
    ensures Lookup(d, k) == Some(v)
            <==> exists i | 0 <= i < |d| :: d[i] == Entry(k, v) && forall j | 0 <= j < i :: d[j].key != k
    ensures Lookup(d, k) == None <==> forall e | e in d :: e.key != k
  {
    if d != [] {
      var rest := d[1..];
      LookupIff(rest, k, v);
      assert forall e | e in d :: e == d[0] || e in rest;
      assert d[0] in d && forall e | e in rest :: e in d;
      if d[0].key == k && d[0].value == v { assert d[0] == Entry(k, v); }
      if d[0].key != k && Lookup(rest, k) == Some(v) {
        var i :| 0 <= i < |rest| && rest[i] == Entry(k, v) && forall j | 0 <= j < i :: rest[j].key != k;
        assert d[i + 1] == Entry(k, v);
        forall j | 0 <= j < i + 1 ensures d[j].key != k { if j > 0 { assert d[j] == rest[j - 1]; } }
      }
      if i :| 0 <= i < |d| && d[i] == Entry(k, v) && forall j | 0 <= j < i :: d[j].key != k {
        if i > 0 {
          assert rest[i - 1] == Entry(k, v);
          forall j | 0 <= j < i - 1 ensures rest[j].key != k { assert rest[j] == d[j + 1]; }
        }
      }
    }
  }

  lemma {:induction false} SetIs(d: Entries, k: string, v: Doc)
    ensures forall other :: Lookup(Set(d, k, v), other) == if other == k then Some(v) else Lookup(d, other)
    ensures EntryKeys(Set(d, k, v)) == Extend(EntryKeys(d), [k])
    ensures Unique(d) ==> Unique(Set(d, k, v))
  {
    ExtendOne(EntryKeys(d), k);
    if d == [] {
      assert [Entry(k, v)][1..] == [];
    } else if d[0].key == k {
      assert ([Entry(k, v)] + d[1..])[1..] == d[1..];
      EntryKeysCons(d[0], d[1..]);
      EntryKeysCons(Entry(k, v), d[1..]);
      assert d == [d[0]] + d[1..];
    } else {
      SetIs(d[1..], k, v);
      ExtendOne(EntryKeys(d[1..]), k);
      var next := Set(d[1..], k, v);
      assert ([d[0]] + next)[1..] == next && d == [d[0]] + d[1..];
      EntryKeysCons(d[0], d[1..]);
      EntryKeysCons(d[0], next);
    }
  }

  lemma {:induction false} OverlayIs(d: Entries, e: Entries)
    requires Unique(e)
    ensures forall k :: Lookup(Overlay(d, e), k) == if Lookup(e, k).Some? then Lookup(e, k) else Lookup(d, k)
    ensures EntryKeys(Overlay(d, e)) == Extend(EntryKeys(d), EntryKeys(e))
    ensures Unique(d) ==> Unique(Overlay(d, e))
    decreases |e|
  {
    if e != [] {
      SetIs(d, e[0].key, e[0].value);
      OverlayIs(Set(d, e[0].key, e[0].value), e[1..]);
      assert e == [e[0]] + e[1..];
      EntryKeysCons(e[0], e[1..]);
      ExtendCons(EntryKeys(d), e[0].key, EntryKeys(e[1..]));
    }
  }

  lemma {:induction false} DropIs(d: Entries, k: string)
    ensures forall other :: Lookup(Drop(d, k), other) == if other == k then None else Lookup(d, other)
    ensures EntryKeys(Drop(d, k)) == Except(EntryKeys(d), k)
    ensures Unique(d) ==> Unique(Drop(d, k))
  {
    if d != [] {
      DropIs(d[1..], k);
      assert d == [d[0]] + d[1..];
      EntryKeysCons(d[0], d[1..]);
      assert ([d[0].key] + EntryKeys(d[1..]))[1..] == EntryKeys(d[1..]);
      if d[0].key != k {
        assert ([d[0]] + Drop(d[1..], k))[1..] == Drop(d[1..], k);
        EntryKeysCons(d[0], Drop(d[1..], k));
      }
    }
  }
}
