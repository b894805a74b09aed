/** JSON documents as the source sees them after parsing: Python dicts keep their
    insertion order, so an object is a sequence of fields. */
module Json {
  datatype Option<+T> = None | Some(value: T)

  datatype Field = Field(key: string, value: Json)

  type Dict = seq<Field>

  datatype Json =
    | Null
    | Bool(b: bool)
    | Num(n: real)
    | Str(s: string)
    | Arr(items: seq<Json>)
    | Obj(fields: Dict)

  /** Python truth value of a document. */
  predicate Truthy(j: Json) {
    match j
    case Null => false
    case Bool(b) => b
    case Num(n) => n != 0.0
    case Str(s) => s != ""
    case Arr(items) => items != []
    case Obj(fields) => fields != []
  }

  /** `d.get(k)`, with `None` for an absent key. */
  function Find(d: Dict, k: string): Option<Json> {
    if d == [] then None else if d[0].key == k then Some(d[0].value) else Find(d[1..], k)
  }

  predicate Has(d: Dict, k: string) {
    Find(d, k).Some?
  }

  /** `d[k] = v`: overwrites in place, or appends. */
  function Put(d: Dict, k: string, v: Json): Dict {
    if d == [] then [Field(k, v)]
    else if d[0].key == k then [Field(k, v)] + d[1..]
    else [d[0]] + Put(d[1..], k, v)
  }

  /** `{**d, **e}`. */
  function Update(d: Dict, e: Dict): Dict
    decreases |e|
  {
    if e == [] then d else Update(Put(d, e[0].key, e[0].value), e[1..])
  }

  /** `{x: v for x, v in d.items() if x != k}`. */
  function Without(d: Dict, k: string): Dict {
    if d == [] then []
    else if d[0].key == k then Without(d[1..], k)
    else [d[0]] + Without(d[1..], k)
  }

  /** What every Python dict guarantees: no key twice. */
  predicate Distinct(d: Dict) {
    d == [] || (!Has(d[1..], d[0].key) && Distinct(d[1..]))
  }

  lemma {:induction false} FindAt(d: Dict, k: string)
    requires Has(d, k)
    ensures Field(k, Find(d, k).value) in d
  {
    if d[0].key == k {
      assert d[0] == Field(k, Find(d, k).value);
    } else {
      FindAt(d[1..], k);
    }
  }
}
