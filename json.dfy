/** Python values as they travel through the API: request payloads, table
    rows (`_data`) and error bodies. A Python `dict` is an association list
    that keeps insertion order, as Python's dicts do; its operations below
    are the ones the core uses (`k in d`, `d[k]`, `d[k] = v`, `d.update(e)`). */
module Json {

  datatype Option<+T> = None | Some(value: T)

  datatype Json =
    | Null
    | Bool(b: bool)
    | Int(i: int)
    | Str(s: string)
    | List(items: seq<Json>)
    | Obj(fields: Fields)

  /** The items of a dict, in insertion order. */
  type Fields = seq<(string, Json)>

  /** The key set of a dict. */
  function Keys(d: Fields): set<string> {
    if d == [] then {} else {d[0].0} + Keys(d[1..])
  }

  /** A real dict never holds a key twice. */
  predicate NoDup(d: Fields) {
    d == [] || (d[0].0 !in Keys(d[1..]) && NoDup(d[1..]))
  }

  /** `d.get(k)`: the value stored under `k`, if any. */
  function Get(d: Fields, k: string): (r: Option<Json>)
    ensures r.Some? <==> k in Keys(d)
  {
    if d == [] then None
    else if d[0].0 == k then Some(d[0].1)
    else Get(d[1..], k)
  }

  /** `d[k]` on a key that is present. */
  function At(d: Fields, k: string): Json
    requires k in Keys(d)
  {
    Get(d, k).value
  }

  /** `d[k] = v`: an existing key keeps its position, a new key goes last. */
  function Put(d: Fields, k: string, v: Json): (r: Fields)
    ensures Keys(r) == Keys(d) + {k}
    ensures Get(r, k) == Some(v)
    ensures forall k' :: k' != k ==> Get(r, k') == Get(d, k')
    ensures NoDup(d) ==> NoDup(r)
    ensures k !in Keys(d) ==> r == d + [(k, v)]
  {
    if d == [] then [(k, v)]
    else if d[0].0 == k then
      assert ([(k, v)] + d[1..])[1..] == d[1..];
      [(k, v)] + d[1..]
    else
      var rest := Put(d[1..], k, v);
      assert ([d[0]] + rest)[1..] == rest;
      assert k !in Keys(d) ==> [d[0]] + rest == d + [(k, v)] by {
        if k !in Keys(d) { assert rest == d[1..] + [(k, v)]; assert d == [d[0]] + d[1..]; }
      }
      [d[0]] + rest
  }

  /** `d.pop(k)` on the dict: every entry under `k` goes, the rest keep
      their order. */
  function Remove(d: Fields, k: string): (r: Fields)
    ensures Keys(r) == Keys(d) - {k}
    ensures forall k' :: k' != k ==> Get(r, k') == Get(d, k')
    ensures NoDup(d) ==> NoDup(r)
  {
    if d == [] then []
    else if d[0].0 == k then Remove(d[1..], k)
    else
      var rest := Remove(d[1..], k);
      assert ([d[0]] + rest)[1..] == rest;
      [d[0]] + rest
  }

  /** `d.update(e)`: every item of `e`, in order, is stored into `d`. */
  function Update(d: Fields, e: Fields): (r: Fields)
    ensures Keys(r) == Keys(d) + Keys(e)
    ensures NoDup(d) ==> NoDup(r)
    ensures forall k :: k !in Keys(e) ==> Get(r, k) == Get(d, k)
    ensures NoDup(e) ==> forall k :: k in Keys(e) ==> Get(r, k) == Get(e, k)
    decreases e
  {
    if e == [] then d
    else Update(Put(d, e[0].0, e[0].1), e[1..])
  }

  /** A one-entry dict `{k: v}`. */
  lemma Singleton(k: string, v: Json)
    ensures Keys([(k, v)]) == {k} && NoDup([(k, v)])
    ensures Get([(k, v)], k) == Some(v)
  {
    assert [(k, v)][1..] == [];
  }

  lemma {:induction false} KeysAppend(a: Fields, b: Fields)
    ensures Keys(a + b) == Keys(a) + Keys(b)
    decreases a
  {
    if a != [] {
      assert (a + b)[0] == a[0] && (a + b)[1..] == a[1..] + b;
      KeysAppend(a[1..], b);
    } else {
      assert a + b == b;
    }
  }

  /** A Json value that a Python program can build: no dict, at any depth,
      holds a key twice. */
  predicate WellFormed(j: Json)
    decreases j
  {
    match j
    case Obj(fs) => NoDup(fs) && forall p | p in fs :: WellFormed(p.1)
    case List(xs) => forall x | x in xs :: WellFormed(x)
    case _ => true
  }

  /** Python's truth value: `None`, `False`, `0`, `''` and empty
      containers are false. */
  predicate Truthy(j: Json) {
    match j
    case Null => false
    case Bool(b) => b
    case Int(i) => i != 0
    case Str(s) => s != ""
    case List(xs) => xs != []
    case Obj(fs) => fs != []
  }

  /** Python's `==` on two dicts: same keys, same value under each key,
      whatever the insertion order. */
  predicate SameDict(a: Fields, b: Fields) {
    Keys(a) == Keys(b) && forall k | k in Keys(a) :: Get(a, k) == Get(b, k)
  }
}
