/** `utils.helpers`: the recursive dict merge that the resolver and the
    junction-row builder use, `is_iterable`, and `unpack`, which turns a view's
    return value into (data, status, headers). */
module Helpers {
  import opened Json

  /** A Json value has `__iter__` when it is a list, a dict or a string. */
  predicate HasIter(o: Json) {
    o.List? || o.Obj? || o.Str?
  }

  /** `is_iterable`: has `__iter__` and is not a `str`. */
  predicate IsIterable(o: Json)
    ensures IsIterable(o) <==> o.List? || o.Obj?
  {
    HasIter(o) && !o.Str?
  }

  /** What `list += value` appends: a list's items, or a dict's keys in order. */
  function Elements(v: Json): (r: seq<Json>)
    requires v.List? || v.Obj?
    ensures v.List? ==> r == v.items
    ensures v.Obj? ==> |r| == |v.fields| && forall j :: 0 <= j < |r| ==> r[j] == Str(v.fields[j].0)
  {
    if v.List? then v.items else seq(|v.fields|, j requires 0 <= j < |v.fields| => Str(v.fields[j].0))
  }

  function Max(a: nat, b: nat): nat {
    if a < b then b else a
  }

  /** How deeply dicts are nested inside the values of a dict; a list counts
      as a leaf, since the merge never descends into lists. */
  function FieldsDepth(fs: Fields): nat
    decreases fs
  {
    if fs == [] then 0
    else
      var v := fs[0].1;
      assert v < fs[0];
      Max(if v.Obj? then 1 + FieldsDepth(v.fields) else 0, FieldsDepth(fs[1..]))
  }

  function Depth(j: Json): nat {
    if j.Obj? then 1 + FieldsDepth(j.fields) else 0
  }

  lemma {:induction false} FieldsDepthAppend(a: Fields, b: Fields)
    ensures FieldsDepth(a + b) == Max(FieldsDepth(a), FieldsDepth(b))
    decreases a
  {
    if a != [] {
      assert (a + b)[0] == a[0] && (a + b)[1..] == a[1..] + b;
      FieldsDepthAppend(a[1..], b);
    } else {
      assert a + b == b;
    }
  }

  lemma {:induction false} FieldsDepthGet(d: Fields, k: string)
    ensures k in Keys(d) ==> Depth(At(d, k)) <= FieldsDepth(d)
    decreases d
  {
    if d != [] && d[0].0 != k { FieldsDepthGet(d[1..], k); }
  }

  lemma {:induction false} FieldsDepthPut(d: Fields, k: string, v: Json)
    ensures FieldsDepth(Put(d, k, v)) <= Max(FieldsDepth(d), Depth(v))
    decreases d
  {
    if d != [] && d[0].0 != k {
      FieldsDepthPut(d[1..], k, v);
      assert Put(d, k, v) == [d[0]] + Put(d[1..], k, v);
      assert ([d[0]] + Put(d[1..], k, v))[1..] == Put(d[1..], k, v);
    } else if d != [] {
      assert Put(d, k, v)[1..] == d[1..];
    }
  }

  /** The value a key gets the first time it is seen: the defaultdict's `{}`
      merged with a dict value, or the value itself. */
  function Fresh(v: Json): (r: Json)
    ensures Depth(r) <= Depth(v)
    decreases Depth(v), 0
  {
    if v.Obj? then Obj(MergeItems([], v.fields)) else v
  }

  /** One step of `dict_merge` for a key already present with value `src`. */
  function Combine(src: Json, v: Json): (r: Json)
    ensures Depth(r) <= Max(Depth(src), Depth(v))
    decreases Max(Depth(src), Depth(v)), 0
  {
    if src.Obj? && v.Obj? then
      FieldsDepthAppend(src.fields, v.fields);
      Obj(MergeItems([], src.fields + v.fields))
    else if src.Obj? || src.Str? then v
    else if IsIterable(src) && IsIterable(v) then List(src.items + Elements(v))
    else v
  }

  /** The value stored under a key after one more item for it. */
  function Step(cur: Option<Json>, v: Json): Json {
    match cur
    case None => Fresh(v)
    case Some(src) => Combine(src, v)
  }

  /** `dict_merge`'s loop over the chained items, from the dict built so far. */
  function MergeItems(acc: Fields, items: Fields): (r: Fields)
    ensures FieldsDepth(r) <= Max(FieldsDepth(acc), FieldsDepth(items))
    decreases Max(FieldsDepth(acc), FieldsDepth(items)), 1, |items|
  {
    if items == [] then acc
    else
      var (k, v) := items[0];
      assert FieldsDepth(items) == Max(Depth(v), FieldsDepth(items[1..]));
      var cur := Get(acc, k);
      FieldsDepthGet(acc, k);
      var nv := if cur.Some? then Combine(cur.value, v) else Fresh(v);
      FieldsDepthPut(acc, k, nv);
      MergeItems(Put(acc, k, nv), items[1..])
  }

  /** `itertools.chain(*[d.items() for d in dict_list])`. */
  function Chain(ds: seq<Fields>): Fields {
    if ds == [] then [] else ds[0] + Chain(ds[1..])
  }

  lemma ChainPair(a: Fields, b: Fields)
    ensures Chain([a, b]) == a + b
  {
    assert [a, b][1..] == [b] && [b][1..] == [];
    assert Chain([b]) == b + [];
  }

  /** `dict_merge(*ds)`, the value it computes. */
  function Merge(ds: seq<Fields>): Fields {
    MergeItems([], Chain(ds))
  }

  lemma MergeItemsUnfold(acc: Fields, items: Fields)
    requires items != []
    ensures MergeItems(acc, items)
         == MergeItems(Put(acc, items[0].0, Step(Get(acc, items[0].0), items[0].1)), items[1..])
    ensures FieldsDepth(items[1..]) <= FieldsDepth(items)
    ensures Depth(items[0].1) <= FieldsDepth(items)
  {
  }

  /** `dict_merge`, as the source runs it: a loop over the chained items that
      stores each one into `result`, recursing when two dicts meet. */
  method DictMerge(ds: seq<Fields>) returns (r: Fields)
    ensures r == Merge(ds)
  {
    var chain := Chain(ds);
    var result: Fields := [];
    var i := 0;
    while i < |chain|
      invariant 0 <= i <= |chain|
      invariant MergeItems(result, chain[i..]) == Merge(ds)
      invariant FieldsDepth(result) <= FieldsDepth(chain)
    {
      result := StoreItem(result, chain, i);
      i := i + 1;
    }
    assert chain[i..] == [];
    r := result;
  }

  /** One turn of `dict_merge`'s loop: item `i` of the chain is stored into
      `result`. */
  method StoreItem(result: Fields, chain: Fields, i: nat) returns (next: Fields)
    requires i < |chain| && FieldsDepth(result) <= FieldsDepth(chain)
    ensures MergeItems(next, chain[i + 1..]) == MergeItems(result, chain[i..])
    ensures FieldsDepth(next) <= FieldsDepth(chain)
  {
    var (key, value) := chain[i];
    assert chain[i..][0] == chain[i] && chain[i..][1..] == chain[i + 1..];
    MergeItemsUnfold(result, chain[i..]);
    // `src = result[key]` on a defaultdict(dict): a missing key reads as {}
    var src := if key in Keys(result) then At(result, key) else Obj([]);
    FieldsDepthGet(result, key);
    DepthHead(chain[i..]);
    DepthSuffix(chain, i);
    // the branches of the loop body, with `dict_merge(src, value)` for two dicts
    var nv := Combine(src, value);
    if key !in Keys(result) {
      assert value.Obj? ==> [] + value.fields == value.fields;
    }
    assert nv == Step(Get(result, key), value);
    FieldsDepthPut(result, key, nv);
    next := Put(result, key, nv);
  }

  /** The values given for key `k` by a run of items, in order. */
  function ValuesOf(items: Fields, k: string): seq<Json> {
    if items == [] then []
    else (if items[0].0 == k then [items[0].1] else []) + ValuesOf(items[1..], k)
  }

  /** The values given for `k` by a list of dicts, in argument order. */
  function ValuesIn(ds: seq<Fields>, k: string): seq<Json> {
    if ds == [] then []
    else (if k in Keys(ds[0]) then [At(ds[0], k)] else []) + ValuesIn(ds[1..], k)
  }

  /** The value of one key after it has been fed `vs` in order. */
  function FoldFrom(cur: Option<Json>, vs: seq<Json>): Option<Json>
    decreases |vs|
  {
    if vs == [] then cur else FoldFrom(Some(Step(cur, vs[0])), vs[1..])
  }

  lemma {:induction false} MergeItemsKeys(acc: Fields, items: Fields)
    ensures Keys(MergeItems(acc, items)) == Keys(acc) + Keys(items)
    ensures NoDup(acc) ==> NoDup(MergeItems(acc, items))
    decreases |items|
  {
    if items != [] {
      MergeItemsUnfold(acc, items);
      MergeItemsKeys(Put(acc, items[0].0, Step(Get(acc, items[0].0), items[0].1)), items[1..]);
    }
  }

  lemma {:induction false} MergeItemsAt(acc: Fields, items: Fields, k: string)
    ensures Get(MergeItems(acc, items), k) == FoldFrom(Get(acc, k), ValuesOf(items, k))
    decreases |items|
  {
    if items != [] {
      var (k0, v0) := items[0];
      var acc' := Put(acc, k0, Step(Get(acc, k0), v0));
      MergeItemsUnfold(acc, items);
      MergeItemsAt(acc', items[1..], k);
      if k0 == k {
        assert ValuesOf(items, k) == [v0] + ValuesOf(items[1..], k);
        assert ([v0] + ValuesOf(items[1..], k))[1..] == ValuesOf(items[1..], k);
      } else {
        assert ValuesOf(items, k) == ValuesOf(items[1..], k);
      }
    }
  }

  lemma {:induction false} ValuesOfNoDup(d: Fields, k: string)
    requires NoDup(d)
    ensures ValuesOf(d, k) == if k in Keys(d) then [At(d, k)] else []
    decreases d
  {
    if d != [] {
      ValuesOfNoDup(d[1..], k);
      if d[0].0 == k {
        assert ValuesOf(d[1..], k) == [];
      }
    }
  }

  lemma {:induction false} ValuesOfAppend(a: Fields, b: Fields, k: string)
    ensures ValuesOf(a + b, k) == ValuesOf(a, k) + ValuesOf(b, k)
    decreases a
  {
    if a != [] {
      assert (a + b)[0] == a[0] && (a + b)[1..] == a[1..] + b;
      ValuesOfAppend(a[1..], b, k);
    } else {
      assert a + b == b;
    }
  }

  lemma {:induction false} ChainFacts(ds: seq<Fields>, k: string)
    requires forall i :: 0 <= i < |ds| ==> NoDup(ds[i])
    ensures ValuesOf(Chain(ds), k) == ValuesIn(ds, k)
    ensures k in Keys(Chain(ds)) <==> exists i :: 0 <= i < |ds| && k in Keys(ds[i])
    decreases ds
  {
    if ds != [] {
      ChainFacts(ds[1..], k);
      ValuesOfAppend(ds[0], Chain(ds[1..]), k);
      ValuesOfNoDup(ds[0], k);
      KeysAppend(ds[0], Chain(ds[1..]));
      if k in Keys(Chain(ds[1..])) {
        var i :| 0 <= i < |ds[1..]| && k in Keys(ds[1..][i]);
        assert k in Keys(ds[i + 1]);
      }
      if exists i :: 0 <= i < |ds| && k in Keys(ds[i]) {
        var i :| 0 <= i < |ds| && k in Keys(ds[i]);
        if i > 0 { assert k in Keys(ds[1..][i - 1]); }
      }
    }
  }

  /** The keys of `dict_merge(d1, ..., dn)` are exactly the keys of its
      arguments, each once, and each key holds the fold of `Step` over the
      values the arguments give it, in argument order. */
  lemma MergeSpec(ds: seq<Fields>)
    requires forall i :: 0 <= i < |ds| ==> NoDup(ds[i])
    ensures NoDup(Merge(ds))
    ensures forall k :: k in Keys(Merge(ds)) <==> exists i :: 0 <= i < |ds| && k in Keys(ds[i])
    ensures forall k :: Get(Merge(ds), k) == FoldFrom(None, ValuesIn(ds, k))
  {
    MergeItemsKeys([], Chain(ds));
    forall k ensures (k in Keys(Merge(ds)) <==> exists i :: 0 <= i < |ds| && k in Keys(ds[i]))
      && Get(Merge(ds), k) == FoldFrom(None, ValuesIn(ds, k))
    {
      ChainFacts(ds, k);
      MergeItemsAt([], Chain(ds), k);
    }
  }

  lemma {:induction false} MergeItemsSplit(acc: Fields, a: Fields, b: Fields)
    ensures MergeItems(acc, a + b) == MergeItems(MergeItems(acc, a), b)
    decreases |a|
  {
    if a == [] {
      assert a + b == b;
    } else {
      assert (a + b)[0] == a[0] && (a + b)[1..] == a[1..] + b;
      MergeItemsUnfold(acc, a);
      MergeItemsUnfold(acc, a + b);
      MergeItemsSplit(Put(acc, a[0].0, Step(Get(acc, a[0].0), a[0].1)), a[1..], b);
    }
  }

  /** Merging into an empty dict copies a well-formed value unchanged. */
  lemma {:induction false} FreshCopies(v: Json)
    requires WellFormed(v)
    ensures Fresh(v) == v
    decreases Depth(v), 0
  {
    if v.Obj? {
      MergeItemsAppends([], v.fields);
      assert [] + v.fields == v.fields;
    }
  }

  lemma AppendsOne(acc: Fields, fs: Fields)
    requires fs != [] && fs[0].0 !in Keys(acc) && Fresh(fs[0].1) == fs[0].1
    ensures MergeItems(acc, fs) == MergeItems(acc + [fs[0]], fs[1..])
  {
    MergeItemsUnfold(acc, fs);
    assert Get(acc, fs[0].0) == None;
  }

  lemma KeysAppendOne(acc: Fields, p: (string, Json))
    ensures Keys(acc + [p]) == Keys(acc) + {p.0}
  {
    KeysAppend(acc, [p]);
    assert Keys([p]) == {p.0};
  }

  lemma TailFresh(acc: Fields, fs: Fields)
    requires fs != [] && NoDup(fs) && Keys(fs) !! Keys(acc)
    requires forall p | p in fs :: WellFormed(p.1)
    ensures NoDup(fs[1..]) && Keys(fs[1..]) !! Keys(acc + [fs[0]])
    ensures forall p | p in fs[1..] :: WellFormed(p.1)
  {
    KeysAppendOne(acc, fs[0]);
    forall p | p in fs[1..] ensures WellFormed(p.1) {
      assert p in fs;
    }
  }

  lemma {:induction false} DepthSuffix(fs: Fields, i: nat)
    requires i <= |fs|
    ensures FieldsDepth(fs[i..]) <= FieldsDepth(fs)
    decreases i
  {
    if i > 0 {
      DepthHead(fs);
      DepthSuffix(fs[1..], i - 1);
      assert fs[1..][i - 1..] == fs[i..];
    }
  }

  lemma DepthHead(fs: Fields)
    requires fs != []
    ensures Depth(fs[0].1) <= FieldsDepth(fs) && FieldsDepth(fs[1..]) <= FieldsDepth(fs)
  {
  }

  lemma AppendsStep(acc: Fields, fs: Fields)
    requires fs != [] && fs[0].0 !in Keys(acc) && Fresh(fs[0].1) == fs[0].1
    requires MergeItems(acc + [fs[0]], fs[1..]) == acc + [fs[0]] + fs[1..]
    ensures MergeItems(acc, fs) == acc + fs
  {
    AppendsOne(acc, fs);
    ConsSplit(acc, fs);
  }

  lemma ConsSplit<T>(acc: seq<T>, fs: seq<T>)
    requires fs != []
    ensures acc + [fs[0]] + fs[1..] == acc + fs
  {
    assert fs == [fs[0]] + fs[1..];
  }

  /** Items with new, distinct keys and well-formed values are appended. */
  lemma {:induction false} MergeItemsAppends(acc: Fields, fs: Fields)
    requires NoDup(fs) && Keys(fs) !! Keys(acc)
    requires forall p | p in fs :: WellFormed(p.1)
    ensures MergeItems(acc, fs) == acc + fs
    decreases FieldsDepth(fs), 1, |fs|
  {
    if fs == [] {
      assert acc + fs == acc;
    } else {
      assert fs[0] in fs;
      DepthHead(fs);
      FreshCopies(fs[0].1);
      TailFresh(acc, fs);
      MergeItemsAppends(acc + [fs[0]], fs[1..]);
      AppendsStep(acc, fs);
    }
  }

  /** A value that is not iterable replaces whatever the key held. */
  lemma StepScalar(cur: Option<Json>, v: Json)
    requires !IsIterable(v)
    ensures Step(cur, v) == v
  {
  }

  lemma {:induction false} MergeItemsScalars(acc: Fields, b: Fields)
    requires forall p | p in b :: !IsIterable(p.1)
    ensures MergeItems(acc, b) == Update(acc, b)
    decreases |b|
  {
    if b != [] {
      assert b[0] in b;
      MergeItemsUnfold(acc, b);
      StepScalar(Get(acc, b[0].0), b[0].1);
      MergeItemsScalars(Put(acc, b[0].0, b[0].1), b[1..]);
    }
  }

  /** `dict_merge(a, b)` of two dicts with no key in common is `a` followed by `b`. */
  lemma MergeDisjoint(a: Fields, b: Fields)
    requires WellFormed(Obj(a)) && WellFormed(Obj(b)) && Keys(a) !! Keys(b)
    ensures Merge([a, b]) == a + b
  {
    ChainPair(a, b);
    MergeItemsSplit([], a, b);
    MergeItemsAppends([], a);
    assert [] + a == a;
    MergeItemsAppends(a, b);
  }

  /** `dict_merge(a, b)` where `b` holds only scalars and strings: the items of
      `b` are stored into a copy of `a`, as `a.update(b)` would. */
  lemma MergeScalars(a: Fields, b: Fields)
    requires WellFormed(Obj(a))
    requires forall p | p in b :: !IsIterable(p.1)
    ensures Merge([a, b]) == Update(a, b)
  {
    ChainPair(a, b);
    MergeItemsSplit([], a, b);
    MergeItemsAppends([], a);
    assert [] + a == a;
    MergeItemsScalars(a, b);
  }

  /** The values one dict gives for `k`: none or one. */
  function Given(d: Fields, k: string): seq<Json> {
    if k in Keys(d) then [At(d, k)] else []
  }

  lemma PairGet(a: Fields, b: Fields, k: string)
    requires NoDup(a) && NoDup(b)
    ensures Get(Merge([a, b]), k) == FoldFrom(None, Given(a, k) + Given(b, k))
  {
    MergeSpec([a, b]);
    assert [a, b][1..] == [b] && [b][1..] == [];
    assert ValuesIn([b], k) == Given(b, k) + ValuesIn([], k);
    assert ValuesIn([a, b], k) == Given(a, k) + ValuesIn([b], k);
    assert Given(b, k) + [] == Given(b, k);
  }

  lemma FoldOne(x: Json)
    ensures FoldFrom(None, [x]) == Some(Fresh(x))
  {
    assert [x][1..] == [];
  }

  lemma FoldTwo(x: Json, y: Json)
    ensures FoldFrom(None, [x, y]) == Some(Combine(Fresh(x), y))
  {
    assert [x, y][1..] == [y] && [y][1..] == [];
    assert FoldFrom(None, [x, y]) == FoldFrom(Some(Fresh(x)), [y]);
    assert FoldFrom(Some(Fresh(x)), [y]) == FoldFrom(Some(Combine(Fresh(x), y)), []);
  }

  /** `dict_merge(a, b)` on one key, case by case: a key of one dict only keeps
      its value; two dicts are merged recursively; an earlier dict or string
      is replaced; two lists are concatenated in argument order; a list
      followed by a dict is extended by the dict's keys; a later scalar or
      string replaces. */
  lemma MergePairAt(a: Fields, b: Fields, k: string)
    requires WellFormed(Obj(a)) && WellFormed(Obj(b))
    ensures k !in Keys(a) && k !in Keys(b) ==> Get(Merge([a, b]), k) == None
    ensures k in Keys(a) && k !in Keys(b) ==> Get(Merge([a, b]), k) == Some(At(a, k))
    ensures k !in Keys(a) && k in Keys(b) ==> Get(Merge([a, b]), k) == Some(At(b, k))
    ensures k in Keys(a) && k in Keys(b) ==>
      var x, y := At(a, k), At(b, k);
      && (x.Obj? && y.Obj? ==> Get(Merge([a, b]), k) == Some(Obj(Merge([x.fields, y.fields]))))
      && (!y.Obj? && (x.Obj? || x.Str?) ==> Get(Merge([a, b]), k) == Some(y))
      && (x.Str? ==> Get(Merge([a, b]), k) == Some(y))
      && (x.List? && y.List? ==> Get(Merge([a, b]), k) == Some(List(x.items + y.items)))
      && (x.List? && y.Obj? ==> Get(Merge([a, b]), k) == Some(List(x.items + Elements(y))))
      && (!IsIterable(y) ==> Get(Merge([a, b]), k) == Some(y))
      && (!IsIterable(x) ==> Get(Merge([a, b]), k) == Some(y))
  {
    PairGet(a, b, k);
    if k in Keys(a) {
      assert (k, At(a, k)) in a by { GetIn(a, k); }
      FreshCopies(At(a, k));
    }
    if k in Keys(b) {
      assert (k, At(b, k)) in b by { GetIn(b, k); }
      FreshCopies(At(b, k));
    }
    if k in Keys(a) && k in Keys(b) {
      var x, y := At(a, k), At(b, k);
      FoldTwo(x, y);
      if x.Obj? && y.Obj? {
        ChainPair(x.fields, y.fields);
      }
    } else if k in Keys(a) {
      FoldOne(At(a, k));
    } else if k in Keys(b) {
      FoldOne(At(b, k));
    }
  }

  /** The keys of `dict_merge(a, b)` are the keys of either, once each. */
  lemma MergePairKeys(a: Fields, b: Fields)
    requires WellFormed(Obj(a)) && WellFormed(Obj(b))
    ensures NoDup(Merge([a, b]))
    ensures forall k :: k in Keys(Merge([a, b])) <==> k in Keys(a) || k in Keys(b)
  {
    MergeSpec([a, b]);
    forall k ensures k in Keys(Merge([a, b])) <==> k in Keys(a) || k in Keys(b) {
      assert k in Keys(a) ==> k in Keys([a, b][0]);
      assert k in Keys(b) ==> k in Keys([a, b][1]);
    }
  }

  lemma {:induction false} GetIn(d: Fields, k: string)
    requires k in Keys(d)
    ensures (k, At(d, k)) in d
    decreases d
  {
    if d[0].0 != k { GetIn(d[1..], k); }
  }

  /** A value a view may return: a plain value or a tuple of values. */
  datatype Returned = Value(v: Json) | Tuple(elems: seq<Returned>)

  /** The (data, status, headers) triple Flask builds a response from. */
  datatype Response = Response(data: Returned, code: Returned, headers: Returned)

  const OK := Value(Int(200))
  const NoHeaders := Value(Obj([]))

  /** `unpack`: a 3-tuple is taken as it is, a 2-tuple gets empty headers, and
      anything else is the data of a 200 response with empty headers. */
  function Unpack(value: Returned): (r: Response)
    ensures value.Tuple? && |value.elems| == 3 ==> r == Response(value.elems[0], value.elems[1], value.elems[2])
    ensures value.Tuple? && |value.elems| == 2 ==> r == Response(value.elems[0], value.elems[1], NoHeaders)
    ensures !(value.Tuple? && 2 <= |value.elems| <= 3) ==> r == Response(value, OK, NoHeaders)
  {
    if !value.Tuple? then Response(value, OK, NoHeaders)
    else if |value.elems| == 3 then Response(value.elems[0], value.elems[1], value.elems[2])
    else if |value.elems| == 2 then Response(value.elems[0], value.elems[1], NoHeaders)
    else Response(value, OK, NoHeaders)
  }

  /** The triple as the tuple a view could have returned. */
  function AsTuple(r: Response): Returned {
    Tuple([r.data, r.code, r.headers])
  }

  /** Unpacking what `unpack` produced gives the same triple back. */
  lemma UnpackIdempotent(value: Returned)
    ensures Unpack(AsTuple(Unpack(value))) == Unpack(value)
  {
  }

  /** Unpacking is lossless on 3-tuples: the triple is the tuple. */
  lemma UnpackTriple(r: Response)
    ensures Unpack(AsTuple(r)) == r
  {
  }
}
