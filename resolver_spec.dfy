/** What `get_or_insert` is meant to compute, stated position by position.
    Each item of the request references a row by `id` or by `name`; the
    outcome of a position depends only on the table's rows before the call
    and on how many items reference the same row, by the same or by the
    other key. */
module ResolverSpec {
  import opened Json
  import opened Helpers
  import opened Table

  const MULTIPLE := "Multiple entries for the same element."
  const CORRESPONDING := "No corresponding id in database."

  /** The error bucket of an item: `'id'` or `'name'`. */
  datatype Key = IdKey | NameKey

  /** An error message: a plain string, or the `{msg, id, name}` dict that
      names the row referenced under both keys. */
  datatype Msg = Plain(text: string) | Conflict(msg: string, id: int, name: string)

  /** `errors[index][key]`: the messages of each failing item. */
  type Errors = map<nat, map<Key, seq<Msg>>>

  /** How an item references a row. */
  datatype Ref = ById(id: int) | ByName(name: string)

  /** `{'index': i, 'elt': elt}`: an item with its position. */
  datatype Entry = Entry(index: nat, elt: Json)

  /** An item the resolver accepts: a dict with an integer `id`, or without
      `id` and with a string `name`. */
  predicate IsRef(e: Json) {
    e.Obj? &&
    if "id" in Keys(e.fields) then At(e.fields, "id").Int?
    else "name" in Keys(e.fields) && At(e.fields, "name").Str?
  }

  predicate AllRefs(s: seq<Json>) {
    forall i | 0 <= i < |s| :: IsRef(s[i])
  }

  /** An item with an `id` is looked up by id, even if it also has a name. */
  function RefOf(e: Json): (r: Ref)
    requires IsRef(e)
    ensures r.ById? <==> "id" in Keys(e.fields)
    ensures r.ById? ==> Get(e.fields, "id") == Some(Int(r.id))
    ensures r.ByName? ==> Get(e.fields, "name") == Some(Str(r.name))
  {
    if "id" in Keys(e.fields) then ById(At(e.fields, "id").i)
    else ByName(At(e.fields, "name").s)
  }

  /** `'id' if 'id' in elt else 'name'`. */
  function KeyOf(e: Json): (k: Key)
    ensures IsRef(e) ==> (k == IdKey <==> RefOf(e).ById?)
  {
    if e.Obj? && "id" in Keys(e.fields) then IdKey else NameKey
  }

  /** The entries of the items of `s` that reference `r`, in item order. */
  function Group(s: seq<Json>, r: Ref): seq<Entry>
    requires AllRefs(s)
  {
    if s == [] then []
    else
      var n := |s| - 1;
      assert AllRefs(s[..n]) by {
        forall i | 0 <= i < n ensures IsRef(s[..n][i]) {
          assert s[..n][i] == s[i];
        }
      }
      Group(s[..n], r) + (if RefOf(s[n]) == r then [Entry(n, s[n])] else [])
  }

  /** How many items reference `r`. */
  function Count(s: seq<Json>, r: Ref): nat
    requires AllRefs(s)
  {
    |Group(s, r)|
  }

  function Indices(g: seq<Entry>): set<nat> {
    set e | e in g :: e.index
  }

  /** Ids referenced by id, in order of first appearance (`ids.keys()`). */
  function IdOrder(s: seq<Json>): seq<int>
    requires AllRefs(s)
  {
    if s == [] then []
    else
      var n := |s| - 1;
      assert AllRefs(s[..n]) by {
        forall i | 0 <= i < n ensures IsRef(s[..n][i]) {
          assert s[..n][i] == s[i];
        }
      }
      var p := IdOrder(s[..n]);
      var r := RefOf(s[n]);
      if r.ById? && r.id !in p then p + [r.id] else p
  }

  /** Names referenced by name, in order of first appearance (`names.keys()`). */
  function NameOrder(s: seq<Json>): seq<string>
    requires AllRefs(s)
  {
    if s == [] then []
    else
      var n := |s| - 1;
      assert AllRefs(s[..n]) by {
        forall i | 0 <= i < n ensures IsRef(s[..n][i]) {
          assert s[..n][i] == s[i];
        }
      }
      var p := NameOrder(s[..n]);
      var r := RefOf(s[n]);
      if r.ByName? && r.name !in p then p + [r.name] else p
  }

  /** What becomes of one item. */
  datatype Outcome =
    | Resolved(v: Json)
    | Failed(key: Key, msgs: seq<Msg>)
    | Pending(name: string)

  /** The id of the row stored under `name` (unique when the table is valid). */
  ghost function IdOf(rows: map<int, string>, name: string): (x: int)
    requires name in rows.Values
    ensures x in rows && rows[x] == name
  {
    ValueHasKey(rows, name);
    var x :| x in rows && rows[x] == name; x
  }

  lemma ValueHasKey(rows: map<int, string>, name: string)
    requires name in rows.Values
    ensures exists x :: x in rows && rows[x] == name
  {
    if forall x :: x in rows ==> rows[x] != name {
      assert false;
    }
  }

  /** The outcome of item `i`:
      - an item whose row is also referenced under the other key fails with
        the `{msg, id, name}` error under its own key;
      - otherwise an item sharing its reference with another item fails with
        MULTIPLE;
      - an id with no row fails with CORRESPONDING, preceded by MULTIPLE when
        the id is repeated;
      - the only reference to an existing row becomes the row data merged
        with the item;
      - the only reference to an unknown name waits to be inserted. */
  ghost function Expected(rows: map<int, string>, s: seq<Json>, i: nat): Outcome
    requires AllRefs(s) && i < |s|
  {
    match RefOf(s[i])
    case ById(x) =>
      if x in rows then
        if Count(s, ByName(rows[x])) > 0 then Failed(IdKey, [Conflict(MULTIPLE, x, rows[x])])
        else if Count(s, ById(x)) > 1 then Failed(IdKey, [Plain(MULTIPLE)])
        else Resolved(Obj(Merge([RowData(Row(x, rows[x])), s[i].fields])))
      else
        Failed(IdKey, (if Count(s, ById(x)) > 1 then [Plain(MULTIPLE)] else []) + [Plain(CORRESPONDING)])
    case ByName(nm) =>
      if nm in rows.Values then
        var y := IdOf(rows, nm);
        if Count(s, ById(y)) > 0 then Failed(NameKey, [Conflict(MULTIPLE, y, nm)])
        else if Count(s, ByName(nm)) > 1 then Failed(NameKey, [Plain(MULTIPLE)])
        else Resolved(Obj(Merge([RowData(Row(y, nm)), s[i].fields])))
      else if Count(s, ByName(nm)) > 1 then Failed(NameKey, [Plain(MULTIPLE)])
      else Pending(nm)
  }

  /** The error map the resolver returns. */
  ghost function ExpectedErrors(rows: map<int, string>, s: seq<Json>): Errors
    requires AllRefs(s)
  {
    map i: nat | i < |s| && Expected(rows, s, i).Failed? ::
      map[Expected(rows, s, i).key := Expected(rows, s, i).msgs]
  }

  /** The names to insert, in the order their first reference appears. */
  function NewNames(rows: map<int, string>, s: seq<Json>): seq<string>
    requires AllRefs(s)
  {
    Unknown(rows, s, NameOrder(s))
  }

  function Unknown(rows: map<int, string>, s: seq<Json>, ns: seq<string>): (r: seq<string>)
    requires AllRefs(s)
    ensures forall nm {:trigger nm in r} :: nm in r <==> nm in ns && nm !in rows.Values && Count(s, ByName(nm)) == 1
  {
    if ns == [] then []
    else
      var p := Unknown(rows, s, ns[..|ns| - 1]);
      var nm := ns[|ns| - 1];
      assert ns == ns[..|ns| - 1] + [nm];
      if nm !in rows.Values && Count(s, ByName(nm)) == 1 then p + [nm] else p
  }

  /** The names inserted: the unknown names, when no error was recorded
      (`if names and not errors`). */
  ghost function Inserted(rows: map<int, string>, s: seq<Json>): seq<string>
    requires AllRefs(s)
  {
    if ExpectedErrors(rows, s) == map[] then NewNames(rows, s) else []
  }

  /** The queries `get_or_insert` issues: none for an empty list, otherwise
      one select, then one insert when there is something to insert. */
  ghost function Issued(rows: map<int, string>, s: seq<Json>): seq<Query>
    requires AllRefs(s)
  {
    if s == [] then []
    else [Query.SelectWhere(IdOrder(s), NameOrder(s))] + (if Inserted(rows, s) != [] then [InsertMany(Inserted(rows, s))] else [])
  }

  /** What `elts[i]` holds at the end: the merged row, the item itself when
      it failed or nothing was inserted, or the row created for its name. */
  ghost function Final(rows: map<int, string>, next: int, s: seq<Json>, i: nat): Json
    requires AllRefs(s) && i < |s|
  {
    Settle(Expected(rows, s, i), Inserted(rows, s), next, s[i])
  }

  /** The final value of an item with outcome `e`, when the names `ins`
      were inserted with ids from `next` on. */
  function Settle(e: Outcome, ins: seq<string>, next: int, item: Json): Json {
    match e
    case Resolved(v) => v
    case Failed(_, _) => item
    case Pending(nm) =>
      if nm in ins then Obj(RowData(Row(next + IndexOf(ins, nm), nm))) else item
  }

  function IndexOf<T(==)>(s: seq<T>, x: T): (k: nat)
    requires x in s
    ensures k < |s| && s[k] == x && x !in s[..k]
  {
    if s[0] == x then 0
    else
      assert x in s[1..];
      var k := IndexOf(s[1..], x);
      assert s[1..][..k] == s[1..k + 1];
      k + 1
  }

  lemma PrefixRefs(s: seq<Json>, n: nat)
    requires AllRefs(s) && n <= |s|
    ensures AllRefs(s[..n])
  {
    forall i | 0 <= i < n ensures IsRef(s[..n][i]) {
      assert s[..n][i] == s[i];
    }
  }

  lemma IndicesAppend(g: seq<Entry>, h: seq<Entry>)
    ensures Indices(g + h) == Indices(g) + Indices(h)
  {
    forall i | i in Indices(g + h) ensures i in Indices(g) + Indices(h) {
      var e :| e in g + h && e.index == i;
    }
    forall i | i in Indices(g) + Indices(h) ensures i in Indices(g + h) {
      if i in Indices(g) {
        var e :| e in g && e.index == i;
        assert e in g + h;
      } else {
        var e :| e in h && e.index == i;
        assert e in g + h;
      }
    }
  }

  /** The group of `r` holds exactly the items that reference `r`, each with
      its own position, in increasing position order. */
  lemma GroupSpec(s: seq<Json>, r: Ref)
    requires AllRefs(s)
    ensures forall k | 0 <= k < |Group(s, r)| ::
      Group(s, r)[k].index < |s| && Group(s, r)[k].elt == s[Group(s, r)[k].index]
      && RefOf(s[Group(s, r)[k].index]) == r
    ensures forall k, l | 0 <= k < l < |Group(s, r)| :: Group(s, r)[k].index < Group(s, r)[l].index
    ensures forall i: nat :: i in Indices(Group(s, r)) <==> i < |s| && RefOf(s[i]) == r
  {
    GroupEntries(s, r);
    GroupIndices(s, r);
  }

  /** The last step of `Group`. */
  lemma GroupLast(s: seq<Json>, r: Ref)
    requires AllRefs(s) && s != []
    ensures AllRefs(s[..|s| - 1])
    ensures Group(s, r) == Group(s[..|s| - 1], r) + (if RefOf(s[|s| - 1]) == r then [Entry(|s| - 1, s[|s| - 1])] else [])
  {
    PrefixRefs(s, |s| - 1);
  }

  lemma {:induction false} GroupEntries(s: seq<Json>, r: Ref)
    requires AllRefs(s)
    ensures forall k | 0 <= k < |Group(s, r)| ::
      Group(s, r)[k].index < |s| && Group(s, r)[k].elt == s[Group(s, r)[k].index]
      && RefOf(s[Group(s, r)[k].index]) == r
    ensures forall k, l | 0 <= k < l < |Group(s, r)| :: Group(s, r)[k].index < Group(s, r)[l].index
    decreases |s|
  {
    if s != [] {
      var n := |s| - 1;
      var p := s[..n];
      GroupLast(s, r);
      GroupEntries(p, r);
      forall i: nat | i < n ensures p[i] == s[i] {
      }
    }
  }

  lemma {:induction false} GroupIndices(s: seq<Json>, r: Ref)
    requires AllRefs(s)
    ensures forall i: nat :: i in Indices(Group(s, r)) <==> i < |s| && RefOf(s[i]) == r
    decreases |s|
  {
    if s == [] {
      assert Indices([]) == {};
    } else {
      var n := |s| - 1;
      var p := s[..n];
      GroupLast(s, r);
      GroupIndices(p, r);
      var g, tail := Group(p, r), (if RefOf(s[n]) == r then [Entry(n, s[n])] else []);
      IndicesAppend(g, tail);
      assert Indices(tail) == if RefOf(s[n]) == r then {n} else {} by {
        if RefOf(s[n]) == r {
          assert Entry(n, s[n]) in tail;
        }
      }
      forall i: nat | i < n ensures p[i] == s[i] {
      }
    }
  }

  /** `ids.keys()` lists every referenced id once. */
  lemma IdOrderSpec(s: seq<Json>)
    requires AllRefs(s)
    ensures forall x :: x in IdOrder(s) <==> Count(s, ById(x)) > 0
    ensures Distinct(IdOrder(s))
  {
    IdOrderMembers(s);
    IdOrderDistinct(s);
  }

  lemma {:induction false} IdOrderMembers(s: seq<Json>)
    requires AllRefs(s)
    ensures forall x :: x in IdOrder(s) <==> Count(s, ById(x)) > 0
    decreases |s|
  {
    if s != [] {
      var n := |s| - 1;
      PrefixRefs(s, n);
      IdOrderMembers(s[..n]);
      var p, r := IdOrder(s[..n]), RefOf(s[n]);
      assert IdOrder(s) == if r.ById? && r.id !in p then p + [r.id] else p;
      forall x ensures x in IdOrder(s) <==> Count(s, ById(x)) > 0 {
        GroupLast(s, ById(x));
      }
    }
  }

  lemma {:induction false} IdOrderDistinct(s: seq<Json>)
    requires AllRefs(s)
    ensures Distinct(IdOrder(s))
    decreases |s|
  {
    if s != [] {
      var n := |s| - 1;
      PrefixRefs(s, n);
      IdOrderDistinct(s[..n]);
    }
  }

  /** `names.keys()` lists every referenced name once. */
  lemma NameOrderSpec(s: seq<Json>)
    requires AllRefs(s)
    ensures forall nm :: nm in NameOrder(s) <==> Count(s, ByName(nm)) > 0
    ensures Distinct(NameOrder(s))
  {
    NameOrderMembers(s);
    NameOrderDistinct(s);
  }

  lemma {:induction false} NameOrderMembers(s: seq<Json>)
    requires AllRefs(s)
    ensures forall nm :: nm in NameOrder(s) <==> Count(s, ByName(nm)) > 0
    decreases |s|
  {
    if s != [] {
      var n := |s| - 1;
      PrefixRefs(s, n);
      NameOrderMembers(s[..n]);
      var p, r := NameOrder(s[..n]), RefOf(s[n]);
      assert NameOrder(s) == if r.ByName? && r.name !in p then p + [r.name] else p;
      forall nm ensures nm in NameOrder(s) <==> Count(s, ByName(nm)) > 0 {
        GroupLast(s, ByName(nm));
      }
    }
  }

  lemma {:induction false} NameOrderDistinct(s: seq<Json>)
    requires AllRefs(s)
    ensures Distinct(NameOrder(s))
    decreases |s|
  {
    if s != [] {
      var n := |s| - 1;
      PrefixRefs(s, n);
      NameOrderDistinct(s[..n]);
    }
  }

  lemma {:induction false} UnknownDistinct(rows: map<int, string>, s: seq<Json>, ns: seq<string>)
    requires AllRefs(s) && Distinct(ns)
    ensures Distinct(Unknown(rows, s, ns))
    decreases |ns|
  {
    if ns != [] {
      var m := |ns| - 1;
      assert Distinct(ns[..m]);
      UnknownDistinct(rows, s, ns[..m]);
      assert ns[m] !in ns[..m];
      assert ns[m] !in Unknown(rows, s, ns[..m]);
    }
  }
}
