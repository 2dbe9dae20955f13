/** `Nested.get_insert_or_raise`, the post-load hook of a recipe's
    utensil and ingredient lists: the items are projected to their
    references, resolved, and the resolved rows merged back into the
    items. */
module Schemas {
  import opened Json
  import opened Helpers
  import opened Table
  import opened ResolverSpec
  import DbHelpers
  import ResolverFacts

  // ----- Nested.get_insert_or_raise -----

  /** `{'id': d['id']} if 'id' in d else {'name': d['name']}`. */
  function Project(d: Json): (r: Json)
    requires IsRef(d)
    ensures IsRef(r) && RefOf(r) == RefOf(d) && WellFormed(r)
    ensures Keys(r.fields) == if "id" in Keys(d.fields) then {"id"} else {"name"}
  {
    var k := if "id" in Keys(d.fields) then "id" else "name";
    var v := At(d.fields, k);
    Singleton(k, v);
    assert v.Int? || v.Str?;
    assert WellFormed(Obj([(k, v)]));
    Obj([(k, v)])
  }

  function Projected(data: seq<Json>): (r: seq<Json>)
    requires AllRefs(data)
    ensures |r| == |data| && AllRefs(r)
    ensures forall i | 0 <= i < |data| :: r[i] == Project(data[i])
  {
    if data == [] then [] else [Project(data[0])] + Projected(data[1..])
  }

  lemma FinalIsObj(rows: map<int, string>, next: int, s: seq<Json>, i: nat)
    requires AllRefs(s) && i < |s|
    ensures Final(rows, next, s, i).Obj?
  {
  }

  /** The resolved entity `get_or_insert` leaves at position `i`. */
  ghost function Entity(rows: map<int, string>, next: int, s: seq<Json>, i: nat): Fields
    requires AllRefs(s) && i < |s|
  {
    FinalIsObj(rows, next, s, i);
    Final(rows, next, s, i).fields
  }

  /** `d.update(elt)`. */
  function Apply(d: Json, e: Fields): Json
    requires d.Obj?
  {
    Obj(Update(d.fields, e))
  }

  /** The items after a successful list load: each updated with the entity
      resolved at its position. */
  ghost function Loaded(rows: map<int, string>, next: int, data: seq<Json>): (r: seq<Json>)
    requires AllRefs(data)
    ensures |r| == |data|
  {
    seq(|data|, i requires 0 <= i < |data| => Apply(data[i], Entity(rows, next, Projected(data), i)))
  }

  /** The table after `get_or_insert` inserted the names `ins`: every old
      row is kept as it was, the k-th name got the id `next + k`, no other
      row exists, and the next id moved past the new rows. */
  ghost predicate Grown(rows: map<int, string>, next: int, rows': map<int, string>, next': int, ins: seq<string>) {
    && next' == next + |ins|
    && (forall x :: x in rows' <==> x in rows || next <= x < next')
    && (forall x | x in rows :: x in rows' && rows'[x] == rows[x])
    && (forall k | 0 <= k < |ins| :: next + k in rows' && rows'[next + k] == ins[k])
  }

  /** `get_insert_or_raise`: with `many`, the items are projected and
      resolved; errors are returned (the `ValidationError`) and leave the
      items as they were, otherwise every item is updated in place with its
      entity. A single object is left alone. */
  method GetInsertOrRaise(T: Table, data: array<Json>, many: bool) returns (errors: Errors)
    requires T.Valid() && AllRefs(data[..])
    modifies T, data
    ensures T.Valid()
    ensures !many ==> errors == map[] && data[..] == old(data[..])
    ensures !many ==> T.rows == old(T.rows) && T.nextId == old(T.nextId) && T.log == old(T.log)
    ensures many ==> errors == ExpectedErrors(old(T.rows), Projected(old(data[..])))
    ensures many ==> Grown(old(T.rows), old(T.nextId), T.rows, T.nextId, Inserted(old(T.rows), Projected(old(data[..]))))
    ensures many ==> T.log == old(T.log) + Issued(old(T.rows), Projected(old(data[..])))
    ensures many && errors != map[] ==> data[..] == old(data[..]) && T.rows == old(T.rows) && T.nextId == old(T.nextId)
    ensures many && errors == map[] ==> data[..] == Loaded(old(T.rows), old(T.nextId), old(data[..]))
  {
    if !many {
      return map[];
    }
    errors := LoadMany(T, data);
  }

  /** The list branch of `get_insert_or_raise`. */
  method LoadMany(T: Table, data: array<Json>) returns (errors: Errors)
    requires T.Valid() && AllRefs(data[..])
    modifies T, data
    ensures T.Valid()
    ensures errors == ExpectedErrors(old(T.rows), Projected(old(data[..])))
    ensures Grown(old(T.rows), old(T.nextId), T.rows, T.nextId, Inserted(old(T.rows), Projected(old(data[..]))))
    ensures T.log == old(T.log) + Issued(old(T.rows), Projected(old(data[..])))
    ensures errors != map[] ==> data[..] == old(data[..]) && T.rows == old(T.rows) && T.nextId == old(T.nextId)
    ensures errors == map[] ==> data[..] == Loaded(old(T.rows), old(T.nextId), old(data[..]))
  {
    ghost var rows, next, orig := T.rows, T.nextId, data[..];
    var elts := ProjectAll(data);
    errors := Resolve(T, elts);
    if errors == map[] {
      WriteBack(data, elts, rows, next);
    }
  }

  /** `get_or_insert` on the projected copies, seen from the schema: the
      errors, the entities, and no new row when there is an error. */
  method Resolve(T: Table, elts: array<Json>) returns (errors: Errors)
    requires T.Valid() && AllRefs(elts[..])
    modifies T, elts
    ensures T.Valid()
    ensures errors == ExpectedErrors(old(T.rows), old(elts[..]))
    ensures forall i | 0 <= i < elts.Length :: elts[i] == Final(old(T.rows), old(T.nextId), old(elts[..]), i)
    ensures Grown(old(T.rows), old(T.nextId), T.rows, T.nextId, Inserted(old(T.rows), old(elts[..])))
    ensures T.log == old(T.log) + Issued(old(T.rows), old(elts[..]))
    ensures errors != map[] ==> T.rows == old(T.rows) && T.nextId == old(T.nextId)
  {
    ghost var rows, next, s := T.rows, T.nextId, elts[..];
    errors := DbHelpers.GetOrInsert(T, elts);
    if errors != map[] {
      ResolverFacts.InsertedOnce(rows, s);
      assert Inserted(rows, s) == [];
      assert T.nextId == next;
      assert forall x :: x in T.rows <==> x in rows;
      assert forall x | x in rows :: T.rows[x] == rows[x];
    }
  }

  /** The projected copies handed to `get_or_insert`. */
  method ProjectAll(data: array<Json>) returns (elts: array<Json>)
    requires AllRefs(data[..])
    ensures fresh(elts) && elts[..] == Projected(data[..])
  {
    elts := new Json[data.Length](i requires 0 <= i < data.Length reads data => if IsRef(data[i]) then Project(data[i]) else data[i]);
  }

  /** Writes the resolved entities back into the items. */
  method WriteBack(data: array<Json>, elts: array<Json>, ghost rows: map<int, string>, ghost next: int)
    requires data != elts && data.Length == elts.Length && AllRefs(data[..])
    requires forall i | 0 <= i < elts.Length :: elts[i] == Final(rows, next, Projected(data[..]), i)
    modifies data
    ensures data[..] == Loaded(rows, next, old(data[..]))
  {
    ghost var orig := data[..];
    forall i | 0 <= i < elts.Length
      ensures elts[i].Obj?
    {
      FinalIsObj(rows, next, Projected(orig), i);
    }
    UpdateAll(data, elts);
    UpdatedIsLoaded(rows, next, orig, elts[..], data[..]);
  }

  /** Each item updated with the element at its position. */
  function ApplyEach(ds: seq<Json>, es: seq<Json>): (r: seq<Json>)
    requires |ds| == |es| && forall i | 0 <= i < |ds| :: ds[i].Obj? && es[i].Obj?
    ensures |r| == |ds|
  {
    seq(|ds|, i requires 0 <= i < |ds| => Apply(ds[i], es[i].fields))
  }

  /** The `zip` loop: each item is updated with the element at its
      position. */
  method UpdateAll(data: array<Json>, elts: array<Json>)
    requires data != elts && data.Length == elts.Length
    requires forall i | 0 <= i < data.Length :: data[i].Obj? && elts[i].Obj?
    modifies data
    ensures data[..] == ApplyEach(old(data[..]), elts[..])
  {
    ghost var target := ApplyEach(data[..], elts[..]);
    for i := 0 to data.Length
      invariant data[..i] == target[..i]
      invariant data[i..] == old(data[..])[i..]
    {
      data[i] := Apply(data[i], elts[i].fields);
    }
  }

  /** Updating every item with the entity resolved at its position gives
      `Loaded`. */
  lemma UpdatedIsLoaded(rows: map<int, string>, next: int, orig: seq<Json>, elts: seq<Json>, upd: seq<Json>)
    requires AllRefs(orig) && |elts| == |orig| == |upd|
    requires forall i | 0 <= i < |elts| :: elts[i] == Final(rows, next, Projected(orig), i)
    requires forall i | 0 <= i < |elts| :: elts[i].Obj?
    requires upd == ApplyEach(orig, elts)
    ensures upd == Loaded(rows, next, orig)
  {
  }

  /** A projected item keeps only its reference key, so the resolver sees
      the same reference. */
  lemma ProjectKeepsRef(d: Json)
    requires IsRef(d)
    ensures RefOf(Project(d)) == RefOf(d) && KeyOf(Project(d)) == KeyOf(d)
    ensures "id" in Keys(d.fields) ==> Project(d).fields == [("id", At(d.fields, "id"))]
    ensures "id" !in Keys(d.fields) ==> Project(d).fields == [("name", At(d.fields, "name"))]
  {
  }

  /** The postcondition of `EntityIsRow`, one position at a time. */
  ghost predicate RowAt(e: Fields, r: Ref) {
    && NoDup(e) && Keys(e) == {"id", "name"}
    && Get(e, "id").Some? && Get(e, "id").value.Int?
    && (r.ById? ==> Get(e, "id") == Some(Int(r.id)))
    && (r.ByName? ==> Get(e, "name") == Some(Str(r.name)))
  }

  lemma ResolvedIsRow(rows: map<int, string>, s: seq<Json>, i: nat)
    requires AllRefs(s) && i < |s| && Expected(rows, s, i).Resolved?
    requires WellFormed(s[i]) && Keys(s[i].fields) <= {"id", "name"}
    ensures Expected(rows, s, i).v.Obj? && RowAt(Expected(rows, s, i).v.fields, RefOf(s[i]))
  {
    ResolverFacts.ResolvedItem(rows, s, i);
  }

  lemma PendingIsRow(rows: map<int, string>, next: int, s: seq<Json>, i: nat)
    requires AllRefs(s) && i < |s| && Expected(rows, s, i).Pending? && ExpectedErrors(rows, s) == map[]
    ensures RowAt(Final(rows, next, s, i).fields, RefOf(s[i]))
  {
    var nm := Expected(rows, s, i).name;
    DbHelpers.PendingEntry(rows, s, i);
    DbHelpers.InsertedIsNew(rows, s);
    DbHelpers.FinalOfPending(rows, next, s, i, nm);
    assert RefOf(s[i]) == ByName(nm);
    var row := Row(next + IndexOf(NewNames(rows, s), nm), nm);
    assert RowAt(RowData(row), ByName(nm));
  }

  /** The entity at a position of an error-free load is a row: it has
      exactly `id` and `name`, an integer id, and the reference's own id or
      name. */
  lemma EntityIsRow(rows: map<int, string>, next: int, s: seq<Json>, i: nat)
    requires AllRefs(s) && i < |s| && ExpectedErrors(rows, s) == map[]
    requires WellFormed(s[i]) && Keys(s[i].fields) <= {"id", "name"}
    ensures RowAt(Entity(rows, next, s, i), RefOf(s[i]))
  {
    assert i !in ExpectedErrors(rows, s);
    if Expected(rows, s, i).Resolved? {
      ResolvedIsRow(rows, s, i);
    } else {
      PendingIsRow(rows, next, s, i);
    }
  }

  /** What a successful load does to an item `d`, giving `l`: the row's
      `id` and `name` are added, the reference key keeps its value and every
      other key (quantity, measurement) is untouched. */
  ghost predicate Identified(l: Json, d: Json)
    requires d.Obj?
  {
    && l.Obj?
    && Keys(l.fields) == Keys(d.fields) + {"id", "name"}
    && (forall k | k != "id" && k != "name" :: Get(l.fields, k) == Get(d.fields, k))
    && Get(l.fields, "id").Some?
    && ("id" in Keys(d.fields) ==> Get(l.fields, "id") == Get(d.fields, "id"))
    && ("id" !in Keys(d.fields) ==> Get(l.fields, "name") == Get(d.fields, "name"))
  }

  /** Updating an item with a row entity for its own reference. */
  lemma ApplyRow(d: Json, e: Fields)
    requires IsRef(d) && RowAt(e, RefOf(d))
    ensures Identified(Apply(d, e), d)
  {
    var u := Update(d.fields, e);
    assert Get(u, "id") == Get(e, "id");
    assert Get(u, "name") == Get(e, "name");
  }

  /** After an error-free list load every item carries the id and name of
      its row and keeps every other key it had, quantity and measurement
      included. */
  lemma LoadedItem(rows: map<int, string>, next: int, data: seq<Json>, i: nat)
    requires AllRefs(data) && i < |data| && ExpectedErrors(rows, Projected(data)) == map[]
    ensures Identified(Loaded(rows, next, data)[i], data[i])
  {
    var s := Projected(data);
    var e := Entity(rows, next, s, i);
    ProjectedAt(data, i);
    EntityIsRow(rows, next, s, i);
    LoadedAt(rows, next, data, i);
    ApplyRow(data[i], e);
  }

  /** The projection of one item: its reference alone. */
  lemma ProjectedAt(data: seq<Json>, i: nat)
    requires AllRefs(data) && i < |data|
    ensures Projected(data)[i] == Project(data[i])
    ensures WellFormed(Projected(data)[i]) && Keys(Projected(data)[i].fields) <= {"id", "name"}
    ensures Keys(Projected(data)[i].fields) == {"id"} || Keys(Projected(data)[i].fields) == {"name"}
    ensures RefOf(Projected(data)[i]) == RefOf(data[i])
  {
  }

  lemma LoadedAt(rows: map<int, string>, next: int, data: seq<Json>, i: nat)
    requires AllRefs(data) && i < |data|
    ensures Loaded(rows, next, data)[i] == Apply(data[i], Entity(rows, next, Projected(data), i))
  {
  }

  /** A dict that points at a row of the table: its `id` is a stored id and
      its `name` is that row's name. */
  ghost predicate StoredIn(f: Fields, rows: map<int, string>) {
    match Get(f, "id")
    case Some(Int(x)) => x in rows && Get(f, "name") == Some(Str(rows[x]))
    case _ => false
  }

  /** The entity at a position of an error-free load is a row of the table
      as `get_or_insert` leaves it. */
  lemma EntityStored(rows: map<int, string>, next: int, s: seq<Json>, i: nat, rows': map<int, string>, next': int)
    requires AllRefs(s) && i < |s| && ExpectedErrors(rows, s) == map[]
    requires WellFormed(s[i]) && (Keys(s[i].fields) == {"id"} || Keys(s[i].fields) == {"name"})
    requires Grown(rows, next, rows', next', Inserted(rows, s))
    ensures StoredIn(Entity(rows, next, s, i), rows')
  {
    assert i !in ExpectedErrors(rows, s);
    if Expected(rows, s, i).Resolved? {
      ResolvedStored(rows, s, i, rows');
    } else {
      PendingStored(rows, next, s, i, rows', next');
    }
  }

  /** A resolved item keeps the id and name of a row already in the table. */
  lemma ResolvedStored(rows: map<int, string>, s: seq<Json>, i: nat, rows': map<int, string>)
    requires AllRefs(s) && i < |s| && Expected(rows, s, i).Resolved?
    requires WellFormed(s[i]) && (Keys(s[i].fields) == {"id"} || Keys(s[i].fields) == {"name"})
    requires forall x | x in rows :: x in rows' && rows'[x] == rows[x]
    ensures Expected(rows, s, i).v.Obj? && StoredIn(Expected(rows, s, i).v.fields, rows')
  {
    ResolverFacts.ResolvedItem(rows, s, i);
    var v := Expected(rows, s, i).v;
    var x :| x in rows && (RefOf(s[i]) == ById(x) || RefOf(s[i]) == ByName(rows[x]))
      && Get(v.fields, "id") == Some(Int(x))
      && ("name" !in Keys(s[i].fields) ==> Get(v.fields, "name") == Some(Str(rows[x])));
    if "name" in Keys(s[i].fields) {
      assert Get(v.fields, "name") == Get(s[i].fields, "name");
    }
  }

  /** A name left to insert gets the row the insert created for it. */
  lemma PendingStored(rows: map<int, string>, next: int, s: seq<Json>, i: nat, rows': map<int, string>, next': int)
    requires AllRefs(s) && i < |s| && Expected(rows, s, i).Pending? && ExpectedErrors(rows, s) == map[]
    requires Grown(rows, next, rows', next', Inserted(rows, s))
    ensures Final(rows, next, s, i).Obj? && StoredIn(Final(rows, next, s, i).fields, rows')
  {
    var nm := Expected(rows, s, i).name;
    DbHelpers.PendingEntry(rows, s, i);
    DbHelpers.InsertedIsNew(rows, s);
    DbHelpers.FinalOfPending(rows, next, s, i, nm);
    var k := IndexOf(Inserted(rows, s), nm);
    assert rows'[next + k] == nm;
  }

  /** After an error-free list load every item points at a row of the table
      as it now stands, so the ids handed out are the ids stored. */
  lemma LoadedStored(rows: map<int, string>, next: int, data: seq<Json>, i: nat, rows': map<int, string>, next': int)
    requires AllRefs(data) && i < |data| && ExpectedErrors(rows, Projected(data)) == map[]
    requires Grown(rows, next, rows', next', Inserted(rows, Projected(data)))
    ensures Loaded(rows, next, data)[i].Obj? && StoredIn(Loaded(rows, next, data)[i].fields, rows')
  {
    var s := Projected(data);
    ProjectedAt(data, i);
    EntityIsRow(rows, next, s, i);
    EntityStored(rows, next, s, i, rows', next');
    LoadedAt(rows, next, data, i);
    ApplyStored(data[i], Entity(rows, next, s, i), rows');
  }

  /** `d.update(e)` takes its `id` and `name` from a row dict `e`. */
  lemma ApplyStored(d: Json, e: Fields, rows: map<int, string>)
    requires d.Obj? && NoDup(e) && StoredIn(e, rows)
    ensures StoredIn(Apply(d, e).fields, rows)
  {
    var u := Update(d.fields, e);
    assert Get(u, "id") == Get(e, "id");
    assert Get(u, "name") == Get(e, "name");
  }

  /** `_insert` inserts `elt['elt']`, the dict of the one item holding each
      new name. For the projected items `get_insert_or_raise` hands over,
      that dict is exactly `{'name': nm}`: inserting the names is inserting
      those dicts. */
  lemma InsertedDicts(rows: map<int, string>, data: seq<Json>)
    requires AllRefs(data)
    ensures forall nm | nm in Inserted(rows, Projected(data)) ::
      |Group(Projected(data), ByName(nm))| == 1
      && Group(Projected(data), ByName(nm))[0].elt == Obj([("name", Str(nm))])
  {
    forall nm | nm in Inserted(rows, Projected(data))
      ensures |Group(Projected(data), ByName(nm))| == 1
      ensures Group(Projected(data), ByName(nm))[0].elt == Obj([("name", Str(nm))])
    {
      InsertedDict(rows, data, nm);
    }
  }

  lemma InsertedDict(rows: map<int, string>, data: seq<Json>, nm: string)
    requires AllRefs(data) && nm in Inserted(rows, Projected(data))
    ensures |Group(Projected(data), ByName(nm))| == 1
    ensures Group(Projected(data), ByName(nm))[0].elt == Obj([("name", Str(nm))])
  {
    var s := Projected(data);
    InsertedNew(rows, s, nm);
    var j := NewNameItem(rows, s, nm);
    ProjectedName(data, j, nm);
  }

  lemma InsertedNew(rows: map<int, string>, s: seq<Json>, nm: string)
    requires AllRefs(s) && nm in Inserted(rows, s)
    ensures nm in NewNames(rows, s)
  {
    ResolverFacts.InsertedOnce(rows, s);
    DbHelpers.InsertedIsNew(rows, s);
  }

  /** The one item holding a new name. */
  lemma NewNameItem(rows: map<int, string>, s: seq<Json>, nm: string) returns (j: nat)
    requires AllRefs(s) && nm in NewNames(rows, s)
    ensures |Group(s, ByName(nm))| == 1 && j == Group(s, ByName(nm))[0].index
    ensures j < |s| && RefOf(s[j]) == ByName(nm) && Group(s, ByName(nm))[0].elt == s[j]
  {
    DbHelpers.NewNameEntry(rows, s, nm);
    GroupSpec(s, ByName(nm));
    j := Group(s, ByName(nm))[0].index;
  }

  /** A projected item referenced by name is that name alone. */
  lemma ProjectedName(data: seq<Json>, j: nat, nm: string)
    requires AllRefs(data) && j < |data| && RefOf(Projected(data)[j]) == ByName(nm)
    ensures Projected(data)[j] == Obj([("name", Str(nm))])
  {
    ProjectedAt(data, j);
  }
}
