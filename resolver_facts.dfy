/** Properties of what `get_or_insert` computes, stated on the position by
    position specification. */
module ResolverFacts {
  import opened Json
  import opened Helpers
  import opened Table
  import opened ResolverSpec

  /** An empty list: no error, nothing to insert, no query. */
  lemma EmptyRequest(rows: map<int, string>)
    ensures ExpectedErrors(rows, []) == map[]
    ensures NewNames(rows, []) == [] && Issued(rows, []) == []
  {
  }

  /** A failing item fails under the key it used, with at least one
      message. */
  lemma FailedKey(rows: map<int, string>, s: seq<Json>, i: nat)
    requires AllRefs(s) && i < |s| && Expected(rows, s, i).Failed?
    ensures Expected(rows, s, i).key == KeyOf(s[i]) && |Expected(rows, s, i).msgs| > 0
  {
  }

  /** Error keys are positions of the input, and each holds one bucket: `id`
      when the item has an id, `name` otherwise. */
  lemma ErrorsAtItems(rows: map<int, string>, s: seq<Json>)
    requires AllRefs(s)
    ensures forall i | i in ExpectedErrors(rows, s) ::
      i < |s| && ExpectedErrors(rows, s)[i].Keys == {KeyOf(s[i])} && |ExpectedErrors(rows, s)[i][KeyOf(s[i])]| > 0
  {
    forall i | i in ExpectedErrors(rows, s)
      ensures i < |s| && ExpectedErrors(rows, s)[i].Keys == {KeyOf(s[i])} && |ExpectedErrors(rows, s)[i][KeyOf(s[i])]| > 0
    {
      FailedKey(rows, s, i);
    }
  }

  /** Two positions referencing the same thing make the group hold two
      entries. */
  lemma TwoInGroup(s: seq<Json>, i: nat, j: nat)
    requires AllRefs(s) && i < |s| && j < |s| && i != j && RefOf(s[i]) == RefOf(s[j])
    ensures Count(s, RefOf(s[i])) > 1
  {
    var r := RefOf(s[i]);
    GroupSpec(s, r);
    var g := Group(s, r);
    assert i in Indices(g) && j in Indices(g);
    var e :| e in g && e.index == i;
    var f :| f in g && f.index == j;
    var k :| 0 <= k < |g| && g[k] == e;
    var l :| 0 <= l < |g| && g[l] == f;
    assert k != l;
  }

  /** An entity referenced twice under the same key fails at every
      reference, starting with MULTIPLE (or the `{msg, id, name}` error when
      the row is also referenced under the other key). */
  lemma Repeated(rows: map<int, string>, s: seq<Json>, i: nat, j: nat)
    requires AllRefs(s) && i < |s| && j < |s| && i != j && RefOf(s[i]) == RefOf(s[j])
    ensures Expected(rows, s, i).Failed?
    ensures Expected(rows, s, i).msgs[0] == Plain(MULTIPLE) || Expected(rows, s, i).msgs[0].Conflict?
  {
    TwoInGroup(s, i, j);
  }

  /** A row referenced both by id and by name: every such item fails with
      the `{msg, id, name}` error naming the row, under the key it used. */
  lemma BothKeys(rows: map<int, string>, s: seq<Json>, x: int, i: nat)
    requires AllRefs(s) && UniqueNames(rows) && x in rows && i < |s|
    requires Count(s, ById(x)) > 0 && Count(s, ByName(rows[x])) > 0
    requires RefOf(s[i]) == ById(x) || RefOf(s[i]) == ByName(rows[x])
    ensures Expected(rows, s, i) == Failed(KeyOf(s[i]), [Conflict(MULTIPLE, x, rows[x])])
  {
    if RefOf(s[i]).ByName? {
      assert rows[x] in rows.Values;
      assert IdOf(rows, rows[x]) == x;
    }
  }

  lemma RowDataWellFormed(r: Row)
    ensures WellFormed(Obj(RowData(r)))
  {
    var d := RowData(r);
    assert d == [("id", Int(r.id)), ("name", Str(r.name))];
    forall p | p in d ensures WellFormed(p.1) {
    }
  }

  /** Merging a row under an item: the item's keys keep their values and
      the row supplies `id` and `name` when the item lacks them. */
  lemma RowMerge(x: int, nm: string, item: Fields)
    requires WellFormed(Obj(item))
    ensures NoDup(Merge([RowData(Row(x, nm)), item]))
    ensures Keys(Merge([RowData(Row(x, nm)), item])) == Keys(item) + {"id", "name"}
    ensures forall k | k in Keys(item) :: Get(Merge([RowData(Row(x, nm)), item]), k) == Get(item, k)
    ensures "id" !in Keys(item) ==> Get(Merge([RowData(Row(x, nm)), item]), "id") == Some(Int(x))
    ensures "name" !in Keys(item) ==> Get(Merge([RowData(Row(x, nm)), item]), "name") == Some(Str(nm))
  {
    var row := RowData(Row(x, nm));
    RowDataWellFormed(Row(x, nm));
    MergePairKeys(row, item);
    forall k | k in Keys(item) ensures Get(Merge([row, item]), k) == Get(item, k) {
      MergePairAt(row, item, k);
    }
    MergePairAt(row, item, "id");
    MergePairAt(row, item, "name");
  }

  /** A resolved item becomes the row it references merged with the item:
      the item's own keys keep their values, the row adds `id` and `name`,
      and the `id` is the stored id of that row. */
  lemma ResolvedItem(rows: map<int, string>, s: seq<Json>, i: nat)
    requires AllRefs(s) && i < |s| && WellFormed(s[i]) && Expected(rows, s, i).Resolved?
    ensures Expected(rows, s, i).v.Obj? && NoDup(Expected(rows, s, i).v.fields)
    ensures Keys(Expected(rows, s, i).v.fields) == Keys(s[i].fields) + {"id", "name"}
    ensures forall k | k in Keys(s[i].fields) :: Get(Expected(rows, s, i).v.fields, k) == Get(s[i].fields, k)
    ensures exists x :: (x in rows && (RefOf(s[i]) == ById(x) || RefOf(s[i]) == ByName(rows[x]))
      && Get(Expected(rows, s, i).v.fields, "id") == Some(Int(x))
      && ("name" !in Keys(s[i].fields) ==> Get(Expected(rows, s, i).v.fields, "name") == Some(Str(rows[x]))))
  {
    var x := if RefOf(s[i]).ById? then RefOf(s[i]).id else IdOf(rows, RefOf(s[i]).name);
    assert x in rows;
    assert Expected(rows, s, i).v == Obj(Merge([RowData(Row(x, rows[x])), s[i].fields]));
    RowMerge(x, rows[x], s[i].fields);
  }

  /** Every name inserted is unknown to the table, referenced by exactly one
      item, and inserted once. */
  lemma InsertedOnce(rows: map<int, string>, s: seq<Json>)
    requires AllRefs(s)
    ensures Distinct(Inserted(rows, s))
    ensures forall nm | nm in Inserted(rows, s) :: nm !in rows.Values && Count(s, ByName(nm)) == 1
    ensures Inserted(rows, s) != [] ==> ExpectedErrors(rows, s) == map[]
  {
    NameOrderSpec(s);
    UnknownDistinct(rows, s, NameOrder(s));
  }
}
