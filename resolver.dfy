/** `db.helpers`: resolving the ingredient or utensil references of a recipe
    request against a table, and inserting the names nobody knows yet. The
    item list is an array overwritten in place, as `elts` is; the grouping
    dicts and the error dict are local maps the methods reassign. */
module DbHelpers {
  import opened Json
  import opened Helpers
  import opened Table
  import opened ResolverSpec

  /** The inner dict of item `i` after `errors[i][key].append(msg)`. */
  function Appended(e: Errors, i: nat, key: Key, msg: Msg): map<Key, seq<Msg>> {
    var inner := if i in e then e[i] else map[];
    inner[key := (if key in inner then inner[key] else []) + [msg]]
  }

  predicate DistinctIndices(g: seq<Entry>) {
    forall k, l | 0 <= k < l < |g| :: g[k].index != g[l].index
  }

  /** Item `i` has reached its expected outcome. */
  ghost predicate Settled(rows: map<int, string>, s: seq<Json>, ai: Json, e: Errors, i: nat)
    requires AllRefs(s) && i < |s|
  {
    match Expected(rows, s, i)
    case Resolved(v) => ai == v && i !in e
    case Failed(k, m) => ai == s[i] && i in e && e[i] == map[k := m]
    case Pending(_) => ai == s[i] && i !in e
  }

  /** The items whose reference is in `fin` are settled; the others are
      untouched. */
  ghost predicate Inv(rows: map<int, string>, s: seq<Json>, a: seq<Json>, e: Errors, fin: set<Ref>)
    requires AllRefs(s)
  {
    && |a| == |s|
    && (forall i | i in e :: i < |s|)
    && forall i: nat | i < |s| ::
         if RefOf(s[i]) in fin then Settled(rows, s, a[i], e, i) else a[i] == s[i] && i !in e
  }

  /** The references a fetched row answers. */
  function RowRefs(rs: seq<Row>): set<Ref> {
    (set r | r in rs :: ById(r.id)) + (set r | r in rs :: ByName(r.name))
  }

  lemma IndicesSnoc(g: seq<Entry>, k: nat)
    requires k < |g|
    ensures Indices(g[..k + 1]) == Indices(g[..k]) + {g[k].index}
  {
    assert g[..k + 1] == g[..k] + [g[k]];
    IndicesAppend(g[..k], [g[k]]);
    assert Indices([g[k]]) == {g[k].index} by {
      assert g[k] in [g[k]];
    }
  }

  lemma NotInPrefix(g: seq<Entry>, k: nat)
    requires k < |g| && DistinctIndices(g)
    ensures g[k].index !in Indices(g[..k])
  {
  }

  /** `e1` is `e` after appending `msg` under `key` for every entry of `g`. */
  ghost predicate AddedTo(e: Errors, e1: Errors, g: seq<Entry>, key: Key, msg: Msg) {
    && (forall i :: i in Indices(g) ==> i in e1 && e1[i] == Appended(e, i, key, msg))
    && (forall i :: i !in Indices(g) ==> (i in e1 <==> i in e) && (i in e ==> e1[i] == e[i]))
  }

  /** One more entry of the group gets its message. */
  lemma AddedSnoc(errors: Errors, r: Errors, g: seq<Entry>, k: nat, key: Key, msg: Msg)
    requires DistinctIndices(g) && k < |g| && AddedTo(errors, r, g[..k], key, msg)
    ensures AddedTo(errors, r[g[k].index := Appended(r, g[k].index, key, msg)], g[..k + 1], key, msg)
  {
    IndicesSnoc(g, k);
    NotInPrefix(g, k);
    var i0 := g[k].index;
    assert Appended(r, i0, key, msg) == Appended(errors, i0, key, msg);
    var r1 := r[i0 := Appended(r, i0, key, msg)];
    forall i | i in Indices(g[..k + 1]) ensures i in r1 && r1[i] == Appended(errors, i, key, msg) {
      if i != i0 {
        assert i in Indices(g[..k]);
      }
    }
    forall i | i !in Indices(g[..k + 1]) ensures (i in r1 <==> i in errors) && (i in errors ==> r1[i] == errors[i]) {
      assert i != i0 && i !in Indices(g[..k]);
    }
  }

  /** `errors[elt['index']][key].append(msg)` for every entry of a group,
      with one key for the whole group. */
  method AppendUnder(errors: Errors, g: seq<Entry>, key: Key, msg: Msg) returns (r: Errors)
    requires DistinctIndices(g)
    ensures AddedTo(errors, r, g, key, msg)
  {
    r := errors;
    assert Indices(g[..0]) == {};
    for k := 0 to |g|
      invariant AddedTo(errors, r, g[..k], key, msg)
    {
      var i := g[k].index;
      AddedSnoc(errors, r, g, k, key, msg);
      r := r[i := Appended(r, i, key, msg)];
    }
    assert g[..|g|] == g;
  }

  /** `_multiple_entries_error`: appends `msg` for every entry of a group,
      under `'id'` when the item has an id and under `'name'` otherwise. */
  method MultipleEntriesError(errors: Errors, g: seq<Entry>, msg: Msg, ghost key: Key) returns (r: Errors)
    requires DistinctIndices(g)
    requires forall k | 0 <= k < |g| :: KeyOf(g[k].elt) == key
    ensures AddedTo(errors, r, g, key, msg)
  {
    r := errors;
    assert Indices(g[..0]) == {};
    for k := 0 to |g|
      invariant AddedTo(errors, r, g[..k], key, msg)
    {
      var i, elt := g[k].index, g[k].elt;
      var bucket := if elt.Obj? && "id" in Keys(elt.fields) then IdKey else NameKey;
      assert bucket == KeyOf(g[k].elt) == key;
      AddedSnoc(errors, r, g, k, key, msg);
      r := r[i := Appended(r, i, bucket, msg)];
    }
    assert g[..|g|] == g;
  }

  /** A row of the select answers references nobody has settled yet. */
  lemma FreshRow(rows: map<int, string>, found: seq<Row>, k: nat)
    requires UniqueNames(rows) && k < |found|
    requires forall r | r in found :: r.id in rows && rows[r.id] == r.name
    requires forall i, j | 0 <= i < j < |found| :: found[i].id != found[j].id
    ensures ById(found[k].id) !in RowRefs(found[..k]) && ByName(found[k].name) !in RowRefs(found[..k])
    ensures RowRefs(found[..k + 1]) == RowRefs(found[..k]) + {ById(found[k].id), ByName(found[k].name)}
  {
    assert found[..k + 1] == found[..k] + [found[k]];
  }

  /** Settling the items that reference `R`, leaving every other item as it
      was, keeps the invariant. */
  lemma Advance(rows: map<int, string>, s: seq<Json>, a: seq<Json>, a1: seq<Json>, e: Errors, e1: Errors,
                fin: set<Ref>, R: set<Ref>)
    requires AllRefs(s) && Inv(rows, s, a, e, fin) && |a1| == |s|
    requires forall i: nat | i < |s| && RefOf(s[i]) in R :: Settled(rows, s, a1[i], e1, i)
    requires forall i: nat | i < |s| && RefOf(s[i]) !in R ::
      a1[i] == a[i] && (i in e1 <==> i in e) && (i in e ==> e1[i] == e[i])
    requires forall i | i in e1 :: i < |s|
    ensures Inv(rows, s, a1, e1, fin + R)
  {
  }

  /** Both groups of a row referenced by id and by name fail with the
      `{msg, id, name}` error. */
  lemma ConflictStep(rows: map<int, string>, s: seq<Json>, a: seq<Json>, e: Errors, e1: Errors, e2: Errors,
                     fin: set<Ref>, x: int, nm: string)
    requires AllRefs(s) && UniqueNames(rows) && x in rows && rows[x] == nm
    requires Inv(rows, s, a, e, fin) && ById(x) !in fin && ByName(nm) !in fin
    requires Count(s, ById(x)) > 0 && Count(s, ByName(nm)) > 0
    requires AddedTo(e, e1, Group(s, ById(x)), IdKey, Conflict(MULTIPLE, x, nm))
    requires AddedTo(e1, e2, Group(s, ByName(nm)), NameKey, Conflict(MULTIPLE, x, nm))
    ensures Inv(rows, s, a, e2, fin + {ById(x), ByName(nm)})
  {
    GroupMembers(s, ById(x));
    GroupMembers(s, ByName(nm));
    var m := Conflict(MULTIPLE, x, nm);
    forall i: nat | i < |s| && RefOf(s[i]) in {ById(x), ByName(nm)}
      ensures Settled(rows, s, a[i], e2, i)
    {
      assert i !in e && a[i] == s[i];
      ConflictItem(rows, s, e, e1, e2, x, nm, i);
    }
    forall i: nat | i < |s| && RefOf(s[i]) !in {ById(x), ByName(nm)}
      ensures (i in e2 <==> i in e) && (i in e ==> e2[i] == e[i])
    {
      assert i !in Indices(Group(s, ById(x))) && i !in Indices(Group(s, ByName(nm)));
    }
    forall i | i in e2 ensures i < |s| {
      if i !in e {
        assert i in Indices(Group(s, ById(x))) || i in Indices(Group(s, ByName(nm)));
      }
    }
    Advance(rows, s, a, a, e, e2, fin, {ById(x), ByName(nm)});
  }

  /** One item of a conflicting row fails with the `{msg, id, name}`
      error under its own key. */
  lemma ConflictItem(rows: map<int, string>, s: seq<Json>, e: Errors, e1: Errors, e2: Errors,
                     x: int, nm: string, i: nat)
    requires AllRefs(s) && UniqueNames(rows) && x in rows && rows[x] == nm && i < |s|
    requires Count(s, ById(x)) > 0 && Count(s, ByName(nm)) > 0
    requires RefOf(s[i]) in {ById(x), ByName(nm)} && i !in e
    requires AddedTo(e, e1, Group(s, ById(x)), IdKey, Conflict(MULTIPLE, x, nm))
    requires AddedTo(e1, e2, Group(s, ByName(nm)), NameKey, Conflict(MULTIPLE, x, nm))
    ensures Settled(rows, s, s[i], e2, i)
  {
    GroupMembers(s, ById(x));
    GroupMembers(s, ByName(nm));
    var m := Conflict(MULTIPLE, x, nm);
    if RefOf(s[i]) == ById(x) {
      assert i in Indices(Group(s, ById(x))) && i !in Indices(Group(s, ByName(nm)));
      assert Expected(rows, s, i) == Failed(IdKey, [m]);
      AppendedFresh(e, i, IdKey, m);
    } else {
      assert i in Indices(Group(s, ByName(nm))) && i !in Indices(Group(s, ById(x)));
      assert IdOf(rows, nm) == x;
      assert Expected(rows, s, i) == Failed(NameKey, [m]);
      AppendedFresh(e1, i, NameKey, m);
    }
  }

  lemma AppendedFresh(e: Errors, i: nat, key: Key, m: Msg)
    requires i !in e
    ensures Appended(e, i, key, m) == map[key := [m]]
  {
    assert [] + [m] == [m];
  }

  lemma AppendedOnto(e: Errors, i: nat, key: Key, ms: seq<Msg>, m: Msg)
    requires i in e && e[i] == map[key := ms]
    ensures Appended(e, i, key, m) == map[key := ms + [m]]
  {
  }

  /** A row met through one key only: a repeated reference fails with
      MULTIPLE. */
  lemma MultipleStep(rows: map<int, string>, s: seq<Json>, a: seq<Json>, e: Errors, e1: Errors,
                     fin: set<Ref>, x: int, nm: string, r: Ref)
    requires AllRefs(s) && UniqueNames(rows) && x in rows && rows[x] == nm
    requires Inv(rows, s, a, e, fin) && ById(x) !in fin && ByName(nm) !in fin
    requires r == ById(x) || r == ByName(nm)
    requires Count(s, r) > 1 && Count(s, if r.ById? then ByName(nm) else ById(x)) == 0
    requires AddedTo(e, e1, Group(s, r), if r.ById? then IdKey else NameKey, Plain(MULTIPLE))
    ensures Inv(rows, s, a, e1, fin + {ById(x), ByName(nm)})
  {
    var other := if r.ById? then ByName(nm) else ById(x);
    GroupMembers(s, r);
    GroupMembers(s, other);
    forall i: nat | i < |s| && RefOf(s[i]) in {ById(x), ByName(nm)}
      ensures RefOf(s[i]) == r && Settled(rows, s, a[i], e1, i)
    {
      assert i !in Indices(Group(s, other));
      assert i in Indices(Group(s, r));
      assert i !in e;
      AppendedFresh(e, i, if r.ById? then IdKey else NameKey, Plain(MULTIPLE));
      if r.ByName? {
        assert IdOf(rows, nm) == x;
      }
    }
    forall i: nat | i < |s| && RefOf(s[i]) !in {ById(x), ByName(nm)}
      ensures (i in e1 <==> i in e) && (i in e ==> e1[i] == e[i])
    {
      assert i !in Indices(Group(s, r));
    }
    forall i | i in e1 ensures i < |s| {
      if i !in e {
        assert i in Indices(Group(s, r));
      }
    }
    Advance(rows, s, a, a, e, e1, fin, {ById(x), ByName(nm)});
  }

  /** The only reference to a stored row, when its row is not referenced
      under the other key, resolves to the row data merged with the item. */
  lemma ExpectedResolved(rows: map<int, string>, s: seq<Json>, i: nat, x: int, nm: string)
    requires AllRefs(s) && UniqueNames(rows) && x in rows && rows[x] == nm && i < |s|
    requires RefOf(s[i]) == ById(x) || RefOf(s[i]) == ByName(nm)
    requires Count(s, RefOf(s[i])) == 1 && Count(s, if RefOf(s[i]).ById? then ByName(nm) else ById(x)) == 0
    ensures Expected(rows, s, i) == Resolved(Obj(Merge([RowData(Row(x, nm)), s[i].fields])))
  {
    if RefOf(s[i]).ByName? {
      assert IdOf(rows, nm) == x;
    }
  }

  /** A row met through one key only, by a single item: the item becomes the
      row data merged with the item. */
  lemma ResolveStep(rows: map<int, string>, s: seq<Json>, a: seq<Json>, e: Errors,
                    fin: set<Ref>, x: int, nm: string, r: Ref, i0: nat, v: Json)
    requires AllRefs(s) && UniqueNames(rows) && x in rows && rows[x] == nm
    requires Inv(rows, s, a, e, fin) && ById(x) !in fin && ByName(nm) !in fin
    requires r == ById(x) || r == ByName(nm)
    requires Count(s, r) == 1 && Count(s, if r.ById? then ByName(nm) else ById(x)) == 0
    requires Group(s, r)[0].index == i0 && i0 < |s|
    requires v == Obj(Merge([RowData(Row(x, nm)), s[i0].fields]))
    ensures Inv(rows, s, a[i0 := v], e, fin + {ById(x), ByName(nm)})
  {
    var other := if r.ById? then ByName(nm) else ById(x);
    RefIndices(s, r);
    RefIndices(s, other);
    ExpectedResolved(rows, s, i0, x, nm);
    assert RefOf(s[i0]) !in fin;
    var a1 := a[i0 := v];
    var fin1 := fin + {ById(x), ByName(nm)};
    forall i: nat | i < |s|
      ensures if RefOf(s[i]) in fin1 then Settled(rows, s, a1[i], e, i) else a1[i] == s[i] && i !in e
    {
      if i != i0 {
        assert RefOf(s[i]) != r && RefOf(s[i]) != other;
        assert a1[i] == a[i];
      }
    }
  }

  /** After the select, an id still waiting has no row, and a name still
      waiting is not stored. */
  lemma SelectLeftovers(rows: map<int, string>, s: seq<Json>, found: seq<Row>)
    requires AllRefs(s)
    requires forall x | x in rows && (x in IdOrder(s) || rows[x] in NameOrder(s)) :: Row(x, rows[x]) in found
    requires forall r | r in found :: r.id in rows && rows[r.id] == r.name
    ensures forall x | Count(s, ById(x)) > 0 && ById(x) !in RowRefs(found) :: x !in rows
    ensures forall nm | ByName(nm) in RowRefs(found) :: nm in rows.Values
    ensures forall nm | Count(s, ByName(nm)) > 0 && ByName(nm) !in RowRefs(found) :: nm !in rows.Values
  {
    IdOrderSpec(s);
    NameOrderSpec(s);
    forall nm | Count(s, ByName(nm)) > 0 && ByName(nm) !in RowRefs(found) ensures nm !in rows.Values {
      if nm in rows.Values {
        var y := IdOf(rows, nm);
        assert false;
      }
    }
    forall nm | ByName(nm) in RowRefs(found) ensures nm in rows.Values {
      var r :| r in found && r.name == nm;
      assert rows[r.id] in rows.Values;
    }
  }

  /** An id with no row: every reference fails with CORRESPONDING, after
      MULTIPLE when the id is repeated. */
  lemma MissingStep(rows: map<int, string>, s: seq<Json>, a: seq<Json>, e: Errors, e1: Errors, e2: Errors,
                    fin: set<Ref>, x: int)
    requires AllRefs(s) && x !in rows
    requires Inv(rows, s, a, e, fin) && ById(x) !in fin && Count(s, ById(x)) > 0
    requires if Count(s, ById(x)) > 1 then AddedTo(e, e1, Group(s, ById(x)), IdKey, Plain(MULTIPLE)) else e1 == e
    requires AddedTo(e1, e2, Group(s, ById(x)), IdKey, Plain(CORRESPONDING))
    ensures Inv(rows, s, a, e2, fin + {ById(x)})
  {
    GroupMembers(s, ById(x));
    var multi := if Count(s, ById(x)) > 1 then [Plain(MULTIPLE)] else [];
    assert forall i: nat | i < |s| && RefOf(s[i]) == ById(x) :: Expected(rows, s, i) == Failed(IdKey, multi + [Plain(CORRESPONDING)]);
    forall i: nat | i < |s| && RefOf(s[i]) in {ById(x)}
      ensures Settled(rows, s, a[i], e2, i)
    {
      assert i in Indices(Group(s, ById(x)));
      assert i !in e;
      if multi != [] {
        AppendedFresh(e, i, IdKey, Plain(MULTIPLE));
        AppendedOnto(e1, i, IdKey, multi, Plain(CORRESPONDING));
      } else {
        AppendedFresh(e1, i, IdKey, Plain(CORRESPONDING));
      }
    }
    forall i: nat | i < |s| && RefOf(s[i]) !in {ById(x)}
      ensures (i in e2 <==> i in e) && (i in e ==> e2[i] == e[i])
    {
      assert i !in Indices(Group(s, ById(x)));
    }
    forall i | i in e2 ensures i < |s| {
      if i !in e {
        assert i in Indices(Group(s, ById(x)));
      }
    }
    Advance(rows, s, a, a, e, e2, fin, {ById(x)});
  }

  /** A name not stored: a repeated one fails with MULTIPLE, a single one
      waits for the insert untouched. */
  lemma NameStep(rows: map<int, string>, s: seq<Json>, a: seq<Json>, e: Errors, e1: Errors,
                 fin: set<Ref>, nm: string)
    requires AllRefs(s) && nm !in rows.Values
    requires Inv(rows, s, a, e, fin) && ByName(nm) !in fin && Count(s, ByName(nm)) > 0
    requires if Count(s, ByName(nm)) > 1 then AddedTo(e, e1, Group(s, ByName(nm)), NameKey, Plain(MULTIPLE)) else e1 == e
    ensures Inv(rows, s, a, e1, fin + {ByName(nm)})
  {
    GroupMembers(s, ByName(nm));
    forall i: nat | i < |s| && RefOf(s[i]) in {ByName(nm)}
      ensures Settled(rows, s, a[i], e1, i)
    {
      assert i in Indices(Group(s, ByName(nm)));
      assert i !in e;
      if Count(s, ByName(nm)) > 1 {
        AppendedFresh(e, i, NameKey, Plain(MULTIPLE));
      }
    }
    forall i: nat | i < |s| && RefOf(s[i]) !in {ByName(nm)}
      ensures (i in e1 <==> i in e) && (i in e ==> e1[i] == e[i])
    {
      assert i !in Indices(Group(s, ByName(nm)));
    }
    forall i | i in e1 ensures i < |s| {
      if i !in e {
        assert i in Indices(Group(s, ByName(nm)));
      }
    }
    Advance(rows, s, a, a, e, e1, fin, {ByName(nm)});
  }

  /** Once every reference is settled, the error map is the expected one and
      every item holds its expected value before the insert. */
  lemma Done(rows: map<int, string>, s: seq<Json>, a: seq<Json>, e: Errors, fin: set<Ref>)
    requires AllRefs(s) && Inv(rows, s, a, e, fin)
    requires forall i: nat | i < |s| :: RefOf(s[i]) in fin
    ensures e == ExpectedErrors(rows, s)
    ensures forall i: nat | i < |s| :: a[i] == if Expected(rows, s, i).Resolved? then Expected(rows, s, i).v else s[i]
  {
    var ee := ExpectedErrors(rows, s);
    forall i | i in e ensures i in ee && e[i] == ee[i] {
      assert Settled(rows, s, a[i], e, i);
    }
    forall i | i in ee ensures i in e {
      assert Settled(rows, s, a[i], e, i);
    }
    forall i: nat | i < |s| ensures a[i] == if Expected(rows, s, i).Resolved? then Expected(rows, s, i).v else s[i] {
      assert Settled(rows, s, a[i], e, i);
    }
  }

  /** Every item references something some item references. */
  lemma Referenced(s: seq<Json>, i: nat)
    requires AllRefs(s) && i < |s|
    ensures Count(s, RefOf(s[i])) > 0
  {
    GroupSpec(s, RefOf(s[i]));
    assert i in Indices(Group(s, RefOf(s[i])));
  }

  /** A reference no item makes is at no index; one made once is at the
      index of its one entry only. */
  lemma RefIndices(s: seq<Json>, r: Ref)
    requires AllRefs(s)
    ensures Count(s, r) == 0 ==> forall i | 0 <= i < |s| :: RefOf(s[i]) != r
    ensures Count(s, r) == 1 ==>
      && Group(s, r)[0].index < |s| && RefOf(s[Group(s, r)[0].index]) == r
      && forall i | 0 <= i < |s| && RefOf(s[i]) == r :: i == Group(s, r)[0].index
  {
    GroupSpec(s, r);
    forall i | 0 <= i < |s| && RefOf(s[i]) == r ensures Count(s, r) > 0 && (Count(s, r) == 1 ==> i == Group(s, r)[0].index) {
      assert i in Indices(Group(s, r));
      var en :| en in Group(s, r) && en.index == i;
    }
  }

  /** The items in the group of `r` are those that reference `r`. */
  lemma GroupMembers(s: seq<Json>, r: Ref)
    requires AllRefs(s)
    ensures forall i: nat :: i in Indices(Group(s, r)) <==> i < |s| && RefOf(s[i]) == r
  {
    GroupSpec(s, r);
  }

  lemma GroupIndices(s: seq<Json>, r: Ref)
    requires AllRefs(s)
    ensures DistinctIndices(Group(s, r))
    ensures forall k | 0 <= k < |Group(s, r)| :: Group(s, r)[k].index < |s|
    ensures forall k | 0 <= k < |Group(s, r)| :: KeyOf(Group(s, r)[k].elt) == (if r.ById? then IdKey else NameKey)
  {
    GroupSpec(s, r);
  }

  /** A name to insert is referenced by exactly one item, and that item is
      pending under that name. */
  lemma NewNameEntry(rows: map<int, string>, s: seq<Json>, nm: string)
    requires AllRefs(s) && nm in NewNames(rows, s)
    ensures |Group(s, ByName(nm))| == 1
    ensures Group(s, ByName(nm))[0].index < |s|
    ensures Expected(rows, s, Group(s, ByName(nm))[0].index) == Pending(nm)
  {
    GroupSpec(s, ByName(nm));
  }

  /** A pending item is the one entry of a name to insert. */
  lemma PendingEntry(rows: map<int, string>, s: seq<Json>, i: nat)
    requires AllRefs(s) && i < |s| && Expected(rows, s, i).Pending?
    ensures Expected(rows, s, i).name in NewNames(rows, s)
    ensures Group(s, ByName(Expected(rows, s, i).name))[0].index == i
  {
    var nm := Expected(rows, s, i).name;
    assert RefOf(s[i]) == ByName(nm) && nm !in rows.Values && Count(s, ByName(nm)) <= 1;
    Referenced(s, i);
    RefIndices(s, ByName(nm));
    NameOrderSpec(s);
  }

  /** The `ids` and `names` groups of `_get`, with the references nobody has
      settled yet. */
  ghost predicate Waiting(s: seq<Json>, ids: map<int, seq<Entry>>, groups: map<string, seq<Entry>>, fin: set<Ref>)
    requires AllRefs(s)
  {
    && (forall x :: x in ids <==> Count(s, ById(x)) > 0 && ById(x) !in fin)
    && (forall x | x in ids :: ids[x] == Group(s, ById(x)))
    && (forall nm :: nm in groups <==> Count(s, ByName(nm)) > 0 && ByName(nm) !in fin)
    && (forall nm | nm in groups :: groups[nm] == Group(s, ByName(nm)))
  }

  /** The group of `r` in a longer prefix. */
  lemma GroupSnoc(s: seq<Json>, i: nat, r: Ref)
    requires AllRefs(s) && i < |s| && AllRefs(s[..i]) && AllRefs(s[..i + 1])
    ensures Group(s[..i + 1], r) == Group(s[..i], r) + (if RefOf(s[i]) == r then [Entry(i, s[i])] else [])
  {
    assert s[..i + 1][..i] == s[..i] && s[..i + 1][i] == s[i];
  }

  /** Adding item `i` to its group. */
  lemma GroupStep(s: seq<Json>, i: nat, ids: map<int, seq<Entry>>, groups: map<string, seq<Entry>>,
                  ids1: map<int, seq<Entry>>, groups1: map<string, seq<Entry>>)
    requires AllRefs(s) && i < |s| && AllRefs(s[..i]) && AllRefs(s[..i + 1])
    requires Waiting(s[..i], ids, groups, {})
    requires RefOf(s[i]).ById? ==> (groups1 == groups &&
      ids1 == ids[RefOf(s[i]).id := (if RefOf(s[i]).id in ids then ids[RefOf(s[i]).id] else []) + [Entry(i, s[i])]])
    requires RefOf(s[i]).ByName? ==> (ids1 == ids &&
      groups1 == groups[RefOf(s[i]).name := (if RefOf(s[i]).name in groups then groups[RefOf(s[i]).name] else []) + [Entry(i, s[i])]])
    ensures Waiting(s[..i + 1], ids1, groups1, {})
    ensures IdOrder(s[..i + 1]) ==
      if RefOf(s[i]).ById? && RefOf(s[i]).id !in ids then IdOrder(s[..i]) + [RefOf(s[i]).id] else IdOrder(s[..i])
    ensures NameOrder(s[..i + 1]) ==
      if RefOf(s[i]).ByName? && RefOf(s[i]).name !in groups then NameOrder(s[..i]) + [RefOf(s[i]).name] else NameOrder(s[..i])
  {
    assert s[..i + 1][..i] == s[..i] && s[..i + 1][i] == s[i];
    IdOrderSpec(s[..i]);
    NameOrderSpec(s[..i]);
    var t := s[..i + 1];
    forall x ensures (x in ids1 <==> Count(t, ById(x)) > 0) && (x in ids1 ==> ids1[x] == Group(t, ById(x))) {
      GroupSnoc(s, i, ById(x));
    }
    forall nm ensures (nm in groups1 <==> Count(t, ByName(nm)) > 0) && (nm in groups1 ==> groups1[nm] == Group(t, ByName(nm))) {
      GroupSnoc(s, i, ByName(nm));
    }
  }

  /** The first loop of `_get`: every item joins the group of its id, or of
      its name when it has no id; the key lists keep first-appearance order. */
  method GroupItems(elts: array<Json>)
    returns (ids: map<int, seq<Entry>>, groups: map<string, seq<Entry>>, idKeys: seq<int>, nameKeys: seq<string>)
    requires AllRefs(elts[..])
    ensures Waiting(elts[..], ids, groups, {})
    ensures idKeys == IdOrder(elts[..]) && nameKeys == NameOrder(elts[..])
  {
    ghost var s := elts[..];
    ids, groups, idKeys, nameKeys := map[], map[], [], [];
    for i := 0 to elts.Length
      invariant AllRefs(s[..i])
      invariant Waiting(s[..i], ids, groups, {})
      invariant idKeys == IdOrder(s[..i]) && nameKeys == NameOrder(s[..i])
    {
      PrefixRefs(s, i + 1);
      ghost var ids0, groups0 := ids, groups;
      var elt := elts[i];
      if "id" in Keys(elt.fields) {
        var x := At(elt.fields, "id").i;
        if x !in ids {
          idKeys := idKeys + [x];
        }
        var g := if x in ids then ids[x] else [];
        ids := ids[x := g + [Entry(i, elt)]];
      } else {
        var nm := At(elt.fields, "name").s;
        if nm !in groups {
          nameKeys := nameKeys + [nm];
        }
        var g := if nm in groups then groups[nm] else [];
        groups := groups[nm := g + [Entry(i, elt)]];
      }
      GroupStep(s, i, ids0, groups0, ids, groups);
    }
    assert s[..elts.Length] == s;
  }

  /** A row referenced by id and by name: both groups fail with the
      `{msg, id, name}` error, each under its own key. */
  method ReportConflict(ghost rows: map<int, string>, ghost s: seq<Json>, ghost a: seq<Json>, obj: Row,
                        byId: seq<Entry>, byName: seq<Entry>, errors0: Errors, ghost fin: set<Ref>)
    returns (errors: Errors)
    requires AllRefs(s) && UniqueNames(rows) && obj.id in rows && rows[obj.id] == obj.name
    requires Inv(rows, s, a, errors0, fin) && ById(obj.id) !in fin && ByName(obj.name) !in fin
    requires byId == Group(s, ById(obj.id)) && byName == Group(s, ByName(obj.name))
    requires |byId| > 0 && |byName| > 0
    ensures Inv(rows, s, a, errors, fin + {ById(obj.id), ByName(obj.name)})
  {
    GroupIndices(s, ById(obj.id));
    GroupIndices(s, ByName(obj.name));
    var msg := Conflict(MULTIPLE, obj.id, obj.name);
    var e1 := AppendUnder(errors0, byId, IdKey, msg);
    errors := AppendUnder(e1, byName, NameKey, msg);
    ConflictStep(rows, s, a, errors0, e1, errors, fin, obj.id, obj.name);
  }

  /** A row reached through one key only: a repeated reference fails with
      MULTIPLE; the single item is overwritten by the row data merged with
      the item (`dict_merge(obj._data, elt['elt'])`). */
  method ApplySingle(ghost rows: map<int, string>, ghost s: seq<Json>, obj: Row, elts: array<Json>,
                     g: seq<Entry>, ghost r: Ref, errors0: Errors, ghost fin: set<Ref>)
    returns (errors: Errors)
    requires AllRefs(s) && UniqueNames(rows) && obj.id in rows && rows[obj.id] == obj.name
    requires Inv(rows, s, elts[..], errors0, fin) && ById(obj.id) !in fin && ByName(obj.name) !in fin
    requires r == ById(obj.id) || r == ByName(obj.name)
    requires g == Group(s, r) && |g| > 0
    requires Count(s, if r.ById? then ByName(obj.name) else ById(obj.id)) == 0
    modifies elts
    ensures Inv(rows, s, elts[..], errors, fin + {ById(obj.id), ByName(obj.name)})
  {
    errors := errors0;
    GroupIndices(s, r);
    if |g| > 1 {
      errors := MultipleEntriesError(errors, g, Plain(MULTIPLE), if r.ById? then IdKey else NameKey);
      MultipleStep(rows, s, elts[..], errors0, errors, fin, obj.id, obj.name, r);
    } else {
      var entry := g[0];
      GroupSpec(s, r);
      var merged := DictMerge([RowData(obj), entry.elt.fields]);
      ResolveStep(rows, s, elts[..], errors, fin, obj.id, obj.name, r, entry.index, Obj(merged));
      elts[entry.index] := Obj(merged);
    }
  }

  /** Popping the groups a row answers. */
  lemma WaitingDrop(s: seq<Json>, ids: map<int, seq<Entry>>, groups: map<string, seq<Entry>>, fin: set<Ref>, x: int, nm: string)
    requires AllRefs(s) && Waiting(s, ids, groups, fin)
    ensures Waiting(s, ids - {x}, groups - {nm}, fin + {ById(x), ByName(nm)})
  {
  }

  /** One fetched row of `_get`'s second loop. */
  method ApplyRow(ghost rows: map<int, string>, ghost s: seq<Json>, obj: Row, elts: array<Json>,
                  ids0: map<int, seq<Entry>>, groups0: map<string, seq<Entry>>, errors0: Errors, ghost fin: set<Ref>)
    returns (ids: map<int, seq<Entry>>, groups: map<string, seq<Entry>>, errors: Errors)
    requires AllRefs(s) && UniqueNames(rows) && obj.id in rows && rows[obj.id] == obj.name
    requires ById(obj.id) !in fin && ByName(obj.name) !in fin
    requires Count(s, ById(obj.id)) > 0 || Count(s, ByName(obj.name)) > 0
    requires Inv(rows, s, elts[..], errors0, fin) && Waiting(s, ids0, groups0, fin)
    modifies elts
    ensures Inv(rows, s, elts[..], errors, fin + {ById(obj.id), ByName(obj.name)})
    ensures Waiting(s, ids, groups, fin + {ById(obj.id), ByName(obj.name)})
  {
    var x, nm := obj.id, obj.name;
    if x in ids0 && nm in groups0 {
      errors := ReportConflict(rows, s, elts[..], obj, ids0[x], groups0[nm], errors0, fin);
    } else {
      var g := if x in ids0 then ids0[x] else [];
      ghost var r := ById(x);
      if g == [] {
        g := if nm in groups0 then groups0[nm] else [];
        r := ByName(nm);
      }
      errors := ApplySingle(rows, s, obj, elts, g, r, errors0, fin);
    }
    ids, groups := ids0 - {x}, groups0 - {nm};
    WaitingDrop(s, ids0, groups0, fin, x, nm);
  }

  /** What `SELECT ... WHERE id IN ids OR name IN names` returns: stored
      rows only, every stored row asked for, each once. */
  ghost predicate Answers(rows: map<int, string>, found: seq<Row>, ids: seq<int>, names: seq<string>) {
    && (forall r | r in found :: r.id in rows && rows[r.id] == r.name && (r.id in ids || r.name in names))
    && (forall x | x in rows && (x in ids || rows[x] in names) :: Row(x, rows[x]) in found)
    && (forall i, j | 0 <= i < j < |found| :: found[i].id != found[j].id)
  }

  /** The k-th row the select returned belongs to the table, is referenced
      by some item and answers no reference an earlier row answered. */
  lemma AnsweredRow(rows: map<int, string>, s: seq<Json>, found: seq<Row>, k: nat)
    requires AllRefs(s) && UniqueNames(rows) && k < |found|
    requires Answers(rows, found, IdOrder(s), NameOrder(s))
    ensures found[k].id in rows && rows[found[k].id] == found[k].name
    ensures Count(s, ById(found[k].id)) > 0 || Count(s, ByName(found[k].name)) > 0
    ensures ById(found[k].id) !in RowRefs(found[..k]) && ByName(found[k].name) !in RowRefs(found[..k])
    ensures RowRefs(found[..k + 1]) == RowRefs(found[..k]) + {ById(found[k].id), ByName(found[k].name)}
  {
    IdOrderSpec(s);
    NameOrderSpec(s);
    assert found[k] in found;
    FreshRow(rows, found, k);
  }

  /** `_get`'s second loop, over the rows the select returned. */
  method ApplyRows(ghost rows: map<int, string>, ghost s: seq<Json>, found: seq<Row>, elts: array<Json>,
                   ids0: map<int, seq<Entry>>, groups0: map<string, seq<Entry>>)
    returns (ids: map<int, seq<Entry>>, groups: map<string, seq<Entry>>, errors: Errors)
    requires AllRefs(s) && UniqueNames(rows) && elts[..] == s
    requires Answers(rows, found, IdOrder(s), NameOrder(s))
    requires Waiting(s, ids0, groups0, {})
    modifies elts
    ensures Inv(rows, s, elts[..], errors, RowRefs(found))
    ensures Waiting(s, ids, groups, RowRefs(found))
  {
    ids, groups, errors := ids0, groups0, map[];
    assert found[..0] == [];
    for k := 0 to |found|
      invariant Inv(rows, s, elts[..], errors, RowRefs(found[..k]))
      invariant Waiting(s, ids, groups, RowRefs(found[..k]))
    {
      AnsweredRow(rows, s, found, k);
      ids, groups, errors := ApplyRow(rows, s, found[k], elts, ids, groups, errors, RowRefs(found[..k]));
    }
    assert found[..|found|] == found;
  }

  /** The ids `_get`'s third loop has still to visit: exactly the
      referenced ids not settled yet, each waiting with its group and
      listed in `keys`; the names settled are those settled before. */
  ghost predicate Remaining(s: seq<Json>, ids: map<int, seq<Entry>>, rest: map<int, seq<Entry>>, keys: seq<int>,
                            fin: set<Ref>, fin0: set<Ref>)
    requires AllRefs(s)
  {
    && (forall x :: x in rest <==> Count(s, ById(x)) > 0 && ById(x) !in fin)
    && (forall x | x in rest :: x in ids && rest[x] == ids[x] && x in keys)
    && (forall nm :: ByName(nm) in fin <==> ByName(nm) in fin0)
  }

  /** Visiting the first key: reported when it is still waiting, skipped
      otherwise. */
  lemma RemainingStep(s: seq<Json>, ids: map<int, seq<Entry>>, rest: map<int, seq<Entry>>, keys: seq<int>,
                      fin: set<Ref>, fin0: set<Ref>)
    requires AllRefs(s) && keys != [] && Remaining(s, ids, rest, keys, fin, fin0)
    ensures keys[0] in rest ==> Remaining(s, ids, rest - {keys[0]}, keys[1..], fin + {ById(keys[0])}, fin0)
    ensures keys[0] !in rest ==> Remaining(s, ids, rest, keys[1..], fin, fin0)
  {
    forall x | x in rest && x != keys[0] ensures x in keys[1..] {
      assert x in keys;
    }
  }

  /** `_get`'s third loop: every id still waiting has no row; its items fail
      with CORRESPONDING, after MULTIPLE when the id is repeated. */
  method ReportMissing(ghost rows: map<int, string>, ghost s: seq<Json>, ghost a: seq<Json>, idKeys: seq<int>,
                       ids: map<int, seq<Entry>>, errors0: Errors, ghost fin0: set<Ref>)
    returns (errors: Errors, ghost fin: set<Ref>)
    requires AllRefs(s) && Inv(rows, s, a, errors0, fin0)
    requires forall x | x in ids :: ids[x] == Group(s, ById(x)) && x !in rows && x in idKeys
    requires forall x :: x in ids <==> Count(s, ById(x)) > 0 && ById(x) !in fin0
    ensures Inv(rows, s, a, errors, fin)
    ensures forall x | Count(s, ById(x)) > 0 :: ById(x) in fin
    ensures forall nm :: ByName(nm) in fin <==> ByName(nm) in fin0
  {
    errors, fin := errors0, fin0;
    var rest := ids;
    for k := 0 to |idKeys|
      invariant Inv(rows, s, a, errors, fin)
      invariant Remaining(s, ids, rest, idKeys[k..], fin, fin0)
    {
      var x := idKeys[k];
      assert idKeys[k..][0] == x && idKeys[k..][1..] == idKeys[k + 1..];
      RemainingStep(s, ids, rest, idKeys[k..], fin, fin0);
      if x in rest {
        errors := ReportId(rows, s, a, x, rest[x], errors, fin);
        fin := fin + {ById(x)};
        rest := rest - {x};
      }
    }
    assert idKeys[|idKeys|..] == [];
  }

  /** One id of `_get`'s third loop. */
  method ReportId(ghost rows: map<int, string>, ghost s: seq<Json>, ghost a: seq<Json>, x: int, v: seq<Entry>,
                  errors0: Errors, ghost fin: set<Ref>)
    returns (errors: Errors)
    requires AllRefs(s) && x !in rows && Inv(rows, s, a, errors0, fin)
    requires ById(x) !in fin && Count(s, ById(x)) > 0 && v == Group(s, ById(x))
    ensures Inv(rows, s, a, errors, fin + {ById(x)})
  {
    GroupIndices(s, ById(x));
    GroupSpec(s, ById(x));
    errors := errors0;
    if |v| > 1 {
      errors := MultipleEntriesError(errors, v, Plain(MULTIPLE), IdKey);
    }
    ghost var e1 := errors;
    errors := MultipleEntriesError(errors, v, Plain(CORRESPONDING), IdKey);
    MissingStep(rows, s, a, errors0, e1, errors, fin, x);
  }

  lemma UnknownSnoc(rows: map<int, string>, s: seq<Json>, ns: seq<string>, k: nat)
    requires AllRefs(s) && k < |ns|
    ensures Unknown(rows, s, ns[..k + 1]) ==
      Unknown(rows, s, ns[..k]) + (if ns[k] !in rows.Values && Count(s, ByName(ns[k])) == 1 then [ns[k]] else [])
  {
    assert ns[..k + 1][..k] == ns[..k];
  }

  /** One name of `_get`'s last loop. */
  method SettleName(ghost rows: map<int, string>, ghost s: seq<Json>, ghost a: seq<Json>, nm: string, v: seq<Entry>,
                    order0: seq<string>, names0: map<string, Entry>, errors0: Errors, ghost fin: set<Ref>)
    returns (order: seq<string>, names: map<string, Entry>, errors: Errors)
    requires AllRefs(s) && Inv(rows, s, a, errors0, fin) && nm !in rows.Values && ByName(nm) !in fin
    requires v == Group(s, ByName(nm)) && |v| > 0
    requires forall n | n in order0 :: n in names0 && Count(s, ByName(n)) == 1 && names0[n] == Group(s, ByName(n))[0]
    ensures Inv(rows, s, a, errors, fin + {ByName(nm)})
    ensures order == order0 + (if Count(s, ByName(nm)) == 1 then [nm] else [])
    ensures forall n | n in order :: n in names && Count(s, ByName(n)) == 1 && names[n] == Group(s, ByName(n))[0]
  {
    GroupIndices(s, ByName(nm));
    order, names, errors := order0, names0, errors0;
    if |v| > 1 {
      errors := MultipleEntriesError(errors, v, Plain(MULTIPLE), NameKey);
    } else {
      names := names[nm := v[0]];
      order := order + [nm];
    }
    NameStep(rows, s, a, errors0, errors, fin, nm);
  }

  /** The names of `ns` still waiting in `groups`, as references. */
  function NameRefs(groups: map<string, seq<Entry>>, ns: seq<string>): set<Ref> {
    set nm | nm in ns && nm in groups :: ByName(nm)
  }

  lemma NameRefsSnoc(groups: map<string, seq<Entry>>, ns: seq<string>, k: nat)
    requires k < |ns| && Distinct(ns)
    ensures ByName(ns[k]) !in NameRefs(groups, ns[..k])
    ensures NameRefs(groups, ns[..k + 1]) == NameRefs(groups, ns[..k]) + (if ns[k] in groups then {ByName(ns[k])} else {})
  {
    assert ns[..k + 1] == ns[..k] + [ns[k]];
  }

  /** `_get`'s last loop: a name still waiting is not stored; a repeated one
      fails with MULTIPLE, a single one keeps its entry for the insert. */
  method SplitNames(ghost rows: map<int, string>, ghost s: seq<Json>, ghost a: seq<Json>, nameKeys: seq<string>,
                    groups: map<string, seq<Entry>>, errors0: Errors, ghost fin0: set<Ref>)
    returns (order: seq<string>, names: map<string, Entry>, errors: Errors, ghost fin: set<Ref>)
    requires AllRefs(s) && Inv(rows, s, a, errors0, fin0)
    requires forall nm :: nm in groups <==> Count(s, ByName(nm)) > 0 && ByName(nm) !in fin0
    requires forall nm | nm in groups :: groups[nm] == Group(s, ByName(nm))
    requires forall nm | nm in nameKeys :: nm in groups <==> nm !in rows.Values
    requires forall nm | nm in groups :: nm in nameKeys
    requires Distinct(nameKeys)
    ensures Inv(rows, s, a, errors, fin)
    ensures forall nm | Count(s, ByName(nm)) > 0 :: ByName(nm) in fin
    ensures forall x :: ById(x) in fin <==> ById(x) in fin0
    ensures order == Unknown(rows, s, nameKeys)
    ensures forall nm | nm in order :: nm in names && names[nm] == Group(s, ByName(nm))[0]
  {
    errors, fin := errors0, fin0;
    order, names := [], map[];
    assert nameKeys[..0] == [];
    for k := 0 to |nameKeys|
      invariant Inv(rows, s, a, errors, fin)
      invariant fin == fin0 + NameRefs(groups, nameKeys[..k])
      invariant order == Unknown(rows, s, nameKeys[..k])
      invariant forall nm | nm in order :: nm in names && Count(s, ByName(nm)) == 1 && names[nm] == Group(s, ByName(nm))[0]
    {
      var nm := nameKeys[k];
      UnknownSnoc(rows, s, nameKeys, k);
      NameRefsSnoc(groups, nameKeys, k);
      if nm in groups {
        order, names, errors := SettleName(rows, s, a, nm, groups[nm], order, names, errors, fin);
        fin := fin + {ByName(nm)};
      }
    }
    assert nameKeys[..|nameKeys|] == nameKeys;
  }

  /** The last two loops of `_get`, once the fetched rows are applied:
      every reference is settled, so the errors and the items are the
      expected ones. */
  method Leftovers(ghost rows: map<int, string>, ghost s: seq<Json>, ghost a: seq<Json>, ghost found: seq<Row>,
                   ids: map<int, seq<Entry>>, groups: map<string, seq<Entry>>, idKeys: seq<int>, nameKeys: seq<string>,
                   errors0: Errors)
    returns (order: seq<string>, names: map<string, Entry>, errors: Errors)
    requires AllRefs(s) && idKeys == IdOrder(s) && nameKeys == NameOrder(s)
    requires Answers(rows, found, idKeys, nameKeys)
    requires Inv(rows, s, a, errors0, RowRefs(found)) && Waiting(s, ids, groups, RowRefs(found))
    ensures errors == ExpectedErrors(rows, s)
    ensures forall i: nat | i < |s| :: a[i] == if Expected(rows, s, i).Resolved? then Expected(rows, s, i).v else s[i]
    ensures order == NewNames(rows, s)
    ensures forall nm | nm in order :: nm in names && names[nm] == Group(s, ByName(nm))[0]
  {
    IdOrderSpec(s);
    NameOrderSpec(s);
    SelectLeftovers(rows, s, found);
    ghost var fin;
    errors, fin := ReportMissing(rows, s, a, idKeys, ids, errors0, RowRefs(found));
    order, names, errors, fin := SplitNames(rows, s, a, nameKeys, groups, errors, fin);
    forall i: nat | i < |s| ensures RefOf(s[i]) in fin {
      Referenced(s, i);
    }
    Done(rows, s, a, errors, fin);
  }

  /** `_get`: groups the items by reference, fetches the matching rows with
      one select, records the errors and overwrites every item resolved to a
      row. Returns the names nobody knows, in first-appearance order, with
      the one entry of each (`names[k] = v[0]`), and the errors. */
  method Get(T: Table, elts: array<Json>) returns (order: seq<string>, names: map<string, Entry>, errors: Errors)
    requires T.Valid() && AllRefs(elts[..]) && elts.Length > 0
    modifies T, elts
    ensures T.rows == old(T.rows) && T.nextId == old(T.nextId)
    ensures T.log == old(T.log) + [Query.SelectWhere(IdOrder(old(elts[..])), NameOrder(old(elts[..])))]
    ensures errors == ExpectedErrors(old(T.rows), old(elts[..]))
    ensures forall i: nat | i < elts.Length ::
      elts[i] == if Expected(old(T.rows), old(elts[..]), i).Resolved? then Expected(old(T.rows), old(elts[..]), i).v else old(elts[i])
    ensures order == NewNames(old(T.rows), old(elts[..]))
    ensures forall nm | nm in order :: nm in names && names[nm] == Group(old(elts[..]), ByName(nm))[0]
  {
    ghost var s := elts[..];
    ghost var rows := T.rows;
    var ids, groups, idKeys, nameKeys := GroupItems(elts);
    var found := T.SelectWhere(idKeys, nameKeys);
    assert Answers(rows, found, idKeys, nameKeys);
    ids, groups, errors := ApplyRows(rows, s, found, elts, ids, groups);
    order, names, errors := Leftovers(rows, s, elts[..], found, ids, groups, idKeys, nameKeys, errors);
  }

  /** The names `_get` leaves to insert are new and distinct. */
  lemma NewNamesFresh(rows: map<int, string>, s: seq<Json>)
    requires AllRefs(s)
    ensures Distinct(NewNames(rows, s))
    ensures forall k | 0 <= k < |NewNames(rows, s)| :: NewNames(rows, s)[k] !in rows.Values
  {
    NameOrderSpec(s);
    UnknownDistinct(rows, s, NameOrder(s));
    forall k | 0 <= k < |NewNames(rows, s)| ensures NewNames(rows, s)[k] !in rows.Values {
      assert NewNames(rows, s)[k] in NewNames(rows, s);
    }
  }

  /** Distinct names to insert point at distinct items. */
  lemma DistinctEntries(rows: map<int, string>, s: seq<Json>, order: seq<string>, names: map<string, Entry>)
    requires AllRefs(s) && Distinct(order)
    requires forall nm | nm in order :: nm in names && names[nm].index < |s| && Expected(rows, s, names[nm].index) == Pending(nm)
    ensures forall j, k | 0 <= j < k < |order| :: names[order[j]].index != names[order[k]].index
  {
    forall j, k | 0 <= j < k < |order| ensures names[order[j]].index != names[order[k]].index {
      assert order[j] in order && order[k] in order;
    }
  }

  /** Each name to insert points at a pending item of that name. */
  lemma EntriesPending(rows: map<int, string>, s: seq<Json>, order: seq<string>, names: map<string, Entry>)
    requires AllRefs(s) && order == NewNames(rows, s)
    requires forall nm | nm in order :: nm in names && names[nm] == Group(s, ByName(nm))[0]
    ensures forall nm | nm in order :: names[nm].index < |s| && Expected(rows, s, names[nm].index) == Pending(nm)
  {
    forall nm | nm in order ensures names[nm].index < |s| && Expected(rows, s, names[nm].index) == Pending(nm) {
      NewNameEntry(rows, s, nm);
    }
  }

  /** Each pending item is the entry of its name. */
  lemma PendingEntries(rows: map<int, string>, s: seq<Json>, order: seq<string>, names: map<string, Entry>)
    requires AllRefs(s) && order == NewNames(rows, s)
    requires forall nm | nm in order :: nm in names && names[nm] == Group(s, ByName(nm))[0]
    ensures forall j: nat | j < |s| && Expected(rows, s, j).Pending? ::
      Expected(rows, s, j).name in order && names[Expected(rows, s, j).name].index == j
  {
    forall j: nat | j < |s| && Expected(rows, s, j).Pending?
      ensures Expected(rows, s, j).name in order && names[Expected(rows, s, j).name].index == j
    {
      PendingEntry(rows, s, j);
    }
  }

  /** What the insert needs from `_get`'s result, and what it achieves:
      the names are new and distinct, each names its own item, and writing
      the created rows back gives every item its final value. */
  lemma InsertPlan(rows: map<int, string>, next: int, s: seq<Json>, mid: seq<Json>,
                   order: seq<string>, names: map<string, Entry>)
    requires AllRefs(s) && |mid| == |s|
    requires ExpectedErrors(rows, s) == map[] && order == NewNames(rows, s)
    requires forall i: nat | i < |s| :: mid[i] == if Expected(rows, s, i).Resolved? then Expected(rows, s, i).v else s[i]
    requires forall nm | nm in order :: nm in names && names[nm] == Group(s, ByName(nm))[0]
    ensures Distinct(order) && forall k | 0 <= k < |order| :: order[k] !in rows.Values
    ensures forall nm | nm in order :: nm in names && names[nm].index < |s|
    ensures forall i: nat | i < |s| :: WriteBack(mid, names, order, next)[i] == Final(rows, next, s, i)
  {
    NewNamesFresh(rows, s);
    EntriesPending(rows, s, order, names);
    PendingEntries(rows, s, order, names);
    DistinctEntries(rows, s, order, names);
    InsertedFinal(rows, next, s, mid, WriteBack(mid, names, order, next), order, names);
  }

  /** The log after the select, and after the insert when there is one. */
  lemma IssuedLog(rows: map<int, string>, s: seq<Json>, log: seq<Query>)
    requires AllRefs(s) && s != []
    ensures Inserted(rows, s) == [] ==> log + [Query.SelectWhere(IdOrder(s), NameOrder(s))] == log + Issued(rows, s)
    ensures Inserted(rows, s) != [] ==>
      log + [Query.SelectWhere(IdOrder(s), NameOrder(s))] + [InsertMany(Inserted(rows, s))] == log + Issued(rows, s)
  {
  }

  /** An empty list has no error, inserts nothing and issues no query. */
  lemma EmptyItems(rows: map<int, string>, next: int)
    ensures ExpectedErrors(rows, []) == map[] && Inserted(rows, []) == [] && Issued(rows, []) == []
  {
    assert ExpectedErrors(rows, []) == map[];
  }

  /** Without an insert, every item already holds its final value. */
  lemma KeptFinal(rows: map<int, string>, next: int, s: seq<Json>, a: seq<Json>)
    requires AllRefs(s) && |a| == |s| && Inserted(rows, s) == []
    requires forall i: nat | i < |s| :: a[i] == if Expected(rows, s, i).Resolved? then Expected(rows, s, i).v else s[i]
    ensures forall i: nat | i < |s| :: a[i] == Final(rows, next, s, i)
  {
  }

  /** After the insert, every pending item holds the row created for its
      name and every other item is as `_get` left it. */
  lemma InsertedFinal(rows: map<int, string>, next: int, s: seq<Json>, mid: seq<Json>, a: seq<Json>,
                      order: seq<string>, names: map<string, Entry>)
    requires AllRefs(s) && |mid| == |s| && |a| == |s|
    requires ExpectedErrors(rows, s) == map[] && order == NewNames(rows, s)
    requires forall i: nat | i < |s| :: mid[i] == if Expected(rows, s, i).Resolved? then Expected(rows, s, i).v else s[i]
    requires forall nm | nm in order :: nm in names && names[nm].index < |s| && Expected(rows, s, names[nm].index) == Pending(nm)
    requires forall j: nat | j < |s| && Expected(rows, s, j).Pending? ::
      Expected(rows, s, j).name in order && names[Expected(rows, s, j).name].index == j
    requires forall j, k | 0 <= j < k < |order| :: names[order[j]].index != names[order[k]].index
    requires a == WriteBack(mid, names, order, next)
    ensures forall i: nat | i < |s| :: a[i] == Final(rows, next, s, i)
  {
    WriteBackAt(mid, names, order, next);
    InsertedIsNew(rows, s);
    forall i: nat | i < |s| ensures a[i] == Final(rows, next, s, i) {
      if Expected(rows, s, i).Pending? {
        PendingFinal(rows, next, s, a, order, names, i, Expected(rows, s, i).name);
      } else {
        OtherFinal(rows, next, s, mid, a, order, names, i);
      }
    }
  }

  lemma PendingFinal(rows: map<int, string>, next: int, s: seq<Json>, a: seq<Json>,
                     order: seq<string>, names: map<string, Entry>, i: nat, nm: string)
    requires AllRefs(s) && i < |s| && |a| == |s| && Expected(rows, s, i) == Pending(nm)
    requires Inserted(rows, s) == order && nm in order && nm in names && names[nm].index == i
    requires forall k | 0 <= k < |order| ::
      order[k] in names && names[order[k]].index < |a| && a[names[order[k]].index] == Obj(RowData(Row(next + k, order[k])))
    ensures a[i] == Final(rows, next, s, i)
  {
    WrittenAt(next, a, order, names, i, nm);
    FinalOfPending(rows, next, s, i, nm);
  }

  /** The item a created row was written back to holds that row. */
  lemma WrittenAt(next: int, a: seq<Json>, order: seq<string>, names: map<string, Entry>, i: nat, nm: string)
    requires i < |a| && nm in order && nm in names && names[nm].index == i
    requires forall k | 0 <= k < |order| ::
      order[k] in names && names[order[k]].index < |a| && a[names[order[k]].index] == Obj(RowData(Row(next + k, order[k])))
    ensures a[i] == Obj(RowData(Row(next + IndexOf(order, nm), nm)))
  {
    var k := IndexOf(order, nm);
    assert a[names[order[k]].index] == Obj(RowData(Row(next + k, order[k])));
  }

  lemma OtherFinal(rows: map<int, string>, next: int, s: seq<Json>, mid: seq<Json>, a: seq<Json>,
                   order: seq<string>, names: map<string, Entry>, i: nat)
    requires AllRefs(s) && i < |s| && |a| == |s| && |mid| == |s| && !Expected(rows, s, i).Pending?
    requires mid[i] == if Expected(rows, s, i).Resolved? then Expected(rows, s, i).v else s[i]
    requires forall nm | nm in order :: nm in names
    requires forall nm | nm in order :: names[nm].index < |s| && Expected(rows, s, names[nm].index) == Pending(nm)
    requires (forall nm | nm in order :: names[nm].index != i) ==> a[i] == mid[i]
    ensures a[i] == Final(rows, next, s, i)
  {
    FinalOfOther(rows, next, s, i);
  }

  lemma FinalOfPending(rows: map<int, string>, next: int, s: seq<Json>, i: nat, nm: string)
    requires AllRefs(s) && i < |s| && Expected(rows, s, i) == Pending(nm) && nm in Inserted(rows, s)
    ensures Final(rows, next, s, i) == Obj(RowData(Row(next + IndexOf(Inserted(rows, s), nm), nm)))
  {
  }

  lemma InsertedIsNew(rows: map<int, string>, s: seq<Json>)
    requires AllRefs(s) && ExpectedErrors(rows, s) == map[]
    ensures Inserted(rows, s) == NewNames(rows, s)
  {
  }

  lemma InsertedNone(rows: map<int, string>, s: seq<Json>)
    requires AllRefs(s) && ExpectedErrors(rows, s) != map[]
    ensures Inserted(rows, s) == []
  {
  }

  lemma FinalOfOther(rows: map<int, string>, next: int, s: seq<Json>, i: nat)
    requires AllRefs(s) && i < |s| && !Expected(rows, s, i).Pending?
    ensures Final(rows, next, s, i) == if Expected(rows, s, i).Resolved? then Expected(rows, s, i).v else s[i]
  {
  }

  /** The items after `_insert` wrote back the rows created for `order`,
      the k-th name getting id `next + k`. */
  function WriteBack(a: seq<Json>, names: map<string, Entry>, order: seq<string>, next: int): (r: seq<Json>)
    requires forall nm | nm in order :: nm in names && names[nm].index < |a|
    ensures |r| == |a|
  {
    if order == [] then a
    else
      var m := |order| - 1;
      assert forall nm | nm in order[..m] :: nm in order;
      WriteBack(a, names, order[..m], next)[names[order[m]].index := Obj(RowData(Row(next + m, order[m])))]
  }

  /** Each name's item holds its created row, and every item no name points
      at is unchanged. */
  lemma {:induction false} WriteBackAt(a: seq<Json>, names: map<string, Entry>, order: seq<string>, next: int)
    requires forall nm | nm in order :: nm in names && names[nm].index < |a|
    requires forall j, k | 0 <= j < k < |order| :: names[order[j]].index != names[order[k]].index
    ensures forall k | 0 <= k < |order| :: WriteBack(a, names, order, next)[names[order[k]].index] == Obj(RowData(Row(next + k, order[k])))
    ensures forall i | 0 <= i < |a| && (forall nm | nm in order :: names[nm].index != i) :: WriteBack(a, names, order, next)[i] == a[i]
    decreases |order|
  {
    if order != [] {
      var m := |order| - 1;
      var p := order[..m];
      assert forall nm | nm in p :: nm in order;
      WriteBackAt(a, names, p, next);
      forall k | 0 <= k < m ensures p[k] == order[k] && names[p[k]].index != names[order[m]].index {
      }
      forall i | 0 <= i < |a| && (forall nm | nm in order :: names[nm].index != i)
        ensures WriteBack(a, names, order, next)[i] == a[i]
      {
        assert forall nm | nm in p :: names[nm].index != i;
      }
    }
  }

  /** `_insert`: one `INSERT ... RETURNING` of the names, in the order of
      `names.values()`; each returned row replaces the item that named it. */
  method Insert(T: Table, elts: array<Json>, order: seq<string>, names: map<string, Entry>)
    requires T.IdsFresh()
    requires forall nm | nm in order :: nm in names && names[nm].index < elts.Length
    modifies T, elts
    ensures T.IdsFresh()
    ensures T.nextId == old(T.nextId) + |order|
    ensures forall x :: x in T.rows <==> x in old(T.rows) || old(T.nextId) <= x < T.nextId
    ensures forall x | x in old(T.rows) :: T.rows[x] == old(T.rows)[x]
    ensures forall k | 0 <= k < |order| :: T.rows[old(T.nextId) + k] == order[k]
    ensures T.log == old(T.log) + [InsertMany(order)]
    ensures old(T.Valid()) && Distinct(order) && (forall k | 0 <= k < |order| :: order[k] !in old(T.rows).Values)
            ==> T.Valid()
    ensures elts[..] == WriteBack(old(elts[..]), names, order, old(T.nextId))
  {
    ghost var next, a := T.nextId, elts[..];
    var created := T.InsertManyReturning(order);
    for k := 0 to |created|
      modifies elts
      invariant elts[..] == WriteBack(a, names, order[..k], next)
    {
      assert order[..k + 1][..k] == order[..k];
      elts[names[created[k].name].index] := Obj(RowData(created[k]));
    }
    assert order[..|created|] == order;
  }

  /** `get_or_insert`: resolves the items in place and returns the errors;
      rows are inserted only when some names are unknown and no error was
      recorded. The model's `names` holds only the names referenced once, so
      the source's `names and not errors` is `order != [] && errors == {}`:
      a name referenced twice always leaves an error. */
  method GetOrInsert(T: Table, elts: array<Json>) returns (errors: Errors)
    requires T.Valid() && AllRefs(elts[..])
    modifies T, elts
    ensures T.Valid()
    ensures errors == ExpectedErrors(old(T.rows), old(elts[..]))
    ensures forall i: nat | i < elts.Length :: elts[i] == Final(old(T.rows), old(T.nextId), old(elts[..]), i)
    ensures T.nextId == old(T.nextId) + |Inserted(old(T.rows), old(elts[..]))|
    ensures forall x :: x in T.rows <==> x in old(T.rows) || old(T.nextId) <= x < T.nextId
    ensures forall x | x in old(T.rows) :: T.rows[x] == old(T.rows)[x]
    ensures forall k | 0 <= k < |Inserted(old(T.rows), old(elts[..]))| ::
      T.rows[old(T.nextId) + k] == Inserted(old(T.rows), old(elts[..]))[k]
    ensures T.log == old(T.log) + Issued(old(T.rows), old(elts[..]))
  {
    ghost var s, rows, next := elts[..], T.rows, T.nextId;
    if elts.Length == 0 {
      assert s == [];
      EmptyItems(rows, next);
      return map[];
    }
    var order, names;
    order, names, errors := Get(T, elts);
    assert T.rows == rows && T.nextId == next;
    assert T.log == old(T.log) + [Query.SelectWhere(IdOrder(s), NameOrder(s))];
    assert forall i: nat | i < elts.Length ::
      elts[i] == if Expected(rows, s, i).Resolved? then Expected(rows, s, i).v else s[i];
    Finish(T, elts, order, names, errors, rows, next, s, old(T.log));
  }

  /** `get_or_insert` after `_get`: the insert when there are names to
      insert and no error, nothing otherwise. */
  method Finish(T: Table, elts: array<Json>, order: seq<string>, names: map<string, Entry>, errors: Errors,
                ghost rows: map<int, string>, ghost next: int, ghost s: seq<Json>, ghost log: seq<Query>)
    requires T.Valid() && AllRefs(s) && s != [] && elts.Length == |s|
    requires T.rows == rows && T.nextId == next
    requires T.log == log + [Query.SelectWhere(IdOrder(s), NameOrder(s))]
    requires errors == ExpectedErrors(rows, s)
    requires forall i: nat | i < elts.Length ::
      elts[i] == if Expected(rows, s, i).Resolved? then Expected(rows, s, i).v else s[i]
    requires order == NewNames(rows, s)
    requires forall nm | nm in order :: nm in names && names[nm] == Group(s, ByName(nm))[0]
    modifies T, elts
    ensures T.Valid()
    ensures forall i: nat | i < elts.Length :: elts[i] == Final(rows, next, s, i)
    ensures T.nextId == next + |Inserted(rows, s)|
    ensures forall x :: x in T.rows <==> x in rows || next <= x < T.nextId
    ensures forall x | x in rows :: T.rows[x] == rows[x]
    ensures forall k | 0 <= k < |Inserted(rows, s)| :: T.rows[next + k] == Inserted(rows, s)[k]
    ensures T.log == log + Issued(rows, s)
  {
    ghost var mid := elts[..];
    IssuedLog(rows, s, log);
    if |order| > 0 && errors == map[] {
      InsertedIsNew(rows, s);
      InsertPlan(rows, next, s, mid, order, names);
      Insert(T, elts, order, names);
    } else {
      if errors != map[] {
        InsertedNone(rows, s);
      } else {
        InsertedIsNew(rows, s);
      }
      KeptFinal(rows, next, s, mid);
    }
  }
}
