/** The `ingredient` and `utensil` tables as the resolver sees them: rows of
    an `id` primary key, drawn from a sequence, and a `name`. The two queries
    the resolver issues are methods of the table; the SQL text is not modelled,
    only which rows a query returns or adds. */
module Table {
  import opened Json

  /** One fetched or created row. */
  datatype Row = Row(id: int, name: string)

  /** `obj._data` of a row: its columns in declaration order. */
  function RowData(r: Row): (d: Fields)
    ensures Keys(d) == {"id", "name"} && NoDup(d)
    ensures Get(d, "id") == Some(Int(r.id)) && Get(d, "name") == Some(Str(r.name))
  {
    var d := [("id", Int(r.id)), ("name", Str(r.name))];
    assert d[1..] == [("name", Str(r.name))] && d[1..][1..] == [];
    assert Keys(d[1..]) == {"name"} + Keys(d[1..][1..]);
    assert NoDup(d[1..]);
    d
  }

  /** The queries issued against a table, in order. */
  datatype Query =
    | SelectWhere(ids: seq<int>, names: seq<string>)
    | InsertMany(names: seq<string>)

  predicate Distinct<T(==)>(s: seq<T>) {
    forall i, j | 0 <= i < j < |s| :: s[i] != s[j]
  }

  /** No name is stored under two ids. */
  predicate UniqueNames(rows: map<int, string>) {
    forall x, y | x in rows && y in rows && rows[x] == rows[y] :: x == y
  }

  lemma NonEmpty(s: set<int>)
    requires s != {}
    ensures exists x :: x in s
  {
    if forall x :: x !in s {
      assert false;
    }
  }

  /** Storing a new id under a name not stored yet keeps names unique. */
  lemma UniqueAdd(rows: map<int, string>, x: int, nm: string)
    requires UniqueNames(rows) && x !in rows && nm !in rows.Values
    ensures UniqueNames(rows[x := nm])
  {
    forall y | y in rows ensures rows[y] != nm {
      assert rows[y] in rows.Values;
    }
  }

  /** Names that can be inserted together: distinct, and none stored. */
  ghost predicate FreshBatch(rows: map<int, string>, names: seq<string>) {
    Distinct(names) && forall j | 0 <= j < |names| :: names[j] !in rows.Values
  }

  /** The `k`-th name of a batch of distinct names, none stored before the
      batch, is not stored after the first `k` of them are. */
  lemma FreshName(rows: map<int, string>, rows0: map<int, string>, next0: int, names: seq<string>, k: nat)
    requires k < |names|
    requires forall x :: x in rows <==> x in rows0 || next0 <= x < next0 + k
    requires forall x | x in rows0 :: rows[x] == rows0[x]
    requires forall j | 0 <= j < k :: next0 + j in rows && rows[next0 + j] == names[j]
    requires FreshBatch(rows0, names[..k + 1])
    ensures names[k] !in rows.Values && FreshBatch(rows0, names[..k])
  {
    assert forall j | 0 <= j < k :: names[..k][j] == names[..k + 1][j];
    forall x | x in rows ensures rows[x] != names[k] {
      if x in rows0 {
        assert rows[x] in rows0.Values;
      } else {
        var j := x - next0;
        assert names[..k + 1][j] == names[j] && names[..k + 1][k] == names[k];
      }
    }
    assert names[..k + 1][k] == names[k] && names[k] !in rows0.Values;
  }

  class Table {
    /** id -> name of every stored row. */
    var rows: map<int, string>
    /** The next value of the id sequence. */
    var nextId: int
    /** Every query issued so far. */
    ghost var log: seq<Query>

    /** Ids come from the sequence, and no name is stored twice: the
        database's unique constraint on `name`, under which a duplicate
        insert raises `IntegrityError`. The resolver never attempts one, as
        it inserts only names it did not find, each once. */
    ghost predicate Valid()
      reads this
    {
      IdsFresh() && UniqueNames(rows)
    }

    /** Every stored id was drawn from the sequence already. */
    ghost predicate IdsFresh()
      reads this
    {
      forall x | x in rows :: x < nextId
    }

    constructor()
      ensures rows == map[] && nextId == 1 && log == []
      ensures Valid()
    {
      rows := map[];
      nextId := 1;
      log := [];
    }

    /** `SELECT * WHERE id IN ids OR name IN names`: every stored row whose id
        or name is asked for, each once, in no particular order. */
    method SelectWhere(ids: seq<int>, names: seq<string>) returns (found: seq<Row>)
      modifies this
      ensures rows == old(rows) && nextId == old(nextId)
      ensures log == old(log) + [Query.SelectWhere(ids, names)]
      ensures forall r | r in found :: r.id in rows && rows[r.id] == r.name && (r.id in ids || r.name in names)
      ensures forall x | x in rows && (x in ids || rows[x] in names) :: Row(x, rows[x]) in found
      ensures forall i, j | 0 <= i < j < |found| :: found[i].id != found[j].id
    {
      log := log + [Query.SelectWhere(ids, names)];
      found := [];
      var left := rows.Keys;
      while left != {}
        invariant left <= rows.Keys
        invariant rows == old(rows) && nextId == old(nextId) && log == old(log) + [Query.SelectWhere(ids, names)]
        invariant forall r | r in found :: r.id in rows && r.id !in left && rows[r.id] == r.name && (r.id in ids || r.name in names)
        invariant forall x | x in rows && x !in left && (x in ids || rows[x] in names) :: Row(x, rows[x]) in found
        invariant forall i, j | 0 <= i < j < |found| :: found[i].id != found[j].id
        decreases left
      {
        assert exists x :: x in left by {
          NonEmpty(left);
        }
        var x :| x in left;
        if x in ids || rows[x] in names {
          found := found + [Row(x, rows[x])];
        }
        left := left - {x};
      }
    }

    /** `INSERT ... RETURNING *` of one row per name: the rows get the next
        ids of the sequence, in the order given. */
    method InsertManyReturning(names: seq<string>) returns (created: seq<Row>)
      requires IdsFresh()
      modifies this
      ensures IdsFresh()
      ensures nextId == old(nextId) + |names|
      ensures |created| == |names|
      ensures forall k | 0 <= k < |names| :: created[k] == Row(old(nextId) + k, names[k])
      ensures forall x :: x in rows <==> x in old(rows) || old(nextId) <= x < nextId
      ensures forall x | x in old(rows) :: rows[x] == old(rows)[x]
      ensures forall k | 0 <= k < |names| :: old(nextId) + k in rows && rows[old(nextId) + k] == names[k]
      ensures log == old(log) + [Query.InsertMany(names)]
      ensures old(Valid()) && Distinct(names) && (forall k | 0 <= k < |names| :: names[k] !in old(rows).Values)
              ==> Valid()
    {
      log := log + [Query.InsertMany(names)];
      ghost var rows0, next0 := rows, nextId;
      ghost var valid0 := Valid();
      created := [];
      var k := 0;
      while k < |names|
        invariant 0 <= k <= |names| && nextId == next0 + k
        invariant IdsFresh() && log == old(log) + [Query.InsertMany(names)]
        invariant |created| == k
        invariant forall j | 0 <= j < k :: created[j] == Row(next0 + j, names[j])
        invariant forall x :: x in rows <==> x in rows0 || next0 <= x < nextId
        invariant forall x | x in rows0 :: rows[x] == rows0[x]
        invariant forall j | 0 <= j < k :: next0 + j in rows && rows[next0 + j] == names[j]
        invariant valid0 && FreshBatch(rows0, names[..k]) ==> Valid()
      {
        if valid0 && FreshBatch(rows0, names[..k + 1]) {
          FreshName(rows, rows0, next0, names, k);
          UniqueAdd(rows, nextId, names[k]);
        }
        rows := rows[nextId := names[k]];
        created := created + [Row(nextId, names[k])];
        nextId := nextId + 1;
        k := k + 1;
      }
      assert names[..k] == names;
      assert Distinct(names) && (forall k | 0 <= k < |names| :: names[k] !in old(rows).Values) ==> FreshBatch(rows0, names);
    }
  }
}
