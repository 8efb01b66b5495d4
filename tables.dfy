/** A database table as the utilities see it: rows in insertion order, each
    with the id the table assigned, and the `eq`-filters and deletes the
    utilities run against it. */
module Tables {
  import opened Outcomes

  /** A stored row with the id the table assigned to it. */
  datatype Stored<R> = Stored(id: int, row: R)

  /** The rows `insert(...).select()` returns: `rows` with ids `first`, `first + 1`, ... */
  function Stamp<R(!new)>(first: int, rows: seq<R>): (r: seq<Stored<R>>)
    ensures |r| == |rows|
    ensures forall k :: 0 <= k < |r| ==> r[k] == Stored(first + k, rows[k])
  {
    seq(|rows|, k requires 0 <= k < |rows| => Stored(first + k, rows[k]))
  }

  /** The row with id `id`, if any: `select('*').eq('id', id).single()`. */
  function FindById<R(!new)>(rows: seq<Stored<R>>, id: int): (r: Option<Stored<R>>)
    ensures r.Some? ==> r.value in rows && r.value.id == id
    ensures r.None? <==> forall e :: e in rows ==> e.id != id
  {
    if rows == [] then None
    else if rows[0].id == id then Some(rows[0])
    else FindById(rows[1..], id)
  }

  /** The rows left after `delete().eq('id', id)`. */
  function WithoutId<R(!new)>(rows: seq<Stored<R>>, id: int): (r: seq<Stored<R>>)
    ensures forall e :: e in r <==> e in rows && e.id != id
    ensures |r| <= |rows|
    ensures UniqueIds(rows) ==> UniqueIds(r)
  {
    if rows == [] then []
    else
      var rest := WithoutId(rows[1..], id);
      UniqueTail(rows);
      (if rows[0].id == id then [] else [rows[0]]) + rest
  }

  /** Ids are unique. */
  predicate UniqueIds<R(!new)>(rows: seq<Stored<R>>) {
    forall i, j :: 0 <= i < j < |rows| ==> rows[i].id != rows[j].id
  }

  /** With unique ids, the tail has unique ids and none of them is the head's id. */
  lemma UniqueTail<R(!new)>(rows: seq<Stored<R>>)
    requires rows != []
    ensures UniqueIds(rows) ==> UniqueIds(rows[1..]) && forall e :: e in rows[1..] ==> e.id != rows[0].id
  {
    if UniqueIds(rows) {
      forall e | e in rows[1..] ensures e.id != rows[0].id {
        var j :| 0 <= j < |rows[1..]| && rows[1..][j] == e;
        assert rows[j + 1] == e;
      }
    }
  }

  /** With unique ids, deleting an id that is present removes exactly that one
      row and keeps the others in order. */
  lemma {:induction false} WithoutIdRemovesOne<R(!new)>(rows: seq<Stored<R>>, k: int)
    requires UniqueIds(rows) && 0 <= k < |rows|
    ensures WithoutId(rows, rows[k].id) == rows[..k] + rows[k + 1..]
  {
    if k == 0 {
      WithoutIdHead(rows);
    } else {
      var id := rows[k].id;
      assert rows[0].id != id;
      UniqueTail(rows);
      WithoutIdRemovesOne(rows[1..], k - 1);
      WithoutIdKeepsHead(rows, id);
      SplitAfterHead(rows, k);
    }
  }

  /** With unique ids, deleting the first row's id removes just that row. */
  lemma WithoutIdHead<R(!new)>(rows: seq<Stored<R>>)
    requires UniqueIds(rows) && rows != []
    ensures WithoutId(rows, rows[0].id) == rows[1..]
  {
    UniqueTail(rows);
    WithoutIdAbsent(rows[1..], rows[0].id);
  }

  /** A first row with another id survives the delete, in front. */
  lemma WithoutIdKeepsHead<R(!new)>(rows: seq<Stored<R>>, id: int)
    requires rows != [] && rows[0].id != id
    ensures WithoutId(rows, id) == [rows[0]] + WithoutId(rows[1..], id)
  {
  }

  /** Dropping element `k > 0` commutes with dropping the head. */
  lemma SplitAfterHead<T>(s: seq<T>, k: int)
    requires 0 < k < |s|
    ensures s[..k] + s[k + 1..] == [s[0]] + (s[1..][..k - 1] + s[1..][k..])
  {
    assert s[..k] == [s[0]] + s[1..][..k - 1];
    assert s[k + 1..] == s[1..][k..];
  }

  /** Deleting an id no row has leaves the rows unchanged. */
  lemma {:induction false} WithoutIdAbsent<R(!new)>(rows: seq<Stored<R>>, id: int)
    requires forall e :: e in rows ==> e.id != id
    ensures WithoutId(rows, id) == rows
  {
    if rows != [] {
      assert rows[0] in rows;
      WithoutIdAbsent(rows[1..], id);
      assert [rows[0]] + rows[1..] == rows;
    }
  }

  /** Appending freshly stamped rows keeps ids unique and below the new next id. */
  lemma StampAppend<R(!new)>(rows: seq<Stored<R>>, next: int, data: seq<R>)
    requires 0 <= next && UniqueIds(rows) && forall e :: e in rows ==> 0 <= e.id < next
    ensures var all := rows + Stamp(next, data);
            && UniqueIds(all)
            && (forall e :: e in all ==> 0 <= e.id < next + |data|)
            && (forall e :: e in all ==> e in rows || e.row in data)
  {
    var added := Stamp(next, data);
    var all := rows + added;
    forall i, j | 0 <= i < j < |all| ensures all[i].id != all[j].id {
      if j >= |rows| {
        assert all[j] == added[j - |rows|];
        if i < |rows| {
          assert all[i] in rows;
        } else {
          assert all[i] == added[i - |rows|];
        }
      }
    }
    forall e | e in all ensures (0 <= e.id < next + |data|) && (e in rows || e.row in data) {
      if e !in rows {
        assert e in added;
        var k :| 0 <= k < |added| && added[k] == e;
        assert e.row == data[k];
      }
    }
  }

  /** The rows of user `u`: `eq('user_id', u)`. */
  function OwnedBy<R(!new)>(rows: seq<Stored<R>>, ownerOf: R -> string, u: string): (r: seq<Stored<R>>)
    ensures forall e :: e in r <==> e in rows && ownerOf(e.row) == u
  {
    if rows == [] then []
    else
      (if ownerOf(rows[0].row) == u then [rows[0]] else []) + OwnedBy(rows[1..], ownerOf, u)
  }

  /** The owner filter keeps each row at most as often as the table holds it. */
  lemma {:induction false} OwnedBySubMultiset<R(!new)>(rows: seq<Stored<R>>, ownerOf: R -> string, u: string)
    ensures multiset(OwnedBy(rows, ownerOf, u)) <= multiset(rows)
  {
    if rows != [] {
      assert rows == [rows[0]] + rows[1..];
      OwnedBySubMultiset(rows[1..], ownerOf, u);
    }
  }

}
