/**
 * The `users` table as the sequence of its rows, and the queries and updates
 * that the user service applies to it. The table has no defined order; a
 * sequence is used so that lookups read as the source's `FirstOrDefault`.
 */
module Table {
  import opened Wrappers
  import opened Users

  /** The primary-key invariant: no two rows share an `Id`. */
  ghost predicate DistinctIds(rows: seq<User>) {
    forall i, j :: 0 <= i < j < |rows| ==> rows[i].id != rows[j].id
  }

  /** Some row of the table has key `id`. */
  ghost predicate HasId(rows: seq<User>, id: int32) {
    exists i :: 0 <= i < |rows| && rows[i].id == id
  }

  /** The position of the first row with key `id`, if there is one. */
  function FirstIndex(rows: seq<User>, id: int32): (r: Option<nat>)
    ensures r.Some? ==> r.value < |rows| && rows[r.value].id == id
    ensures r.Some? ==> forall j :: 0 <= j < r.value ==> rows[j].id != id
    ensures r.None? <==> !HasId(rows, id)
  {
    if |rows| == 0 then None
    else if rows[0].id == id then Some(0)
    else
      match FirstIndex(rows[1..], id)
      case None =>
        assert forall i :: 0 < i < |rows| ==> rows[i] == rows[1..][i - 1];
        None
      case Some(k) => Some(k + 1)
  }

  /** `Users.FirstOrDefault(x => x.Id == id)`: the first row with key `id`, or none. */
  function FirstOrDefault(rows: seq<User>, id: int32): (r: Option<User>)
    ensures r.Some? <==> HasId(rows, id)
    ensures r.Some? ==> r.value in rows && r.value.id == id
  {
    match FirstIndex(rows, id)
    case None => None
    case Some(i) => Some(rows[i])
  }

  /** The table after a hard delete of key `id`: the rows whose key differs, in order. */
  function Without(rows: seq<User>, id: int32): (r: seq<User>)
    ensures forall u :: u in r <==> u in rows && u.id != id
    ensures |r| <= |rows|
  {
    if |rows| == 0 then []
    else if rows[0].id == id then Without(rows[1..], id)
    else [rows[0]] + Without(rows[1..], id)
  }

  /**
   * The table after an update from `source`: the row with `source`'s key takes
   * `source`'s first and last names, every other row is left as it was.
   */
  function Renamed(rows: seq<User>, source: User): (r: seq<User>)
    ensures |r| == |rows|
    ensures forall i :: 0 <= i < |rows| ==> r[i].id == rows[i].id
    ensures forall i :: 0 <= i < |rows| && rows[i].id != source.id ==> r[i] == rows[i]
    ensures forall i :: 0 <= i < |rows| && rows[i].id == source.id ==> r[i] == WithNames(rows[i], source)
  {
    if |rows| == 0 then []
    else
      var head := if rows[0].id == source.id then WithNames(rows[0], source) else rows[0];
      [head] + Renamed(rows[1..], source)
  }

  // ---------------------------------------------------------------------------
  // Lemmas about the table
  // ---------------------------------------------------------------------------

  /** A key occurs in a non-empty table exactly when it is the first row's or occurs further on. */
  lemma HasIdCons(rows: seq<User>, id: int32)
    requires |rows| > 0
    ensures HasId(rows, id) <==> rows[0].id == id || HasId(rows[1..], id)
  {
    if HasId(rows, id) && rows[0].id != id {
      var i :| 0 <= i < |rows| && rows[i].id == id;
      assert rows[1..][i - 1].id == id;
    }
    if HasId(rows[1..], id) {
      var i :| 0 <= i < |rows[1..]| && rows[1..][i].id == id;
      assert rows[i + 1].id == id;
    }
  }

  /** Prepending a row keeps the keys distinct exactly when its key is new. */
  lemma DistinctCons(row: User, rows: seq<User>)
    ensures DistinctIds([row] + rows) <==> !HasId(rows, row.id) && DistinctIds(rows)
  {
    var s := [row] + rows;
    assert forall i :: 0 <= i < |rows| ==> s[i + 1] == rows[i];
    if DistinctIds(s) {
      forall i, j | 0 <= i < j < |rows| ensures rows[i].id != rows[j].id {
        assert s[i + 1].id != s[j + 1].id;
      }
      forall i | 0 <= i < |rows| ensures rows[i].id != row.id {
        assert s[0].id != s[i + 1].id;
      }
    }
  }

  /**
   * Under the primary-key invariant a lookup by key returns THE row with that
   * key: whichever stored row has key `id` is the one found.
   */
  lemma LookupByKey(rows: seq<User>, id: int32)
    ensures DistinctIds(rows) ==> forall u :: u in rows && u.id == id ==> FirstOrDefault(rows, id) == Some(u)
  {
    if DistinctIds(rows) {
      forall u | u in rows && u.id == id ensures FirstOrDefault(rows, id) == Some(u) {
        var k :| 0 <= k < |rows| && rows[k] == u;
        var i := FirstIndex(rows, id).value;
        assert !(i < k) && !(k < i);
      }
    }
  }

  /** Deleting a key that no row has changes nothing. */
  lemma {:induction false} WithoutAbsent(rows: seq<User>, id: int32)
    requires !HasId(rows, id)
    ensures Without(rows, id) == rows
  {
    if |rows| > 0 {
      HasIdCons(rows, id);
      WithoutAbsent(rows[1..], id);
      assert rows == [rows[0]] + rows[1..];
    }
  }

  /** Deleting a present key from a table with distinct keys removes exactly one row. */
  lemma {:induction false} WithoutPresent(rows: seq<User>, id: int32)
    requires DistinctIds(rows) && HasId(rows, id)
    ensures |Without(rows, id)| == |rows| - 1
    ensures DistinctIds(Without(rows, id))
  {
    DistinctCons(rows[0], rows[1..]);
    HasIdCons(rows, id);
    assert rows == [rows[0]] + rows[1..];
    if rows[0].id == id {
      WithoutAbsent(rows[1..], id);
    } else {
      WithoutPresent(rows[1..], id);
      var rest := Without(rows[1..], id);
      forall i | 0 <= i < |rest| ensures rest[i].id != rows[0].id {
        assert rest[i] in rows[1..];
      }
      DistinctCons(rows[0], rest);
    }
  }

  /**
   * Removing the row found by a key lookup, as the delete operation does,
   * yields the table `Without` that key, when keys are distinct.
   */
  lemma {:induction false} RemoveFoundRow(rows: seq<User>, id: int32, i: nat)
    requires DistinctIds(rows)
    requires FirstIndex(rows, id) == Some(i)
    ensures rows[..i] + rows[i + 1..] == Without(rows, id)
  {
    DistinctCons(rows[0], rows[1..]);
    var tail := rows[1..];
    if i == 0 {
      WithoutAbsent(tail, id);
      assert rows[..0] + rows[1..] == tail;
    } else {
      assert FirstIndex(tail, id) == Some(i - 1);
      RemoveFoundRow(tail, id, i - 1);
      SliceAfterHead(rows, i);
    }
  }

  /** Cutting position `i > 0` out of a table is keeping its head and cutting `i - 1` out of its tail. */
  lemma SliceAfterHead(rows: seq<User>, i: nat)
    requires 0 < i < |rows|
    ensures rows[..i] + rows[i + 1..] == [rows[0]] + (rows[1..][..i - 1] + rows[1..][i..])
  {
  }

  /** Updating the row found by a key lookup in place yields the `Renamed` table, when keys are distinct. */
  lemma RenameFoundRow(rows: seq<User>, source: User, i: nat)
    requires DistinctIds(rows)
    requires FirstIndex(rows, source.id) == Some(i)
    ensures rows[i := WithNames(rows[i], source)] == Renamed(rows, source)
  {
    var r := Renamed(rows, source);
    forall j | 0 <= j < |rows| ensures rows[i := WithNames(rows[i], source)][j] == r[j] {
      if j != i {
        assert rows[j].id != source.id;
      }
    }
  }

  /** An update keeps the set of keys, so it keeps them distinct. */
  lemma RenamedDistinct(rows: seq<User>, source: User)
    requires DistinctIds(rows)
    ensures DistinctIds(Renamed(rows, source))
  {
    var r := Renamed(rows, source);
    forall i, j | 0 <= i < j < |r| ensures r[i].id != r[j].id {
      assert r[i].id == rows[i].id && r[j].id == rows[j].id;
    }
  }

  /** An update of a key that no row has changes nothing. */
  lemma RenamedAbsent(rows: seq<User>, source: User)
    requires !HasId(rows, source.id)
    ensures Renamed(rows, source) == rows
  {
    var r := Renamed(rows, source);
    forall j | 0 <= j < |rows| ensures r[j] == rows[j] {
      assert rows[j].id != source.id;
    }
  }

  /**
   * Lookups after an update: the updated key now finds the stored row with the
   * new names and its other columns unchanged; every other key finds what it
   * found before.
   */
  lemma {:induction false} LookupAfterRename(rows: seq<User>, source: User, id: int32)
    ensures FirstOrDefault(Renamed(rows, source), id) ==
      match FirstOrDefault(rows, id)
      case None => None
      case Some(u) => if id == source.id then Some(WithNames(u, source)) else Some(u)
  {
    var r := Renamed(rows, source);
    if |rows| > 0 && rows[0].id != id {
      LookupAfterRename(rows[1..], source, id);
      assert r[1..] == Renamed(rows[1..], source);
    }
  }

  /** Appending a row keeps the keys distinct when its key is new. */
  lemma AppendDistinct(rows: seq<User>, row: User)
    requires DistinctIds(rows) && !HasId(rows, row.id)
    ensures DistinctIds(rows + [row])
  {
    var s := rows + [row];
    forall i, j | 0 <= i < j < |s| ensures s[i].id != s[j].id {
      if j == |rows| {
        assert s[i] == rows[i];
      }
    }
  }

  /**
   * Lookups after an insert: a key already present finds what it found before;
   * otherwise the new row's key finds the new row and any other key finds nothing.
   */
  lemma {:induction false} LookupAfterAppend(rows: seq<User>, row: User, id: int32)
    ensures FirstOrDefault(rows + [row], id) ==
      if HasId(rows, id) then FirstOrDefault(rows, id)
      else if row.id == id then Some(row)
      else None
  {
    if |rows| > 0 && rows[0].id != id {
      LookupAfterAppend(rows[1..], row, id);
      assert (rows + [row])[1..] == rows[1..] + [row];
      HasIdCons(rows, id);
    }
  }
}
