// Selecting the elements of a sequence that satisfy a test, in order.

module Sequences {
  function Select<T>(rows: seq<T>, p: T -> bool): seq<T> {
    if rows == [] then []
    else Select(rows[..|rows| - 1], p) + if p(rows[|rows| - 1]) then [rows[|rows| - 1]] else []
  }

  lemma {:induction false} SelectMember<T>(rows: seq<T>, p: T -> bool, row: T)
    ensures row in Select(rows, p) <==> row in rows && p(row)
  {
    if rows != [] {
      var n := |rows| - 1;
      SelectMember(rows[..n], p, row);
      assert rows == rows[..n] + [rows[n]];
    }
  }

  lemma SelectSnoc<T>(rows: seq<T>, row: T, p: T -> bool)
    ensures Select(rows + [row], p) == Select(rows, p) + if p(row) then [row] else []
  {
    assert (rows + [row])[..|rows|] == rows;
  }

  lemma {:induction false} SelectAll<T>(rows: seq<T>, p: T -> bool)
    requires forall row :: row in rows ==> p(row)
    ensures Select(rows, p) == rows
  {
    if rows != [] {
      var n := |rows| - 1;
      assert rows == rows[..n] + [rows[n]];
      SelectAll(rows[..n], p);
    }
  }

  lemma {:induction false} SelectNothing<T>(rows: seq<T>, p: T -> bool)
    requires forall row :: row in rows ==> !p(row)
    ensures Select(rows, p) == []
  {
    if rows != [] {
      var n := |rows| - 1;
      assert rows == rows[..n] + [rows[n]];
      SelectNothing(rows[..n], p);
    }
  }

  // Deleting rows that p rejects does not change what q selects, when q implies p.
  lemma {:induction false} SelectAfterDelete<T>(rows: seq<T>, p: T -> bool, q: T -> bool)
    requires forall row :: row in rows && q(row) ==> p(row)
    ensures Select(Select(rows, p), q) == Select(rows, q)
  {
    if rows != [] {
      var n := |rows| - 1;
      var kept := Select(rows[..n], p);
      assert rows == rows[..n] + [rows[n]];
      SelectAfterDelete(rows[..n], p, q);
      if p(rows[n]) {
        assert (kept + [rows[n]])[..|kept|] == kept;
      } else {
        assert kept + [] == kept;
      }
    }
  }

  lemma SelectOne<T>(row: T, p: T -> bool)
    ensures Select([row], p) == if p(row) then [row] else []
  {
    assert Select([row][..0], p) == [];
  }
}
