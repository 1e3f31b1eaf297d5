/** Counting the rows of a table that satisfy a condition. */
module Counting {
  import opened Basics

  function Count<T>(rows: seq<T>, p: T -> bool): nat {
    if rows == [] then 0 else Count(rows[..|rows| - 1], p) + if p(rows[|rows| - 1]) then 1 else 0
  }

  lemma CountAppend<T>(rows: seq<T>, row: T, p: T -> bool)
    ensures Count(rows + [row], p) == Count(rows, p) + if p(row) then 1 else 0
  {
    assert (rows + [row])[..|rows|] == rows;
  }

  lemma {:induction false} CountConcat<T>(a: seq<T>, b: seq<T>, p: T -> bool)
    ensures Count(a + b, p) == Count(a, p) + Count(b, p)
  {
    if b == [] { assert a + b == a; } else {
      assert (a + b)[..|a + b| - 1] == a + b[..|b| - 1];
      CountConcat(a, b[..|b| - 1], p);
    }
  }

  lemma {:induction false} CountUpdate<T>(rows: seq<T>, i: nat, row: T, p: T -> bool)
    requires i < |rows|
    ensures Count(rows[i := row], p) == Count(rows, p) - (if p(rows[i]) then 1 else 0) + (if p(row) then 1 else 0)
  {
    var n := |rows| - 1;
    if i < n {
      assert rows[i := row][..n] == rows[..n][i := row];
      CountUpdate(rows[..n], i, row, p);
    } else {
      assert rows[i := row][..n] == rows[..n];
    }
  }

  lemma {:induction false} CountNone<T>(rows: seq<T>, p: T -> bool)
    ensures Count(rows, p) == 0 <==> forall i | 0 <= i < |rows| :: !p(rows[i])
  {
    if rows != [] {
      var n := |rows| - 1;
      CountNone(rows[..n], p);
      assert forall i | 0 <= i < n :: rows[..n][i] == rows[i];
    }
  }

  lemma {:induction false} CountSame<T>(a: seq<T>, b: seq<T>, p: T -> bool)
    requires |a| == |b| && forall i | 0 <= i < |a| :: p(a[i]) == p(b[i])
    ensures Count(a, p) == Count(b, p)
  {
    if a != [] { CountSame(a[..|a| - 1], b[..|b| - 1], p); }
  }

  /** The positions of the rows that satisfy p, in table order. */
  function Positions<T>(rows: seq<T>, p: T -> bool): seq<nat> {
    if rows == [] then [] else
      var n := |rows| - 1;
      Positions(rows[..n], p) + if p(rows[n]) then [n] else []
  }

  lemma {:induction false} PositionsAreIn<T>(rows: seq<T>, p: T -> bool)
    ensures forall k | 0 <= k < |Positions(rows, p)| :: Positions(rows, p)[k] < |rows| && p(rows[Positions(rows, p)[k]])
    ensures forall i, j | 0 <= i < j < |Positions(rows, p)| :: Positions(rows, p)[i] < Positions(rows, p)[j]
    ensures |Positions(rows, p)| == Count(rows, p)
  {
    if rows != [] {
      var n := |rows| - 1;
      PositionsAreIn(rows[..n], p);
      assert forall k | 0 <= k < |Positions(rows[..n], p)| :: Positions(rows[..n], p)[k] < n;
    }
  }

  lemma {:induction false} PositionsHave<T>(rows: seq<T>, p: T -> bool, i: nat)
    requires i < |rows| && p(rows[i])
    ensures i in Positions(rows, p)
  {
    var n := |rows| - 1;
    if i < n {
      PositionsHave(rows[..n], p, i);
      assert Positions(rows, p) == Positions(rows[..n], p) + if p(rows[n]) then [n] else [];
    }
  }

  /** What a listing by condition holds: those rows and no others, once each. */
  lemma PositionsAre<T>(rows: seq<T>, p: T -> bool)
    ensures forall i :: i in Positions(rows, p) <==> 0 <= i < |rows| && p(rows[i])
    ensures forall k | 0 <= k < |Positions(rows, p)| :: Positions(rows, p)[k] < |rows| && p(rows[Positions(rows, p)[k]])
    ensures forall i, j | 0 <= i < j < |Positions(rows, p)| :: Positions(rows, p)[i] < Positions(rows, p)[j]
    ensures |Positions(rows, p)| == Count(rows, p)
  {
    PositionsAreIn(rows, p);
    forall i | 0 <= i < |rows| && p(rows[i]) ensures i in Positions(rows, p) { PositionsHave(rows, p, i); }
  }

  lemma PositionsAppend<T>(rows: seq<T>, row: T, p: T -> bool)
    ensures Positions(rows + [row], p) == Positions(rows, p) + if p(row) then [|rows|] else []
  {
    assert (rows + [row])[..|rows|] == rows;
  }

  lemma CountAppendIf<T>(rows: seq<T>, row: T, added: bool, p: T -> bool)
    ensures Count(rows + if added then [row] else [], p) == Count(rows, p) + if added && p(row) then 1 else 0
  {
    if added { CountAppend(rows, row, p); } else { assert rows + [] == rows; }
  }

  // ---- Rows by key ----

  function Keyed<T>(key: T -> string, id: string): T -> bool { (row: T) => key(row) == id }

  /** Counting the rows key by key counts every row once. */
  lemma {:induction false} RowsAreCountedOnce<T>(ids: set<string>, rows: seq<T>, key: T -> string)
    requires forall row | row in rows :: key(row) in ids
    ensures SumOver(ids, (id: string) => Count(rows, Keyed(key, id))) == |rows|
  {
    var f := (id: string) => Count(rows, Keyed(key, id));
    if rows == [] {
      SumOfZeros(ids, f);
    } else {
      var rest, last := rows[..|rows| - 1], rows[|rows| - 1];
      var g := (id: string) => Count(rest, Keyed(key, id));
      assert forall row | row in rest :: row in rows;
      RowsAreCountedOnce(ids, rest, key);
      assert last in rows;
      SumOverChange(ids, g, f, key(last));
    }
  }
}
