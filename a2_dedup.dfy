/** `clear_duplicates` of a2: the routes of question 5 with each undirected
    route kept once, in the orientation first seen. */
module RouteDedup {

  /** A row's (from code, to code, altitude difference). */
  datatype Trip = Trip(from: string, to: string, diff: int)

  /** The same route in the other direction. */
  function Swap(t: Trip): Trip {
    Trip(t.to, t.from, t.diff)
  }

  /** Whether `t` or its reverse is already among `us`. */
  predicate Seen(us: seq<Trip>, t: Trip) {
    t in us || Swap(t) in us
  }

  /** The tuples `clear_duplicates` keeps from the rows, in scan order. */
  function Dedup(rows: seq<Trip>): seq<Trip>
    decreases |rows|
  {
    if rows == [] then []
    else
      var us := Dedup(rows[..|rows| - 1]);
      var t := rows[|rows| - 1];
      if Seen(us, t) then us else us + [t]
  }

  /** `clear_duplicates`: scans the rows and appends each one whose tuple
      and swapped tuple are both new. */
  method ClearDuplicates(rows: seq<Trip>) returns (uniques: seq<Trip>)
    ensures uniques == Dedup(rows)
  {
    uniques := [];
    var i := 0;
    while i < |rows|
      invariant i <= |rows| && uniques == Dedup(rows[..i])
    {
      assert rows[..i + 1][..i] == rows[..i];
      var t := rows[i];
      if t !in uniques && Swap(t) !in uniques {
        uniques := uniques + [t];
      }
      i := i + 1;
    }
    assert rows[..i] == rows;
  }

  /** The positions of the rows `clear_duplicates` keeps. */
  function KeptAt(rows: seq<Trip>): seq<nat>
    decreases |rows|
  {
    if rows == [] then []
    else if Seen(Dedup(rows[..|rows| - 1]), rows[|rows| - 1]) then KeptAt(rows[..|rows| - 1])
    else KeptAt(rows[..|rows| - 1]) + [|rows| - 1]
  }

  /** The kept tuples are rows of the input taken at increasing positions:
      the output is a subsequence of the input, in scan order. */
  lemma {:induction false} DedupInOrder(rows: seq<Trip>)
    ensures var us, at := Dedup(rows), KeptAt(rows);
      |at| == |us| &&
      (forall k :: 0 <= k < |at| ==> at[k] < |rows| && us[k] == rows[at[k]]) &&
      (forall k, l :: 0 <= k < l < |at| ==> at[k] < at[l])
    decreases |rows|
  {
    if rows != [] {
      var init := rows[..|rows| - 1];
      DedupInOrder(init);
      assert forall k :: 0 <= k < |init| ==> init[k] == rows[k];
    }
  }

  /** Two tuples that are different routes, in either direction. */
  predicate Apart(a: Trip, b: Trip) {
    a != b && a != Swap(b)
  }

  /** No two kept tuples are the same route in either direction. */
  lemma {:induction false} DedupDistinct(rows: seq<Trip>)
    ensures forall k, l :: 0 <= k < l < |Dedup(rows)| ==> Apart(Dedup(rows)[k], Dedup(rows)[l])
    decreases |rows|
  {
    if rows != [] {
      var init := rows[..|rows| - 1];
      DedupDistinct(init);
      var us := Dedup(init);
      var t := rows[|rows| - 1];
      if !Seen(us, t) {
        var vs := us + [t];
        forall k, l | 0 <= k < l < |vs|
          ensures Apart(vs[k], vs[l])
        {
          assert vs[k] == us[k] && us[k] in us;
          if l < |us| {
            assert vs[l] == us[l];
          } else {
            assert Swap(Swap(t)) == t;
          }
        }
        assert Dedup(rows) == vs;
      }
    }
  }

  /** Every row is kept, or it or its reverse was kept before it. */
  lemma {:induction false} DedupCovers(rows: seq<Trip>)
    ensures forall k :: 0 <= k < |rows| ==> Seen(Dedup(rows), rows[k])
    decreases |rows|
  {
    if rows != [] {
      var init := rows[..|rows| - 1];
      DedupCovers(init);
      var us := Dedup(init);
      forall k | 0 <= k < |rows|
        ensures Seen(Dedup(rows), rows[k])
      {
        if k < |init| {
          assert rows[k] == init[k];
          assert Seen(us, rows[k]);
        }
      }
    }
  }

  /** Only tuples of rows are kept: the same diff belongs to the same route. */
  lemma DedupFromRows(rows: seq<Trip>)
    ensures forall u :: u in Dedup(rows) ==> u in rows
  {
    DedupInOrder(rows);
    var us, at := Dedup(rows), KeptAt(rows);
    forall u | u in us
      ensures u in rows
    {
      var k :| 0 <= k < |us| && us[k] == u;
      assert rows[at[k]] == u;
    }
  }
}
