/**
  The group-major layout of `_real_corpus` in `backend/eval/coarse_scale.py`: passages sorted by
  group, the first of each group marked, so that a group is a slice and its mean a `reduceat`.
 */
module Grouping {
  import opened Seqs
  import opened Streaming

  datatype Row<T> = Row(gid: int, value: T)

  /** `[0] + [i for i in range(1, n) if labels[i] != labels[i - 1]]`, over the first `n` rows. */
  function Starts<T>(rows: seq<Row<T>>, n: nat): seq<nat>
    requires n <= |rows|
  {
    if n == 0 then [] else if n == 1 || rows[n - 1].gid != rows[n - 2].gid then Starts(rows, n - 1) + [n - 1]
    else Starts(rows, n - 1)
  }

  /** The comprehension as the loop it is. */
  method MarkStarts<T>(rows: seq<Row<T>>) returns (starts: seq<nat>)
    requires rows != []
    ensures starts == Starts(rows, |rows|)
  {
    starts := [0];
    for i := 1 to |rows|
      invariant starts == Starts(rows, i)
    {
      if rows[i].gid != rows[i - 1].gid { starts := starts + [i]; }
    }
  }

  function EndOf(starts: seq<nat>, n: nat, g: nat): nat
    requires g < |starts|
  {
    if g + 1 < |starts| then starts[g + 1] else n
  }

  /** Slice `g` holds one group. */
  ghost predicate OneGroup<T>(rows: seq<Row<T>>, starts: seq<nat>, n: nat, g: nat)
    requires g < |starts|
  {
    var lo, hi := starts[g], EndOf(starts, n, g);
    lo < hi <= |rows| && forall i :: lo <= i < hi ==> rows[i].gid == rows[lo].gid
  }

  /** And not the group of the slice before it. */
  ghost predicate NewGroup<T>(rows: seq<Row<T>>, starts: seq<nat>, g: nat)
    requires g < |starts|
  {
    0 < starts[g] < |rows| && rows[starts[g]].gid != rows[starts[g] - 1].gid
  }

  /** `starts` cuts the first `n` rows into runs of one group, each differing from the one before. */
  ghost predicate CutsRuns<T>(rows: seq<Row<T>>, starts: seq<nat>, n: nat) {
    && starts != [] && starts[0] == 0
    && (forall g :: 0 <= g < |starts| ==> OneGroup(rows, starts, n, g))
    && (forall g :: 0 < g < |starts| ==> NewGroup(rows, starts, g))
  }

  lemma NewRun<T>(rows: seq<Row<T>>, starts: seq<nat>, n: nat)
    requires 0 < n < |rows| && CutsRuns(rows, starts, n) && rows[n].gid != rows[n - 1].gid
    ensures CutsRuns(rows, starts + [n], n + 1)
  {
    var longer, m := starts + [n], n + 1;
    forall g | 0 <= g < |longer| ensures OneGroup(rows, longer, m, g) {
      if g < |starts| { assert OneGroup(rows, starts, n, g); }
    }
    forall g | 0 < g < |longer| ensures NewGroup(rows, longer, g) {
      if g < |starts| { assert NewGroup(rows, starts, g); }
    }
  }

  lemma SameRun<T>(rows: seq<Row<T>>, starts: seq<nat>, n: nat)
    requires 0 < n < |rows| && CutsRuns(rows, starts, n) && rows[n].gid == rows[n - 1].gid
    ensures CutsRuns(rows, starts, n + 1)
  {
    var m := n + 1;
    forall g | 0 <= g < |starts| ensures OneGroup(rows, starts, m, g) {
      assert OneGroup(rows, starts, n, g);
    }
  }

  lemma {:induction false} StartsCutRuns<T>(rows: seq<Row<T>>, n: nat)
    requires 1 <= n <= |rows|
    ensures CutsRuns(rows, Starts(rows, n), n)
  {
    if n == 1 {
      assert Starts(rows, 1) == [0];
      assert OneGroup(rows, [0], 1, 0);
    } else {
      StartsCutRuns(rows, n - 1);
      if rows[n - 1].gid != rows[n - 2].gid {
        NewRun(rows, Starts(rows, n - 1), n - 1);
      } else {
        SameRun(rows, Starts(rows, n - 1), n - 1);
      }
    }
  }

  /** The marks are a layout the virtual corpus can be built on. */
  lemma StartsAreGroupMajor<T>(rows: seq<Row<T>>, c: Synthetic)
    requires rows != [] && c.Rows() == |rows| && c.starts == Starts(rows, |rows|)
    ensures c.GroupMajor()
  {
    StartsCutRuns(rows, |rows|);
    forall g | 0 < g < |c.starts| ensures c.starts[g - 1] < c.starts[g] {
      assert OneGroup(rows, c.starts, |rows|, g - 1);
    }
    assert OneGroup(rows, c.starts, |rows|, |c.starts| - 1);
  }

  // ----- A group is a slice -----

  ghost predicate Sorted<T>(rows: seq<Row<T>>) {
    forall i, j :: 0 <= i < j < |rows| ==> rows[i].gid <= rows[j].gid
  }

  function Labelled<T>(gid: int): Row<T> -> bool { (r: Row<T>) => r.gid == gid }

  lemma {:induction false} SliceIsFilter<T>(rows: seq<T>, p: T -> bool, lo: nat, hi: nat)
    requires lo <= hi <= |rows| && forall i :: 0 <= i < |rows| ==> (p(rows[i]) <==> lo <= i < hi)
    ensures Filter(rows, p) == rows[lo..hi]
  {
    var a, b, c := rows[..lo], rows[lo..hi], rows[hi..];
    assert rows == a + (b + c);
    FilterConcat(a, b + c, p);
    FilterConcat(b, c, p);
    FilterNone(a, p);
    FilterAll(b, p);
    FilterNone(c, p);
  }

  lemma Outside<T>(rows: seq<Row<T>>, starts: seq<nat>, g: nat, i: nat)
    requires Sorted(rows) && CutsRuns(rows, starts, |rows|) && g < |starts| && i < |rows|
    requires !(starts[g] <= i < EndOf(starts, |rows|, g))
    ensures starts[g] < |rows| && rows[i].gid != rows[starts[g]].gid
  {
    var lo, hi := starts[g], EndOf(starts, |rows|, g);
    assert OneGroup(rows, starts, |rows|, g);
    if i < lo {
      assert NewGroup(rows, starts, g);
      assert rows[i].gid <= rows[lo - 1].gid < rows[lo].gid;
    } else {
      assert NewGroup(rows, starts, g + 1);
      assert rows[hi - 1].gid < rows[hi].gid <= rows[i].gid;
    }
  }

  /** In sorted rows the slice between two marks is exactly the rows of one group, in order: what
      `reduceat` pools is what the database's `GROUP BY` would. */
  lemma SliceIsGroup<T>(rows: seq<Row<T>>, g: nat)
    requires rows != [] && Sorted(rows) && g < |Starts(rows, |rows|)|
    ensures var starts := Starts(rows, |rows|);
            var lo, hi := starts[g], EndOf(starts, |rows|, g);
            lo < hi <= |rows| && Filter(rows, Labelled(rows[lo].gid)) == rows[lo..hi]
  {
    var starts := Starts(rows, |rows|);
    StartsCutRuns(rows, |rows|);
    var lo, hi := starts[g], EndOf(starts, |rows|, g);
    assert OneGroup(rows, starts, |rows|, g);
    forall i | 0 <= i < |rows| ensures rows[i].gid == rows[lo].gid <==> lo <= i < hi {
      if !(lo <= i < hi) { Outside(rows, starts, g, i); }
    }
    SliceIsFilter(rows, Labelled(rows[lo].gid), lo, hi);
  }

  /** No two slices are of the same group. */
  lemma SlicesApart<T>(rows: seq<Row<T>>, g: nat, h: nat)
    requires rows != [] && Sorted(rows) && g < |Starts(rows, |rows|)| && h < |Starts(rows, |rows|)| && g != h
    ensures var starts := Starts(rows, |rows|);
            starts[g] < |rows| && starts[h] < |rows| && rows[starts[g]].gid != rows[starts[h]].gid
  {
    var starts := Starts(rows, |rows|);
    StartsCutRuns(rows, |rows|);
    assert OneGroup(rows, starts, |rows|, g) && OneGroup(rows, starts, |rows|, h);
    if g < h { StartsRise(rows, starts, g, h); } else { StartsRise(rows, starts, h, g); }
    Outside(rows, starts, g, starts[h]);
  }

  lemma {:induction false} StartsRise<T>(rows: seq<Row<T>>, starts: seq<nat>, g: nat, h: nat)
    requires CutsRuns(rows, starts, |rows|) && g < h < |starts|
    ensures EndOf(starts, |rows|, g) <= starts[h]
    decreases h
  {
    if g + 1 < h {
      StartsRise(rows, starts, g, h - 1);
      assert OneGroup(rows, starts, |rows|, h - 1);
    }
  }
}
