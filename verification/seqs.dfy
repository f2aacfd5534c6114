/** Sequence vocabulary shared by the models: filters, flattening, sums, and sorted naturals. */
module Seqs {

  function Filter<T>(s: seq<T>, p: T -> bool): seq<T> {
    if s == [] then [] else if p(s[0]) then [s[0]] + Filter(s[1..], p) else Filter(s[1..], p)
  }

  lemma {:induction false} FilterKeeps<T>(s: seq<T>, p: T -> bool, x: T)
    ensures x in Filter(s, p) <==> x in s && p(x)
  {
    if s != [] { FilterKeeps(s[1..], p, x); }
  }

  lemma FilterCons<T>(x: T, rest: seq<T>, p: T -> bool)
    ensures Filter([x] + rest, p) == (if p(x) then [x] else []) + Filter(rest, p)
  {
    assert ([x] + rest)[1..] == rest;
  }

  lemma {:induction false} FilterConcat<T>(a: seq<T>, b: seq<T>, p: T -> bool)
    ensures Filter(a + b, p) == Filter(a, p) + Filter(b, p)
  {
    if a == [] {
      assert a + b == b;
    } else {
      FilterConcat(a[1..], b, p);
      assert (a + b)[0] == a[0] && (a + b)[1..] == a[1..] + b;
    }
  }

  /** Filtering by `p` and then by `q` is filtering by anything that means `p && q` on the rows. */
  lemma {:induction false} FilterTwice<T>(s: seq<T>, p: T -> bool, q: T -> bool, both: T -> bool)
    requires forall x :: x in s ==> (both(x) <==> p(x) && q(x))
    ensures Filter(Filter(s, p), q) == Filter(s, both)
  {
    if s != [] {
      FilterTwice(s[1..], p, q, both);
      var rest := Filter(s[1..], p);
      assert ([s[0]] + rest)[1..] == rest;
    }
  }

  lemma {:induction false} FilterAgree<T>(s: seq<T>, p: T -> bool, q: T -> bool)
    requires forall x :: x in s ==> (p(x) <==> q(x))
    ensures Filter(s, p) == Filter(s, q)
  {
    if s != [] { FilterAgree(s[1..], p, q); }
  }

  lemma {:induction false} FilterNone<T>(s: seq<T>, p: T -> bool)
    requires forall x :: x in s ==> !p(x)
    ensures Filter(s, p) == []
  {
    if s != [] { FilterNone(s[1..], p); }
  }

  lemma {:induction false} FilterAll<T>(s: seq<T>, p: T -> bool)
    requires forall x :: x in s ==> p(x)
    ensures Filter(s, p) == s
  {
    if s != [] { FilterAll(s[1..], p); }
  }

  function Flatten<T>(ss: seq<seq<T>>): seq<T> {
    if ss == [] then [] else ss[0] + Flatten(ss[1..])
  }

  lemma {:induction false} FlattenConcat<T>(a: seq<seq<T>>, b: seq<seq<T>>)
    ensures Flatten(a + b) == Flatten(a) + Flatten(b)
  {
    if a == [] {
      assert a + b == b;
    } else {
      FlattenConcat(a[1..], b);
      FlattenCons(a[0], a[1..] + b);
      Regroup([a[0]], a[1..], b);
      assert a == [a[0]] + a[1..];
      Regroup(a[0], Flatten(a[1..]), Flatten(b));
    }
  }

  lemma Regroup<T>(x: seq<T>, y: seq<T>, z: seq<T>)
    ensures x + (y + z) == x + y + z
  {}

  lemma FlattenCons<T>(first: seq<T>, rest: seq<seq<T>>)
    ensures Flatten([first] + rest) == first + Flatten(rest)
  {
    assert ([first] + rest)[1..] == rest;
  }

  function Sum(s: seq<nat>): nat {
    if s == [] then 0 else s[0] + Sum(s[1..])
  }

  lemma {:induction false} SumConcat(a: seq<nat>, b: seq<nat>)
    ensures Sum(a + b) == Sum(a) + Sum(b)
  {
    if a == [] {
      assert a + b == b;
    } else {
      SumConcat(a[1..], b);
      assert (a + b)[1..] == a[1..] + b;
    }
  }

  ghost predicate NoDup<T>(s: seq<T>) {
    forall i, j :: 0 <= i < j < |s| ==> s[i] != s[j]
  }

  lemma {:induction false} NoDupCount<T>(s: seq<T>, x: T)
    ensures NoDup(s) ==> multiset(s)[x] <= 1
  {
    if s != [] {
      NoDupCount(s[1..], x);
      assert s == [s[0]] + s[1..];
      if NoDup(s) && x == s[0] { assert x !in s[1..]; }
    }
  }

  lemma SeenTwice<T>(t: seq<T>, i: nat, j: nat)
    requires i < j < |t| && t[i] == t[j]
    ensures multiset(t)[t[i]] >= 2
  {
    assert t == t[..j] + t[j..];
    assert t[i] in t[..j] && t[j] in t[j..];
  }

  lemma NoDupBag<T>(s: seq<T>, t: seq<T>)
    requires NoDup(s) && multiset(s) == multiset(t)
    ensures NoDup(t)
  {
    forall i, j | 0 <= i < j < |t| ensures t[i] != t[j] {
      NoDupCount(s, t[i]);
      if t[i] == t[j] { SeenTwice(t, i, j); }
    }
  }

  lemma {:induction false} FilterBag<T>(s: seq<T>, p: T -> bool, x: T)
    ensures multiset(Filter(s, p))[x] == if p(x) then multiset(s)[x] else 0
  {
    if s != [] {
      FilterBag(s[1..], p, x);
      assert s == [s[0]] + s[1..];
    }
  }

  lemma BagWithout<T>(s: seq<T>, i: nat)
    requires i < |s|
    ensures multiset(s) == multiset(s[..i] + s[i + 1..]) + multiset{s[i]}
  {
    assert s == s[..i] + ([s[i]] + s[i + 1..]);
  }

  lemma BagCancel<T(!new)>(m: multiset<T>, n: multiset<T>, more: multiset<T>)
    requires m + more == n + more
    ensures m == n
  {
    forall x ensures m[x] == n[x] { assert (m + more)[x] == (n + more)[x]; }
  }

  /** Two lists with the same bag: the head of one is somewhere in the other, and what is left of them
      has the same bag again. */
  lemma BagHead<T(!new)>(a: seq<T>, b: seq<T>) returns (j: nat)
    requires a != [] && multiset(a) == multiset(b)
    ensures j < |b| && b[j] == a[0] && multiset(a[1..]) == multiset(b[..j] + b[j + 1..])
  {
    assert a[0] in multiset(b);
    j :| 0 <= j < |b| && b[j] == a[0];
    BagWithout(a, 0);
    BagWithout(b, j);
    assert a[..0] + a[1..] == a[1..];
    BagCancel(multiset(a[1..]), multiset(b[..j] + b[j + 1..]), multiset{a[0]});
  }

  /** A filter that loses no length loses nothing. */
  lemma {:induction false} FilterLength<T>(s: seq<T>, p: T -> bool)
    ensures |Filter(s, p)| <= |s|
    ensures |Filter(s, p)| == |s| ==> forall x :: x in s ==> p(x)
  {
    if s != [] {
      FilterLength(s[1..], p);
      assert s == [s[0]] + s[1..];
    }
  }

  /** Filters that agree element by element keep equally many. */
  lemma {:induction false} FilterCount<A, B>(a: seq<A>, b: seq<B>, p: A -> bool, q: B -> bool)
    requires |a| == |b| && forall i :: 0 <= i < |a| ==> (p(a[i]) <==> q(b[i]))
    ensures |Filter(a, p)| == |Filter(b, q)|
  {
    if a != [] { FilterCount(a[1..], b[1..], p, q); }
  }

  /** What a filter keeps stays in order. */
  lemma {:induction false} FilterInOrder<T>(s: seq<T>, p: T -> bool, i: nat, j: nat) returns (a: nat, b: nat)
    requires i < j < |s| && p(s[i]) && p(s[j])
    ensures a < b < |Filter(s, p)| && Filter(s, p)[a] == s[i] && Filter(s, p)[b] == s[j]
  {
    if i > 0 {
      a, b := FilterInOrder(s[1..], p, i - 1, j - 1);
      if p(s[0]) { a, b := a + 1, b + 1; }
    } else {
      FilterKeeps(s[1..], p, s[j]);
      assert s[1..][j - 1] == s[j];
      var k :| 0 <= k < |Filter(s[1..], p)| && Filter(s[1..], p)[k] == s[j];
      a, b := 0, k + 1;
    }
  }

  lemma {:induction false} FilterNoDup<T>(s: seq<T>, p: T -> bool)
    requires NoDup(s)
    ensures NoDup(Filter(s, p))
  {
    if s != [] {
      var rest := Filter(s[1..], p);
      FilterNoDup(s[1..], p);
      FilterKeeps(s[1..], p, s[0]);
      forall j | 0 <= j < |rest| ensures rest[j] != s[0] { assert rest[j] in rest; }
    }
  }

  // ----- Counting by value: `GROUP BY` -----

  function Count<T(==)>(s: seq<T>, x: T): nat {
    if s == [] then 0 else (if s[0] == x then 1 else 0) + Count(s[1..], x)
  }

  lemma {:induction false} ValuesConcat<T>(a: seq<T>, b: seq<T>, x: T)
    ensures Count(a + b, x) == Count(a, x) + Count(b, x)
  {
    if a == [] {
      assert a + b == b;
    } else {
      ValuesConcat(a[1..], b, x);
      assert (a + b)[1..] == a[1..] + b;
    }
  }

  /** The counts of the listed values, summed. */
  function Census<T(==)>(s: seq<T>, values: seq<T>): nat {
    if values == [] then 0 else Count(s, values[0]) + Census(s, values[1..])
  }

  lemma {:induction false} CensusCons<T>(x: T, s: seq<T>, values: seq<T>)
    requires NoDup(values)
    ensures Census([x] + s, values) == Census(s, values) + (if x in values then 1 else 0)
  {
    if values != [] {
      CensusCons(x, s, values[1..]);
      assert ([x] + s)[1..] == s;
      assert values == [values[0]] + values[1..];
    }
  }

  lemma {:induction false} CensusEmpty<T>(values: seq<T>)
    ensures Census<T>([], values) == 0
  {
    if values != [] { CensusEmpty(values[1..]); }
  }

  lemma {:induction false} CensusSnoc<T>(s: seq<T>, values: seq<T>, x: T)
    ensures Census(s, values + [x]) == Census(s, values) + Count(s, x)
  {
    if values != [] {
      CensusSnoc(s, values[1..], x);
      assert (values + [x])[1..] == values[1..] + [x];
    }
  }

  /** Counting by value and summing is filtering by membership. */
  lemma {:induction false} CensusIsFilter<T>(s: seq<T>, values: seq<T>, p: T -> bool)
    requires NoDup(values) && forall x :: x in s ==> (p(x) <==> x in values)
    ensures Census(s, values) == |Filter(s, p)|
  {
    if s == [] {
      CensusEmpty(values);
    } else {
      CensusIsFilter(s[1..], values, p);
      CensusCons(s[0], s[1..], values);
      assert s == [s[0]] + s[1..];
    }
  }

  // ----- Sorted naturals: `np.sort`, `sorted` -----

  ghost predicate Ascending(s: seq<nat>) {
    forall i, j :: 0 <= i < j < |s| ==> s[i] <= s[j]
  }

  function InsertNat(x: nat, s: seq<nat>): (r: seq<nat>)
    ensures |r| == |s| + 1
  {
    if s == [] || x <= s[0] then [x] + s else [s[0]] + InsertNat(x, s[1..])
  }

  function SortNats(s: seq<nat>): (r: seq<nat>)
    ensures |r| == |s|
  {
    if s == [] then [] else InsertNat(s[0], SortNats(s[1..]))
  }

  lemma {:induction false} InsertNatBag(x: nat, s: seq<nat>)
    ensures multiset(InsertNat(x, s)) == multiset(s) + multiset{x}
  {
    if s != [] && x > s[0] {
      InsertNatBag(x, s[1..]);
      assert s == [s[0]] + s[1..];
    }
  }

  lemma {:induction false} InsertNatFloor(x: nat, s: seq<nat>, low: nat)
    requires low <= x && forall i :: 0 <= i < |s| ==> low <= s[i]
    ensures forall i :: 0 <= i <= |s| ==> low <= InsertNat(x, s)[i]
  {
    if s != [] && x > s[0] { InsertNatFloor(x, s[1..], low); }
  }

  lemma {:induction false} InsertNatSorts(x: nat, s: seq<nat>)
    requires Ascending(s)
    ensures Ascending(InsertNat(x, s))
  {
    if s != [] && x > s[0] {
      InsertNatSorts(x, s[1..]);
      InsertNatFloor(x, s[1..], s[0]);
    }
  }

  lemma {:induction false} SortNatsSorts(s: seq<nat>)
    ensures multiset(SortNats(s)) == multiset(s) && Ascending(SortNats(s))
  {
    if s != [] {
      SortNatsSorts(s[1..]);
      InsertNatSorts(s[0], SortNats(s[1..]));
      InsertNatBag(s[0], SortNats(s[1..]));
      assert s == [s[0]] + s[1..];
    }
  }

  lemma SortNatsRange(s: seq<nat>, low: nat, high: nat)
    requires forall i :: 0 <= i < |s| ==> low <= s[i] <= high
    ensures forall i :: 0 <= i < |s| ==> low <= SortNats(s)[i] <= high
  {
    SortNatsSorts(s);
    forall i | 0 <= i < |s| ensures low <= SortNats(s)[i] <= high {
      assert SortNats(s)[i] in multiset(SortNats(s));
    }
  }

  function CountAtMost(s: seq<nat>, v: nat): (n: nat)
    ensures n <= |s|
  {
    if s == [] then 0 else (if s[0] <= v then 1 else 0) + CountAtMost(s[1..], v)
  }

  lemma {:induction false} CountConcat(a: seq<nat>, b: seq<nat>, v: nat)
    ensures CountAtMost(a + b, v) == CountAtMost(a, v) + CountAtMost(b, v)
  {
    if a == [] {
      assert a + b == b;
    } else {
      CountConcat(a[1..], b, v);
      assert (a + b)[1..] == a[1..] + b;
    }
  }

  lemma {:induction false} CountInsert(x: nat, s: seq<nat>, v: nat)
    ensures CountAtMost(InsertNat(x, s), v) == CountAtMost(s, v) + (if x <= v then 1 else 0)
  {
    if s == [] || x <= s[0] {
      assert ([x] + s)[1..] == s;
    } else {
      CountInsert(x, s[1..], v);
      assert ([s[0]] + InsertNat(x, s[1..]))[1..] == InsertNat(x, s[1..]);
    }
  }

  lemma {:induction false} CountSort(s: seq<nat>, v: nat)
    ensures CountAtMost(SortNats(s), v) == CountAtMost(s, v)
  {
    if s != [] {
      CountSort(s[1..], v);
      CountInsert(s[0], SortNats(s[1..]), v);
    }
  }

  lemma {:induction false} CountAll(s: seq<nat>, v: nat)
    requires forall i :: 0 <= i < |s| ==> s[i] <= v
    ensures CountAtMost(s, v) == |s|
  {
    if s != [] { CountAll(s[1..], v); }
  }

  function Repeat(k: nat, value: nat): seq<nat> {
    if k == 0 then [] else [value] + Repeat(k - 1, value)
  }

  lemma {:induction false} CountRepeat(k: nat, value: nat, v: nat)
    ensures |Repeat(k, value)| == k && CountAtMost(Repeat(k, value), v) == if value <= v then k else 0
  {
    if k > 0 {
      CountRepeat(k - 1, value, v);
      assert ([value] + Repeat(k - 1, value))[1..] == Repeat(k - 1, value);
    }
  }

  lemma {:induction false} RepeatAt(k: nat, value: nat)
    ensures |Repeat(k, value)| == k && forall i :: 0 <= i < k ==> Repeat(k, value)[i] == value
  {
    if k > 0 { RepeatAt(k - 1, value); }
  }

  /** An order statistic is a threshold: the `need`-th smallest is at most `v` exactly when at
      least `need` values are. */
  lemma OrderStatistic(s: seq<nat>, need: nat, v: nat)
    requires Ascending(s) && 1 <= need <= |s|
    ensures s[need - 1] <= v <==> need <= CountAtMost(s, v)
  {
    CountAscending(s, v);
  }

  lemma {:induction false} CountAscending(s: seq<nat>, v: nat)
    requires Ascending(s)
    ensures forall i :: 0 <= i < |s| ==> (s[i] <= v <==> i < CountAtMost(s, v))
  {
    if s != [] {
      CountAscending(s[1..], v);
      assert forall i :: 1 <= i < |s| ==> s[i] == s[1..][i - 1];
      if s[0] > v && |s| > 1 { assert s[1..][0] > v; }
    }
  }

  // ----- A machine over a sequence: what each element emits, and where it leads -----

  function Run<L, S, O>(emit: (S, L) -> seq<O>, step: (S, L) -> S, lines: seq<L>, st: S): seq<O> {
    if lines == [] then [] else emit(st, lines[0]) + Run(emit, step, lines[1..], step(st, lines[0]))
  }

  function RunEnd<L, S>(step: (S, L) -> S, lines: seq<L>, st: S): S {
    if lines == [] then st else RunEnd(step, lines[1..], step(st, lines[0]))
  }

  lemma RunConcat<L, S, O>(emit: (S, L) -> seq<O>, step: (S, L) -> S, a: seq<L>, b: seq<L>, st: S)
    ensures Run(emit, step, a + b, st) == Run(emit, step, a, st) + Run(emit, step, b, RunEnd(step, a, st))
    ensures RunEnd(step, a + b, st) == RunEnd(step, b, RunEnd(step, a, st))
  {
    OutputConcat(emit, step, a, b, st);
    EndConcat(step, a, b, st);
  }

  lemma {:induction false} OutputConcat<L, S, O>(emit: (S, L) -> seq<O>, step: (S, L) -> S, a: seq<L>, b: seq<L>, st: S)
    ensures Run(emit, step, a + b, st) == Run(emit, step, a, st) + Run(emit, step, b, RunEnd(step, a, st))
  {
    if a == [] {
      assert a + b == b;
    } else {
      OutputConcat(emit, step, a[1..], b, step(st, a[0]));
      assert (a + b)[0] == a[0] && (a + b)[1..] == a[1..] + b;
    }
  }

  lemma {:induction false} EndConcat<L, S>(step: (S, L) -> S, a: seq<L>, b: seq<L>, st: S)
    ensures RunEnd(step, a + b, st) == RunEnd(step, b, RunEnd(step, a, st))
  {
    if a == [] {
      assert a + b == b;
    } else {
      EndConcat(step, a[1..], b, step(st, a[0]));
      assert (a + b)[0] == a[0] && (a + b)[1..] == a[1..] + b;
    }
  }

  lemma EndThen<L, S>(step: (S, L) -> S, a: seq<L>, b: seq<L>, st: S, mid: S, end: S)
    requires RunEnd(step, a, st) == mid && RunEnd(step, b, mid) == end
    ensures RunEnd(step, a + b, st) == end
  {
    EndConcat(step, a, b, st);
  }

  lemma EndNext<L, S>(step: (S, L) -> S, x: L, rest: seq<L>, st: S, mid: S, end: S)
    requires step(st, x) == mid && RunEnd(step, rest, mid) == end
    ensures RunEnd(step, [x] + rest, st) == end
  {
    EndCons(step, x, rest, st);
  }

  /** A run over blocks visits the states between them. */
  lemma {:induction false} EndFlatten<L, S>(step: (S, L) -> S, blocks: seq<seq<L>>, states: seq<S>)
    requires |states| == |blocks| + 1
    requires forall i :: 0 <= i < |blocks| ==> RunEnd(step, blocks[i], states[i]) == states[i + 1]
    ensures RunEnd(step, Flatten(blocks), states[0]) == states[|blocks|]
  {
    if blocks != [] {
      EndConcat(step, blocks[0], Flatten(blocks[1..]), states[0]);
      EndFlatten(step, blocks[1..], states[1..]);
    }
  }

  lemma EndCons<L, S>(step: (S, L) -> S, x: L, rest: seq<L>, st: S)
    ensures RunEnd(step, [x] + rest, st) == RunEnd(step, rest, step(st, x))
    ensures RunEnd(step, [x], st) == step(st, x)
  {
    assert ([x] + rest)[1..] == rest && [x][1..] == [];
  }

  lemma RunCons<L, S, O>(emit: (S, L) -> seq<O>, step: (S, L) -> S, x: L, rest: seq<L>, st: S)
    ensures Run(emit, step, [x] + rest, st) == emit(st, x) + Run(emit, step, rest, step(st, x))
    ensures RunEnd(step, [x] + rest, st) == RunEnd(step, rest, step(st, x))
    ensures Run(emit, step, [x], st) == emit(st, x) && RunEnd(step, [x], st) == step(st, x)
  {
    assert ([x] + rest)[1..] == rest && [x][1..] == [];
  }
}
