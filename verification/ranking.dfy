/**
  The one ordering every retrieval arm relies on: largest score first, ties settled by the
  smaller id.  `ORDER BY ... LIMIT k` and the numpy `argsort`/`argpartition` calls of the sweeps
  are all `Top` of a bag of items.

  Scores are exact reals.  The id breaks ties, so the order is total and a bag has exactly one
  sorted form (`SortedUnique`).
 */
module Ranking {
  import opened Seqs

  datatype Item = Item(score: real, id: int)

  predicate Better(a: Item, b: Item) {
    a.score > b.score || (a.score == b.score && a.id < b.id)
  }

  ghost predicate Sorted(s: seq<Item>) {
    forall i, j :: 0 <= i < j < |s| ==> !Better(s[j], s[i])
  }

  function Take<T>(s: seq<T>, k: nat): seq<T> {
    if k <= |s| then s[..k] else s
  }

  function Insert(x: Item, s: seq<Item>): seq<Item> {
    if s == [] || !Better(s[0], x) then [x] + s else [s[0]] + Insert(x, s[1..])
  }

  function Sort(s: seq<Item>): seq<Item> {
    if s == [] then [] else Insert(s[0], Sort(s[1..]))
  }

  /** The first `k` items in order: `ORDER BY score DESC, id LIMIT k`. */
  function Top(s: seq<Item>, k: nat): seq<Item> {
    Take(Sort(s), k)
  }

  /** How many items of `s` stand strictly ahead of `x`. */
  function CountBetter(x: Item, s: seq<Item>): nat {
    if s == [] then 0 else (if Better(s[0], x) then 1 else 0) + CountBetter(x, s[1..])
  }

  // ----- Sort is the sorted permutation, and the only one -----

  lemma {:induction false} InsertBag(x: Item, s: seq<Item>)
    ensures multiset(Insert(x, s)) == multiset(s) + multiset{x}
  {
    if s != [] && Better(s[0], x) {
      InsertBag(x, s[1..]);
      assert s == [s[0]] + s[1..];
    }
  }

  lemma {:induction false} InsertSorted(x: Item, s: seq<Item>)
    requires Sorted(s)
    ensures Sorted(Insert(x, s))
  {
    if s != [] && Better(s[0], x) {
      InsertSorted(x, s[1..]);
      InsertBag(x, s[1..]);
      var t := Insert(x, s[1..]);
      forall j | 0 <= j < |t| ensures !Better(t[j], s[0]) {
        assert t[j] in multiset(t);
        assert t[j] == x || t[j] in s[1..];
      }
    } else if s != [] {
      forall j | 0 <= j < |s| ensures !Better(s[j], x) {
        assert j == 0 || !Better(s[j], s[0]);
      }
    }
  }

  lemma {:induction false} SortSorts(s: seq<Item>)
    ensures Sorted(Sort(s)) && multiset(Sort(s)) == multiset(s) && |Sort(s)| == |s|
  {
    if s != [] {
      SortSorts(s[1..]);
      InsertSorted(s[0], Sort(s[1..]));
      InsertBag(s[0], Sort(s[1..]));
      assert s == [s[0]] + s[1..];
      assert |multiset(Sort(s))| == |multiset(s)|;
    }
  }

  lemma {:induction false} SortedUnique(a: seq<Item>, b: seq<Item>)
    requires Sorted(a) && Sorted(b) && multiset(a) == multiset(b)
    ensures a == b
  {
    assert |multiset(a)| == |multiset(b)|;
    if a != [] {
      assert a[0] in multiset(b) && b[0] in multiset(a);
      assert a[0] == b[0];
      assert a == [a[0]] + a[1..] && b == [b[0]] + b[1..];
      assert multiset(a[1..]) == multiset(a) - multiset{a[0]};
      SortedUnique(a[1..], b[1..]);
    }
  }

  /** What is sorted does not depend on the order the rows arrived in. */
  lemma SortOfSameBag(a: seq<Item>, b: seq<Item>)
    requires multiset(a) == multiset(b)
    ensures Sort(a) == Sort(b)
  {
    SortSorts(a);
    SortSorts(b);
    SortedUnique(Sort(a), Sort(b));
  }

  lemma SortFixesSorted(s: seq<Item>)
    requires Sorted(s)
    ensures Sort(s) == s
  {
    SortSorts(s);
    SortedUnique(Sort(s), s);
  }

  /** `argpartition` and then `argsort`: if no item left out is better than one taken, sorting what
      was taken is the top. */
  lemma PartitionThenSort(s: seq<Item>, taken: seq<Item>, left: seq<Item>)
    requires multiset(s) == multiset(taken) + multiset(left)
    requires forall x, y :: x in taken && y in left ==> !Better(y, x)
    ensures Top(s, |taken|) == Sort(taken)
  {
    SortSorts(taken);
    SortSorts(left);
    var t := Sort(taken) + Sort(left);
    forall i, j | 0 <= i < j < |t| ensures !Better(t[j], t[i]) {
      if i < |taken| <= j {
        assert t[i] in multiset(Sort(taken)) && t[j] in multiset(Sort(left));
        assert t[i] in taken && t[j] in left;
      }
    }
    SortOfSameBag(s, t);
    SortFixesSorted(t);
  }

  // ----- Membership of the top k is a rank -----

  lemma {:induction false} CountBetterInsert(x: Item, y: Item, s: seq<Item>)
    ensures CountBetter(x, Insert(y, s)) == CountBetter(x, s) + (if Better(y, x) then 1 else 0)
  {
    if s == [] || !Better(s[0], y) {
      assert ([y] + s)[1..] == s;
    } else {
      CountBetterInsert(x, y, s[1..]);
      assert ([s[0]] + Insert(y, s[1..]))[1..] == Insert(y, s[1..]);
    }
  }

  lemma {:induction false} CountBetterSort(x: Item, s: seq<Item>)
    ensures CountBetter(x, Sort(s)) == CountBetter(x, s)
  {
    if s != [] {
      CountBetterSort(x, s[1..]);
      CountBetterInsert(x, s[0], Sort(s[1..]));
    }
  }

  lemma {:induction false} CountBetterConcat(x: Item, a: seq<Item>, b: seq<Item>)
    ensures CountBetter(x, a + b) == CountBetter(x, a) + CountBetter(x, b)
  {
    if a == [] {
      assert a + b == b;
    } else {
      CountBetterConcat(x, a[1..], b);
      assert (a + b)[1..] == a[1..] + b;
    }
  }

  /** In a sorted list the better items are exactly a prefix, `CountBetter` long. */
  lemma {:induction false} BetterPrefix(x: Item, s: seq<Item>)
    requires Sorted(s)
    ensures CountBetter(x, s) <= |s|
    ensures forall i :: 0 <= i < |s| ==> (Better(s[i], x) <==> i < CountBetter(x, s))
  {
    if s != [] {
      BetterPrefix(x, s[1..]);
      assert forall i :: 1 <= i < |s| ==> s[i] == s[1..][i - 1];
    }
  }

  /** An item of the list stands, for the first time, at the index that counts its betters. */
  lemma PositionIsCount(s: seq<Item>, x: Item)
    requires x in s
    ensures CountBetter(x, s) < |s| == |Sort(s)| && Sort(s)[CountBetter(x, s)] == x
  {
    SortSorts(s);
    var t := Sort(s);
    assert x in multiset(t);
    CountBetterSort(x, s);
    BetterPrefix(x, t);
    var j :| 0 <= j < |t| && t[j] == x;
    var c := CountBetter(x, t);
    assert c <= j && !Better(t[c], x);
    if c < j { assert !Better(t[j], t[c]); }
  }

  lemma TopMember(s: seq<Item>, k: nat, x: Item)
    ensures x in Top(s, k) <==> x in s && CountBetter(x, s) < k
  {
    SortSorts(s);
    var t := Sort(s);
    assert x in t <==> x in multiset(t);
    assert x in s <==> x in multiset(s);
    CountBetterSort(x, s);
    BetterPrefix(x, t);
    if x in s {
      PositionIsCount(s, x);
      if CountBetter(x, s) < k { assert Top(s, k)[CountBetter(x, s)] == x; }
    }
  }

  /** The best first, the smaller id of two with one score. */
  ghost predicate BestFirst(found: seq<Item>) {
    forall i, j :: 0 <= i < j < |found| ==>
      found[i].score > found[j].score || (found[i].score == found[j].score && found[i].id <= found[j].id)
  }

  lemma TopIsOrdered(s: seq<Item>, k: nat)
    ensures BestFirst(Top(s, k)) && |Top(s, k)| == if k <= |s| then k else |s|
  {
    SortSorts(s);
    var found := Top(s, k);
    forall i, j | 0 <= i < j < |found|
      ensures found[i].score > found[j].score || (found[i].score == found[j].score && found[i].id <= found[j].id)
    {
      assert !Better(Sort(s)[j], Sort(s)[i]);
    }
  }

  /** What the top leaves out is no better than anything in it, and nothing is left out of a short one. */
  lemma LeftOut(s: seq<Item>, k: nat, x: Item)
    requires x in s && x !in Top(s, k)
    ensures |Top(s, k)| == k && forall i :: 0 <= i < k ==> Top(s, k)[i].score >= x.score
  {
    TopMember(s, k, x);
    SortSorts(s);
    CountBetterSort(x, s);
    BetterPrefix(x, Sort(s));
  }

  // ----- Streaming: a block contributes only through its own top k -----

  lemma {:induction false} TakeInsert(x: Item, s: seq<Item>, k: nat)
    ensures Take(Insert(x, s), k) == Take(Insert(x, Take(s, k)), k)
  {
    if k != 0 && s != [] && Better(s[0], x) {
      TakeInsert(x, s[1..], k - 1);
      assert Take(s, k)[1..] == Take(s[1..], k - 1);
      assert Take(Insert(x, s), k) == [s[0]] + Take(Insert(x, s[1..]), k - 1);
      assert Take(Insert(x, Take(s, k)), k) == [s[0]] + Take(Insert(x, Take(s[1..], k - 1)), k - 1);
    }
  }

  lemma SortTop(s: seq<Item>, k: nat)
    ensures Sort(Top(s, k)) == Top(s, k)
  {
    SortSorts(s);
    SortFixesSorted(Top(s, k));
  }

  lemma {:induction false} TopAbsorbs(a: seq<Item>, b: seq<Item>, k: nat)
    ensures Top(a + b, k) == Top(a + Top(b, k), k)
  {
    if a == [] {
      assert a + b == b && a + Top(b, k) == Top(b, k);
      SortTop(b, k);
    } else {
      TopAbsorbs(a[1..], b, k);
      assert (a + b)[1..] == a[1..] + b;
      assert (a + Top(b, k))[1..] == a[1..] + Top(b, k);
      TakeInsert(a[0], Sort(a[1..] + b), k);
      TakeInsert(a[0], Sort(a[1..] + Top(b, k)), k);
    }
  }

  /** Folding two blocks through their own tops loses nothing. */
  lemma TopMerge(a: seq<Item>, b: seq<Item>, k: nat)
    ensures Top(a + b, k) == Top(Top(a, k) + Top(b, k), k)
  {
    TopAbsorbs(a, b, k);
    SortOfSameBag(a + Top(b, k), Top(b, k) + a);
    TopAbsorbs(Top(b, k), a, k);
    SortOfSameBag(Top(b, k) + Top(a, k), Top(a, k) + Top(b, k));
  }

  // ----- Narrowing: a survivor of the top k stays in the top k -----

  lemma {:induction false} CountBetterFilter(x: Item, s: seq<Item>, p: Item -> bool)
    ensures CountBetter(x, Filter(s, p)) <= CountBetter(x, s)
  {
    if s != [] {
      CountBetterFilter(x, s[1..], p);
      var rest := Filter(s[1..], p);
      assert ([s[0]] + rest)[1..] == rest;
    }
  }

  /** An item of the top k of `s` is in the top k of a narrowed `s` exactly when it survives. */
  lemma Survives(s: seq<Item>, p: Item -> bool, k: nat, x: Item)
    requires x in Top(s, k)
    ensures x in Top(Filter(s, p), k) <==> p(x)
  {
    TopMember(s, k, x);
    TopMember(Filter(s, p), k, x);
    FilterKeeps(s, p, x);
    CountBetterFilter(x, s, p);
  }

  // ----- Items addressed by index: `argsort` -----

  function Items(scores: seq<real>): seq<Item> {
    seq(|scores|, i requires 0 <= i < |scores| => Item(scores[i], i))
  }

  function Ids(s: seq<Item>): seq<int> {
    seq(|s|, i requires 0 <= i < |s| => s[i].id)
  }

  /** `np.argsort(-scores)`: the indices, best first. */
  function ArgSort(scores: seq<real>): seq<int> {
    Ids(Sort(Items(scores)))
  }

  /** The 1-based place of index `g` in that order. */
  function Place(scores: seq<real>, g: nat): nat
    requires g < |scores|
  {
    1 + CountBetter(Item(scores[g], g), Items(scores))
  }

  lemma ArgSortAt(scores: seq<real>, i: nat)
    requires i < |scores|
    ensures |ArgSort(scores)| == |scores| && 0 <= ArgSort(scores)[i] < |scores|
    ensures Place(scores, ArgSort(scores)[i]) == i + 1
  {
    var items := Items(scores);
    var t := Sort(items);
    SortSorts(items);
    NoDupBag(items, t);
    assert t[i] in multiset(t);
    var g :| 0 <= g < |items| && items[g] == t[i];
    PositionIsCount(items, t[i]);
    assert t[CountBetter(t[i], items)] == t[i];
  }

  lemma PlaceAt(scores: seq<real>, g: nat)
    requires g < |scores|
    ensures |ArgSort(scores)| == |scores|
    ensures 1 <= Place(scores, g) <= |scores| && ArgSort(scores)[Place(scores, g) - 1] == g
  {
    SortSorts(Items(scores));
    assert Items(scores)[g] == Item(scores[g], g);
    PositionIsCount(Items(scores), Items(scores)[g]);
  }

  /** `ArgSort` is a permutation of the indices, and `Place` is its inverse. */
  lemma PlaceInvertsArgSort(scores: seq<real>)
    ensures |ArgSort(scores)| == |scores|
    ensures forall i :: 0 <= i < |scores| ==>
              0 <= ArgSort(scores)[i] < |scores| && Place(scores, ArgSort(scores)[i]) == i + 1
    ensures forall g :: 0 <= g < |scores| ==>
              1 <= Place(scores, g) <= |scores| && ArgSort(scores)[Place(scores, g) - 1] == g
  {
    SortSorts(Items(scores));
    forall i | 0 <= i < |scores|
      ensures 0 <= ArgSort(scores)[i] < |scores| && Place(scores, ArgSort(scores)[i]) == i + 1
    {
      ArgSortAt(scores, i);
    }
    forall g | 0 <= g < |scores|
      ensures 1 <= Place(scores, g) <= |scores| && ArgSort(scores)[Place(scores, g) - 1] == g
    {
      PlaceAt(scores, g);
    }
  }

  /** Places respect the order: the better of two indices has the smaller place. */
  lemma PlaceOrder(scores: seq<real>, g: nat, h: nat)
    requires g < |scores| && h < |scores| && Better(Item(scores[g], g), Item(scores[h], h))
    ensures Place(scores, g) < Place(scores, h)
  {
    var items := Items(scores);
    SortSorts(items);
    assert items[g] == Item(scores[g], g) && items[h] == Item(scores[h], h);
    PositionIsCount(items, items[g]);
    PositionIsCount(items, items[h]);
    var i, j := CountBetter(items[g], items), CountBetter(items[h], items);
    assert Sort(items)[i] == items[g] && Sort(items)[j] == items[h];
  }

  /** Scores already in order stay where they are. */
  lemma ArgSortOfSorted(scores: seq<real>)
    requires forall i, j :: 0 <= i < j < |scores| ==> scores[i] >= scores[j]
    ensures |ArgSort(scores)| == |scores| && forall i :: 0 <= i < |scores| ==> ArgSort(scores)[i] == i
  {
    SortFixesSorted(Items(scores));
  }
}
