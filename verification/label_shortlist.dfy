/**
  The label shortlist of `backend/eval/label_shortlist.py`: every label a person chose is ranked
  among a pool of labels, pools grow by a suffix, and recalls are read off the ranks.  A pool is a
  sequence of scores, a label is its position in the pool; cosines are exact reals.
 */
module Shortlist {
  import opened Seqs
  import opened Ranking

  const PROPOSED_K: nat := 25

  // ----- `synthesise`: fresh names for the pool -----

  /** The candidates that case-fold onto nothing seen before, first come first kept. */
  function Fresh<N, K(==)>(candidates: seq<N>, fold: N -> K, seen: set<K>): seq<N> {
    if candidates == [] then []
    else if fold(candidates[0]) in seen then Fresh(candidates[1..], fold, seen)
    else [candidates[0]] + Fresh(candidates[1..], fold, seen + {fold(candidates[0])})
  }

  function Folded<N, K(==)>(names: seq<N>, fold: N -> K): set<K> {
    if names == [] then {} else {fold(names[0])} + Folded(names[1..], fold)
  }

  datatype Choice<N> = Chosen(names: seq<N>) | TooFew(found: nat)

  lemma FreshStep<N, K>(candidates: seq<N>, i: nat, fold: N -> K, seen: set<K>)
    requires i < |candidates|
    ensures Fresh(candidates[i..], fold, seen)
         == if fold(candidates[i]) in seen then Fresh(candidates[i + 1..], fold, seen)
            else [candidates[i]] + Fresh(candidates[i + 1..], fold, seen + {fold(candidates[i])})
  {
    assert candidates[i..][1..] == candidates[i + 1..];
  }

  /** The first `count` fresh names.  A count below one is never reached, and every name is taken. */
  function Names<N>(novel: seq<N>, count: int): Choice<N> {
    if |novel| < count then TooFew(|novel|) else if count >= 1 then Chosen(novel[..count]) else Chosen(novel)
  }

  /** The loop of `synthesise`. */
  method Choose<N, K(==)>(candidates: seq<N>, fold: N -> K, seen: set<K>, count: int) returns (r: Choice<N>)
    ensures r == Names(Fresh(candidates, fold, seen), count)
  {
    ghost var novel := Fresh(candidates, fold, seen);
    var lowered, chosen: seq<N> := seen, [];
    assert candidates[0..] == candidates;
    for i := 0 to |candidates|
      invariant count >= 1 ==> |chosen| < count
      invariant chosen + Fresh(candidates[i..], fold, lowered) == novel
    {
      var name := candidates[i];
      FreshStep(candidates, i, fold, lowered);
      if fold(name) !in lowered {
        lowered := lowered + {fold(name)};
        Regroup(chosen, [name], Fresh(candidates[i + 1..], fold, lowered));
        chosen := chosen + [name];
        if |chosen| == count {
          assert novel[..count] == chosen;
          return Chosen(chosen);
        }
      }
    }
    assert chosen == novel;
    r := if |chosen| < count then TooFew(|chosen|) else Chosen(chosen);
  }

  /** As many names as asked for, unless there are too few; a count below one asks for all. */
  lemma NamesAreCounted<N>(novel: seq<N>, count: int)
    ensures var r := Names(novel, count);
      if r.TooFew? then r.found == |novel| < count
      else r.names <= novel && |r.names| == if count >= 1 then count else |novel|
  {}

  /** `synthesise` over the shuffled candidates. */
  method Synthesise(candidates: seq<string>, fold: string -> string, taken: seq<string>, count: int)
    returns (r: Choice<string>)
    ensures r == Names(Fresh(candidates, fold, Folded(taken, fold)), count)
    ensures r.Chosen? && count >= 1 ==> |r.names| == count
    ensures r.TooFew? ==> r.found < count
  {
    r := Choose(candidates, fold, Folded(taken, fold), count);
  }

  /** Fresh names are candidates that fold onto nothing seen ... */
  lemma {:induction false} FreshIsNew<N, K>(candidates: seq<N>, fold: N -> K, seen: set<K>, i: nat)
    requires i < |Fresh(candidates, fold, seen)|
    ensures Fresh(candidates, fold, seen)[i] in candidates && fold(Fresh(candidates, fold, seen)[i]) !in seen
  {
    var name, rest := candidates[0], candidates[1..];
    if fold(name) in seen {
      FreshIsNew(rest, fold, seen, i);
    } else if i > 0 {
      FreshIsNew(rest, fold, seen + {fold(name)}, i - 1);
    }
  }

  /** ... nor onto each other ... */
  lemma {:induction false} FreshIsDistinct<N, K>(candidates: seq<N>, fold: N -> K, seen: set<K>, i: nat, j: nat)
    requires i < j < |Fresh(candidates, fold, seen)|
    ensures fold(Fresh(candidates, fold, seen)[i]) != fold(Fresh(candidates, fold, seen)[j])
  {
    var name, rest := candidates[0], candidates[1..];
    if fold(name) in seen {
      FreshIsDistinct(rest, fold, seen, i, j);
    } else if i > 0 {
      FreshIsDistinct(rest, fold, seen + {fold(name)}, i - 1, j - 1);
    } else {
      FreshIsNew(rest, fold, seen + {fold(name)}, j - 1);
    }
  }

  /** ... in the candidates' order, each the first to fold as it does ... */
  lemma {:induction false} FreshIsFirst<N, K>(candidates: seq<N>, fold: N -> K, seen: set<K>, i: nat) returns (at: nat)
    requires i < |Fresh(candidates, fold, seen)|
    ensures at < |candidates| && candidates[at] == Fresh(candidates, fold, seen)[i]
    ensures forall j :: 0 <= j < at ==> fold(candidates[j]) != fold(candidates[at])
    ensures Fresh(candidates[..at], fold, seen) == Fresh(candidates, fold, seen)[..i]
  {
    var name, rest := candidates[0], candidates[1..];
    if fold(name) in seen {
      FreshIsNew(rest, fold, seen, i);
      at := FreshIsFirst(rest, fold, seen, i);
      at := at + 1;
    } else if i == 0 {
      at := 0;
    } else {
      FreshIsNew(rest, fold, seen + {fold(name)}, i - 1);
      at := FreshIsFirst(rest, fold, seen + {fold(name)}, i - 1);
      at := at + 1;
    }
    if at > 0 {
      assert candidates[..at][1..] == rest[..at - 1];
    }
  }

  /** ... and with what was seen they cover everything the candidates fold onto. */
  lemma {:induction false} FreshCovers<N, K>(candidates: seq<N>, fold: N -> K, seen: set<K>)
    ensures seen + Folded(Fresh(candidates, fold, seen), fold) == seen + Folded(candidates, fold)
  {
    if candidates != [] {
      var name, rest := candidates[0], candidates[1..];
      if fold(name) in seen {
        FreshCovers(rest, fold, seen);
      } else {
        var more := seen + {fold(name)};
        FreshCovers(rest, fold, more);
        assert ([name] + Fresh(rest, fold, more))[1..] == Fresh(rest, fold, more);
        assert seen + ({fold(name)} + Folded(rest, fold)) == more + Folded(rest, fold);
      }
    }
  }

  // ----- Ranks -----

  /** A filed document: its score against every label of the pool, and the labels a person chose. */
  datatype Filed = Filed(scores: seq<real>, truth: seq<nat>) {
    ghost predicate Valid() {
      truth != [] && forall i :: 0 <= i < |truth| ==> truth[i] < |scores|
    }
  }

  ghost predicate AllValid(documents: seq<Filed>) {
    forall i :: 0 <= i < |documents| ==> documents[i].Valid()
  }

  function Own(scores: seq<real>, truth: seq<nat>): (own: seq<nat>)
    requires forall i :: 0 <= i < |truth| ==> truth[i] < |scores|
    ensures |own| == |truth|
  {
    seq(|truth|, i requires 0 <= i < |truth| => Place(scores, truth[i]))
  }

  function Least(s: seq<nat>): nat
    requires s != []
  {
    if |s| == 1 then s[0] else var m := Least(s[1..]); if s[0] <= m then s[0] else m
  }

  function Part(hits: nat, total: nat): real
    requires total > 0
  {
    hits as real / total as real
  }

  /** What `_arm` measures in one pool, at a shortlist of `k`: every chosen label's rank and each
      document's best, the documents covered whole, their own recalls summed, and the misses. */
  datatype Measured = Measured(ranks: seq<nat>, best: seq<nat>, covered: nat, macro: real, misses: nat)

  function Add(m: Measured, own: seq<nat>, k: nat): Measured
    requires own != []
  {
    var found := CountAtMost(own, k);
    Measured(m.ranks + own, m.best + [Least(own)], m.covered + (if found == |own| then 1 else 0),
             m.macro + Part(found, |own|), m.misses + (|own| - found))
  }

  ghost function ArmOf(documents: seq<Filed>, k: nat): Measured
    requires AllValid(documents)
  {
    if documents == [] then Measured([], [], 0, 0.0, 0)
    else
      var n := |documents| - 1;
      assert documents[n].Valid();
      Add(ArmOf(documents[..n], k), Own(documents[n].scores, documents[n].truth), k)
  }

  lemma {:induction false} LeastIsLeast(s: seq<nat>)
    requires s != []
    ensures Least(s) in s && forall x :: x in s ==> Least(s) <= x
  {
    if |s| > 1 {
      LeastIsLeast(s[1..]);
      assert s == [s[0]] + s[1..];
    }
  }

  /** `place[order] = arange(1, n + 1)`: the ranks, filled in along the stable order. */
  method RankPool(scores: seq<real>) returns (place: array<nat>)
    ensures fresh(place) && place.Length == |scores|
    ensures forall g :: 0 <= g < |scores| ==> place[g] == Place(scores, g)
  {
    var ordering := ArgSort(scores);
    PlaceInvertsArgSort(scores);
    place := new nat[|scores|];
    for i := 0 to |ordering|
      invariant forall g :: 0 <= g < |scores| && Place(scores, g) <= i ==> place[g] == Place(scores, g)
    {
      place[ordering[i]] := i + 1;
    }
  }

  /** The ranks of one document's labels, looked up in the place array. */
  method OwnRanks(document: Filed) returns (own: seq<nat>)
    requires document.Valid()
    ensures own == Own(document.scores, document.truth)
  {
    var place := RankPool(document.scores);
    own := [];
    for j := 0 to |document.truth|
      invariant own == Own(document.scores, document.truth)[..j]
    {
      own := own + [place[document.truth[j]]];
    }
  }

  /** The loop of `_arm` over the documents. */
  method Arm(documents: seq<Filed>) returns (arm: Measured)
    requires AllValid(documents)
    ensures arm == ArmOf(documents, 25)
  {
    arm := Measured([], [], 0, 0.0, 0);
    for i := 0 to |documents|
      invariant arm == ArmOf(documents[..i], PROPOSED_K)
    {
      assert documents[i].Valid();
      var own := OwnRanks(documents[i]);
      assert documents[..i + 1][..i] == documents[..i];
      arm := Add(arm, own, PROPOSED_K);
    }
    assert documents[..|documents|] == documents;
  }

  /** The misses are the ranks past the shortlist, and a covered document is one without a miss. */
  lemma {:induction false} MissesAndCovered(documents: seq<Filed>, k: nat)
    requires AllValid(documents)
    ensures var m := ArmOf(documents, k);
            && m.misses + CountAtMost(m.ranks, k) == |m.ranks|
            && |m.best| == |documents| && m.covered <= |documents|
            && (m.covered == |documents| <==> m.misses == 0)
  {
    if documents != [] {
      var n := |documents| - 1;
      MissesAndCovered(documents[..n], k);
      assert documents[n].Valid();
      CountConcat(ArmOf(documents[..n], k).ranks, Own(documents[n].scores, documents[n].truth), k);
    }
  }

  ghost function AllRanks(documents: seq<Filed>): seq<seq<nat>>
    requires AllValid(documents)
  {
    seq(|documents|, i requires 0 <= i < |documents| =>
      assert documents[i].Valid(); Own(documents[i].scores, documents[i].truth))
  }

  function Whole(k: nat): seq<nat> -> bool { (own: seq<nat>) => forall i :: 0 <= i < |own| ==> own[i] <= k }

  function Beyond(k: nat): nat -> bool { (rank: nat) => rank > k }

  /** The share of each document's labels among the first `k`. */
  ghost function Recalls(all: seq<seq<nat>>, k: nat): seq<real> {
    seq(|all|, i requires 0 <= i < |all| =>
      if all[i] == [] then 0.0 else CountAtMost(all[i], k) as real / |all[i]| as real)
  }

  function SumReal(s: seq<real>): real {
    if s == [] then 0.0 else SumReal(s[..|s| - 1]) + s[|s| - 1]
  }

  lemma RecallsSnoc(all: seq<seq<nat>>, own: seq<nat>, k: nat)
    requires own != []
    ensures SumReal(Recalls(all + [own], k)) == SumReal(Recalls(all, k)) + CountAtMost(own, k) as real / |own| as real
  {
    var longer := Recalls(all + [own], k);
    assert longer[..|all|] == Recalls(all, k);
  }

  lemma FlattenSnoc(all: seq<seq<nat>>, own: seq<nat>)
    ensures Flatten(all + [own]) == Flatten(all) + own
  {
    FlattenConcat(all, [own]);
    FlattenCons(own, []);
    assert [own] + [] == [own] && own + [] == own;
  }

  lemma FilterSnoc(all: seq<seq<nat>>, own: seq<nat>, p: seq<nat> -> bool)
    ensures Filter(all + [own], p) == Filter(all, p) + if p(own) then [own] else []
  {
    FilterConcat(all, [own], p);
    FilterCons(own, [], p);
    assert [own] + [] == [own];
  }

  lemma {:induction false} WholeIsAll(own: seq<nat>, k: nat)
    ensures CountAtMost(own, k) == |own| <==> forall i :: 0 <= i < |own| ==> own[i] <= k
  {
    if own != [] {
      WholeIsAll(own[1..], k);
      assert forall i :: 1 <= i < |own| ==> own[i] == own[1..][i - 1];
    }
  }

  lemma {:induction false} MissesBeyond(own: seq<nat>, k: nat)
    ensures |Filter(own, Beyond(k))| == |own| - CountAtMost(own, k)
  {
    if own != [] { MissesBeyond(own[1..], k); }
  }

  lemma AllRanksSnoc(documents: seq<Filed>)
    requires AllValid(documents) && documents != []
    ensures var n := |documents| - 1;
      && documents[n].Valid()
      && AllRanks(documents) == AllRanks(documents[..n]) + [Own(documents[n].scores, documents[n].truth)]
  {
    assert documents[|documents| - 1].Valid();
  }

  lemma {:induction false} ArmRanks(documents: seq<Filed>, k: nat)
    requires AllValid(documents)
    ensures ArmOf(documents, k).ranks == Flatten(AllRanks(documents))
  {
    if documents != [] {
      var n := |documents| - 1;
      ArmRanks(documents[..n], k);
      AllRanksSnoc(documents);
      FlattenSnoc(AllRanks(documents[..n]), Own(documents[n].scores, documents[n].truth));
    }
  }

  lemma {:induction false} ArmCovered(documents: seq<Filed>, k: nat)
    requires AllValid(documents)
    ensures ArmOf(documents, k).covered == |Filter(AllRanks(documents), Whole(k))|
  {
    if documents != [] {
      var n := |documents| - 1;
      ArmCovered(documents[..n], k);
      AllRanksSnoc(documents);
      var own := Own(documents[n].scores, documents[n].truth);
      FilterSnoc(AllRanks(documents[..n]), own, Whole(k));
      WholeIsAll(own, k);
    }
  }

  lemma {:induction false} ArmMacro(documents: seq<Filed>, k: nat)
    requires AllValid(documents)
    ensures ArmOf(documents, k).macro == SumReal(Recalls(AllRanks(documents), k))
  {
    if documents == [] {
      assert Recalls([], k) == [];
    } else {
      var n := |documents| - 1;
      ArmMacro(documents[..n], k);
      AllRanksSnoc(documents);
      RecallsSnoc(AllRanks(documents[..n]), Own(documents[n].scores, documents[n].truth), k);
    }
  }

  /** What an arm holds: every document's ranks in turn, how many documents have all their labels among the
      first `k`, the sum of the documents' own recalls, and how many labels are missed. */
  lemma ArmMeans(documents: seq<Filed>, k: nat)
    requires AllValid(documents)
    ensures var m, all := ArmOf(documents, k), AllRanks(documents);
      && m.ranks == Flatten(all) && m.covered == |Filter(all, Whole(k))| && m.macro == SumReal(Recalls(all, k))
      && m.misses == |Filter(m.ranks, Beyond(k))|
  {
    ArmRanks(documents, k);
    ArmCovered(documents, k);
    ArmMacro(documents, k);
    MissesAndCovered(documents, k);
    MissesBeyond(ArmOf(documents, k).ranks, k);
  }

  lemma {:induction false} BestAt(documents: seq<Filed>, k: nat, i: nat)
    requires AllValid(documents) && i < |documents|
    ensures documents[i].Valid() && |ArmOf(documents, k).best| == |documents|
    ensures ArmOf(documents, k).best[i] == Least(Own(documents[i].scores, documents[i].truth))
  {
    var n := |documents| - 1;
    assert documents[n].Valid() && documents[i].Valid();
    MissesAndCovered(documents[..n], k);
    if i < n { BestAt(documents[..n], k, i); }
  }

  /** A document's best rank is the rank of one of its labels, and none of them ranks better. */
  lemma BestIsBest(documents: seq<Filed>, k: nat, i: nat)
    requires AllValid(documents) && i < |documents|
    ensures documents[i].Valid() && |ArmOf(documents, k).best| == |documents|
    ensures var best, scores, truth := ArmOf(documents, k).best[i], documents[i].scores, documents[i].truth;
      && (exists j :: 0 <= j < |truth| && best == Place(scores, truth[j]))
      && forall j :: 0 <= j < |truth| ==> best <= Place(scores, truth[j])
  {
    BestAt(documents, k, i);
    OwnLeast(documents[i].scores, documents[i].truth);
  }

  lemma OwnLeast(scores: seq<real>, truth: seq<nat>)
    requires truth != [] && forall i :: 0 <= i < |truth| ==> truth[i] < |scores|
    ensures exists j :: 0 <= j < |truth| && Least(Own(scores, truth)) == Place(scores, truth[j])
    ensures forall j :: 0 <= j < |truth| ==> Least(Own(scores, truth)) <= Place(scores, truth[j])
  {
    var own := Own(scores, truth);
    LeastIsLeast(own);
    var j :| 0 <= j < |own| && own[j] == Least(own);
    assert Least(own) == Place(scores, truth[j]);
    forall l | 0 <= l < |truth| ensures Least(own) <= Place(scores, truth[l]) { assert own[l] in own; }
  }

  /** A label is on the shortlist of `k` exactly when its rank is at most `k`. */
  lemma ShortlistIsRank(scores: seq<real>, g: nat, k: nat)
    requires g < |scores|
    ensures g in Take(ArgSort(scores), k) <==> Place(scores, g) <= k
  {
    PlaceInvertsArgSort(scores);
    var ordering := ArgSort(scores);
    if Place(scores, g) <= k { assert Take(ordering, k)[Place(scores, g) - 1] == g; }
    if g in Take(ordering, k) {
      var i :| 0 <= i < |Take(ordering, k)| && Take(ordering, k)[i] == g;
      assert ordering[i] == g;
    }
  }

  // ----- Nested pools -----

  /** A larger pool: the same labels first, in the same order, and then more. */
  lemma PlaceGrows(scores: seq<real>, more: seq<real>, g: nat)
    requires g < |scores|
    ensures Place(scores, g) <= Place(scores + more, g)
  {
    var all := Items(scores + more);
    assert all == Items(scores) + all[|scores|..];
    CountBetterConcat(Item(scores[g], g), Items(scores), all[|scores|..]);
  }

  ghost predicate Nested(small: seq<Filed>, large: seq<Filed>) {
    && |small| == |large|
    && forall i :: 0 <= i < |small| ==> small[i].truth == large[i].truth && small[i].scores <= large[i].scores
  }

  ghost predicate Below(a: seq<nat>, b: seq<nat>) {
    |a| == |b| && forall i :: 0 <= i < |a| ==> a[i] <= b[i]
  }

  lemma {:induction false} LeastGrows(a: seq<nat>, b: seq<nat>)
    requires a != [] && Below(a, b)
    ensures Least(a) <= Least(b)
  {
    if |a| > 1 { LeastGrows(a[1..], b[1..]); }
  }

  lemma OwnGrows(small: Filed, large: Filed)
    requires small.Valid() && large.Valid() && small.truth == large.truth && small.scores <= large.scores
    ensures Below(Own(small.scores, small.truth), Own(large.scores, large.truth))
  {
    forall i | 0 <= i < |small.truth|
      ensures Place(small.scores, small.truth[i]) <= Place(large.scores, small.truth[i])
    {
      assert large.scores == small.scores + large.scores[|small.scores|..];
      PlaceGrows(small.scores, large.scores[|small.scores|..], small.truth[i]);
    }
  }

  lemma BelowConcat(a: seq<nat>, b: seq<nat>, c: seq<nat>, d: seq<nat>)
    requires Below(a, b) && Below(c, d)
    ensures Below(a + c, b + d)
  {}

  /** No rank falls when the pool is extended. */
  lemma {:induction false} RanksGrow(small: seq<Filed>, large: seq<Filed>, k: nat)
    requires AllValid(small) && AllValid(large) && Nested(small, large)
    ensures Below(ArmOf(small, k).ranks, ArmOf(large, k).ranks) && Below(ArmOf(small, k).best, ArmOf(large, k).best)
  {
    if small != [] {
      var n := |small| - 1;
      RanksGrow(small[..n], large[..n], k);
      assert small[n].Valid() && large[n].Valid();
      OwnGrows(small[n], large[n]);
      var a, b := Own(small[n].scores, small[n].truth), Own(large[n].scores, large[n].truth);
      LeastGrows(a, b);
      BelowConcat(ArmOf(small[..n], k).ranks, ArmOf(large[..n], k).ranks, a, b);
      BelowConcat(ArmOf(small[..n], k).best, ArmOf(large[..n], k).best, [Least(a)], [Least(b)]);
    }
  }

  lemma {:induction false} CountsFall(a: seq<nat>, b: seq<nat>, k: nat)
    requires Below(a, b)
    ensures CountAtMost(b, k) <= CountAtMost(a, k)
  {
    if a != [] { CountsFall(a[1..], b[1..], k); }
  }

  // ----- The k it would take -----

  /** `sorted(ranks)[max(0, int(len(ranks) * 0.95) - 1)]`. */
  function RequiredFor95(ranks: seq<nat>): nat
    requires ranks != []
  {
    SortNats(ranks)[Floor95(|ranks|) - 1]
  }

  /** How many ranks it covers: the whole part of 95%, and never none. */
  function Floor95(n: nat): (m: nat)
    requires n >= 1
    ensures 1 <= m <= n
  {
    if 19 * n / 20 >= 1 then 19 * n / 20 else 1
  }

  /** It is the least `k` that covers that many ranks. */
  lemma RequiredIsLeast(ranks: seq<nat>, k: nat)
    requires ranks != []
    ensures RequiredFor95(ranks) <= k <==> Floor95(|ranks|) <= CountAtMost(ranks, k)
  {
    SortNatsSorts(ranks);
    OrderStatistic(SortNats(ranks), Floor95(|ranks|), k);
    CountSort(ranks, k);
  }

  /** What its name promises. */
  predicate Covers95(ranks: seq<nat>)
    requires ranks != []
  {
    20 * CountAtMost(ranks, RequiredFor95(ranks)) >= 19 * |ranks|
  }

  /** 95% of `n`, rounded up. */
  function Ceiling95(n: nat): (m: nat)
    requires n >= 1
    ensures Floor95(n) <= m <= n
    ensures forall hits: nat :: 20 * hits >= 19 * n <==> m <= hits
  {
    (19 * n + 19) / 20
  }

  /** The `low`-th smallest covers `high` values only by being the `high`-th smallest too. */
  lemma CoversMore(ranks: seq<nat>, low: nat, high: nat)
    requires 1 <= low <= high <= |ranks|
    ensures high <= CountAtMost(ranks, SortNats(ranks)[low - 1])
       <==> SortNats(ranks)[high - 1] == SortNats(ranks)[low - 1]
  {
    var s := SortNats(ranks);
    SortNatsSorts(ranks);
    CountSort(ranks, s[low - 1]);
    OrderStatistic(s, high, s[low - 1]);
  }

  lemma CoversShare(ranks: seq<nat>, low: nat, high: nat)
    requires 1 <= low <= high <= |ranks|
    requires forall hits: nat :: 20 * hits >= 19 * |ranks| <==> high <= hits
    ensures 20 * CountAtMost(ranks, SortNats(ranks)[low - 1]) >= 19 * |ranks|
       <==> SortNats(ranks)[high - 1] == SortNats(ranks)[low - 1]
  {
    CoversMore(ranks, low, high);
  }

  /** What its name promises, 95% of the ranks, it delivers exactly when the ranks at the floor and
      at the ceiling of 95% are the same. */
  lemma {:induction false} Covers95Iff(ranks: seq<nat>)
    requires ranks != []
    ensures Covers95(ranks)
       <==> SortNats(ranks)[Ceiling95(|ranks|) - 1] == SortNats(ranks)[Floor95(|ranks|) - 1]
  {
    CoversShare(ranks, Floor95(|ranks|), Ceiling95(|ranks|));
  }

  lemma FloorIsCeiling(n: nat)
    requires n >= 1
    ensures Floor95(n) == Ceiling95(n) <==> n % 20 == 0 || n == 1
  {
    assert n == n / 20 * 20 + n % 20;
  }

  /** When no more ranks are 1 than the floor asks for, the figure is 1 and covers no more. */
  lemma FloorOnly(ranks: seq<nat>)
    requires ranks != [] && Floor95(|ranks|) < Ceiling95(|ranks|)
    requires CountAtMost(ranks, 0) == 0 && CountAtMost(ranks, 1) == Floor95(|ranks|)
    ensures !Covers95(ranks)
  {
    RequiredIsLeast(ranks, 0);
    RequiredIsLeast(ranks, 1);
    assert RequiredFor95(ranks) == 1;
  }

  lemma CountTwo(low: nat, high: nat, k: nat)
    ensures |Repeat(low, 1) + Repeat(high, 2)| == low + high
    ensures CountAtMost(Repeat(low, 1) + Repeat(high, 2), k)
         == (if 1 <= k then low else 0) + (if 2 <= k then high else 0)
  {
    CountConcat(Repeat(low, 1), Repeat(high, 2), k);
    CountRepeat(low, 1, k);
    CountRepeat(high, 2, k);
  }

  lemma FallsShort(n: nat) returns (ranks: seq<nat>)
    requires n >= 1 && Floor95(n) < Ceiling95(n)
    ensures |ranks| == n && !Covers95(ranks)
  {
    var low := Floor95(n);
    ranks := Repeat(low, 1) + Repeat(n - low, 2);
    CountTwo(low, n - low, 0);
    CountTwo(low, n - low, 1);
    FloorOnly(ranks);
  }

  /** It delivers it for every list of `n` ranks exactly when twenty divides `n`, or for one alone. */
  lemma Covers95BySize(n: nat)
    requires n >= 1
    ensures (forall ranks: seq<nat> :: |ranks| == n ==> Covers95(ranks)) <==> n % 20 == 0 || n == 1
  {
    FloorIsCeiling(n);
    if Floor95(n) == Ceiling95(n) {
      forall ranks: seq<nat> | |ranks| == n ensures Covers95(ranks) { Covers95Iff(ranks); }
    } else {
      var ranks := FallsShort(n);
    }
  }

  /** Two ranks, 1 and 100: the figure is 1 and covers half of them. */
  lemma HalfCovered()
    ensures RequiredFor95([1, 100]) == 1 && CountAtMost([1, 100], 1) == 1
  {
    assert [1, 100][1..] == [100] && [100][1..] == [];
    assert SortNats([100]) == [100];
    assert SortNats([1, 100]) == [1, 100];
  }

  lemma PartMonotone(a: nat, b: nat, total: nat)
    requires a <= b && total > 0
    ensures Part(a, total) <= Part(b, total)
  {}

  lemma {:induction false} CoverageFalls(small: seq<Filed>, large: seq<Filed>, k: nat)
    requires AllValid(small) && AllValid(large) && Nested(small, large)
    ensures ArmOf(large, k).covered <= ArmOf(small, k).covered && ArmOf(large, k).macro <= ArmOf(small, k).macro
  {
    if small != [] {
      var n := |small| - 1;
      CoverageFalls(small[..n], large[..n], k);
      assert small[n].Valid() && large[n].Valid();
      OwnGrows(small[n], large[n]);
      var a, b := Own(small[n].scores, small[n].truth), Own(large[n].scores, large[n].truth);
      CountsFall(a, b, k);
      PartMonotone(CountAtMost(b, k), CountAtMost(a, k), |a|);
    }
  }

  lemma RequiredGrows(a: seq<nat>, b: seq<nat>)
    requires a != [] && Below(a, b)
    ensures RequiredFor95(a) <= RequiredFor95(b)
  {
    var needed := RequiredFor95(b);
    RequiredIsLeast(b, needed);
    CountsFall(a, b, needed);
    RequiredIsLeast(a, needed);
  }

  /** Extending every pool by a suffix never raises a recall, at any `k`, over all labels, over the
      best of each document or averaged over documents, never covers a document more, and never
      lowers the `k` that 95% takes. */
  lemma LargerPoolsOnlyHurt(small: seq<Filed>, large: seq<Filed>, k: nat)
    requires AllValid(small) && AllValid(large) && Nested(small, large)
    ensures var s, l := ArmOf(small, k), ArmOf(large, k);
            && |s.ranks| == |l.ranks| && |s.best| == |l.best|
            && CountAtMost(l.ranks, k) <= CountAtMost(s.ranks, k)
            && CountAtMost(l.best, k) <= CountAtMost(s.best, k)
            && l.covered <= s.covered && l.macro <= s.macro
            && (s.ranks != [] ==> RequiredFor95(s.ranks) <= RequiredFor95(l.ranks))
  {
    RanksGrow(small, large, k);
    CountsFall(ArmOf(small, k).ranks, ArmOf(large, k).ranks, k);
    CountsFall(ArmOf(small, k).best, ArmOf(large, k).best, k);
    CoverageFalls(small, large, k);
    if ArmOf(small, k).ranks != [] { RequiredGrows(ArmOf(small, k).ranks, ArmOf(large, k).ranks); }
  }

  /** A shortlist as long as the pool keeps everything. */
  lemma {:induction false} WholePoolKeepsAll(documents: seq<Filed>, k: nat)
    requires AllValid(documents) && forall i :: 0 <= i < |documents| ==> |documents[i].scores| <= k
    ensures ArmOf(documents, k).misses == 0 && CountAtMost(ArmOf(documents, k).ranks, k) == |ArmOf(documents, k).ranks|
  {
    MissesAndCovered(documents, k);
    if documents != [] {
      var n := |documents| - 1;
      WholePoolKeepsAll(documents[..n], k);
      var scores, truth := documents[n].scores, documents[n].truth;
      assert documents[n].Valid();
      forall i | 0 <= i < |truth| ensures Own(scores, truth)[i] <= k { PlaceAt(scores, truth[i]); }
      CountAll(Own(scores, truth), k);
    }
  }
}
