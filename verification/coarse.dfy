/**
  Coarse-to-fine retrieval, twice: `backend/eval/coarse.py` runs it in two stages and
  `backend/eval/coarse_scale.py` replaces it by a rank count.  Passages and groups are indices;
  a corpus gives each passage its similarity to the query and its group.
 */
module Coarse {
  import opened Arith
  import opened Seqs
  import opened Ranking

  datatype Passage = Passage(similarity: real, group: nat)

  ghost predicate WellGrouped(corpus: seq<Passage>, groups: seq<real>) {
    forall i :: 0 <= i < |corpus| ==> corpus[i].group < |groups|
  }

  function Similarities(corpus: seq<Passage>): seq<real> {
    seq(|corpus|, i requires 0 <= i < |corpus| => corpus[i].similarity)
  }

  /** `_truth`: the exact nearest passages of the whole corpus. */
  function Truth(corpus: seq<Passage>, depth: nat): seq<Item> {
    Top(Items(Similarities(corpus)), depth)
  }

  /** `picked`: the groups the coarse stage opens. */
  function Picked(groups: seq<real>, dial: nat): seq<int> {
    Ids(Top(Items(groups), dial))
  }

  predicate InOpened(corpus: seq<Passage>, groups: seq<real>, dial: nat, it: Item) {
    0 <= it.id < |corpus| && corpus[it.id].group in Picked(groups, dial)
  }

  function Candidate(corpus: seq<Passage>, groups: seq<real>, dial: nat): Item -> bool {
    (it: Item) => InOpened(corpus, groups, dial, it)
  }

  /** Coarse then fine: the members of the opened groups, rescanned exactly, `depth` kept. */
  function TwoStage(corpus: seq<Passage>, groups: seq<real>, dial: nat, depth: nat): seq<Item> {
    Top(Filter(Items(Similarities(corpus)), Candidate(corpus, groups, dial)), depth)
  }

  /** The coarse rank of a passage's group, counting from one. */
  function GroupRank(corpus: seq<Passage>, groups: seq<real>, i: nat): nat
    requires WellGrouped(corpus, groups) && i < |corpus|
  {
    Place(groups, corpus[i].group)
  }

  // ----- The reduction, passage by passage -----

  lemma PickedIsRank(groups: seq<real>, dial: nat, g: nat)
    requires g < |groups|
    ensures g in Picked(groups, dial) <==> Place(groups, g) <= dial
  {
    var items := Items(groups);
    var top := Top(items, dial);
    TopMember(items, dial, items[g]);
    if items[g] in top {
      var i :| 0 <= i < |top| && top[i] == items[g];
      assert Picked(groups, dial)[i] == g;
    }
    if g in Picked(groups, dial) {
      var i :| 0 <= i < |top| && top[i].id == g;
      TopMember(items, dial, top[i]);
      assert top[i] == items[g];
    }
  }

  /** A true neighbour is found by the two stages exactly when its group ranks within `dial`. */
  lemma FoundIsRank(corpus: seq<Passage>, groups: seq<real>, dial: nat, depth: nat, it: Item)
    requires WellGrouped(corpus, groups) && it in Truth(corpus, depth)
    ensures 0 <= it.id < |corpus|
    ensures it in TwoStage(corpus, groups, dial, depth) <==> GroupRank(corpus, groups, it.id) <= dial
  {
    var items := Items(Similarities(corpus));
    TopMember(items, depth, it);
    Survives(items, Candidate(corpus, groups, dial), depth, it);
    PickedIsRank(groups, dial, corpus[it.id].group);
  }

  /** The groups opened are the nearest: of any two, what is opened is no farther than what is not. */
  lemma PickedIsNearest(groups: seq<real>, dial: nat, g: nat, h: nat)
    requires g < |groups| && h < |groups| && g in Picked(groups, dial) && h !in Picked(groups, dial)
    ensures |Picked(groups, dial)| == dial && groups[g] >= groups[h]
  {
    var items := Items(groups);
    assert items[g] == Item(groups[g], g) && items[h] == Item(groups[h], h);
    PickedIsRank(groups, dial, g);
    PickedIsRank(groups, dial, h);
    TopMember(items, dial, items[g]);
    TopMember(items, dial, items[h]);
    LeftOut(items, dial, items[h]);
  }

  /** A list of the nearest: at most `depth` passages, each with its own similarity, the most similar
      first; a passage that may be listed and is not has `depth` before it that are as similar. */
  ghost predicate ListsNearest(corpus: seq<Passage>, found: seq<Item>, depth: nat, i: nat, listed: bool)
    requires i < |corpus|
  {
    var x := Item(corpus[i].similarity, i);
    && |found| <= depth && BestFirst(found)
    && (x in found ==> listed)
    && (listed && x !in found ==>
          |found| == depth && forall j :: 0 <= j < depth ==> found[j].score >= corpus[i].similarity)
  }

  lemma TopIsNearest(corpus: seq<Passage>, p: Item -> bool, depth: nat, i: nat)
    requires i < |corpus|
    ensures ListsNearest(corpus, Top(Filter(Items(Similarities(corpus)), p), depth), depth, i,
                         p(Item(corpus[i].similarity, i)))
  {
    var items, x := Items(Similarities(corpus)), Item(corpus[i].similarity, i);
    assert items[i] == x;
    var kept := Filter(items, p);
    FilterKeeps(items, p, x);
    TopIsOrdered(kept, depth);
    TopMember(kept, depth, x);
    if x in kept && x !in Top(kept, depth) { LeftOut(kept, depth, x); }
  }

  /** The truth is the nearest of all passages, and what the two stages find the nearest of those whose
      group is opened. */
  lemma StagesAreNearest(corpus: seq<Passage>, groups: seq<real>, dial: nat, depth: nat, i: nat)
    requires i < |corpus|
    ensures ListsNearest(corpus, Truth(corpus, depth), depth, i, true)
    ensures ListsNearest(corpus, TwoStage(corpus, groups, dial, depth), depth, i,
                         corpus[i].group in Picked(groups, dial))
  {
    var all := (it: Item) => true;
    FilterAll(Items(Similarities(corpus)), all);
    TopIsNearest(corpus, all, depth, i);
    TopIsNearest(corpus, Candidate(corpus, groups, dial), depth, i);
  }

  // ----- The reduction, as one number -----

  function IdSet(s: seq<Item>): set<int> {
    set it | it in s :: it.id
  }

  /** `len(truth & found)`. */
  function Hits(truth: seq<Item>, found: seq<Item>): nat {
    |IdSet(truth) * IdSet(found)|
  }

  /** The group ranks of the truth passages, in truth order. */
  function TruthRanks(corpus: seq<Passage>, groups: seq<real>, truth: seq<Item>): seq<nat>
    requires WellGrouped(corpus, groups)
    requires forall it :: it in truth ==> 0 <= it.id < |corpus|
  {
    seq(|truth|, j requires 0 <= j < |truth| => GroupRank(corpus, groups, truth[j].id))
  }

  ghost predicate IdsApart(s: seq<Item>) {
    forall i, j :: 0 <= i < j < |s| ==> s[i].id != s[j].id
  }

  lemma MeetCons(x: int, rest: set<int>, found: set<int>)
    requires x !in rest
    ensures |({x} + rest) * found| == |rest * found| + (if x in found then 1 else 0)
  {
    if x in found {
      assert ({x} + rest) * found == {x} + rest * found;
    } else {
      assert ({x} + rest) * found == rest * found;
    }
  }

  lemma IdSetCons(truth: seq<Item>)
    requires truth != [] && IdsApart(truth)
    ensures IdSet(truth) == {truth[0].id} + IdSet(truth[1..]) && truth[0].id !in IdSet(truth[1..])
  {
    assert truth == [truth[0]] + truth[1..];
    forall x | x in truth[1..] ensures x.id != truth[0].id {
      var i :| 1 <= i < |truth| && truth[i] == x;
    }
  }

  /** Counting the members of a list that lie in a set of ids is counting by any test that decides it. */
  lemma {:induction false} CountIsIntersection(truth: seq<Item>, ranks: seq<nat>, found: set<int>, dial: nat)
    requires IdsApart(truth) && |ranks| == |truth|
    requires forall j :: 0 <= j < |truth| ==> (truth[j].id in found <==> ranks[j] <= dial)
    ensures |IdSet(truth) * found| == CountAtMost(ranks, dial)
  {
    if truth != [] {
      CountIsIntersection(truth[1..], ranks[1..], found, dial);
      IdSetCons(truth);
      MeetCons(truth[0].id, IdSet(truth[1..]), found);
    }
  }

  lemma TruthIsIndexed(corpus: seq<Passage>, depth: nat)
    ensures forall it :: it in Truth(corpus, depth) ==> 0 <= it.id < |corpus|
    ensures IdsApart(Truth(corpus, depth))
    ensures |Truth(corpus, depth)| == if depth <= |corpus| then depth else |corpus|
  {
    var items := Items(Similarities(corpus));
    SortSorts(items);
    PlaceInvertsArgSort(Similarities(corpus));
    forall it | it in Truth(corpus, depth) ensures 0 <= it.id < |corpus| { TopMember(items, depth, it); }
    var order := ArgSort(Similarities(corpus));
    assert forall i :: 0 <= i < |Truth(corpus, depth)| ==> Truth(corpus, depth)[i].id == order[i];
  }

  /** "It is the same number": the hits the two-stage query scores are the truth ranks within
      `dial`, for every corpus, grouping and dial position. */
  lemma TwoStageIsRankCount(corpus: seq<Passage>, groups: seq<real>, dial: nat, depth: nat)
    requires WellGrouped(corpus, groups)
    ensures forall it :: it in Truth(corpus, depth) ==> 0 <= it.id < |corpus|
    ensures Hits(Truth(corpus, depth), TwoStage(corpus, groups, dial, depth))
         == CountAtMost(TruthRanks(corpus, groups, Truth(corpus, depth)), dial)
  {
    TruthIsIndexed(corpus, depth);
    var items := Items(Similarities(corpus));
    var truth, found := Truth(corpus, depth), TwoStage(corpus, groups, dial, depth);
    var ranks := TruthRanks(corpus, groups, truth);
    forall j | 0 <= j < |truth| ensures truth[j].id in IdSet(found) <==> ranks[j] <= dial {
      FoundIsRank(corpus, groups, dial, depth, truth[j]);
      TopMember(items, depth, truth[j]);
      if truth[j].id in IdSet(found) {
        var it :| it in found && it.id == truth[j].id;
        var kept := Filter(items, Candidate(corpus, groups, dial));
        TopMember(kept, depth, it);
        FilterKeeps(items, Candidate(corpus, groups, dial), it);
        assert it == truth[j];
      }
    }
    CountIsIntersection(truth, ranks, IdSet(found), dial);
  }

  /** With every group open the two stages find the whole truth. */
  lemma AllOpenFindsAll(corpus: seq<Passage>, groups: seq<real>, depth: nat)
    requires WellGrouped(corpus, groups)
    ensures Hits(Truth(corpus, depth), TwoStage(corpus, groups, |groups|, depth)) == |Truth(corpus, depth)|
  {
    var truth := Truth(corpus, depth);
    TruthIsIndexed(corpus, depth);
    TwoStageIsRankCount(corpus, groups, |groups|, depth);
    forall j | 0 <= j < |truth| ensures GroupRank(corpus, groups, truth[j].id) <= |groups| {
      PlaceAt(groups, corpus[truth[j].id].group);
    }
    CountAll(TruthRanks(corpus, groups, truth), |groups|);
  }

  /** `coarse.py` divides the hits by `DEPTH`; over the real corpus `coarse_scale.py` divides them by the
      number of truth passages there are.  The same recall, cross-multiplied. */
  predicate SameRecall(corpus: seq<Passage>, groups: seq<real>, dial: nat, depth: nat) {
    var truth := Truth(corpus, depth);
    var hits := Hits(truth, TwoStage(corpus, groups, dial, depth));
    hits * |truth| == hits * depth
  }

  /** The two files report the same recall of a corpus at every dial position exactly when it holds
      `depth` passages.  Below three passages `coarse_scale.py` reports nothing. */
  lemma RecallsAgreeIff(corpus: seq<Passage>, groups: seq<real>, depth: nat)
    requires WellGrouped(corpus, groups) && |corpus| >= 3
    ensures (forall dial: nat :: SameRecall(corpus, groups, dial, depth)) <==> depth <= |corpus|
  {
    TruthIsIndexed(corpus, depth);
    if depth > |corpus| {
      AllOpenFindsAll(corpus, groups, depth);
      MulEqual(|corpus|, depth, |corpus|);
      assert !SameRecall(corpus, groups, |groups|, depth);
    }
  }

  /** Three passages in one group, ten neighbours wanted: all three are found, and are three tenths of
      the recall in one file and all of it in the other. */
  lemma ThreePassagesDiffer(corpus: seq<Passage>)
    requires corpus == [Passage(3.0, 0), Passage(2.0, 0), Passage(1.0, 0)]
    ensures !SameRecall(corpus, [1.0], 1, 10)
    ensures Hits(Truth(corpus, 10), TwoStage(corpus, [1.0], 1, 10)) == 3 == |Truth(corpus, 10)|
  {
    TruthIsIndexed(corpus, 10);
    AllOpenFindsAll(corpus, [1.0], 10);
  }

  // ----- What is read -----

  function GroupsOf(corpus: seq<Passage>): seq<int> {
    seq(|corpus|, i requires 0 <= i < |corpus| => corpus[i].group)
  }

  /** `group_sizes`: how many passages each group has. */
  function GroupSizes(corpus: seq<Passage>, groups: nat): seq<nat> {
    seq(groups, g requires 0 <= g < groups => Count(GroupsOf(corpus), g))
  }

  /** `np.cumsum(group_sizes[ordering])`, at its `n`-th place. */
  function Cumulative(sizes: seq<nat>, ordering: seq<int>, n: nat): nat
    requires n <= |ordering| && forall i :: 0 <= i < |ordering| ==> 0 <= ordering[i] < |sizes|
  {
    if n == 0 then 0 else Cumulative(sizes, ordering, n - 1) + sizes[ordering[n - 1]]
  }

  function InPicked(groups: seq<real>, dial: nat): int -> bool {
    (g: int) => g in Picked(groups, dial)
  }

  lemma PickedIsPrefix(groups: seq<real>, dial: nat)
    requires dial <= |groups|
    ensures |ArgSort(groups)| == |groups|
    ensures Picked(groups, dial) == ArgSort(groups)[..dial] && NoDup(Picked(groups, dial))
    ensures forall i :: 0 <= i < |groups| ==> 0 <= ArgSort(groups)[i] < |groups|
  {
    SortSorts(Items(groups));
    PlaceInvertsArgSort(groups);
    var ordering := ArgSort(groups);
    assert Picked(groups, dial) == ordering[..dial];
    forall i, j | 0 <= i < j < dial ensures ordering[i] != ordering[j] {
      assert Place(groups, ordering[i]) == i + 1 && Place(groups, ordering[j]) == j + 1;
    }
  }

  lemma {:induction false} CumulativeIsCensus(corpus: seq<Passage>, ordering: seq<int>, groups: nat, n: nat)
    requires n <= |ordering| && forall i :: 0 <= i < |ordering| ==> 0 <= ordering[i] < groups
    ensures Cumulative(GroupSizes(corpus, groups), ordering, n) == Census(GroupsOf(corpus), ordering[..n])
  {
    if n > 0 {
      CumulativeIsCensus(corpus, ordering, groups, n - 1);
      CensusSnoc(GroupsOf(corpus), ordering[..n - 1], ordering[n - 1]);
      assert ordering[..n] == ordering[..n - 1] + [ordering[n - 1]];
    }
  }

  /** Both files report the same IO: the running sum of group sizes along the coarse order is the
      number of passages the two-stage query rescans. */
  lemma ReadsAgree(corpus: seq<Passage>, groups: seq<real>, dial: nat)
    requires WellGrouped(corpus, groups) && dial <= |groups|
    ensures |ArgSort(groups)| == |groups| && forall i :: 0 <= i < |groups| ==> 0 <= ArgSort(groups)[i] < |groups|
    ensures Cumulative(GroupSizes(corpus, |groups|), ArgSort(groups), dial)
         == |Filter(Items(Similarities(corpus)), Candidate(corpus, groups, dial))|
  {
    PickedIsPrefix(groups, dial);
    CumulativeIsCensus(corpus, ArgSort(groups), |groups|, dial);
    CensusIsFilter(GroupsOf(corpus), Picked(groups, dial), InPicked(groups, dial));
    FilterCount(GroupsOf(corpus), Items(Similarities(corpus)), InPicked(groups, dial), Candidate(corpus, groups, dial));
  }

  // ----- `_ranks_of_truth`, in place -----

  /** The order of the groups is scattered into `rank`, which becomes its inverse. */
  method RankGroups(groups: seq<real>) returns (ordering: seq<int>, ranks: seq<nat>)
    ensures ordering == ArgSort(groups)
    ensures |ranks| == |groups| && forall g :: 0 <= g < |groups| ==> ranks[g] == Place(groups, g) - 1
  {
    ordering := ArgSort(groups);
    PlaceInvertsArgSort(groups);
    var rank := new nat[|groups|];
    for i := 0 to |ordering|
      invariant forall g :: 0 <= g < |groups| && Place(groups, g) <= i ==> rank[g] == Place(groups, g) - 1
    {
      rank[ordering[i]] := i;
    }
    ranks := rank[..];
  }
}
