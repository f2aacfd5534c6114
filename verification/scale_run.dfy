/**
  One rung of `_run` in `backend/eval/coarse_scale.py`, put together: the truth is streamed over the
  virtual corpus, ranked by group, and counted, and the counts are what `coarse.py`'s two-stage query
  would score on that corpus if it existed.
 */
module ScaleRun {
  import opened Arith
  import opened Coarse
  import opened Dial
  import opened Options
  import opened Ranking
  import opened Seqs
  import opened Streaming

  /** A question: its similarity to any passage of the virtual corpus, and to every group's mean. */
  datatype Query = Query(score: Point -> real, means: seq<real>)

  /** The virtual corpus as rows: what each index names, and the group it belongs to. */
  ghost function VirtualCorpus(c: Synthetic, levels: nat, score: Point -> real): (corpus: seq<Passage>)
    requires c.Covers(levels) && c.GroupMajor()
    ensures |corpus| == levels * c.Rows()
  {
    MemberGroupLength(c, levels);
    seq(levels * c.Rows(), i requires 0 <= i < levels * c.Rows() => PassageAt(c, levels, score, i))
  }

  ghost function PassageAt(c: Synthetic, levels: nat, score: Point -> real, i: nat): Passage
    requires c.Covers(levels) && c.GroupMajor() && i < levels * c.Rows()
  {
    VirtualIsAt(c, levels, score, i);
    MemberGroupLength(c, levels);
    Passage(score(c.At(i)), c.MemberGroup(levels)[i])
  }

  /** Every passage's group has a mean. */
  lemma GroupsInRange(c: Synthetic, levels: nat, i: nat)
    requires c.GroupMajor() && i < levels * c.Rows()
    ensures |c.MemberGroup(levels)| == levels * c.Rows() && c.MemberGroup(levels)[i] < levels * c.Groups()
  {
    MemberGroupLength(c, levels);
    PositiveFactor(levels, c.Rows());
    var before, at := Divided(i, c.Rows(), levels);
    var g := IndexNamesGroup(c, levels, before + 1, at);
    PairBelow(before, g, c.Groups(), levels);
  }

  lemma Divided(i: nat, n: nat, limit: nat) returns (q: nat, r: nat)
    requires n > 0 && i < limit * n
    ensures i == q * n + r && r < n && q < limit
  {
    q, r := i / n, i % n;
    QuotientBelow(i, n, limit);
  }

  lemma CorpusIsGrouped(c: Synthetic, levels: nat, query: Query)
    requires c.Covers(levels) && c.GroupMajor() && |query.means| == levels * c.Groups()
    ensures WellGrouped(VirtualCorpus(c, levels, query.score), query.means)
  {
    var corpus := VirtualCorpus(c, levels, query.score);
    forall i | 0 <= i < |corpus| ensures corpus[i].group < |query.means| { GroupsInRange(c, levels, i); }
  }

  /** The rows' similarities are the items the stream folds. */
  lemma CorpusIsVirtual(c: Synthetic, levels: nat, score: Point -> real)
    requires c.Covers(levels) && c.GroupMajor()
    ensures Items(Similarities(VirtualCorpus(c, levels, score))) == Virtual(c, levels, score)
  {
    var corpus := VirtualCorpus(c, levels, score);
    VirtualLength(c, levels, score);
    forall i | 0 <= i < |corpus| ensures Items(Similarities(corpus))[i] == Virtual(c, levels, score)[i] {
      VirtualIsAt(c, levels, score, i);
    }
  }

  /** How many columns of a rung's truth no passage is left for. */
  function Missing(depth: nat, passages: nat): nat {
    if passages < depth then depth - passages else 0
  }

  /** Streaming block by block finds the exact truth of the whole, and fills what is missing with
      index 0. */
  lemma StreamIsTruth(c: Synthetic, levels: nat, score: Point -> real, depth: nat)
    requires c.Covers(levels) && c.GroupMajor()
    requires forall p :: score(p) > SENTINEL.score
    ensures var corpus := VirtualCorpus(c, levels, score);
      Top(Sentinels(depth) + Virtual(c, levels, score), depth)
        == Truth(corpus, depth) + Sentinels(Missing(depth, |corpus|))
  {
    VirtualLength(c, levels, score);
    StreamIsGlobalTop(c, levels, score, depth);
    CorpusIsVirtual(c, levels, score);
    SortSorts(Virtual(c, levels, score));
  }

  ghost predicate Built(c: Synthetic, levels: nat) {
    levels >= 1 && c.Covers(levels) && c.GroupMajor()
  }

  lemma NotEmpty(c: Synthetic, levels: nat)
    requires Built(c, levels)
    ensures levels * c.Groups() > 0 && levels * c.Rows() > 0
  {
    MulMono(1, levels, c.Groups());
    MulMono(1, levels, c.Rows());
  }

  ghost predicate Asked(c: Synthetic, levels: nat, query: Query) {
    && Built(c, levels)
    && |query.means| == levels * c.Groups() && forall p :: query.score(p) > SENTINEL.score
  }

  ghost predicate AllAsked(c: Synthetic, levels: nat, queries: seq<Query>) {
    Built(c, levels) && forall i :: 0 <= i < |queries| ==> Asked(c, levels, queries[i])
  }

  /** The rank of the group of passage 0, which the sentinels name. */
  ghost function FirstRank(c: Synthetic, levels: nat, query: Query): nat
    requires Asked(c, levels, query)
  {
    CorpusIsGrouped(c, levels, query);
    NotEmpty(c, levels);
    GroupRank(VirtualCorpus(c, levels, query.score), query.means, 0)
  }

  /** The hits the two-stage query would score on the virtual corpus. */
  ghost function TwoStageHits(c: Synthetic, levels: nat, query: Query, dial: nat, depth: nat): nat
    requires Asked(c, levels, query)
  {
    var corpus := VirtualCorpus(c, levels, query.score);
    Hits(Truth(corpus, depth), TwoStage(corpus, query.means, dial, depth))
  }

  /** What the ranks count: the two stages' hits, and the missing columns once passage 0's group opens. */
  ghost function Scored(c: Synthetic, levels: nat, query: Query, dial: nat, depth: nat): nat
    requires Asked(c, levels, query)
  {
    TwoStageHits(c, levels, query, dial, depth)
      + if FirstRank(c, levels, query) <= dial then Missing(depth, levels * c.Rows()) else 0
  }

  /** What one question's sorted ranks must be: their count within any dial position is the number of
      true neighbours the two-stage query finds there, and every missing one once the dial reaches the
      group of passage 0. */
  ghost predicate Measures(c: Synthetic, levels: nat, query: Query, depth: nat, ranks: seq<nat>)
    requires Asked(c, levels, query)
  {
    && |ranks| == depth && Ascending(ranks)
    && (forall i :: 0 <= i < depth ==> 1 <= ranks[i] <= |query.means|)
    && forall dial: nat :: CountAtMost(ranks, dial) == Scored(c, levels, query, dial, depth)
  }

  lemma RanksOfFilled(corpus: seq<Passage>, means: seq<real>, truth: seq<Item>, k: nat, dial: nat)
    requires WellGrouped(corpus, means) && corpus != []
    requires forall it :: it in truth ==> 0 <= it.id < |corpus|
    ensures forall it :: it in truth + Sentinels(k) ==> 0 <= it.id < |corpus|
    ensures CountAtMost(TruthRanks(corpus, means, truth + Sentinels(k)), dial)
         == CountAtMost(TruthRanks(corpus, means, truth), dial) + if GroupRank(corpus, means, 0) <= dial then k else 0
  {
    var first := GroupRank(corpus, means, 0);
    RepeatAt(k, first);
    assert TruthRanks(corpus, means, truth + Sentinels(k)) == TruthRanks(corpus, means, truth) + Repeat(k, first);
    CountConcat(TruthRanks(corpus, means, truth), Repeat(k, first), dial);
    CountRepeat(k, first, dial);
  }

  ghost function FilledTruth(c: Synthetic, levels: nat, query: Query, depth: nat): seq<Item>
    requires Asked(c, levels, query)
  {
    var corpus := VirtualCorpus(c, levels, query.score);
    Truth(corpus, depth) + Sentinels(Missing(depth, |corpus|))
  }

  lemma FilledIsIndexed(c: Synthetic, levels: nat, query: Query, depth: nat)
    requires Asked(c, levels, query)
    ensures WellGrouped(VirtualCorpus(c, levels, query.score), query.means)
    ensures |FilledTruth(c, levels, query, depth)| == depth
    ensures forall it :: it in FilledTruth(c, levels, query, depth) ==> 0 <= it.id < levels * c.Rows()
  {
    CorpusIsGrouped(c, levels, query);
    NotEmpty(c, levels);
    TruthIsIndexed(VirtualCorpus(c, levels, query.score), depth);
  }

  /** The truth filled up counts what it should. */
  lemma {:induction false} FilledScores(c: Synthetic, levels: nat, query: Query, depth: nat, dial: nat)
    requires Asked(c, levels, query)
    requires WellGrouped(VirtualCorpus(c, levels, query.score), query.means)
    requires forall it :: it in FilledTruth(c, levels, query, depth) ==> 0 <= it.id < levels * c.Rows()
    ensures CountAtMost(TruthRanks(VirtualCorpus(c, levels, query.score), query.means,
                                   FilledTruth(c, levels, query, depth)), dial)
         == Scored(c, levels, query, dial, depth)
  {
    var corpus := VirtualCorpus(c, levels, query.score);
    NotEmpty(c, levels);
    TwoStageIsRankCount(corpus, query.means, dial, depth);
    RanksOfFilled(corpus, query.means, Truth(corpus, depth), Missing(depth, |corpus|), dial);
  }

  /** One question: stream its truth, then rank the groups its neighbours sit in. */
  method MeasureQuery(c: Synthetic, levels: nat, query: Query, depth: nat)
    returns (ranks: seq<nat>, ordering: seq<int>)
    requires Asked(c, levels, query)
    ensures Measures(c, levels, query, depth, ranks) && ordering == ArgSort(query.means)
  {
    var truth := Stream(c, levels, query.score, depth);
    StreamIsTruth(c, levels, query.score, depth);
    FilledIsIndexed(c, levels, query, depth);
    assert truth == FilledTruth(c, levels, query, depth);
    MemberGroupLength(c, levels);
    ranks, ordering := RanksByGroup(c, levels, query.means, truth, VirtualCorpus(c, levels, query.score));
    forall dial: nat ensures CountAtMost(ranks, dial) == Scored(c, levels, query, dial, depth) {
      FilledScores(c, levels, query, depth, dial);
      CountSort(TruthRanks(VirtualCorpus(c, levels, query.score), query.means, truth), dial);
    }
  }

  /** The ranks score the two stages at every dial position exactly when no column is missing. */
  lemma RungAgreesIff(c: Synthetic, levels: nat, query: Query, depth: nat, ranks: seq<nat>)
    requires Asked(c, levels, query) && Measures(c, levels, query, depth, ranks)
    ensures (forall dial: nat :: CountAtMost(ranks, dial) == TwoStageHits(c, levels, query, dial, depth))
       <==> depth <= levels * c.Rows()
  {
    var all := FirstRank(c, levels, query);
    if depth > levels * c.Rows() {
      assert CountAtMost(ranks, all) == Scored(c, levels, query, all, depth);
    }
  }

  /** `_ranks_of_truth` through `member_group`: the rows of the virtual corpus are not needed. */
  method RanksByGroup(c: Synthetic, levels: nat, means: seq<real>, truth: seq<Item>, ghost corpus: seq<Passage>)
    returns (ranks: seq<nat>, ordering: seq<int>)
    requires c.GroupMajor() && WellGrouped(corpus, means) && |c.MemberGroup(levels)| == |corpus|
    requires forall i :: 0 <= i < |corpus| ==> corpus[i].group == c.MemberGroup(levels)[i]
    requires forall it :: it in truth ==> 0 <= it.id < |corpus|
    ensures ordering == ArgSort(means) && ranks == SortNats(TruthRanks(corpus, means, truth))
    ensures |ranks| == |truth| && Ascending(ranks) && forall i :: 0 <= i < |ranks| ==> 1 <= ranks[i] <= |means|
  {
    var memberGroup, rank := c.MemberGroup(levels), [];
    ordering, rank := RankGroups(means);
    var picked: seq<nat> := [];
    for j := 0 to |truth|
      invariant picked == TruthRanks(corpus, means, truth)[..j]
      invariant forall i :: 0 <= i < j ==> 1 <= picked[i] <= |means|
    {
      assert truth[j] in truth;
      PlaceAt(means, memberGroup[truth[j].id]);
      picked := picked + [rank[memberGroup[truth[j].id]] + 1];
    }
    assert picked == TruthRanks(corpus, means, truth);
    SortNatsSorts(picked);
    ranks := SortNats(picked);
    SortNatsRange(picked, 1, |means|);
  }

  /** The whole rung: every question's ranks. */
  method MeasureRung(c: Synthetic, levels: nat, queries: seq<Query>, depth: nat)
    returns (ranks: seq<seq<nat>>, orderings: seq<seq<int>>)
    requires AllAsked(c, levels, queries)
    ensures |ranks| == |orderings| == |queries|
    ensures forall i :: 0 <= i < |queries| ==>
              Measures(c, levels, queries[i], depth, ranks[i]) && orderings[i] == ArgSort(queries[i].means)
  {
    ranks, orderings := [], [];
    for i := 0 to |queries|
      invariant |ranks| == |orderings| == i
      invariant forall j :: 0 <= j < i ==>
                  Measures(c, levels, queries[j], depth, ranks[j]) && orderings[j] == ArgSort(queries[j].means)
    {
      var own, ordering := MeasureQuery(c, levels, queries[i], depth);
      ranks, orderings := ranks + [own], orderings + [ordering];
    }
  }

  // ----- The rung's report, in the two stages' terms -----

  /** How many passages the two-stage query rescans. */
  ghost function Rescanned(c: Synthetic, levels: nat, query: Query, dial: nat): nat
    requires Asked(c, levels, query)
  {
    var corpus := VirtualCorpus(c, levels, query.score);
    |Filter(Items(Similarities(corpus)), Candidate(corpus, query.means, dial))|
  }

  ghost function AllScored(c: Synthetic, levels: nat, queries: seq<Query>, dial: nat, depth: nat): seq<nat>
    requires AllAsked(c, levels, queries)
  {
    seq(|queries|, i requires 0 <= i < |queries| => Scored(c, levels, queries[i], dial, depth))
  }

  ghost function AllRescanned(c: Synthetic, levels: nat, queries: seq<Query>, dial: nat): seq<nat>
    requires AllAsked(c, levels, queries)
  {
    seq(|queries|, i requires 0 <= i < |queries| => Rescanned(c, levels, queries[i], dial))
  }

  /** The tiled sizes are the sizes of the virtual corpus's groups. */
  lemma SizesAreGroupSizes(c: Synthetic, levels: nat, score: Point -> real)
    requires c.Covers(levels) && c.GroupMajor()
    ensures c.GroupSizes(levels) == GroupSizes(VirtualCorpus(c, levels, score), levels * c.Groups())
  {
    var corpus := VirtualCorpus(c, levels, score);
    SizesLength(c, levels);
    MemberGroupLength(c, levels);
    assert GroupsOf(corpus) == c.MemberGroup(levels);
    forall g | 0 <= g < levels * c.Groups()
      ensures c.GroupSizes(levels)[g] == GroupSizes(corpus, levels * c.Groups())[g]
    {
      SizesCountMembers(c, levels, g);
    }
  }

  lemma ReadIsRescanned(c: Synthetic, levels: nat, query: Query, dial: nat)
    requires Asked(c, levels, query) && dial <= |query.means|
    ensures |ArgSort(query.means)| == |query.means| == |c.GroupSizes(levels)|
    ensures forall i :: 0 <= i < |query.means| ==> 0 <= ArgSort(query.means)[i] < |query.means|
    ensures Cumulative(c.GroupSizes(levels), ArgSort(query.means), dial) == Rescanned(c, levels, query, dial)
  {
    CorpusIsGrouped(c, levels, query);
    SizesAreGroupSizes(c, levels, query.score);
    ReadsAgree(VirtualCorpus(c, levels, query.score), query.means, dial);
  }

  /** A survey made of measured questions. */
  ghost predicate Measured(c: Synthetic, levels: nat, queries: seq<Query>, depth: nat, v: Survey)
    requires AllAsked(c, levels, queries)
  {
    && v.Valid() && |queries| == |v.questions| && |v.questions[0]| == depth && v.sizes == c.GroupSizes(levels)
    && forall i :: 0 <= i < |queries| ==>
         Measures(c, levels, queries[i], depth, v.questions[i]) && v.orderings[i] == ArgSort(queries[i].means)
  }

  lemma {:induction false} QuestionAgrees(c: Synthetic, levels: nat, queries: seq<Query>, depth: nat, v: Survey,
      dial: nat, i: nat)
    requires AllAsked(c, levels, queries) && Measured(c, levels, queries, depth, v)
    requires dial <= |v.sizes| && i < |queries|
    ensures AllScored(c, levels, queries, dial, depth)[i] == Finds(v, dial, |queries|)[i]
    ensures AllRescanned(c, levels, queries, dial)[i] == Reads(v, dial, |queries|)[i]
  {
    assert Measures(c, levels, queries[i], depth, v.questions[i]);
    SizesLength(c, levels);
    ReadIsRescanned(c, levels, queries[i], dial);
  }

  lemma {:induction false} TalliesAgree(c: Synthetic, levels: nat, queries: seq<Query>, depth: nat, v: Survey,
      dial: nat)
    requires AllAsked(c, levels, queries) && Measured(c, levels, queries, depth, v) && dial <= |v.sizes|
    ensures AllScored(c, levels, queries, dial, depth) == Finds(v, dial, |queries|)
    ensures AllRescanned(c, levels, queries, dial) == Reads(v, dial, |queries|)
  {
    forall q | 0 <= q < |queries|
      ensures AllScored(c, levels, queries, dial, depth)[q] == Finds(v, dial, |queries|)[q]
      ensures AllRescanned(c, levels, queries, dial)[q] == Reads(v, dial, |queries|)[q]
    {
      QuestionAgrees(c, levels, queries, depth, v, dial, q);
    }
  }

  /** The arm is the one the two stages would report on the virtual corpus. */
  ghost predicate TwoStageArm(c: Synthetic, levels: nat, queries: seq<Query>, depth: nat, arm: Arm)
    requires depth > 0 && AllAsked(c, levels, queries)
  {
    Reports(arm, AllScored(c, levels, queries, arm.dial, depth), AllRescanned(c, levels, queries, arm.dial),
            depth, levels * c.Rows(), levels * c.Groups())
  }

  lemma {:induction false} ArmIsTwoStage(c: Synthetic, levels: nat, queries: seq<Query>, depth: nat, v: Survey,
      arm: Arm)
    requires depth > 0 && AllAsked(c, levels, queries)
    requires Measured(c, levels, queries, depth, v) && v.total == levels * c.Rows()
    requires arm.dial <= |v.sizes| && ArmMeans(v, arm)
    ensures TwoStageArm(c, levels, queries, depth, arm)
  {
    SizesLength(c, levels);
    TalliesAgree(c, levels, queries, depth, v, arm.dial);
  }

  /** The two stages' mean recall at `dial` is at least the target. */
  ghost predicate TwoStageReaches(c: Synthetic, levels: nat, queries: seq<Query>, depth: nat, dial: nat, target: nat)
    requires queries != [] && AllAsked(c, levels, queries)
  {
    Sum(AllScored(c, levels, queries, dial, depth)) * 10000 >= target * (|queries| * depth)
  }

  /** `exact` is the least position at which the two stages reach the target. */
  ghost predicate TwoStageLeast(c: Synthetic, levels: nat, queries: seq<Query>, depth: nat, target: nat,
      exact: Option<nat>)
    requires queries != [] && AllAsked(c, levels, queries)
  {
    forall dial: nat :: dial <= levels * c.Groups() ==>
      (TwoStageReaches(c, levels, queries, depth, dial, target) <==> exact.Some? && exact.value <= dial)
  }

  lemma {:induction false} ExactIsTwoStage(c: Synthetic, levels: nat, queries: seq<Query>, depth: nat, v: Survey,
      target: nat)
    requires queries != [] && AllAsked(c, levels, queries)
    requires Measured(c, levels, queries, depth, v) && target >= 1
    ensures v.Pooled() != [] && TwoStageLeast(c, levels, queries, depth, target, ExactOpen(v.Pooled(), target))
  {
    PooledSize(v, 0);
    SizesLength(c, levels);
    ExactOpenIsLeast(v.Pooled(), target);
    var exact := ExactOpen(v.Pooled(), target);
    forall dial: nat | dial <= levels * c.Groups()
      ensures TwoStageReaches(c, levels, queries, depth, dial, target) <==> exact.Some? && exact.value <= dial
    {
      PooledSize(v, dial);
      TalliesAgree(c, levels, queries, depth, v, dial);
      TallyIsSums(v, dial, |queries|);
      assert TwoStageReaches(c, levels, queries, depth, dial, target) <==> Reaches(v.Pooled(), dial, target);
    }
  }

  lemma MeasuredIsValid(c: Synthetic, levels: nat, queries: seq<Query>, depth: nat, v: Survey)
    requires queries != [] && AllAsked(c, levels, queries) && depth >= 3
    requires |v.questions| == |v.orderings| == |queries|
    requires v.sizes == c.GroupSizes(levels) && v.total == levels * c.Rows()
    requires forall i :: 0 <= i < |queries| ==>
               Measures(c, levels, queries[i], depth, v.questions[i]) && v.orderings[i] == ArgSort(queries[i].means)
    ensures Measured(c, levels, queries, depth, v)
  {
    SizesLength(c, levels);
    NotEmpty(c, levels);
    assert Measures(c, levels, queries[0], depth, v.questions[0]);
    forall q | 0 <= q < |queries| ensures v.RanksOk(v.questions[q]) && v.OrderOk(v.orderings[q]) {
      assert Measures(c, levels, queries[q], depth, v.questions[q]);
      ReadIsRescanned(c, levels, queries[q], 0);
    }
  }

  /** A whole rung: stream, rank, sweep.  The corpus never exists; there is an arm for every rung of the
      ladder that fits, each arm is what the two-stage query would report on it, and each exact position
      is the least at which that query would reach the target.  (Below the depth, `Scored` says what is
      counted besides.) */
  method Rung(c: Synthetic, levels: nat, queries: seq<Query>, depth: nat, ladder: seq<nat>, targets: seq<nat>)
    returns (arms: seq<Arm>, exact: seq<Option<nat>>)
    requires queries != [] && AllAsked(c, levels, queries) && depth >= 3
    requires forall i :: 0 <= i < |ladder| ==> ladder[i] >= 1
    requires forall i :: 0 <= i < |targets| ==> targets[i] >= 1
    ensures DialsOf(arms) == Filter(ladder, Fits(levels * c.Groups()))
    ensures forall arm :: arm in arms ==> TwoStageArm(c, levels, queries, depth, arm)
    ensures |exact| == |targets|
    ensures forall i :: 0 <= i < |targets| ==> TwoStageLeast(c, levels, queries, depth, targets[i], exact[i])
  {
    var ranks, orderings := MeasureRung(c, levels, queries, depth);
    var v := Survey(ranks, orderings, c.GroupSizes(levels), levels * c.Rows());
    MeasuredIsValid(c, levels, queries, depth, v);
    arms, exact := Sweep(v, ladder, targets);
    SizesLength(c, levels);
    ArmsAreTheRungs(v, ladder);
    forall arm | arm in arms ensures TwoStageArm(c, levels, queries, depth, arm) {
      ArmIsTwoStage(c, levels, queries, depth, v, arm);
    }
    forall i | 0 <= i < |targets| ensures TwoStageLeast(c, levels, queries, depth, targets[i], exact[i]) {
      ExactIsTwoStage(c, levels, queries, depth, v, targets[i]);
    }
  }

  // ----- The density probes -----

  function NotAt(at: int): Item -> bool { (it: Item) => it.id != at }

  /** `np.where(self_match, -2.0, ...)`: the indices are not read again. */
  function Strike(s: seq<Item>, at: int): seq<Item> {
    if s == [] then [] else [if s[0].id == at then SENTINEL else s[0]] + Strike(s[1..], at)
  }

  lemma {:induction false} SortedFilter(s: seq<Item>, p: Item -> bool)
    requires Sorted(s)
    ensures Sorted(Filter(s, p))
  {
    if s != [] {
      var rest := Filter(s[1..], p);
      SortedFilter(s[1..], p);
      forall j | 0 <= j < |rest| ensures !Better(rest[j], s[0]) {
        assert rest[j] in rest;
        FilterKeeps(s[1..], p, rest[j]);
        var i :| 0 <= i < |s[1..]| && s[1..][i] == rest[j];
        assert s[i + 1] == rest[j];
      }
    }
  }

  lemma SortThenFilter(s: seq<Item>, p: Item -> bool)
    ensures Sort(Filter(s, p)) == Filter(Sort(s), p)
  {
    SortSorts(s);
    SortSorts(Filter(s, p));
    SortedFilter(Sort(s), p);
    forall x ensures multiset(Filter(s, p))[x] == multiset(Filter(Sort(s), p))[x] {
      FilterBag(s, p, x);
      FilterBag(Sort(s), p, x);
    }
    SortedUnique(Sort(Filter(s, p)), Filter(Sort(s), p));
  }

  lemma TakeTail<T>(s: seq<T>, k: nat)
    requires s != []
    ensures Take(s, k + 1) == [s[0]] + Take(s[1..], k)
  {}

  lemma {:induction false} StruckPrefix(s: seq<Item>, at: int, k: nat)
    requires IdsApart(s)
    ensures Take(Filter(Take(s, k + 1), NotAt(at)), k) == Take(Filter(s, NotAt(at)), k)
    decreases k
  {
    if s != [] && k > 0 {
      TakeTail(s, k);
      FilterCons(s[0], Take(s[1..], k), NotAt(at));
      if s[0].id == at {
        FilterAll(s[1..], NotAt(at));
        FilterAll(Take(s[1..], k), NotAt(at));
      } else {
        StruckPrefix(s[1..], at, k - 1);
        TakeTail([s[0]] + Filter(s[1..], NotAt(at)), k - 1);
        TakeTail([s[0]] + Filter(Take(s[1..], k), NotAt(at)), k - 1);
      }
    }
  }

  /** A top shorter than its width, filled with sentinels. */
  function Filled(s: seq<Item>, width: nat): seq<Item>
    requires |s| <= width
  {
    s + Sentinels(width - |s|)
  }

  lemma FilledCons(x: Item, rest: seq<Item>, width: nat)
    requires |rest| <= width
    ensures Filled([x] + rest, width + 1) == [x] + Filled(rest, width)
    ensures ([x] + Filled(rest, width))[1..] == Filled(rest, width)
  {}

  lemma FilledNone(width: nat)
    ensures Filled([], width) == Sentinels(width) && Sentinels(width + 1) == [SENTINEL] + Sentinels(width)
    ensures Sentinels(width + 1)[1..] == Sentinels(width)
  {}

  lemma {:induction false} InsertSentinel(kept: seq<Item>, width: nat)
    requires |kept| <= width && forall it :: it in kept ==> it.score > SENTINEL.score
    ensures Insert(SENTINEL, Filled(kept, width)) == Filled(kept, width + 1)
  {
    if kept == [] {
      FilledNone(width);
      FilledNone(width + 1);
    } else {
      assert kept[0] in kept && kept == [kept[0]] + kept[1..];
      InsertSentinel(kept[1..], width - 1);
      FilledCons(kept[0], kept[1..], width - 1);
      FilledCons(kept[0], kept[1..], width);
    }
  }

  /** In a sorted list what survives behind the head is not ahead of it. */
  lemma InsertHead(s: seq<Item>, at: int, width: nat)
    requires s != [] && Sorted(s) && s[0].score > SENTINEL.score && |Filter(s[1..], NotAt(at))| <= width
    ensures Insert(s[0], Filled(Filter(s[1..], NotAt(at)), width)) == [s[0]] + Filled(Filter(s[1..], NotAt(at)), width)
  {
    var kept := Filter(s[1..], NotAt(at));
    if kept != [] {
      FilterKeeps(s[1..], NotAt(at), kept[0]);
      var i :| 0 <= i < |s[1..]| && s[1..][i] == kept[0];
      assert s[i + 1] == kept[0];
    }
  }

  lemma SortStruckCons(x: Item, rest: seq<Item>, at: int)
    ensures Sort(Strike([x] + rest, at)) == Insert(if x.id == at then SENTINEL else x, Sort(Strike(rest, at)))
  {
    assert ([x] + rest)[1..] == rest;
    var y := if x.id == at then SENTINEL else x;
    assert ([y] + Strike(rest, at))[1..] == Strike(rest, at);
  }

  ghost predicate Ranked(s: seq<Item>) {
    Sorted(s) && forall it :: it in s ==> it.score > SENTINEL.score
  }

  lemma RankedTail(s: seq<Item>)
    requires s != [] && Ranked(s)
    ensures Ranked(s[1..]) && s == [s[0]] + s[1..] && s[0].score > SENTINEL.score
  {
    assert s[0] in s;
  }

  lemma {:induction false} StruckNone(width: nat, at: int)
    ensures Sort(Strike(Filled([], width), at)) == Filled([], width)
  {
    if width == 0 {
      assert Filled([], 0) == [];
    } else {
      StruckNone(width - 1, at);
      NoneOneMore(width - 1);
      SortStruckCons(SENTINEL, Filled([], width - 1), at);
      InsertSentinel([], width - 1);
    }
  }

  lemma NoneOneMore(width: nat)
    ensures Filled([], width + 1) == [SENTINEL] + Filled([], width)
  {}

  /** Striking an index out of a sorted list and sorting again moves what is struck to the end. */
  lemma {:induction false} StruckSorts(s: seq<Item>, width: nat, at: int)
    requires |s| <= width && Ranked(s)
    ensures |Filter(s, NotAt(at))| <= width
    ensures Sort(Strike(Filled(s, width), at)) == Filled(Filter(s, NotAt(at)), width)
  {
    if s == [] {
      StruckNone(width, at);
    } else {
      RankedTail(s);
      StruckSorts(s[1..], width - 1, at);
      FilledCons(s[0], s[1..], width - 1);
      SortStruckCons(s[0], Filled(s[1..], width - 1), at);
      StruckStep(s, width - 1, at);
    }
  }

  lemma {:induction false} StruckStep(s: seq<Item>, width: nat, at: int)
    requires s != [] && |s| <= width + 1 && Ranked(s)
    ensures |Filter(s[1..], NotAt(at))| <= width && |Filter(s, NotAt(at))| <= width + 1
    ensures Insert(if s[0].id == at then SENTINEL else s[0], Filled(Filter(s[1..], NotAt(at)), width))
         == Filled(Filter(s, NotAt(at)), width + 1)
  {
    var kept := Filter(s[1..], NotAt(at));
    FilterLength(s[1..], NotAt(at));
    assert s[0] in s;
    if s[0].id == at {
      forall it | it in kept ensures it.score > SENTINEL.score { FilterKeeps(s[1..], NotAt(at), it); }
      InsertSentinel(kept, width);
    } else {
      InsertHead(s, at, width);
      FilledCons(s[0], kept, width);
    }
  }

  /** The first `depth` of a sorted list, filled to the depth. */
  function Padded(s: seq<Item>, depth: nat): seq<Item> { Filled(Take(s, depth), depth) }

  /** What the fold holds: the corpus in order, filled up. */
  lemma Folded(c: Synthetic, levels: nat, score: Point -> real, depth: nat)
    requires c.Covers(levels) && forall p :: score(p) > SENTINEL.score
    ensures var s := Sort(Virtual(c, levels, score));
      && IdsApart(s) && Ranked(s)
      && Top(Sentinels(depth) + Virtual(c, levels, score), depth) == Padded(s, depth)
  {
    var all := Virtual(c, levels, score);
    var s := Sort(all);
    StreamIsGlobalTop(c, levels, score, depth);
    VirtualApart(c, levels, score);
    SortSorts(all);
    assert forall i :: 0 <= i < |s| ==> s[i].id == Ids(s)[i];
    assert Take(s, depth) + Sentinels(0) == Take(s, depth);
  }

  lemma FilledPrefix(kept: seq<Item>, depth: nat)
    requires |kept| <= depth + 1
    ensures |Filled(kept, depth + 1)| == depth + 1 && Filled(kept, depth + 1)[..depth] == Padded(kept, depth)
  {}

  lemma {:induction false} StruckFold(s: seq<Item>, at: int, depth: nat)
    requires IdsApart(s) && Ranked(s)
    ensures |Sort(Strike(Padded(s, depth + 1), at))| == depth + 1
    ensures Sort(Strike(Padded(s, depth + 1), at))[..depth] == Padded(Filter(s, NotAt(at)), depth)
  {
    StruckSorts(Take(s, depth + 1), depth + 1, at);
    StruckPrefix(s, at, depth);
    FilledPrefix(Filter(Take(s, depth + 1), NotAt(at)), depth);
  }

  /** A probe is a passage of the corpus and finds itself.  Folding at one more than the depth, striking
      the probe's index and sorting again leaves the depth nearest of the others, whether or not the
      probe was among what was found: nothing that belongs there has been pushed out by it. */
  lemma {:induction false} StrikeOut(c: Synthetic, levels: nat, score: Point -> real, at: nat, depth: nat)
    requires c.Covers(levels) && forall p :: score(p) > SENTINEL.score
    ensures var all := Virtual(c, levels, score);
      var struck := Sort(Strike(Top(Sentinels(depth + 1) + all, depth + 1), at));
      |struck| == depth + 1 && struck[..depth] == Filled(Top(Filter(all, NotAt(at)), depth), depth)
  {
    Folded(c, levels, score, depth + 1);
    StruckFold(Sort(Virtual(c, levels, score)), at, depth);
    SortThenFilter(Virtual(c, levels, score), NotAt(at));
  }

  /** The similarity to a probe's `depth`-th nearest other passage, from which the density is taken. */
  method Probe(c: Synthetic, levels: nat, score: Point -> real, at: nat, depth: nat) returns (similarity: real)
    requires c.Covers(levels) && depth >= 1 && forall p :: score(p) > SENTINEL.score
    ensures similarity == Filled(Top(Filter(Virtual(c, levels, score), NotAt(at)), depth), depth)[depth - 1].score
  {
    var found := Stream(c, levels, score, depth + 1);
    StrikeOut(c, levels, score, at, depth);
    var struck := Sort(Strike(found, at));
    assert struck[depth - 1] == struck[..depth][depth - 1];
    similarity := struck[depth - 1].score;
  }
}
