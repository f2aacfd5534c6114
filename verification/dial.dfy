/**
  The dial of `backend/eval/coarse_scale.py`: recall and IO at every rung of a ladder (`_sweep`), the
  rung a target picks (`_required`), and the exact position read off an order statistic.

  Recall at a position is a count of ranks over the number of ranks.  Targets and reported recalls
  carry four decimals, so both are whole numbers of ten-thousandths.
 */
module Dial {
  import opened Arith
  import opened Coarse
  import opened Options
  import opened Seqs

  /** A question loses nothing exactly when the dial reaches its worst rank. */
  lemma {:induction false} PerfectAtWorstRank(ranks: seq<nat>, dial: nat)
    requires ranks != [] && Ascending(ranks)
    ensures CountAtMost(ranks, dial) == |ranks| <==> ranks[|ranks| - 1] <= dial
  {
    OrderStatistic(ranks, |ranks|, dial);
  }

  function QuestionHits(questions: seq<seq<nat>>, dial: nat): nat {
    if questions == [] then 0 else CountAtMost(questions[0], dial) + QuestionHits(questions[1..], dial)
  }

  /** The questions' recalls share their denominator, so their mean is the share of the pooled
      ranks within the dial: the hits add up and so do the widths. */
  lemma {:induction false} MeanIsPooled(questions: seq<seq<nat>>, dial: nat, width: nat)
    requires forall i :: 0 <= i < |questions| ==> |questions[i]| == width
    ensures QuestionHits(questions, dial) == CountAtMost(Flatten(questions), dial)
    ensures |Flatten(questions)| == |questions| * width
  {
    if questions != [] {
      var rest := questions[1..];
      assert forall i :: 0 <= i < |rest| ==> rest[i] == questions[i + 1];
      MeanIsPooled(rest, dial, width);
      assert |questions| * width == width + |questions[1..]| * width;
      CountConcat(questions[0], Flatten(questions[1..]), dial);
    }
  }

  // ----- The exact position -----

  const DEPTH := 10

  const OPEN: seq<nat> := [2, 4, 8, 16, 32, 64, 128, 256, 512, 1024, 2048, 4096, 8192, 16384, 32768]

  /** In ten-thousandths. */
  const TARGETS: set<nat> := {8000, 9000, 9355, 9500, 9900}

  const SLACK: real := 0.000000001

  function Ceiling(x: real): (c: int)
    ensures c as real - 1.0 < x <= c as real
  {
    -((0.0 - x).Floor)
  }

  /** How many of `n` pooled ranks a target asks for, as the code computes it. */
  function Need(target: nat, n: nat): int {
    Ceiling(target as real / 10000.0 * n as real - SLACK)
  }

  /** The slack never changes the answer: `Need` is the least count whose share of `n` is the target. */
  lemma NeedIsLeast(target: nat, n: nat)
    ensures forall count: int :: Need(target, n) <= count <==> target * n <= count * 10000
  {
    assert target as real / 10000.0 * n as real == (target * n) as real / 10000.0;
  }

  lemma NeedInRange(target: nat, n: nat)
    requires n > 0
    ensures Need(target, n) >= 0
    ensures target >= 1 ==> Need(target, n) >= 1
    ensures target <= 10000 ==> Need(target, n) <= n
  {
    NeedIsLeast(target, n);
    assert target * n >= 0;
    if target >= 1 { MulMono(1, target, n); }
    if target <= 10000 { MulMono(target, 10000, n); }
    assert Need(target, n) <= 0 ==> target * n <= 0;
    assert Need(target, n) <= -1 ==> target * n <= -10000;
  }

  /** The exact dial position: one order statistic of the pool, or nothing.  A target of zero asks for
      the zeroth, and Python's index wraps to the last. */
  function ExactOpen(pooled: seq<nat>, target: nat): Option<nat>
    requires pooled != []
  {
    NeedInRange(target, |pooled|);
    var need := Need(target, |pooled|);
    if need > |pooled| then None
    else if need == 0 then Some(SortNats(pooled)[|pooled| - 1])
    else Some(SortNats(pooled)[need - 1])
  }

  /** Mean recall at `dial` is at least the target. */
  predicate Reaches(pooled: seq<nat>, dial: nat, target: nat) {
    CountAtMost(pooled, dial) * 10000 >= target * |pooled|
  }

  /** `exact` is the smallest position whose mean recall reaches the target, and it is absent only
      when no position's does. */
  lemma ExactOpenIsLeast(pooled: seq<nat>, target: nat)
    requires pooled != [] && target >= 1
    ensures match ExactOpen(pooled, target)
      case Some(o) => forall dial: nat :: Reaches(pooled, dial, target) <==> o <= dial
      case None => forall dial: nat :: !Reaches(pooled, dial, target)
  {
    var sorted := SortNats(pooled);
    var need := Need(target, |pooled|);
    NeedInRange(target, |pooled|);
    forall dial: nat ensures Reaches(pooled, dial, target) <==> need <= |pooled| && sorted[need - 1] <= dial {
      NeedIsLeast(target, |pooled|);
      SortNatsSorts(pooled);
      CountSort(pooled, dial);
      if need <= |pooled| { OrderStatistic(sorted, need, dial); }
    }
  }

  // ----- Rounding to four decimals -----

  /** `round` of `amount / total`: nearest, ties to even. */
  function Nearest(amount: nat, total: nat): nat
    requires total > 0
  {
    var low, rest := amount / total, amount % total;
    if 2 * rest > total || (2 * rest == total && low % 2 != 0) then low + 1 else low
  }

  /** `figure` is `amount / total` to the nearest whole, and the even one of two as near. */
  ghost predicate RoundsTo(figure: nat, amount: nat, total: nat) {
    var off := 2 * (figure * total - amount);
    -(total as int) <= off <= total && (figure % 2 == 0 || -(total as int) < off < total)
  }

  lemma NearestIsNearest(amount: nat, total: nat)
    requires total > 0
    ensures RoundsTo(Nearest(amount, total), amount, total)
  {
    var low := amount / total;
    assert amount == low * total + amount % total;
    assert (low + 1) * total == low * total + total;
  }

  lemma NearestMonotone(x: nat, y: nat, total: nat)
    requires x <= y && total > 0
    ensures Nearest(x, total) <= Nearest(y, total)
  {
    assert x / total * total <= x <= y;
    QuotientAtLeast(y, total, x / total);
    if x / total == y / total { SameQuotient(x, y, total); }
  }

  lemma SameQuotient(x: nat, y: nat, n: nat)
    requires n > 0 && x <= y && x / n == y / n
    ensures x % n <= y % n
  {
    assert x == x / n * n + x % n && y == y / n * n + y % n;
  }

  /** `round(hits / total, 4)` in ten-thousandths. */
  function Round4(hits: nat, total: nat): nat
    requires total > 0
  {
    Nearest(hits * 10000, total)
  }

  /** A recall that reaches a target still does when rounded. */
  lemma Round4Reaches(hits: nat, total: nat, target: nat)
    requires total > 0 && hits * 10000 >= target * total
    ensures Round4(hits, total) >= target
  {
    QuotientAtLeast(hits * 10000, total, target);
  }

  /** Rounded recalls hold a target exactly as the recalls themselves do if and only if the largest
      count that falls short of it does not round up to it. */
  lemma RoundingHonestIff(n: nat, target: nat)
    requires n > 0 && target >= 1
    ensures Need(target, n) >= 1
    ensures (forall hits: nat :: Round4(hits, n) >= target <==> hits * 10000 >= target * n)
       <==> Round4(Need(target, n) - 1, n) < target
  {
    NeedInRange(target, n);
    NeedIsLeast(target, n);
    var short: nat := Need(target, n) - 1;
    assert short * 10000 < target * n;
    if Round4(short, n) < target {
      forall hits: nat ensures Round4(hits, n) >= target <==> hits * 10000 >= target * n {
        if hits <= short { NearestMonotone(hits * 10000, short * 10000, n); } else { Round4Reaches(hits, n, target); }
      }
    }
  }

  lemma WholeQuotient(hits: nat, total: nat, unit: nat)
    requires total > 0 && unit * total == 10000
    ensures Round4(hits, total) == hits * unit
  {
    assert hits * 10000 == (hits * unit) * total;
    Euclid(hits * unit, 0, total);
  }

  /** A pool no finer than the four decimals is one such. */
  lemma WholePoolHonest(n: nat, target: nat)
    requires n > 0 && 10000 % n == 0 && target >= 1
    ensures Need(target, n) >= 1 && Round4(Need(target, n) - 1, n) < target
  {
    NeedInRange(target, n);
    NeedIsLeast(target, n);
    var short: nat := Need(target, n) - 1;
    var unit := 10000 / n;
    WholeQuotient(short, n, unit);
    assert short * 10000 < target * n;
    assert short * 10000 == (short * unit) * n;
    MulOrder(target, short * unit, n);
  }

  /** Over such a pool the reported recall decides as the recall itself does. */
  lemma RoundingHarmless(pooled: seq<nat>, dial: nat, target: nat)
    requires pooled != [] && 10000 % |pooled| == 0
    ensures Round4(CountAtMost(pooled, dial), |pooled|) >= target <==> Reaches(pooled, dial, target)
  {
    if target >= 1 {
      WholePoolHonest(|pooled|, target);
      RoundingHonestIff(|pooled|, target);
    }
  }

  // ----- The ladder, `_sweep` and `_required` -----

  /** Over some questions at one dial position. */
  datatype Tally = Tally(hits: nat, fewest: nat, perfect: nat, read: nat)

  /** What `_sweep` is given: every question's sorted truth ranks and coarse order, the group sizes and
      the corpus size.  It reads the last three ranks of a row, so a row has three. */
  datatype Survey = Survey(questions: seq<seq<nat>>, orderings: seq<seq<int>>, sizes: seq<nat>, total: nat) {
    ghost predicate Valid() {
      && questions != [] && |questions[0]| >= 3 && |orderings| == |questions| && total > 0
      && (forall q :: 0 <= q < |questions| ==> RanksOk(questions[q]) && OrderOk(orderings[q]))
    }

    ghost predicate RanksOk(ranks: seq<nat>)
      requires questions != []
    {
      |ranks| == |questions[0]| && Ascending(ranks) && forall i :: 0 <= i < |ranks| ==> 1 <= ranks[i] <= |sizes|
    }

    ghost predicate OrderOk(ordering: seq<int>) {
      |ordering| == |sizes| && forall i :: 0 <= i < |ordering| ==> 0 <= ordering[i] < |sizes|
    }

    /** `questions` rows of `width` ranks. */
    ghost predicate Shaped(rows: nat, width: nat) {
      Valid() && |questions| == rows && |questions[0]| == width
    }

    lemma HasGroups()
      requires Valid()
      ensures |sizes| > 0
    {
      assert RanksOk(questions[0]) && 1 <= questions[0][0] <= |sizes|;
    }

    function Pooled(): seq<nat> { Flatten(questions) }

    // Over the first `n` questions, at a dial position.

    function HitsTo(dial: nat, n: nat): nat
      requires n <= |questions|
    {
      if n == 0 then 0 else HitsTo(dial, n - 1) + CountAtMost(questions[n - 1], dial)
    }

    function FewestTo(dial: nat, n: nat): nat
      requires 1 <= n <= |questions|
    {
      var last := CountAtMost(questions[n - 1], dial);
      if n == 1 || last < FewestTo(dial, n - 1) then last else FewestTo(dial, n - 1)
    }

    function PerfectTo(dial: nat, n: nat): nat
      requires n <= |questions|
    {
      if n == 0 then 0
      else PerfectTo(dial, n - 1) + if CountAtMost(questions[n - 1], dial) == |questions[n - 1]| then 1 else 0
    }

    ghost function ReadTo(dial: nat, n: nat): nat
      requires Valid() && dial <= |sizes| && n <= |questions|
    {
      if n == 0 then 0
      else assert OrderOk(orderings[n - 1]); ReadTo(dial, n - 1) + Cumulative(sizes, orderings[n - 1], dial)
    }

    ghost function TallyTo(dial: nat, n: nat): Tally
      requires Valid() && dial <= |sizes| && 1 <= n <= |questions|
    {
      Tally(HitsTo(dial, n), FewestTo(dial, n), PerfectTo(dial, n), ReadTo(dial, n))
    }
  }

  /** One rung's figures as reported: recalls in ten-thousandths, passages read in tenths, fractions in
      millionths. */
  datatype Arm = Arm(dial: nat, recall: nat, worst: nat, perfect: nat, read: nat, io: nat, share: nat)

  /** The report's figures at `rung`, from what is summed over `n` questions of `width` ranks. */
  function Figures(rung: nat, n: nat, width: nat, groups: nat, total: nat, t: Tally): Arm
    requires n > 0 && width > 0 && groups > 0 && total > 0
  {
    Arm(rung, Round4(t.hits, n * width), Round4(t.fewest, width), t.perfect,
        Nearest(t.read * 10, n), Nearest(t.read * 1000000, n * total), Nearest(rung * 1000000, groups))
  }

  ghost function ArmAt(v: Survey, rung: nat): Arm
    requires v.Valid() && rung <= |v.sizes|
  {
    v.HasGroups();
    Figures(rung, |v.questions|, |v.questions[0]|, |v.sizes|, v.total, v.TallyTo(rung, |v.questions|))
  }

  /** The recall of an arm is the share of the pooled ranks within the rung. */
  lemma ArmIsPooled(v: Survey, rung: nat)
    requires v.Valid() && rung <= |v.sizes|
    ensures v.Pooled() != [] && ArmAt(v, rung).recall == Round4(CountAtMost(v.Pooled(), rung), |v.Pooled()|)
  {
    PooledSize(v, rung);
  }

  lemma PooledSize(v: Survey, dial: nat)
    requires v.Valid()
    ensures |v.Pooled()| == |v.questions| * |v.questions[0]| && v.Pooled() != []
    ensures v.HitsTo(dial, |v.questions|) == CountAtMost(v.Pooled(), dial)
  {
    forall q | 0 <= q < |v.questions| ensures |v.questions[q]| == |v.questions[0]| { assert v.RanksOk(v.questions[q]); }
    MeanIsPooled(v.questions, dial, |v.questions[0]|);
    MulMono(1, |v.questions|, |v.questions[0]|);
    HitsAreQuestionHits(v, dial, |v.questions|);
  }

  lemma {:induction false} HitsAreQuestionHits(v: Survey, dial: nat, n: nat)
    requires n <= |v.questions|
    ensures v.HitsTo(dial, n) + QuestionHits(v.questions[n..], dial) == QuestionHits(v.questions, dial)
  {
    if n > 0 {
      HitsAreQuestionHits(v, dial, n - 1);
      assert v.questions[n - 1..][1..] == v.questions[n..];
    }
  }

  ghost function Arms(v: Survey, ladder: seq<nat>): seq<Arm>
    requires v.Valid()
  {
    if ladder == [] then []
    else
      var before, rung := ladder[..|ladder| - 1], ladder[|ladder| - 1];
      Arms(v, before) + (if rung > |v.sizes| then [] else [ArmAt(v, rung)])
  }

  /** The figures of one rung, question by question. */
  method MeasureArm(v: Survey, rung: nat) returns (arm: Arm)
    requires v.Valid() && rung <= |v.sizes|
    ensures arm == ArmAt(v, rung) && ArmMeans(v, arm)
  {
    ArmAtMeans(v, rung);
    var width := |v.questions[0]|;
    var hits, fewest, perfect, read := 0, width, 0, 0;
    for q := 0 to |v.questions|
      invariant hits == v.HitsTo(rung, q) && perfect == v.PerfectTo(rung, q) && read == v.ReadTo(rung, q)
      invariant fewest == if q == 0 then width else v.FewestTo(rung, q)
    {
      assert v.RanksOk(v.questions[q]) && v.OrderOk(v.orderings[q]);
      var found := CountAtMost(v.questions[q], rung);
      hits := hits + found;
      if q == 0 || found < fewest { fewest := found; }
      if found == width { perfect := perfect + 1; }
      read := read + Cumulative(v.sizes, v.orderings[q], rung);
    }
    v.HasGroups();
    arm := Figures(rung, |v.questions|, width, |v.sizes|, v.total, Tally(hits, fewest, perfect, read));
  }

  /** `_sweep`: an arm per rung no longer than the group count, and the exact position of each target. */
  method Sweep(v: Survey, ladder: seq<nat>, targets: seq<nat>) returns (arms: seq<Arm>, exact: seq<Option<nat>>)
    requires v.Valid() && forall i :: 0 <= i < |ladder| ==> ladder[i] >= 1
    ensures v.Pooled() != [] && arms == Arms(v, ladder)
    ensures forall a :: a in arms ==> a.dial <= |v.sizes| && ArmMeans(v, a)
    ensures |exact| == |targets| && forall i :: 0 <= i < |targets| ==> exact[i] == ExactOpen(v.Pooled(), targets[i])
  {
    arms := [];
    for i := 0 to |ladder|
      invariant arms == Arms(v, ladder[..i])
    {
      assert ladder[..i + 1][..i] == ladder[..i];
      if ladder[i] > |v.sizes| { continue; }
      var arm := MeasureArm(v, ladder[i]);
      arms := arms + [arm];
    }
    assert ladder[..|ladder|] == ladder;
    AllArmsMean(v, ladder);
    PooledSize(v, 0);
    var pooled := SortNats(v.Pooled());
    exact := [];
    for i := 0 to |targets|
      invariant |exact| == i && forall j :: 0 <= j < i ==> exact[j] == ExactOpen(v.Pooled(), targets[j])
    {
      NeedInRange(targets[i], |pooled|);
      var need := Need(targets[i], |pooled|);
      if need > |pooled| {
        exact := exact + [None];
        continue;
      }
      exact := exact + [Some(pooled[if need == 0 then |pooled| - 1 else need - 1])];
    }
  }

  function DialsOf(arms: seq<Arm>): seq<nat> {
    seq(|arms|, i requires 0 <= i < |arms| => arms[i].dial)
  }

  function Fits(groups: nat): nat -> bool { (rung: nat) => rung <= groups }

  /** The arms are the rungs that fit, in the ladder's order. */
  lemma {:induction false} ArmsAreTheRungs(v: Survey, ladder: seq<nat>)
    requires v.Valid()
    ensures DialsOf(Arms(v, ladder)) == Filter(ladder, Fits(|v.sizes|))
  {
    if ladder != [] {
      var before, rung := ladder[..|ladder| - 1], ladder[|ladder| - 1];
      ArmsAreTheRungs(v, before);
      FilterConcat(before, [rung], Fits(|v.sizes|));
      FilterCons(rung, [], Fits(|v.sizes|));
      assert ladder == before + [rung] && [rung] + [] == [rung];
    }
  }

  lemma {:induction false} ArmsAreAt(v: Survey, ladder: seq<nat>, a: Arm)
    requires v.Valid() && a in Arms(v, ladder)
    ensures a.dial <= |v.sizes| && a == ArmAt(v, a.dial)
  {
    var before := ladder[..|ladder| - 1];
    if a in Arms(v, before) { ArmsAreAt(v, before, a); }
  }

  // ----- What the figures of an arm are -----

  lemma {:induction false} FewestIsLeast(v: Survey, dial: nat, n: nat) returns (worst: nat)
    requires v.Valid() && 1 <= n <= |v.questions|
    ensures forall q :: 0 <= q < n ==> v.FewestTo(dial, n) <= CountAtMost(v.questions[q], dial)
    ensures worst < n && v.FewestTo(dial, n) == CountAtMost(v.questions[worst], dial)
  {
    if n == 1 {
      worst := 0;
    } else {
      worst := FewestIsLeast(v, dial, n - 1);
      if v.FewestTo(dial, n) != v.FewestTo(dial, n - 1) { worst := n - 1; }
    }
  }

  ghost function LastOf(v: Survey, q: nat): nat
    requires v.Valid() && q < |v.questions|
  {
    assert v.RanksOk(v.questions[q]);
    v.questions[q][|v.questions[q]| - 1]
  }

  /** The last rank of each of the first `n` questions. */
  ghost function LastRanks(v: Survey, n: nat): seq<nat>
    requires v.Valid() && n <= |v.questions|
  {
    seq(n, q requires 0 <= q < n => LastOf(v, q))
  }

  /** Within the dial is the last rank exactly when all of them are. */
  lemma LastIsWhole(v: Survey, q: nat, dial: nat)
    requires v.Valid() && q < |v.questions|
    ensures LastOf(v, q) <= dial <==> CountAtMost(v.questions[q], dial) == |v.questions[q]| == |v.questions[0]|
  {
    assert v.RanksOk(v.questions[q]);
    PerfectAtWorstRank(v.questions[q], dial);
  }

  lemma {:induction false} PerfectAreReached(v: Survey, dial: nat, n: nat)
    requires v.Valid() && n <= |v.questions|
    ensures v.PerfectTo(dial, n) == CountAtMost(LastRanks(v, n), dial)
  {
    if n > 0 {
      PerfectAreReached(v, dial, n - 1);
      LastIsWhole(v, n - 1, dial);
      assert LastRanks(v, n) == LastRanks(v, n - 1) + [LastOf(v, n - 1)];
      CountConcat(LastRanks(v, n - 1), [LastOf(v, n - 1)], dial);
    }
  }

  /** What each of the first `n` questions finds. */
  function Finds(v: Survey, dial: nat, n: nat): seq<nat>
    requires n <= |v.questions|
  {
    seq(n, q requires 0 <= q < n => CountAtMost(v.questions[q], dial))
  }

  /** What each of them reads. */
  ghost function Reads(v: Survey, dial: nat, n: nat): seq<nat>
    requires v.Valid() && dial <= |v.sizes| && n <= |v.questions|
  {
    seq(n, q requires 0 <= q < n => assert v.OrderOk(v.orderings[q]); Cumulative(v.sizes, v.orderings[q], dial))
  }

  lemma SumSnoc(a: seq<nat>, x: nat)
    ensures Sum(a + [x]) == Sum(a) + x
  {
    SumConcat(a, [x]);
    assert [x][1..] == [];
  }

  lemma CountSnoc(a: seq<nat>, x: nat, value: nat)
    ensures Count<nat>(a + [x], value) == Count<nat>(a, value) + if x == value then 1 else 0
  {
    ValuesConcat<nat>(a, [x], value);
    assert [x][1..] == [];
  }

  lemma {:induction false} TallyIsSums(v: Survey, dial: nat, n: nat)
    requires v.Valid() && dial <= |v.sizes| && n <= |v.questions|
    ensures v.HitsTo(dial, n) == Sum(Finds(v, dial, n)) && v.ReadTo(dial, n) == Sum(Reads(v, dial, n))
  {
    if n > 0 {
      TallyIsSums(v, dial, n - 1);
      var found, read := Finds(v, dial, n)[n - 1], Reads(v, dial, n)[n - 1];
      assert Finds(v, dial, n) == Finds(v, dial, n - 1) + [found];
      assert Reads(v, dial, n) == Reads(v, dial, n - 1) + [read];
      SumSnoc(Finds(v, dial, n - 1), found);
      SumSnoc(Reads(v, dial, n - 1), read);
    }
  }

  lemma {:induction false} PerfectIsCount(v: Survey, dial: nat, n: nat)
    requires v.Valid() && n <= |v.questions|
    ensures v.PerfectTo(dial, n) == Count<nat>(Finds(v, dial, n), |v.questions[0]|)
  {
    if n > 0 {
      PerfectIsCount(v, dial, n - 1);
      var found := CountAtMost(v.questions[n - 1], dial);
      assert v.RanksOk(v.questions[n - 1]);
      assert Finds(v, dial, n) == Finds(v, dial, n - 1) + [found];
      CountSnoc(Finds(v, dial, n - 1), found, |v.questions[0]|);
    }
  }

  /** An arm, figure by figure, over questions that found and read so much: the mean recall, the recall
      of the one that fares worst, how many lose nothing, the mean passages read, and the shares of the
      corpus and of the groups. */
  ghost predicate Reports(a: Arm, found: seq<nat>, read: seq<nat>, width: nat, total: nat, groups: nat)
    requires width > 0
  {
    && RoundsTo(a.recall, Sum(found) * 10000, |found| * width)
    && (forall q :: 0 <= q < |found| ==> a.worst <= Round4(found[q], width))
    && (exists q :: 0 <= q < |found| && a.worst == Round4(found[q], width))
    && a.perfect == Count<nat>(found, width)
    && RoundsTo(a.read, Sum(read) * 10, |found|)
    && RoundsTo(a.io, Sum(read) * 1000000, |found| * total)
    && RoundsTo(a.share, a.dial * 1000000, groups)
  }

  /** An arm is what it says; the questions it calls perfect are those whose last rank it reaches. */
  ghost predicate ArmMeans(v: Survey, a: Arm)
    requires v.Valid() && a.dial <= |v.sizes|
  {
    var n := |v.questions|;
    && Reports(a, Finds(v, a.dial, n), Reads(v, a.dial, n), |v.questions[0]|, v.total, |v.sizes|)
    && a.perfect == CountAtMost(LastRanks(v, n), a.dial)
  }

  /** Every arm of a sweep is what it says. */
  lemma ArmsMean(v: Survey, ladder: seq<nat>, a: Arm)
    requires v.Valid() && a in Arms(v, ladder)
    ensures a.dial <= |v.sizes| && ArmMeans(v, a)
  {
    ArmsAreAt(v, ladder, a);
    ArmAtMeans(v, a.dial);
  }

  lemma AllArmsMean(v: Survey, ladder: seq<nat>)
    requires v.Valid()
    ensures forall a :: a in Arms(v, ladder) ==> a.dial <= |v.sizes| && ArmMeans(v, a)
  {
    forall a | a in Arms(v, ladder) ensures a.dial <= |v.sizes| && ArmMeans(v, a) { ArmsMean(v, ladder, a); }
  }

  lemma {:induction false} ArmAtMeans(v: Survey, dial: nat)
    requires v.Valid() && dial <= |v.sizes|
    ensures ArmAt(v, dial).dial == dial && ArmMeans(v, ArmAt(v, dial))
  {
    WorstMeans(v, dial);
    SharesMean(v, dial);
    PerfectIsCount(v, dial, |v.questions|);
    PerfectAreReached(v, dial, |v.questions|);
  }

  lemma {:induction false} WorstMeans(v: Survey, dial: nat)
    requires v.Valid() && dial <= |v.sizes|
    ensures var worst, found, width := ArmAt(v, dial).worst, Finds(v, dial, |v.questions|), |v.questions[0]|;
      && (forall q :: 0 <= q < |found| ==> worst <= Round4(found[q], width))
      && exists q :: 0 <= q < |found| && worst == Round4(found[q], width)
  {
    var n, width := |v.questions|, |v.questions[0]|;
    var found := Finds(v, dial, n);
    var q := FewestIsLeast(v, dial, n);
    forall r | 0 <= r < n ensures Round4(v.FewestTo(dial, n), width) <= Round4(found[r], width) {
      NearestMonotone(v.FewestTo(dial, n) * 10000, found[r] * 10000, width);
    }
    assert ArmAt(v, dial).worst == Round4(found[q], width);
  }

  lemma {:induction false} SharesMean(v: Survey, dial: nat)
    requires v.Valid() && dial <= |v.sizes|
    ensures var a, n := ArmAt(v, dial), |v.questions|;
      && RoundsTo(a.recall, Sum(Finds(v, dial, n)) * 10000, n * |v.questions[0]|)
      && RoundsTo(a.read, Sum(Reads(v, dial, n)) * 10, n)
      && RoundsTo(a.io, Sum(Reads(v, dial, n)) * 1000000, n * v.total)
      && RoundsTo(a.share, dial * 1000000, |v.sizes|)
  {
    var n, hits, read := |v.questions|, v.HitsTo(dial, |v.questions|), v.ReadTo(dial, |v.questions|);
    v.HasGroups();
    TallyIsSums(v, dial, n);
    MulMono(1, n, v.total);
    MulMono(1, n, |v.questions[0]|);
    NearestIsNearest(hits * 10000, n * |v.questions[0]|);
    NearestIsNearest(read * 10, n);
    NearestIsNearest(read * 1000000, n * v.total);
    NearestIsNearest(dial * 1000000, |v.sizes|);
  }

  /** What the counts mean: the questions an arm calls perfect are those whose last rank it reaches,
      and all of them are exactly when the worst one is. */
  lemma {:induction false} WorstAndPerfect(v: Survey, dial: nat, n: nat)
    requires v.Valid() && 1 <= n <= |v.questions|
    ensures v.PerfectTo(dial, n) <= n && v.FewestTo(dial, n) <= |v.questions[0]|
    ensures v.PerfectTo(dial, n) == n <==> v.FewestTo(dial, n) == |v.questions[0]|
  {
    assert v.RanksOk(v.questions[n - 1]);
    if n > 1 { WorstAndPerfect(v, dial, n - 1); }
  }

  /** The arm at `i` holds the target and no arm before it does. */
  ghost predicate FirstToHold(arms: seq<Arm>, target: nat, i: nat) {
    i < |arms| && arms[i].recall >= target && forall j :: 0 <= j < i ==> arms[j].recall < target
  }

  /** `_required`: the first arm whose reported recall holds the target. */
  function Required(arms: seq<Arm>, target: nat): (hit: Option<Arm>)
    ensures hit.Some? ==> exists i: nat :: FirstToHold(arms, target, i) && arms[i] == hit.value
    ensures hit.None? ==> forall a :: a in arms ==> a.recall < target
  {
    if arms == [] then None
    else if arms[0].recall >= target then assert FirstToHold(arms, target, 0); Some(arms[0])
    else
      assert arms == [arms[0]] + arms[1..];
      assert forall i: nat :: FirstToHold(arms[1..], target, i) ==> FirstToHold(arms, target, i + 1);
      Required(arms[1..], target)
  }

  // ----- The exact position and the rung -----

  predicate ExactWithin(pooled: seq<nat>, target: nat, rung: nat)
    requires pooled != []
  {
    ExactOpen(pooled, target).Some? && ExactOpen(pooled, target).value <= rung
  }

  /** The rung a sweep picks is never short of the exact position. */
  ghost predicate RungIsEnough(v: Survey, ladder: seq<nat>, target: nat)
    requires v.Valid()
  {
    PooledSize(v, 0);
    var hit := Required(Arms(v, ladder), target);
    hit.Some? ==> ExactWithin(v.Pooled(), target, hit.value.dial)
  }

  lemma HonestRungIsEnough(v: Survey, ladder: seq<nat>, target: nat)
    requires v.Valid() && target >= 1
    requires |v.Pooled()| > 0 && Need(target, |v.Pooled()|) >= 1
    requires Round4(Need(target, |v.Pooled()|) - 1, |v.Pooled()|) < target
    ensures RungIsEnough(v, ladder, target)
  {
    PooledSize(v, 0);
    var arms := Arms(v, ladder);
    if Required(arms, target).Some? {
      var arm := Required(arms, target).value;
      ArmsAreAt(v, ladder, arm);
      ArmIsPooled(v, arm.dial);
      RoundingHonestIff(|v.Pooled()|, target);
      ExactOpenIsLeast(v.Pooled(), target);
      assert Reaches(v.Pooled(), arm.dial, target);
    }
  }

  /** Rounding errs one way only: a rung that reports less than the target is short of the exact position. */
  lemma PassedOverFallsShort(v: Survey, ladder: seq<nat>, target: nat, a: Arm)
    requires v.Valid() && target >= 1 && a in Arms(v, ladder) && a.recall < target
    ensures v.Pooled() != [] && !ExactWithin(v.Pooled(), target, a.dial)
  {
    ArmsAreAt(v, ladder, a);
    ArmIsPooled(v, a.dial);
    ExactOpenIsLeast(v.Pooled(), target);
    if Reaches(v.Pooled(), a.dial, target) { Round4Reaches(CountAtMost(v.Pooled(), a.dial), |v.Pooled()|, target); }
  }

  /** A pool cut into rows of `w` ranks. */
  function Cut(pool: seq<nat>, w: nat): seq<seq<nat>>
    requires w > 0
  {
    if |pool| < w then [] else [pool[..w]] + Cut(pool[w..], w)
  }

  lemma {:induction false} CutsEven(pool: seq<nat>, rows: nat, w: nat)
    requires w > 0 && |pool| == rows * w && Ascending(pool)
    ensures |Cut(pool, w)| == rows && Flatten(Cut(pool, w)) == pool
    ensures forall q :: 0 <= q < rows ==> RowOf(Cut(pool, w)[q], pool, w)
  {
    if rows > 0 {
      assert rows * w == (rows - 1) * w + w;
      CutsEven(pool[w..], rows - 1, w);
      FlattenCons(pool[..w], Cut(pool[w..], w));
      forall q | 0 <= q < rows ensures RowOf(Cut(pool, w)[q], pool, w) {
        if q > 0 { assert RowOf(Cut(pool[w..], w)[q - 1], pool[w..], w); }
      }
    }
  }

  ghost predicate RowOf(row: seq<nat>, pool: seq<nat>, w: nat) {
    |row| == w && Ascending(row) && forall x :: x in row ==> x in pool
  }

  /** `low` ranks of 1 and the others of 3, in rows of `w` over three groups of `w` passages. */
  function Split(low: nat, rows: nat, w: nat): Survey
    requires low <= rows * w && w > 0
  {
    Survey(Cut(TwoRanks(low, rows * w - low), w), seq(rows, _ => [0, 1, 2]), [w, w, w], 3 * w)
  }

  function TwoRanks(low: nat, high: nat): seq<nat> { Repeat(low, 1) + Repeat(high, 3) }

  lemma TwoRanksAscend(low: nat, high: nat)
    ensures |TwoRanks(low, high)| == low + high && Ascending(TwoRanks(low, high))
    ensures forall x :: x in TwoRanks(low, high) ==> x == 1 || x == 3
  {
    RepeatAt(low, 1);
    RepeatAt(high, 3);
  }

  lemma RowIsOk(v: Survey, row: seq<nat>, pool: seq<nat>, w: nat)
    requires RowOf(row, pool, w) && v.questions != [] && |v.questions[0]| == w && |v.sizes| == 3
    requires forall x :: x in pool ==> x == 1 || x == 3
    ensures v.RanksOk(row)
  {
    forall i | 0 <= i < |row| ensures 1 <= row[i] <= 3 { assert row[i] in row; }
  }

  lemma SplitIsValid(low: nat, rows: nat, w: nat)
    requires low <= rows * w && rows > 0 && w >= 3
    ensures Split(low, rows, w).Shaped(rows, w)
    ensures Split(low, rows, w).Pooled() == TwoRanks(low, rows * w - low)
  {
    var v := Split(low, rows, w);
    var pool := TwoRanks(low, rows * w - low);
    TwoRanksAscend(low, rows * w - low);
    CutsEven(pool, rows, w);
    assert RowOf(v.questions[0], pool, w);
    forall q | 0 <= q < rows ensures v.RanksOk(v.questions[q]) && v.OrderOk(v.orderings[q]) {
      RowIsOk(v, v.questions[q], pool, w);
    }
  }

  lemma TwoRanksCount(low: nat, high: nat, dial: nat)
    ensures CountAtMost(TwoRanks(low, high), dial) == (if 1 <= dial then low else 0) + (if 3 <= dial then high else 0)
  {
    CountConcat(Repeat(low, 1), Repeat(high, 3), dial);
    CountRepeat(low, 1, dial);
    CountRepeat(high, 3, dial);
  }

  /** A rung past the group count adds no arm. */
  lemma {:induction false} LongRungsSkipped(v: Survey, rung: nat, more: seq<nat>)
    requires v.Valid() && rung <= |v.sizes| && forall i :: 0 <= i < |more| ==> more[i] > |v.sizes|
    ensures Arms(v, [rung] + more) == [ArmAt(v, rung)]
  {
    var ladder := [rung] + more;
    if more == [] {
      assert ladder[..0] == [] && Arms(v, []) == [];
    } else {
      LongRungsSkipped(v, rung, more[..|more| - 1]);
      assert ladder[..|ladder| - 1] == [rung] + more[..|more| - 1];
    }
  }

  /** The ladder picks its rung at 2 and the exact position is 3. */
  ghost predicate PicksTwo(v: Survey, target: nat) {
    && v.Valid() && v.Pooled() != []
    && Required(Arms(v, OPEN), target).Some? && Required(Arms(v, OPEN), target).value.dial == 2
    && ExactOpen(v.Pooled(), target) == Some(3)
  }

  lemma SplitArms(low: nat, rows: nat, w: nat)
    requires low <= rows * w && rows > 0 && w >= 3
    ensures Split(low, rows, w).Valid() && |Split(low, rows, w).Pooled()| == rows * w > 0
    ensures CountAtMost(Split(low, rows, w).Pooled(), 2) == low
    ensures CountAtMost(Split(low, rows, w).Pooled(), 3) == rows * w
    ensures Arms(Split(low, rows, w), OPEN) == [ArmAt(Split(low, rows, w), 2)]
    ensures ArmAt(Split(low, rows, w), 2).recall == Round4(low, rows * w)
  {
    var v := Split(low, rows, w);
    SplitIsValid(low, rows, w);
    TwoRanksAscend(low, rows * w - low);
    TwoRanksCount(low, rows * w - low, 2);
    TwoRanksCount(low, rows * w - low, 3);
    MulMono(1, rows, w);
    assert OPEN == [2] + OPEN[1..];
    LongRungsSkipped(v, 2, OPEN[1..]);
    ArmIsPooled(v, 2);
  }

  lemma OneShort(low: nat, n: nat, target: nat)
    requires n > 0 && 1 <= target <= 10000 && Need(target, n) == low + 1
    ensures low < n && low * 10000 < target * n <= n * 10000
  {
    NeedInRange(target, n);
    NeedIsLeast(target, n);
    MulMono(target, 10000, n);
  }

  /** One rank short of what the target asks, rounding up to it. */
  lemma RoundingPicks(low: nat, rows: nat, w: nat, target: nat)
    requires rows > 0 && w >= 3 && 1 <= target <= 10000 && rows * w > 0
    requires Need(target, rows * w) == low + 1 && Round4(low, rows * w) >= target
    ensures low < rows * w && PicksTwo(Split(low, rows, w), target)
  {
    OneShort(low, rows * w, target);
    SplitArms(low, rows, w);
    ExactIsThree(Split(low, rows, w).Pooled(), low, target);
  }

  lemma ExactIsThree(pooled: seq<nat>, low: nat, target: nat)
    requires pooled != [] && target >= 1 && low * 10000 < target * |pooled| <= |pooled| * 10000
    requires CountAtMost(pooled, 2) == low && CountAtMost(pooled, 3) == |pooled|
    ensures ExactOpen(pooled, target) == Some(3)
  {
    ExactOpenIsLeast(pooled, target);
    assert Reaches(pooled, 3, target) && !Reaches(pooled, 2, target);
  }

  /** `rows` questions of `w` ranks: the rung a sweep picks is never short of the exact position,
      whatever the ranks, on the code's ladder or on any, exactly when the largest count short of the
      target does not round up to it. */
  lemma RungIsEnoughIff(rows: nat, w: nat, target: nat)
    requires rows > 0 && w >= 3 && 1 <= target <= 10000
    ensures rows * w > 0 && Need(target, rows * w) >= 1
    ensures (forall v: Survey :: v.Shaped(rows, w) ==> RungIsEnough(v, OPEN, target))
       <==> Round4(Need(target, rows * w) - 1, rows * w) < target
    ensures (forall v: Survey, ladder: seq<nat> :: v.Shaped(rows, w) ==> RungIsEnough(v, ladder, target))
       <==> Round4(Need(target, rows * w) - 1, rows * w) < target
  {
    MulMono(1, rows, w);
    NeedInRange(target, rows * w);
    if Round4(Need(target, rows * w) - 1, rows * w) < target {
      forall v: Survey, ladder: seq<nat> | v.Shaped(rows, w) ensures RungIsEnough(v, ladder, target) {
        PooledSize(v, 0);
        HonestRungIsEnough(v, ladder, target);
      }
    } else {
      var low: nat := Need(target, rows * w) - 1;
      RoundingPicks(low, rows, w, target);
      SplitIsValid(low, rows, w);
      assert !RungIsEnough(Split(low, rows, w), OPEN, target);
    }
  }

  lemma NeedIs(target: nat, n: nat, count: nat)
    requires n > 0 && count >= 1 && (count - 1) * 10000 < target * n <= count * 10000
    ensures Need(target, n) == count
  {
    NeedIsLeast(target, n);
    assert !(Need(target, n) <= count - 1);
  }

  /** Thirty-one questions of ten neighbours pool 310 ranks.  When 290 of them lie within the rung at 2
      it reports 0.9355 and holds the 0.9355 target; the exact position asks for a 291st and is 3. */
  lemma RoundingPicksARung()
    ensures Round4(290, 31 * DEPTH) == 9355
    ensures Split(290, 31, DEPTH).Shaped(31, DEPTH) && PicksTwo(Split(290, 31, DEPTH), 9355)
  {
    NeedIs(9355, 310, 291);
    RoundingPicks(290, 31, DEPTH, 9355);
    SplitIsValid(290, 31, DEPTH);
  }

  /** Of the sweep's five targets it is the only one that thirty-one questions can round up to. */
  lemma OnlyOneTargetIsRoundedTo(target: nat)
    requires target in TARGETS
    ensures (forall v: Survey :: v.Shaped(31, DEPTH) ==> RungIsEnough(v, OPEN, target)) <==> target != 9355
  {
    NeedIs(8000, 310, 248);
    NeedIs(9000, 310, 279);
    NeedIs(9355, 310, 291);
    NeedIs(9500, 310, 295);
    NeedIs(9900, 310, 307);
    RungIsEnoughIff(31, DEPTH, target);
  }
}
