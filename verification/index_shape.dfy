/**
  Page geometry recovered from a slope: `_geometry` of `backend/eval/index_shape.py`.  Two empty
  indexes are built at two list counts, and the number of centroids a page holds is read off the
  pages between them.  Quotients are exact.
 */
module IndexShape {
  import opened Arith

  function CeilDiv(a: nat, b: nat): nat
    requires b > 0
  {
    (a + b - 1) / b
  }

  /** Python's `round(a / b)`: to the nearest integer, ties to the even one. */
  function RoundDiv(a: nat, b: nat): nat
    requires b > 0
  {
    var q, r := a / b, a % b;
    if 2 * r < b then q else if 2 * r > b then q + 1 else if q % 2 == 0 then q else q + 1
  }

  /** The layout the probe assumes: a metapage, the centroid pages, one start page a list. */
  function Layout(c: nat, lists: nat): nat
    requires c > 0
  {
    1 + CeilDiv(lists, c) + lists
  }

  datatype Geometry = Measured(centroids: nat, agrees: bool) | Overflow // `round(inf)` raises

  ghost predicate OnLayout(c: nat, low: nat, high: nat, pagesLow: nat, pagesHigh: nat)
    requires c > 0
  {
    pagesLow == Layout(c, low) && pagesHigh == Layout(c, high)
  }

  predicate Agrees(c: nat, lists: nat, pages: nat)
    requires c > 0
  {
    pages - lists - 1 == CeilDiv(lists, c)
  }

  /** `_geometry`: the slope is `(pagesHigh - pagesLow) / (high - low)`, and what it exceeds 1 by is
      inverted and rounded. */
  function Measure(low: nat, high: nat, pagesLow: nat, pagesHigh: nat): Geometry
    requires low < high
  {
    var lists, extra := high - low, (pagesHigh - pagesLow) - (high - low);
    if extra <= 0 then Overflow
    else
      var rounded := if RoundDiv(lists, extra) >= 1 then RoundDiv(lists, extra) else 1;
      Measured(rounded, Agrees(rounded, low, pagesLow) && Agrees(rounded, high, pagesHigh))
  }

  // ----- Rounding -----

  lemma RoundAbove(a: nat, b: nat, q: nat)
    requires b > 0 && q * b <= a
    ensures var d := a - q * b;
            && (2 * d < b ==> RoundDiv(a, b) == q)
            && (2 * d == b ==> RoundDiv(a, b) == if q % 2 == 0 then q else q + 1)
            && (2 * d > b ==> RoundDiv(a, b) >= q + 1)
  {
    var d := a - q * b;
    if d < b {
      Euclid(q, d, b);
    } else {
      QuotientAtLeast(a, b, q + 1);
    }
  }

  lemma RoundBelow(a: nat, b: nat, q: nat)
    requires b > 0 && q * b > a
    ensures var d := q * b - a;
            && (2 * d < b ==> RoundDiv(a, b) == q)
            && (2 * d == b && q % 2 == 0 ==> RoundDiv(a, b) == q)
  {
    var d := q * b - a;
    PositiveFactor(q, b);
    assert (q - 1) * b == q * b - b;
    if d <= b { Euclid(q - 1, b - d, b); }
  }

  /** Within half of it, and the even one when two are as near. */
  ghost predicate IsNearestQuotient(a: int, b: int, q: int) {
    -b <= 2 * (q * b - a) <= b && (2 * (q * b - a) == b || 2 * (q * b - a) == -b ==> q % 2 == 0)
  }

  lemma RoundIsNearest(a: nat, b: nat)
    requires b > 0
    ensures IsNearestQuotient(a, b, RoundDiv(a, b))
  {
    var q, r := a / b, a % b;
    assert a == q * b + r;
    assert (q + 1) * b == q * b + b;
  }

  /** For any pages at all: no figure exactly when the pages grow by no more than the lists do; else
      the figure nearest to the lists over what is beyond, the even one of two, and at least one.  It
      agrees exactly when both points have the layout assumed of that figure. */
  lemma MeasureMeans(low: nat, high: nat, pagesLow: nat, pagesHigh: nat)
    requires low < high
    ensures var extra, g := (pagesHigh - pagesLow) - (high - low), Measure(low, high, pagesLow, pagesHigh);
            && (g.Overflow? <==> extra <= 0)
            && (g.Measured? && 2 * (high - low) <= extra ==> g.centroids == 1)
            && (g.Measured? && 2 * (high - low) > extra ==> IsNearestQuotient(high - low, extra, g.centroids))
            && (g.Measured? ==> g.centroids >= 1)
            && (g.Measured? ==> g.agrees == OnLayout(g.centroids, low, high, pagesLow, pagesHigh))
  {
    var lists, extra := high - low, (pagesHigh - pagesLow) - (high - low);
    if extra > 0 {
      RoundIsNearest(lists, extra);
      if 2 * lists <= extra {
        RoundAbove(lists, extra, 0);
      } else if lists < extra {
        RoundBelow(lists, extra, 1);
      } else {
        RoundAbove(lists, extra, 1);
      }
    }
  }

  // ----- The layout between two points -----

  lemma CeilIs(a: nat, b: nat, m: nat)
    requires b > 0 && a <= m * b < a + b
    ensures CeilDiv(a, b) == m
  {
    Euclid(m, a + b - 1 - m * b, b);
  }

  lemma CeilBounds(a: nat, b: nat)
    requires b > 0
    ensures a <= CeilDiv(a, b) * b < a + b
  {}

  /** Between two list counts the centroid pages grow by a `c`-th of the lists, within less than a page. */
  lemma StepBounds(c: nat, low: nat, high: nat)
    requires c > 0 && low < high
    ensures var e := CeilDiv(high, c) - CeilDiv(low, c); (high - low) - e * c < c && e * c - (high - low) < c
  {
    CeilBounds(low, c);
    CeilBounds(high, c);
    assert (CeilDiv(high, c) - CeilDiv(low, c)) * c == CeilDiv(high, c) * c - CeilDiv(low, c) * c;
  }

  /** How many centroid pages must lie between the two points: half of one is what rounding forgives,
      and a tie goes to the even figure. */
  function Wide(c: nat): nat
    requires c > 0
  {
    if c == 1 then 0 else if c % 2 == 1 then 2 * c - 1 else 2 * c - 2
  }

  /** The distance between the two list counts from which the recovery cannot go wrong. */
  function Gap(c: nat): nat
    requires c > 0
  {
    Wide(c) * c
  }

  /** That far apart, the centroid pages grow by enough for the rounding error to vanish. */
  lemma GapIsWide(c: nat, lists: nat, e: int)
    requires c > 0 && lists > 0 && lists >= Gap(c) && lists - e * c < c && e * c - lists < c
    ensures e >= Wide(c) && e >= 1
  {
    if e < Wide(c) { TooNarrow(c, e, Wide(c) - 1, lists); }
    if e < 1 { MulMono(e, 0, c); }
  }

  lemma TooNarrow(c: nat, e: int, m: int, lists: nat)
    requires c > 0 && e <= m && lists - e * c < c
    ensures lists < (m + 1) * c
  {
    MulMono(e, m, c);
    assert (m + 1) * c == m * c + c;
  }

  /** On the assumed layout the probe recovers the true figure and says so. */
  lemma Recovers(c: nat, low: nat, high: nat)
    requires c > 0 && low < high && high - low >= Gap(c)
    ensures Measure(low, high, Layout(c, low), Layout(c, high)) == Measured(c, true)
  {
    var lists, e := high - low, CeilDiv(high, c) - CeilDiv(low, c);
    StepBounds(c, low, high);
    GapIsWide(c, lists, e);
    assert e * c == c * e;
    if c * e <= lists { RoundAbove(lists, e, c); } else { RoundBelow(lists, e, c); }
  }

  ghost predicate RecoversFrom(c: nat, gap: nat)
    requires c > 0
  {
    forall low: nat, high: nat :: 1 <= low < high && high - low >= gap
      ==> Measure(low, high, Layout(c, low), Layout(c, high)) == Measured(c, true)
  }

  /** One list short of the gap, the quotient reaches the half and rounds away. */
  lemma OneShort(c: nat)
    requires c >= 2
    ensures 1 < Gap(c)
    ensures Measure(1, Gap(c), Layout(c, 1), Layout(c, Gap(c))) != Measured(c, true)
  {
    var m := Wide(c);
    MulMono(2, m, c);
    CeilIs(1, c, 1);
    CeilIs(m * c, c, m);
    RoundsAway(c, m);
  }

  lemma RoundsAway(c: nat, m: nat)
    requires c >= 2 && m == Wide(c) && m * c >= 1
    ensures RoundDiv(m * c - 1, m - 1) >= c + 1
  {
    assert c * (m - 1) == m * c - c;
    RoundAbove(m * c - 1, m - 1, c);
  }

  /** The recovery is right for every pair of list counts at least `gap` apart exactly when `gap` is
      `c * (2c - 1)` for an odd `c`, `c * (2c - 2)` for an even one, or more. */
  lemma RecoversFromIff(c: nat, gap: nat)
    requires c > 0
    ensures RecoversFrom(c, gap) <==> gap >= Gap(c)
  {
    if gap >= Gap(c) {
      forall low: nat, high: nat | 1 <= low < high && high - low >= gap
        ensures Measure(low, high, Layout(c, low), Layout(c, high)) == Measured(c, true)
      {
        Recovers(c, low, high);
      }
    } else {
      OneShort(c);
      assert Gap(c) - 1 >= gap;
    }
  }

  // ----- Agreeing is not being right -----

  /** From the square of a figure on, no other figure fills as many centroid pages. */
  lemma SameCeilings(lists: nat, c: nat, r: nat)
    requires c > 0 && r > 0 && CeilDiv(lists, c) == CeilDiv(lists, r) && lists > c * c
    ensures r == c
  {
    var m := CeilDiv(lists, c);
    CeilBounds(lists, c);
    CeilBounds(lists, r);
    if r > c {
      Crowded(lists, c, r, m);
    } else if r < c {
      Crowded(lists, r, c, m);
      SquareMono(r, c);
    }
  }

  /** Two figures share a page count only while it is at most the smaller of them. */
  lemma Crowded(lists: nat, small: nat, large: nat, m: nat)
    requires 0 < small < large
    requires lists <= m * small && m * large < lists + large
    ensures lists <= small * small
  {
    var k := large - small;
    assert m * large == m * small + m * k;
    if m > small {
      assert (m - 1) * k == m * k - k;
      MulMono(1, k, m - 1);
    }
    MulMono(m, small, small);
  }

  lemma SquareMono(a: nat, b: nat)
    requires a <= b
    ensures a * a <= b * b
  {
    MulMono(a, b, a);
    MulMono(a, b, b);
    assert b * a == a * b;
  }

  /** How far apart the two list counts must be for an agreement to be the truth. */
  function TruthGap(c: nat): nat
    requires c > 0
  {
    if c == 1 then 0 else c * c
  }

  ghost predicate AgreementIsTrue(c: nat, gap: nat)
    requires c > 0
  {
    forall low: nat, high: nat, r: nat ::
      && 1 <= low < high && high - low >= gap
      && Measure(low, high, Layout(c, low), Layout(c, high)) == Measured(r, true)
      ==> r == c
  }

  /** That far apart the probe never agrees on a wrong figure. */
  lemma NoFalseAgreement(c: nat, low: nat, high: nat, r: nat)
    requires c > 0 && 1 <= low < high && high - low >= TruthGap(c)
    ensures Measure(low, high, Layout(c, low), Layout(c, high)) == Measured(r, true) ==> r == c
  {
    if c == 1 {
      Recovers(1, low, high);
    } else if Measure(low, high, Layout(c, low), Layout(c, high)) == Measured(r, true) {
      MeasureMeans(low, high, Layout(c, low), Layout(c, high));
      SameCeilings(high, c, r);
    }
  }

  /** One list short of the square the probe reports the next figure up, and agrees. */
  lemma AgreesWithTheWrongFigure(c: nat)
    requires c >= 2
    ensures 1 < c * c && Measure(1, c * c, Layout(c, 1), Layout(c, c * c)) == Measured(c + 1, true)
  {
    MulMono(2, c, c);
    CeilIs(1, c, 1);
    CeilIs(1, c + 1, 1);
    CeilIs(c * c, c, c);
    assert c * (c + 1) == c * c + c;
    CeilIs(c * c, c + 1, c);
    assert (c + 1) * (c - 1) == c * c - 1;
    RoundAbove(c * c - 1, c - 1, c + 1);
  }

  /** Whatever the probe agrees on is the truth, for every pair of list counts at least `gap` apart,
      exactly when `gap` is the square of the figure or more. */
  lemma AgreementIsTrueIff(c: nat, gap: nat)
    requires c > 0
    ensures AgreementIsTrue(c, gap) <==> gap >= TruthGap(c)
  {
    if gap >= TruthGap(c) {
      forall low: nat, high: nat, r: nat
        | 1 <= low < high && high - low >= gap
          && Measure(low, high, Layout(c, low), Layout(c, high)) == Measured(r, true)
        ensures r == c
      {
        NoFalseAgreement(c, low, high, r);
      }
    } else {
      AgreesWithTheWrongFigure(c);
      assert Measure(1, c * c, Layout(c, 1), Layout(c, c * c)) == Measured(c + 1, true);
    }
  }

  /** And two counts whose centroids fill the same pages leave no slope: the code raises. */
  lemma FlatOverflows(c: nat, low: nat, high: nat)
    requires c > 0 && low < high
    ensures Measure(low, high, Layout(c, low), Layout(c, high)) == Overflow <==> CeilDiv(low, c) == CeilDiv(high, c)
  {
    CeilBounds(low, c);
    CeilBounds(high, c);
    var a, b := CeilDiv(low, c), CeilDiv(high, c);
    if b < a { MulMono(b + 1, a, c); }
    assert (b + 1) * c == b * c + c;
  }
}
