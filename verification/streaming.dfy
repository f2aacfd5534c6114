/**
  The virtual corpus of `backend/eval/coarse_scale.py`: a hundred displaced copies of the real
  passages that never exist at once.  A block is one variant; `Merge` folds its top into a running
  top, and an index into the whole names a passage by a rule rather than by a table.

  A vector is kept as the recipe that makes it (`Point`); a query's similarity to it is any real
  function of the recipe, above the sentinel's -2.
 */
module Streaming {
  import opened Arith
  import opened Seqs
  import opened Ranking

  const INTERPOLANTS: nat := 5
  const SENTINEL: Item := Item(-2.0, 0)

  /** `l2_normalize(wa * seed[a] + wb * seed[b])`, the weights given by their place in the table. */
  datatype Point = Point(a: nat, b: nat, weights: nat)

  datatype Synthetic = Synthetic(neighbours: seq<seq<nat>>, starts: seq<nat>) {

    function Rows(): nat { |neighbours| }

    function Groups(): nat { |starts| }

    /** Every variant up to `levels` has a neighbour to interpolate towards. */
    ghost predicate Covers(levels: nat) {
      forall i :: 0 <= i < Rows() ==> levels <= INTERPOLANTS * |neighbours[i]|
    }

    ghost predicate GroupMajor() {
      && starts != [] && starts[0] == 0
      && (forall g :: 0 < g < |starts| ==> starts[g - 1] < starts[g])
      && starts[|starts| - 1] < Rows()
    }

    /** Every passage's `v`-th interpolant, in the real corpus's order. */
    function Variant(v: nat): seq<Point>
      requires 1 <= v && Covers(v)
    {
      var rank, position := (v - 1) / INTERPOLANTS, (v - 1) % INTERPOLANTS;
      seq(Rows(), i requires 0 <= i < Rows() => Point(i, neighbours[i][rank], position))
    }

    /** One passage by its global index. */
    function At(index: nat): Point
      requires Rows() > 0 && Covers(index / Rows() + 1)
    {
      var variant, position := index / Rows(), index % Rows();
      var rank, offset := variant / INTERPOLANTS, variant % INTERPOLANTS;
      Point(position, neighbours[position][rank], offset)
    }

    function End(g: nat): nat
      requires g < |starts|
    {
      if g + 1 < |starts| then starts[g + 1] else Rows()
    }

    /** `np.repeat(arange(groups), sizes)`, from group `g` on. */
    function Repeat(g: nat): seq<nat>
      requires GroupMajor() && g <= |starts|
      decreases |starts| - g
    {
      if g == |starts| then [] else Same(Size(g), g) + Repeat(g + 1)
    }

    function Size(g: nat): nat
      requires GroupMajor() && g < |starts|
    {
      End(g) - starts[g]
    }

    function MemberGroup(levels: nat): seq<nat>
      requires GroupMajor()
    {
      if levels == 0 then [] else MemberGroup(levels - 1) + Raise(Repeat(0), (levels - 1) * Groups())
    }

    function Sizes(): seq<nat>
      requires GroupMajor()
    {
      seq(Groups(), g requires 0 <= g < Groups() => Size(g))
    }

    /** `np.tile(sizes, levels)`. */
    function GroupSizes(levels: nat): seq<nat>
      requires GroupMajor()
    {
      if levels == 0 then [] else GroupSizes(levels - 1) + Sizes()
    }
  }

  function Same(k: nat, g: nat): seq<nat> {
    seq(k, _ => g)
  }

  function Raise(s: seq<nat>, base: nat): seq<nat> {
    seq(|s|, i requires 0 <= i < |s| => s[i] + base)
  }

  // ----- One index, one vector, one group -----

  /** The index a block's passage gets when it is merged names that same passage afterwards. */
  lemma IndexNamesVariant(c: Synthetic, v: nat, i: nat)
    requires 1 <= v && c.Covers(v) && i < c.Rows()
    ensures ((v - 1) * c.Rows() + i) / c.Rows() + 1 == v
    ensures (v - 1) / 5 < |c.neighbours[i]|
    ensures c.At((v - 1) * c.Rows() + i) == c.Variant(v)[i] == Point(i, c.neighbours[i][(v - 1) / 5], (v - 1) % 5)
  {
    Euclid(v - 1, i, c.Rows());
  }

  lemma {:induction false} RepeatSlices(c: Synthetic, g: nat)
    requires c.GroupMajor() && g < |c.starts|
    ensures |c.Repeat(g)| == c.Rows() - c.starts[g]
    ensures forall i :: 0 <= i < |c.Repeat(g)| ==> g <= c.Repeat(g)[i] < |c.starts|
    ensures forall i :: 0 <= i < |c.Repeat(g)| ==>
              c.starts[c.Repeat(g)[i]] <= i + c.starts[g] < c.End(c.Repeat(g)[i])
    decreases |c.starts| - g
  {
    StartsBelow(c, g);
    if g + 1 < |c.starts| {
      RepeatSlices(c, g + 1);
      var rest := c.Repeat(g + 1);
      assert forall i :: c.Size(g) <= i < |c.Repeat(g)| ==> c.Repeat(g)[i] == rest[i - c.Size(g)];
    }
  }

  lemma {:induction false} StartsBelow(c: Synthetic, g: nat)
    requires c.GroupMajor() && g < |c.starts|
    ensures c.starts[g] < c.End(g) <= c.Rows()
    decreases |c.starts| - g
  {
    if g + 1 < |c.starts| { StartsBelow(c, g + 1); }
  }

  lemma {:induction false} MemberGroupLength(c: Synthetic, levels: nat)
    requires c.GroupMajor()
    ensures |c.MemberGroup(levels)| == levels * c.Rows()
  {
    RepeatSlices(c, 0);
    if levels > 0 {
      MemberGroupLength(c, levels - 1);
      assert levels * c.Rows() == (levels - 1) * c.Rows() + c.Rows();
    }
  }

  /** The group a merged index belongs to is a group of its own variant, and the slice of that
      variant which the group's mean pools contains the passage the index names. */
  lemma {:induction false} IndexNamesGroup(c: Synthetic, levels: nat, v: nat, i: nat) returns (g: nat)
    requires c.GroupMajor() && 1 <= v <= levels && i < c.Rows()
    ensures (v - 1) * c.Rows() + i < |c.MemberGroup(levels)|
    ensures g < c.Groups() && c.MemberGroup(levels)[(v - 1) * c.Rows() + i] == (v - 1) * c.Groups() + g
    ensures c.starts[g] <= i < c.End(g)
  {
    MemberGroupLength(c, levels);
    MemberGroupLength(c, levels - 1);
    PairBelow(v - 1, i, c.Rows(), levels);
    if v < levels {
      PairBelow(v - 1, i, c.Rows(), levels - 1);
      g := IndexNamesGroup(c, levels - 1, v, i);
    } else {
      RepeatSlices(c, 0);
      g := c.Repeat(0)[i];
    }
  }

  // ----- The tiled sizes count the members -----

  lemma {:induction false} RaiseCount(s: seq<nat>, base: nat, x: nat)
    ensures Count<int>(Raise(s, base), x) == if x >= base then Count<int>(s, x - base) else 0
  {
    if s != [] {
      RaiseCount(s[1..], base, x);
      assert Raise(s, base)[1..] == Raise(s[1..], base);
    }
  }

  lemma {:induction false} SameCount(k: nat, g: nat, x: nat)
    ensures Count<int>(Same(k, g), x) == if x == g then k else 0
  {
    if k > 0 {
      SameCount(k - 1, g, x);
      assert Same(k, g)[1..] == Same(k - 1, g);
    }
  }

  lemma {:induction false} RepeatCounts(c: Synthetic, g: nat, x: nat)
    requires c.GroupMajor() && g <= |c.starts|
    ensures Count<int>(c.Repeat(g), x) == if g <= x < |c.starts| then c.Size(x) else 0
    decreases |c.starts| - g
  {
    if g < |c.starts| {
      RepeatCounts(c, g + 1, x);
      SameCount(c.Size(g), g, x);
      ValuesConcat<int>(Same(c.Size(g), g), c.Repeat(g + 1), x);
    }
  }

  lemma {:induction false} SizesLength(c: Synthetic, levels: nat)
    requires c.GroupMajor()
    ensures |c.GroupSizes(levels)| == levels * c.Groups()
  {
    if levels > 0 {
      SizesLength(c, levels - 1);
      assert levels * c.Groups() == (levels - 1) * c.Groups() + c.Groups();
    }
  }

  lemma BlockCounts(c: Synthetic, base: nat, x: nat)
    requires c.GroupMajor()
    ensures Count<int>(Raise(c.Repeat(0), base), x) == if base <= x < base + |c.Sizes()| then c.Sizes()[x - base] else 0
  {
    RaiseCount(c.Repeat(0), base, x);
    if x >= base { RepeatCounts(c, 0, x - base); }
  }

  /** Each group has as many members as its size says. */
  lemma {:induction false} SizesCountMembers(c: Synthetic, levels: nat, x: nat)
    requires c.GroupMajor()
    ensures Count<int>(c.MemberGroup(levels), x) == if x < |c.GroupSizes(levels)| then c.GroupSizes(levels)[x] else 0
  {
    if levels > 0 {
      var before := c.GroupSizes(levels - 1);
      SizesLength(c, levels - 1);
      SizesCountMembers(c, levels - 1, x);
      BlockCounts(c, |before|, x);
      ValuesConcat<int>(c.MemberGroup(levels - 1), Raise(c.Repeat(0), |before|), x);
      assert c.GroupSizes(levels) == before + c.Sizes();
    }
  }

  // ----- Streaming the top -----

  function Shift(s: seq<Item>, offset: int): seq<Item> {
    seq(|s|, i requires 0 <= i < |s| => Item(s[i].score, s[i].id + offset))
  }

  lemma {:induction false} InsertShift(x: Item, s: seq<Item>, offset: int)
    ensures Insert(Item(x.score, x.id + offset), Shift(s, offset)) == Shift(Insert(x, s), offset)
  {
    if s != [] && Better(s[0], x) {
      InsertShift(x, s[1..], offset);
      assert Shift(s, offset)[1..] == Shift(s[1..], offset);
    }
  }

  lemma {:induction false} SortShift(s: seq<Item>, offset: int)
    ensures Sort(Shift(s, offset)) == Shift(Sort(s), offset)
  {
    if s != [] {
      SortShift(s[1..], offset);
      assert Shift(s, offset)[1..] == Shift(s[1..], offset);
      InsertShift(s[0], Sort(s[1..]), offset);
    }
  }

  /** `_merge`: one block's own top, offset, folded into the running top. */
  function Merge(best: seq<Item>, similarity: seq<real>, offset: nat, depth: nat): seq<Item> {
    Top(best + Shift(Top(Items(similarity), depth), offset), depth)
  }

  function Sentinels(depth: nat): seq<Item> {
    seq(depth, _ => SENTINEL)
  }

  lemma MergeStep(seen: seq<Item>, similarity: seq<real>, offset: nat, depth: nat)
    ensures Merge(Top(seen, depth), similarity, offset, depth)
         == Top(seen + Shift(Items(similarity), offset), depth)
  {
    var block := Shift(Items(similarity), offset);
    SortShift(Items(similarity), offset);
    assert Shift(Top(Items(similarity), depth), offset) == Top(block, depth);
    TopMerge(seen, block, depth);
  }

  /** The whole virtual corpus as items: global index, similarity of what the index names. */
  function Virtual(c: Synthetic, levels: nat, score: Point -> real): seq<Item>
    requires c.Covers(levels)
  {
    if levels == 0 then []
    else
      Virtual(c, levels - 1, score) + Shift(Items(Block(c, levels, score)), (levels - 1) * c.Rows())
  }

  function Block(c: Synthetic, v: nat, score: Point -> real): seq<real>
    requires 1 <= v && c.Covers(v)
  {
    seq(c.Rows(), i requires 0 <= i < c.Rows() => score(c.Variant(v)[i]))
  }

  lemma {:induction false} VirtualLength(c: Synthetic, levels: nat, score: Point -> real)
    requires c.Covers(levels)
    ensures |Virtual(c, levels, score)| == levels * c.Rows()
  {
    if levels > 0 {
      VirtualLength(c, levels - 1, score);
      assert levels * c.Rows() == (levels - 1) * c.Rows() + c.Rows();
    }
  }

  /** Position `index` of the virtual corpus is the passage `At(index)`. */
  lemma {:induction false} VirtualIsAt(c: Synthetic, levels: nat, score: Point -> real, index: nat)
    requires c.Covers(levels) && index < levels * c.Rows()
    ensures |Virtual(c, levels, score)| == levels * c.Rows()
    ensures c.Rows() > 0 && c.Covers(index / c.Rows() + 1)
    ensures Virtual(c, levels, score)[index] == Item(score(c.At(index)), index)
  {
    VirtualLength(c, levels, score);
    PositiveFactor(levels, c.Rows());
    QuotientBelow(index, c.Rows(), levels);
    VirtualLength(c, levels - 1, score);
    var before := (levels - 1) * c.Rows();
    if index < before {
      VirtualIsAt(c, levels - 1, score, index);
    } else {
      assert levels * c.Rows() == before + c.Rows();
      IndexNamesVariant(c, levels, index - before);
    }
  }

  /** The variant loop of `_run`: whatever has been folded so far is the top of the sentinels and
      everything seen. */
  method Stream(c: Synthetic, levels: nat, score: Point -> real, depth: nat) returns (best: seq<Item>)
    requires c.Covers(levels)
    ensures best == Top(Sentinels(depth) + Virtual(c, levels, score), depth)
  {
    best := Sentinels(depth);
    SortFixesSorted(best);
    assert best + Virtual(c, 0, score) == best;
    for v := 1 to levels + 1
      invariant best == Top(Sentinels(depth) + Virtual(c, v - 1, score), depth)
    {
      var offset := (v - 1) * c.Rows();
      MergeStep(Sentinels(depth) + Virtual(c, v - 1, score), Block(c, v, score), offset, depth);
      assert Sentinels(depth) + Virtual(c, v, score)
          == Sentinels(depth) + Virtual(c, v - 1, score) + Shift(Items(Block(c, v, score)), offset);
      best := Merge(best, Block(c, v, score), offset, depth);
    }
  }

  lemma SentinelsSinkTo(s: seq<Item>, depth: nat)
    requires forall it :: it in s ==> it.score > SENTINEL.score
    ensures Sort(Sentinels(depth) + s) == Sort(s) + Sentinels(depth)
  {
    var t := Sort(s) + Sentinels(depth);
    SortSorts(s);
    forall i, j | 0 <= i < j < |t| ensures !Better(t[j], t[i]) {
      if i < |s| <= j {
        assert t[i] in multiset(Sort(s));
        assert t[i] in s;
      }
    }
    SortOfSameBag(Sentinels(depth) + s, t);
    SortFixesSorted(t);
  }

  lemma VirtualApart(c: Synthetic, levels: nat, score: Point -> real)
    requires c.Covers(levels) && forall p :: score(p) > SENTINEL.score
    ensures forall it :: it in Virtual(c, levels, score) ==> it.score > SENTINEL.score
    ensures NoDup(Ids(Sort(Virtual(c, levels, score))))
    ensures forall it :: it in Sort(Virtual(c, levels, score)) ==> it.score > SENTINEL.score
  {
    var all := Virtual(c, levels, score);
    VirtualLength(c, levels, score);
    forall i | 0 <= i < |all| ensures all[i].id == i && all[i].score > SENTINEL.score {
      VirtualIsAt(c, levels, score, i);
    }
    var sorted := Sort(all);
    SortSorts(all);
    NoDupBag(all, sorted);
    forall it | it in sorted ensures it in all { assert it in multiset(sorted); }
    forall i, j | 0 <= i < j < |sorted| ensures sorted[i].id != sorted[j].id {
      assert sorted[i] in all && sorted[j] in all;
    }
  }

  /** Streaming is exact: once the corpus holds `depth` passages the folded result is the top of
      the whole virtual corpus, with no sentinel in it and no index twice.  Below that the
      sentinels fill exactly what is missing. */
  lemma StreamIsGlobalTop(c: Synthetic, levels: nat, score: Point -> real, depth: nat)
    requires c.Covers(levels)
    requires forall p :: score(p) > SENTINEL.score
    ensures var all, result := Virtual(c, levels, score), Top(Sentinels(depth) + Virtual(c, levels, score), depth);
      if depth <= |all|
      then result == Top(all, depth) && SENTINEL !in result && NoDup(Ids(result))
      else result == Sort(all) + Sentinels(depth - |all|) && NoDup(Ids(Sort(all)))
  {
    var all := Virtual(c, levels, score);
    VirtualApart(c, levels, score);
    SentinelsSinkTo(all, depth);
    SortSorts(all);
    if depth <= |all| {
      var result := Take(Sort(all) + Sentinels(depth), depth);
      assert result == Sort(all)[..depth];
      assert Ids(result) == Ids(Sort(all))[..depth];
    }
  }
}
