/**
  Recall when the caller reaches only part of the corpus: `corpus_reach` and `_rank_of_first_hit`
  of `backend/eval/measure.py`, over the exact scan of `search_dense` in `backend/eval/pipeline.py`.
  Similarities are exact reals, ties settled by chunk id.
 */
module Reach {
  import opened Seqs
  import opened Ranking

  const CANDIDATES: nat := 50

  datatype Kind = Factual | CrossDocument | Identifier | Table | Unanswerable

  datatype Location = Location(document: string, page: nat)

  datatype Source = Source(document: string, pages: seq<nat>)

  /** A question with its similarity to every chunk of the corpus. */
  datatype Question = Question(kind: Kind, sources: seq<Source>, scores: seq<real>) {
    predicate Headline() { kind.Factual? || kind.CrossDocument? }

    function Needed(): set<string> {
      set source | source in sources :: source.document
    }

    /** `_expected`. */
    predicate Expects(l: Location) {
      exists i :: 0 <= i < |sources| && sources[i].document == l.document && l.page in sources[i].pages
    }
  }

  /** Where its answer stands: a document and a page of it. */
  function Places(sources: seq<Source>): set<(string, nat)> {
    set source, page | source in sources && page in source.pages :: (source.document, page)
  }

  // ----- What the caller reaches -----

  /** Python's `round` of an exact number: to the nearest integer, ties to the even one. */
  function Round(x: real): int {
    var down := x.Floor;
    var rest := x - down as real;
    if rest < 0.5 then down else if rest > 0.5 then down + 1 else if down % 2 == 0 then down else down + 1
  }

  function AtLeastOne(x: real): nat {
    if Round(x) > 1 then Round(x) else 1
  }

  function ShareOf(documents: nat, share: real): real {
    documents as real * share
  }

  /** `max(1, round(len(all_documents) * share))`. */
  function Keep(documents: nat, share: real): nat {
    AtLeastOne(ShareOf(documents, share))
  }

  function NotIn(needed: set<string>): string -> bool { (d: string) => d !in needed }

  function Names(s: seq<string>): set<string> { set d | d in s }

  /** The documents a question may search at a share: the ones it needs, and the first others. */
  function Visible(documents: seq<string>, needed: set<string>, keep: nat): set<string> {
    var others := Filter(documents, NotIn(needed));
    var extra := Take(others, if keep > |needed| then keep - |needed| else 0);
    needed + Names(extra)
  }

  function Readable(chunks: seq<Location>, visible: set<string>): Item -> bool {
    (it: Item) => 0 <= it.id < |chunks| && chunks[it.id].document in visible
  }

  /** `search_dense` with a list of documents, as an exact scan. */
  function Search(chunks: seq<Location>, scores: seq<real>, visible: set<string>, k: nat): seq<Item> {
    Top(Filter(Items(scores), Readable(chunks, visible)), k)
  }

  predicate Hits(chunks: seq<Location>, q: Question, found: seq<Item>) {
    exists i :: 0 <= i < |found| && 0 <= found[i].id < |chunks| && q.Expects(chunks[found[i].id])
  }

  function Found(documents: seq<string>, chunks: seq<Location>, q: Question, share: real): seq<Item> {
    Search(chunks, q.scores, Visible(documents, q.Needed(), Keep(|documents|, share)), CANDIDATES)
  }

  function HitCount(documents: seq<string>, chunks: seq<Location>, questions: seq<Question>, share: real): nat {
    if questions == [] then 0
    else
      var q := questions[0];
      (if q.Headline() && Hits(chunks, q, Found(documents, chunks, q, share)) then 1 else 0)
        + HitCount(documents, chunks, questions[1..], share)
  }

  function Counted(questions: seq<Question>): nat {
    if questions == [] then 0 else (if questions[0].Headline() then 1 else 0) + Counted(questions[1..])
  }

  /** `any(location in expected ...)` over what a search found. */
  method AnyHit(chunks: seq<Location>, q: Question, found: seq<Item>) returns (hit: bool)
    ensures hit <==> Hits(chunks, q, found)
  {
    for i := 0 to |found|
      invariant forall j :: 0 <= j < i ==> !(0 <= found[j].id < |chunks| && q.Expects(chunks[found[j].id]))
    {
      if 0 <= found[i].id < |chunks| && q.Expects(chunks[found[i].id]) { return true; }
    }
    hit := false;
  }

  /** The report: hits over counted questions, or 0 of none. */
  function Rate(hits: nat, counted: nat): real {
    if counted == 0 then 0.0 else hits as real / counted as real
  }

  /** `corpus_reach`. */
  method CorpusReach(documents: seq<string>, chunks: seq<Location>, questions: seq<Question>, share: real)
    returns (reach: real)
    ensures reach == Rate(HitCount(documents, chunks, questions, share), Counted(questions))
  {
    var keep := Keep(|documents|, share);
    var hits, counted := 0, 0;
    assert questions[0..] == questions;
    for i := 0 to |questions|
      invariant hits + HitCount(documents, chunks, questions[i..], share)
             == HitCount(documents, chunks, questions, share)
      invariant counted + Counted(questions[i..]) == Counted(questions)
    {
      var q := questions[i];
      assert questions[i..][0] == q && questions[i..][1..] == questions[i + 1..];
      if q.kind.Unanswerable? || !q.Headline() { continue; }
      var hit := AnyHit(chunks, q, Search(chunks, q.scores, Visible(documents, q.Needed(), keep), CANDIDATES));
      hits := hits + (if hit then 1 else 0);
      counted := counted + 1;
    }
    reach := Rate(hits, counted);
  }

  // ----- Narrowing -----

  lemma RoundMonotone(x: real, y: real)
    requires x <= y
    ensures Round(x) <= Round(y)
  {
    assert x.Floor <= y.Floor;
  }

  lemma KeepMonotone(documents: nat, a: real, b: real)
    requires a <= b
    ensures Keep(documents, a) <= Keep(documents, b)
  {
    assert documents as real * a <= documents as real * b;
    RoundMonotone(ShareOf(documents, a), ShareOf(documents, b));
  }

  /** A smaller share is a smaller reach, and never without a document the question needs. */
  lemma {:induction false} VisibleNested(documents: seq<string>, needed: set<string>, a: nat, b: nat)
    requires a <= b
    ensures needed <= Visible(documents, needed, a) <= Visible(documents, needed, b)
  {
    var others := Filter(documents, NotIn(needed));
    var m, n := if a > |needed| then a - |needed| else 0, if b > |needed| then b - |needed| else 0;
    forall d | d in Take(others, m) ensures d in Take(others, n) {
      var i :| 0 <= i < |Take(others, m)| && Take(others, m)[i] == d;
      assert Take(others, n)[i] == d;
    }
  }

  lemma RoundIsNearest(x: real)
    ensures -0.5 <= Round(x) as real - x <= 0.5
    ensures Round(x) % 2 == 0 || -0.5 < Round(x) as real - x < 0.5
  {}

  lemma RoundWithin(x: real, n: nat)
    requires x <= n as real
    ensures Round(x) <= n
  {
    RoundMonotone(x, n as real);
  }

  lemma ShareBelow(documents: nat, share: real)
    requires share <= 1.0
    ensures ShareOf(documents, share) <= documents as real
  {
    var x, rest := documents as real, 1.0 - share;
    assert x * share == x - x * rest;
    assert x * rest >= 0.0;
  }

  /** The whole number nearest to `exact`, the even one of two, and between one and `n`. */
  ghost predicate IsKept(keep: nat, exact: real, n: nat) {
    && 1 <= keep <= n && (exact < 1.0 ==> keep == 1)
    && (exact >= 1.0 ==> -0.5 <= keep as real - exact <= 0.5)
    && (exact >= 1.0 && keep % 2 == 1 ==> -0.5 < keep as real - exact < 0.5)
  }

  lemma AtLeastOneIsNearest(exact: real, n: nat)
    requires n >= 1 && exact <= n as real
    ensures IsKept(AtLeastOne(exact), exact, n)
  {
    RoundWithin(exact, n);
    RoundIsNearest(exact);
    if exact >= 1.0 { RoundMonotone(1.0, exact); } else { RoundMonotone(exact, 1.0); }
  }

  /** What is kept is that number for the share of the documents. */
  lemma KeepIsNearest(documents: nat, share: real)
    requires documents >= 1 && share <= 1.0
    ensures IsKept(Keep(documents, share), documents as real * share, documents)
  {
    ShareBelow(documents, share);
    AtLeastOneIsNearest(ShareOf(documents, share), documents);
  }

  lemma {:induction false} SetSize(s: seq<string>)
    requires NoDup(s)
    ensures |Names(s)| == |s|
  {
    if s == [] {
      assert Names(s) == {};
    } else {
      SetSize(s[1..]);
      assert s == [s[0]] + s[1..];
      assert Names(s) == {s[0]} + Names(s[1..]);
    }
  }

  /** The others are distinct, and all but the needed. */
  lemma OthersAre(documents: seq<string>, needed: set<string>)
    requires NoDup(documents) && needed <= Names(documents)
    ensures var others := Filter(documents, NotIn(needed));
            NoDup(others) && Names(others) == Names(documents) - needed && |others| == |documents| - |needed|
  {
    var others := Filter(documents, NotIn(needed));
    FilterNoDup(documents, NotIn(needed));
    forall d ensures d in others <==> d in documents && d !in needed { FilterKeeps(documents, NotIn(needed), d); }
    assert Names(others) == Names(documents) - needed;
    SetSize(documents);
    SetSize(others);
  }

  lemma SomeOthers(needed: set<string>, others: seq<string>, n: nat)
    requires NoDup(others) && n <= |others| && Names(others) !! needed
    ensures |needed + Names(others[..n])| == |needed| + n
  {
    SetSize(others[..n]);
    forall d | d in others[..n] ensures d !in needed { assert d in Names(others); }
  }

  /** Over distinct documents that include the needed ones, a question sees exactly `keep` of them,
      or the ones it needs when those are more. */
  lemma VisibleSize(documents: seq<string>, needed: set<string>, keep: nat)
    requires NoDup(documents) && needed <= Names(documents) && keep <= |documents|
    ensures |Visible(documents, needed, keep)| == if keep > |needed| then keep else |needed|
  {
    OthersAre(documents, needed);
    SomeOthers(needed, Filter(documents, NotIn(needed)), if keep > |needed| then keep - |needed| else 0);
  }

  /** An expected chunk found in the larger reach is found in the smaller. */
  lemma SurvivesNarrowing(chunks: seq<Location>, scores: seq<real>, small: set<string>, large: set<string>, k: nat,
      x: Item)
    requires small <= large && x in Search(chunks, scores, large, k) && Readable(chunks, small)(x)
    ensures x in Search(chunks, scores, small, k)
  {
    var items := Items(scores);
    FilterTwice(items, Readable(chunks, large), Readable(chunks, small), Readable(chunks, small));
    Survives(Filter(items, Readable(chunks, large)), Readable(chunks, small), k, x);
  }

  lemma HitSurvives(documents: seq<string>, chunks: seq<Location>, q: Question, a: real, b: real)
    requires a <= b && Hits(chunks, q, Found(documents, chunks, q, b))
    ensures Hits(chunks, q, Found(documents, chunks, q, a))
  {
    KeepMonotone(|documents|, a, b);
    var small := Visible(documents, q.Needed(), Keep(|documents|, a));
    var large := Visible(documents, q.Needed(), Keep(|documents|, b));
    VisibleNested(documents, q.Needed(), Keep(|documents|, a), Keep(|documents|, b));
    var found := Found(documents, chunks, q, b);
    var i :| 0 <= i < |found| && 0 <= found[i].id < |chunks| && q.Expects(chunks[found[i].id]);
    ExpectedIsNeeded(q, chunks[found[i].id]);
    SurvivesNarrowing(chunks, q.scores, small, large, CANDIDATES, found[i]);
    var kept := Found(documents, chunks, q, a);
    var j :| 0 <= j < |kept| && kept[j] == found[i];
  }

  lemma ExpectedIsNeeded(q: Question, l: Location)
    requires q.Expects(l)
    ensures l.document in q.Needed()
  {
    var i :| 0 <= i < |q.sources| && q.sources[i].document == l.document && l.page in q.sources[i].pages;
    assert q.sources[i] in q.sources;
  }

  lemma {:induction false} HitsDoNotFall(documents: seq<string>, chunks: seq<Location>, questions: seq<Question>,
      a: real, b: real)
    requires a <= b
    ensures HitCount(documents, chunks, questions, a) >= HitCount(documents, chunks, questions, b)
  {
    if questions != [] {
      HitsDoNotFall(documents, chunks, questions[1..], a, b);
      var q := questions[0];
      if Hits(chunks, q, Found(documents, chunks, q, b)) { HitSurvives(documents, chunks, q, a, b); }
    }
  }

  lemma HitsWithinCounted(documents: seq<string>, chunks: seq<Location>, questions: seq<Question>, share: real)
    ensures HitCount(documents, chunks, questions, share) <= Counted(questions)
  {}

  lemma RateMonotone(a: nat, b: nat, counted: nat)
    requires a <= b <= counted
    ensures 0.0 <= Rate(a, counted) <= Rate(b, counted) <= 1.0
  {}

  /** Under exact search the reach reported can only go up as the share goes down, whatever the
      corpus, the questions and the similarities. */
  lemma NarrowingLosesNoHit(documents: seq<string>, chunks: seq<Location>, questions: seq<Question>, a: real, b: real)
    requires a <= b
    ensures HitCount(documents, chunks, questions, a) >= HitCount(documents, chunks, questions, b)
    ensures var counted := Counted(questions);
            0.0 <= Rate(HitCount(documents, chunks, questions, b), counted)
                <= Rate(HitCount(documents, chunks, questions, a), counted) <= 1.0
  {
    HitsDoNotFall(documents, chunks, questions, a, b);
    HitsWithinCounted(documents, chunks, questions, a);
    RateMonotone(HitCount(documents, chunks, questions, b), HitCount(documents, chunks, questions, a),
                 Counted(questions));
  }

  // ----- What a hit is -----

  lemma ExpectsMeans(q: Question, l: Location)
    ensures q.Expects(l) <==> (l.document, l.page) in Places(q.sources)
  {
    if (l.document, l.page) in Places(q.sources) {
      var source, page :|
        source in q.sources && page in source.pages && (source.document, page) == (l.document, l.page);
      var i :| 0 <= i < |q.sources| && q.sources[i] == source;
      assert q.sources[i].document == l.document && l.page in q.sources[i].pages;
    }
    if q.Expects(l) {
      var i :| 0 <= i < |q.sources| && q.sources[i].document == l.document && l.page in q.sources[i].pages;
      assert q.sources[i] in q.sources;
    }
  }

  /** A search hits exactly when a chunk it found stands in an expected document and on an expected page
      of it. */
  lemma HitsMeans(chunks: seq<Location>, q: Question, found: seq<Item>)
    ensures Hits(chunks, q, found)
       <==> exists it :: it in found && 0 <= it.id < |chunks|
              && (chunks[it.id].document, chunks[it.id].page)
                   in set s, p | s in q.sources && p in s.pages :: (s.document, p)
  {
    forall l ensures q.Expects(l) <==> (l.document, l.page) in Places(q.sources) { ExpectsMeans(q, l); }
    assert Places(q.sources) == set s, p | s in q.sources && p in s.pages :: (s.document, p);
    if Hits(chunks, q, found) {
      var i :| 0 <= i < |found| && 0 <= found[i].id < |chunks| && q.Expects(chunks[found[i].id]);
      assert found[i] in found;
    }
  }

  /** A question none of whose places is a chunk's counts for nothing, at any share. */
  lemma {:induction false} UnansweredIsNoHit(documents: seq<string>, chunks: seq<Location>, questions: seq<Question>,
      share: real)
    requires forall q, l :: q in questions && l in chunks ==>
               (l.document, l.page) !in set s, p | s in q.sources && p in s.pages :: (s.document, p)
    ensures HitCount(documents, chunks, questions, share) == 0
  {
    if questions != [] {
      var q := questions[0];
      UnansweredIsNoHit(documents, chunks, questions[1..], share);
      HitsMeans(chunks, q, Found(documents, chunks, q, share));
    }
  }

  /** The report is the quotient, and 0 of nothing. */
  lemma RateMeans(hits: nat, counted: nat)
    ensures Rate(hits, counted) * counted as real == (if counted == 0 then 0.0 else hits as real)
    ensures counted == 0 ==> Rate(hits, counted) == 0.0
  {}

  /** Of the documents a question does not need, it sees the first: with one it sees every one before. */
  lemma {:induction false} FirstOthersAreVisible(documents: seq<string>, needed: set<string>, keep: nat, i: nat,
      j: nat)
    requires i <= j < |documents| && documents[j] !in needed && documents[j] in Visible(documents, needed, keep)
    requires NoDup(documents)
    ensures documents[i] in Visible(documents, needed, keep)
  {
    var others := Filter(documents, NotIn(needed));
    var n := if keep > |needed| then keep - |needed| else 0;
    if documents[i] !in needed {
      var b :| 0 <= b < |Take(others, n)| && Take(others, n)[b] == documents[j];
      FilterNoDup(documents, NotIn(needed));
      FilterKeeps(documents, NotIn(needed), documents[i]);
      if i < j {
        var a, c := FilterInOrder(documents, NotIn(needed), i, j);
        assert others[c] == others[b];
        assert Take(others, n)[a] == documents[i];
      }
    }
  }

  /** What is counted: the factual and cross-document questions, and of those the ones whose search hits. */
  lemma {:induction false} CountsMean(documents: seq<string>, chunks: seq<Location>, questions: seq<Question>,
      share: real)
    ensures Counted(questions) == |Filter(questions, (q: Question) => q.kind == Factual || q.kind == CrossDocument)|
    ensures HitCount(documents, chunks, questions, share)
         == |Filter(questions, (q: Question) => (q.kind == Factual || q.kind == CrossDocument)
                                                && Hits(chunks, q, Found(documents, chunks, q, share)))|
  {
    if questions != [] { CountsMean(documents, chunks, questions[1..], share); }
  }

  /** What a question's search finds: chunks of the documents it may read, and every such chunk unless
      fifty are as similar. */
  lemma FoundMeans(documents: seq<string>, chunks: seq<Location>, q: Question, share: real, i: nat)
    requires i < |chunks| == |q.scores|
    ensures var found := Found(documents, chunks, q, share);
      var visible := Visible(documents, set s | s in q.sources :: s.document, Keep(|documents|, share));
      && |found| <= 50
      && (Item(q.scores[i], i) in found ==> chunks[i].document in visible)
      && (chunks[i].document in visible && Item(q.scores[i], i) !in found ==>
            |found| == 50 && forall j :: 0 <= j < 50 ==> found[j].score >= q.scores[i])
  {
    assert q.Needed() == set s | s in q.sources :: s.document;
    SearchMeans(chunks, q.scores, Visible(documents, q.Needed(), Keep(|documents|, share)), CANDIDATES, i);
  }

  /** What a search can find, and what it must: a readable chunk is left out only behind `k` that are
      as similar. */
  lemma SearchMeans(chunks: seq<Location>, scores: seq<real>, visible: set<string>, k: nat, i: nat)
    requires i < |chunks| == |scores|
    ensures var found := Search(chunks, scores, visible, k);
      && (Item(scores[i], i) in found ==> chunks[i].document in visible)
      && (chunks[i].document in visible && Item(scores[i], i) !in found ==>
            |found| == k && forall j :: 0 <= j < k ==> found[j].score >= scores[i])
  {
    var items := Items(scores);
    var kept, x := Filter(items, Readable(chunks, visible)), Item(scores[i], i);
    assert items[i] == x;
    FilterKeeps(items, Readable(chunks, visible), x);
    TopMember(kept, k, x);
    if x in kept && x !in Top(kept, k) { LeftOut(kept, k, x); }
  }

  // ----- The rank of the first hit -----

  /** One of the first `k` results is expected: `hit_at[k]`. */
  predicate HitWithin(results: seq<Location>, q: Question, k: nat) {
    exists i :: 0 <= i < |results| && i < k && q.Expects(results[i])
  }

  /** `_rank_of_first_hit`, 0 for none: it decides the hit at every `k`. */
  method RankOfFirstHit(results: seq<Location>, q: Question) returns (rank: nat)
    ensures forall k: nat :: HitWithin(results, q, k) <==> 0 < rank <= k
    ensures 0 <= rank <= |results|
    ensures var expected := set s, p | s in q.sources && p in s.pages :: (s.document, p);
      && (rank > 0 ==> (results[rank - 1].document, results[rank - 1].page) in expected)
      && forall i :: 0 <= i < |results| && (i < rank - 1 || rank == 0) ==>
           (results[i].document, results[i].page) !in expected
  {
    forall l ensures q.Expects(l) <==> (l.document, l.page) in Places(q.sources) { ExpectsMeans(q, l); }
    assert Places(q.sources) == set s, p | s in q.sources && p in s.pages :: (s.document, p);
    for i := 0 to |results|
      invariant forall j :: 0 <= j < i ==> !q.Expects(results[j])
    {
      if q.Expects(results[i]) { return i + 1; }
    }
    rank := 0;
  }
}
