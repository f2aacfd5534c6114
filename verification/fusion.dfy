/**
  Reciprocal rank fusion: `fuse` of `backend/eval/pipeline.py`, over exact reals.  A ballot is one
  turn of its inner loop; the dictionary is a map together with its keys in insertion order, which
  is the order a stable sort leaves ties in.
 */
module Fusion {
  import opened Seqs
  import opened Ranking

  /** `1 / (k + rank)`; `place` is the rank counted from 0. */
  function Weight(k: nat, place: nat): real {
    1.0 / (k + place + 1) as real
  }

  datatype Ballot = Ballot(id: int, place: nat)

  function Cast(ranking: seq<int>, place: nat): seq<Ballot> {
    if ranking == [] then [] else [Ballot(ranking[0], place)] + Cast(ranking[1..], place + 1)
  }

  function Ballots(rankings: seq<seq<int>>): seq<Ballot> {
    if rankings == [] then [] else Cast(rankings[0], 0) + Ballots(rankings[1..])
  }

  /** The dictionary `scores`. */
  datatype Book = Book(keys: seq<int>, scores: map<int, real>) {
    function Score(id: int): real {
      if id in scores then scores[id] else 0.0
    }

    ghost predicate Valid() {
      NoDup(keys) && forall id :: id in scores <==> id in keys
    }
  }

  const EMPTY: Book := Book([], map[])

  function Count(k: nat, book: Book, ballot: Ballot): Book {
    Book(if ballot.id in book.scores then book.keys else book.keys + [ballot.id],
         book.scores[ballot.id := book.Score(ballot.id) + Weight(k, ballot.place)])
  }

  function Counter(k: nat): (Book, Ballot) -> Book {
    (book: Book, ballot: Ballot) => Count(k, book, ballot)
  }

  function Tally(k: nat, rankings: seq<seq<int>>): Book {
    RunEnd(Counter(k), Ballots(rankings), EMPTY)
  }

  function Scores(book: Book): seq<real> {
    seq(|book.keys|, i requires 0 <= i < |book.keys| => book.Score(book.keys[i]))
  }

  /** `sorted(scores, key=..., reverse=True)`: by score, ties in insertion order. */
  function Ordered(book: Book): (r: seq<int>)
    ensures |r| == |book.keys|
  {
    PlaceInvertsArgSort(Scores(book));
    var order := ArgSort(Scores(book));
    seq(|order|, i requires 0 <= i < |order| => book.keys[order[i]])
  }

  function Fused(k: nat, rankings: seq<seq<int>>): seq<int> {
    Ordered(Tally(k, rankings))
  }

  /** `scores[chunk_id] = scores.get(chunk_id, 0.0) + 1.0 / (k + rank)`. */
  method Add(before: seq<int>, held: map<int, real>, id: int, k: nat, place: nat)
    returns (keys: seq<int>, scores: map<int, real>)
    ensures Book(keys, scores) == Count(k, Book(before, held), Ballot(id, place))
  {
    keys := if id in held then before else before + [id];
    scores := held[id := (if id in held then held[id] else 0.0) + 1.0 / (k + place + 1) as real];
  }

  /** The inner loop of `fuse`: one ranking into the dictionary. */
  method Accumulate(ranking: seq<int>, k: nat, before: Book) returns (book: Book)
    ensures book == RunEnd(Counter(k), Cast(ranking, 0), before)
  {
    var keys, scores := before.keys, before.scores;
    assert ranking[0..] == ranking;
    for place := 0 to |ranking|
      invariant RunEnd(Counter(k), Cast(ranking[place..], place), Book(keys, scores))
             == RunEnd(Counter(k), Cast(ranking, 0), before)
    {
      var id := ranking[place];
      NextBallot(k, ranking, place, Book(keys, scores));
      keys, scores := Add(keys, scores, id, k, place);
    }
    book := Book(keys, scores);
  }

  /** `fuse`. */
  method Fuse(rankings: seq<seq<int>>, k: nat) returns (fused: seq<int>)
    ensures fused == Fused(k, rankings)
  {
    var book := EMPTY;
    assert rankings[0..] == rankings;
    for i := 0 to |rankings|
      invariant RunEnd(Counter(k), Ballots(rankings[i..]), book) == Tally(k, rankings)
    {
      assert rankings[i..][1..] == rankings[i + 1..];
      EndConcat(Counter(k), Cast(rankings[i], 0), Ballots(rankings[i + 1..]), book);
      book := Accumulate(rankings[i], k, book);
    }
    fused := Ordered(book);
  }

  lemma NextBallot(k: nat, ranking: seq<int>, place: nat, book: Book)
    requires place < |ranking|
    ensures RunEnd(Counter(k), Cast(ranking[place..], place), book)
         == RunEnd(Counter(k), Cast(ranking[place + 1..], place + 1), Count(k, book, Ballot(ranking[place], place)))
  {
    var ballot, rest := Ballot(ranking[place], place), Cast(ranking[place + 1..], place + 1);
    assert ranking[place..][1..] == ranking[place + 1..];
    EndCons(Counter(k), ballot, rest, book);
  }

  // ----- What the tally holds -----

  function Total(k: nat, ballots: seq<Ballot>, id: int): real {
    if ballots == [] then 0.0
    else (if ballots[0].id == id then Weight(k, ballots[0].place) else 0.0) + Total(k, ballots[1..], id)
  }

  predicate Named(ballots: seq<Ballot>, id: int) {
    exists i :: 0 <= i < |ballots| && ballots[i].id == id
  }

  lemma CountKeeps(k: nat, book: Book, ballot: Ballot, id: int)
    requires book.Valid()
    ensures Count(k, book, ballot).Valid()
    ensures Count(k, book, ballot).Score(id)
         == book.Score(id) + (if ballot.id == id then Weight(k, ballot.place) else 0.0)
    ensures id in Count(k, book, ballot).keys <==> id in book.keys || id == ballot.id
  {}

  lemma {:induction false} TallyHolds(k: nat, ballots: seq<Ballot>, book: Book, id: int)
    requires book.Valid()
    ensures var end := RunEnd(Counter(k), ballots, book);
            && end.Valid() && book.keys <= end.keys
            && end.Score(id) == book.Score(id) + Total(k, ballots, id)
            && (id in end.keys <==> id in book.keys || Named(ballots, id))
  {
    if ballots != [] {
      var ballot, rest := ballots[0], ballots[1..];
      CountKeeps(k, book, ballot, id);
      TallyHolds(k, rest, Count(k, book, ballot), id);
      if Named(rest, id) { var i :| 0 <= i < |rest| && rest[i].id == id; assert ballots[i + 1].id == id; }
      if Named(ballots, id) && ballot.id != id {
        var i :| 0 <= i < |ballots| && ballots[i].id == id;
        assert rest[i - 1].id == id;
      }
    }
  }

  /** What one ranking gives an id. */
  function Share(k: nat, ranking: seq<int>, place: nat, id: int): real {
    if ranking == [] then 0.0
    else (if ranking[0] == id then Weight(k, place) else 0.0) + Share(k, ranking[1..], place + 1, id)
  }

  /** A ranking without duplicates gives the id at rank `i`, counted from one, `1 / (k + i)`, and others
      nothing. */
  lemma {:induction false} ShareIs(k: nat, ranking: seq<int>, place: nat, id: int)
    requires NoDup(ranking)
    ensures id !in ranking ==> Share(k, ranking, place, id) == 0.0
    ensures forall i :: 0 <= i < |ranking| && ranking[i] == id ==>
              Share(k, ranking, place, id) == 1.0 / (k + place + i + 1) as real
  {
    if ranking != [] {
      ShareIs(k, ranking[1..], place + 1, id);
      assert ranking == [ranking[0]] + ranking[1..];
      if ranking[0] == id { assert id !in ranking[1..]; }
      forall i | 0 < i < |ranking| && ranking[i] == id
        ensures Share(k, ranking, place, id) == 1.0 / (k + place + i + 1) as real
      {
        assert ranking[1..][i - 1] == id && k + (place + 1) + (i - 1) + 1 == k + place + i + 1;
      }
    }
  }

  /** The score of an id: the sum of what the rankings give it. */
  function Sum(k: nat, rankings: seq<seq<int>>, id: int): real {
    if rankings == [] then 0.0 else Share(k, rankings[0], 0, id) + Sum(k, rankings[1..], id)
  }

  predicate Found(rankings: seq<seq<int>>, id: int) {
    exists i :: 0 <= i < |rankings| && id in rankings[i]
  }

  lemma {:induction false} TotalConcat(k: nat, a: seq<Ballot>, b: seq<Ballot>, id: int)
    ensures Total(k, a + b, id) == Total(k, a, id) + Total(k, b, id)
  {
    if a == [] {
      assert a + b == b;
    } else {
      TotalConcat(k, a[1..], b, id);
      assert (a + b)[1..] == a[1..] + b;
    }
  }

  lemma {:induction false} CastTotal(k: nat, ranking: seq<int>, place: nat, id: int)
    ensures Total(k, Cast(ranking, place), id) == Share(k, ranking, place, id)
    ensures Named(Cast(ranking, place), id) <==> id in ranking
  {
    if ranking != [] {
      CastTotal(k, ranking[1..], place + 1, id);
      var first, rest := Ballot(ranking[0], place), Cast(ranking[1..], place + 1);
      assert ([first] + rest)[1..] == rest;
      NamedConcat([first], rest, id);
      assert [first][0].id == ranking[0];
      assert Named([first], id) <==> id == ranking[0];
      assert ranking == [ranking[0]] + ranking[1..];
    }
  }

  lemma NamedConcat(a: seq<Ballot>, b: seq<Ballot>, id: int)
    ensures Named(a + b, id) <==> Named(a, id) || Named(b, id)
  {
    if Named(a, id) { var i :| 0 <= i < |a| && a[i].id == id; assert (a + b)[i].id == id; }
    if Named(b, id) { var i :| 0 <= i < |b| && b[i].id == id; assert (a + b)[|a| + i].id == id; }
  }

  lemma FoundCons(first: seq<int>, rest: seq<seq<int>>, id: int)
    ensures Found([first] + rest, id) <==> id in first || Found(rest, id)
  {
    if id in first { assert ([first] + rest)[0] == first; }
    if Found(rest, id) { var i :| 0 <= i < |rest| && id in rest[i]; assert ([first] + rest)[i + 1] == rest[i]; }
  }

  lemma {:induction false} BallotsTotal(k: nat, rankings: seq<seq<int>>, id: int)
    ensures Total(k, Ballots(rankings), id) == Sum(k, rankings, id)
    ensures Named(Ballots(rankings), id) <==> Found(rankings, id)
  {
    if rankings != [] {
      BallotsTotal(k, rankings[1..], id);
      TotalConcat(k, Cast(rankings[0], 0), Ballots(rankings[1..]), id);
      NamedConcat(Cast(rankings[0], 0), Ballots(rankings[1..]), id);
      CastTotal(k, rankings[0], 0, id);
      assert rankings == [rankings[0]] + rankings[1..];
      FoundCons(rankings[0], rankings[1..], id);
    }
  }

  lemma TallyIs(k: nat, rankings: seq<seq<int>>, id: int)
    ensures Tally(k, rankings).Valid() && Tally(k, rankings).Score(id) == Sum(k, rankings, id)
    ensures id in Tally(k, rankings).keys <==> Found(rankings, id)
  {
    TallyHolds(k, Ballots(rankings), EMPTY, id);
    BallotsTotal(k, rankings, id);
  }

  // ----- The order of the result -----

  ghost predicate Precedes(s: seq<int>, a: int, b: int) {
    exists i, j :: 0 <= i < j < |s| && s[i] == a && s[j] == b
  }

  /** The index of a key in the sorted result is its place. */
  lemma OrderedAt(book: Book, g: nat)
    requires g < |book.keys|
    ensures 1 <= Place(Scores(book), g) <= |book.keys| && Ordered(book)[Place(Scores(book), g) - 1] == book.keys[g]
  {
    PlaceAt(Scores(book), g);
  }

  lemma OrderedNoDup(book: Book)
    requires book.Valid()
    ensures NoDup(Ordered(book)) && forall id :: id in Ordered(book) <==> id in book.keys
  {
    PlaceInvertsArgSort(Scores(book));
    var order := ArgSort(Scores(book));
    forall i, j | 0 <= i < j < |order| ensures Ordered(book)[i] != Ordered(book)[j] {
      assert Place(Scores(book), order[i]) == i + 1 && Place(Scores(book), order[j]) == j + 1;
    }
    forall id | id in book.keys ensures id in Ordered(book) {
      var g :| 0 <= g < |book.keys| && book.keys[g] == id;
      OrderedAt(book, g);
    }
  }

  /** The result is the union of the rankings, each id once. */
  lemma FusedIsUnion(k: nat, rankings: seq<seq<int>>)
    ensures NoDup(Fused(k, rankings))
    ensures forall id :: id in Fused(k, rankings) <==> Found(rankings, id)
  {
    var book := Tally(k, rankings);
    TallyIs(k, rankings, 0);
    OrderedNoDup(book);
    forall id ensures id in book.keys <==> Found(rankings, id) { TallyIs(k, rankings, id); }
  }

  lemma OrderedPrecedes(book: Book, g: nat, h: nat)
    requires g < |book.keys| && h < |book.keys|
    requires var s := Scores(book); s[g] > s[h] || (s[g] == s[h] && g < h)
    ensures Precedes(Ordered(book), book.keys[g], book.keys[h])
  {
    PlaceOrder(Scores(book), g, h);
    OrderedAt(book, g);
    OrderedAt(book, h);
  }

  /** The higher score comes first. */
  lemma HigherFirst(k: nat, rankings: seq<seq<int>>, a: int, b: int)
    requires Found(rankings, a) && Found(rankings, b) && Sum(k, rankings, a) > Sum(k, rankings, b)
    ensures Precedes(Fused(k, rankings), a, b)
  {
    var book := Tally(k, rankings);
    TallyIs(k, rankings, a);
    TallyIs(k, rankings, b);
    var g :| 0 <= g < |book.keys| && book.keys[g] == a;
    var h :| 0 <= h < |book.keys| && book.keys[h] == b;
    OrderedPrecedes(book, g, h);
  }

  lemma {:induction false} BallotIds(rankings: seq<seq<int>>)
    ensures |Ballots(rankings)| == |Flatten(rankings)|
    ensures forall i :: 0 <= i < |Ballots(rankings)| ==> Ballots(rankings)[i].id == Flatten(rankings)[i]
  {
    if rankings != [] {
      BallotIds(rankings[1..]);
      CastIds(rankings[0], 0);
    }
  }

  lemma {:induction false} CastIds(ranking: seq<int>, place: nat)
    ensures |Cast(ranking, place)| == |ranking|
    ensures forall i :: 0 <= i < |ranking| ==> Cast(ranking, place)[i].id == ranking[i]
  {
    if ranking != [] { CastIds(ranking[1..], place + 1); }
  }

  /** The keys of a prefix of the ballots stay in front. */
  lemma SeenBefore(k: nat, early: seq<Ballot>, late: seq<Ballot>, a: int, b: int) returns (g: nat, h: nat)
    requires Named(early, a) && !Named(early, b) && Named(late, b)
    ensures var keys := RunEnd(Counter(k), early + late, EMPTY).keys;
            g < h < |keys| && keys[g] == a && keys[h] == b
  {
    var mid := RunEnd(Counter(k), early, EMPTY);
    var end := RunEnd(Counter(k), late, mid);
    EndConcat(Counter(k), early, late, EMPTY);
    TallyHolds(k, early, EMPTY, a);
    TallyHolds(k, early, EMPTY, b);
    TallyHolds(k, late, mid, b);
    g :| 0 <= g < |mid.keys| && mid.keys[g] == a;
    h :| 0 <= h < |end.keys| && end.keys[h] == b;
    assert forall i :: 0 <= i < |mid.keys| ==> end.keys[i] == mid.keys[i];
  }

  /** Of two ids with the same score, the one that turns up first in the rankings, read one after
      another, comes first. */
  lemma TiesInOrderSeen(k: nat, rankings: seq<seq<int>>, n: nat, a: int, b: int)
    requires n <= |Flatten(rankings)| && a in Flatten(rankings)[..n]
    requires b in Flatten(rankings)[n..] && b !in Flatten(rankings)[..n]
    requires Sum(k, rankings, a) == Sum(k, rankings, b)
    ensures Precedes(Fused(k, rankings), a, b)
  {
    var all, ids := Ballots(rankings), Flatten(rankings);
    BallotIds(rankings);
    var early, late := all[..n], all[n..];
    var i :| 0 <= i < n && ids[..n][i] == a;
    assert early[i].id == a;
    var j :| 0 <= j < |ids| - n && ids[n..][j] == b;
    assert late[j].id == b;
    forall m | 0 <= m < n ensures early[m].id != b { assert ids[..n][m] == early[m].id; }
    assert all == early + late;
    var g, h := SeenBefore(k, early, late, a, b);
    TallyIs(k, rankings, a);
    TallyIs(k, rankings, b);
    OrderedPrecedes(Tally(k, rankings), g, h);
  }

  // ----- Weights -----

  lemma WeightFalls(k: nat, i: nat, j: nat)
    requires i < j
    ensures Weight(k, i) > Weight(k, j) > 0.0
  {
    var a, b := (k + i + 1) as real, (k + j + 1) as real;
    assert 1.0 / a - 1.0 / b == (b - a) / (a * b);
  }

  /** Two of the worst weights of rankings of `n` ids outweigh one of the best when `n <= k + 1`. */
  lemma TwoBeatOne(k: nat, n: nat)
    requires 1 <= n <= k + 1
    ensures Weight(k, n - 1) + Weight(k, n - 1) > Weight(k, 0)
  {
    var a, b := (k + n) as real, (k + 1) as real;
    assert 2.0 * b > a;
    assert 1.0 / a + 1.0 / a - 1.0 / b == (2.0 * b - a) / (a * b);
  }

  // ----- Fusion dominance -----

  lemma {:induction false} ShareAbsent(k: nat, ranking: seq<int>, place: nat, id: int)
    requires id !in ranking
    ensures Share(k, ranking, place, id) == 0.0
  {
    if ranking != [] { ShareAbsent(k, ranking[1..], place + 1, id); }
  }

  lemma {:induction false} ShareAt(k: nat, ranking: seq<int>, place: nat, i: nat)
    requires NoDup(ranking) && i < |ranking|
    ensures Share(k, ranking, place, ranking[i]) == Weight(k, place + i)
  {
    if i == 0 {
      ShareAbsent(k, ranking[1..], place + 1, ranking[0]);
    } else {
      ShareAt(k, ranking[1..], place + 1, i - 1);
    }
  }

  /** `a` is ahead of `b` in every ranking that has `b`. */
  ghost predicate Beats(rankings: seq<seq<int>>, a: int, b: int) {
    forall i :: 0 <= i < |rankings| && b in rankings[i] ==> Precedes(rankings[i], a, b)
  }

  ghost predicate AllNoDup(rankings: seq<seq<int>>) {
    forall i :: 0 <= i < |rankings| ==> NoDup(rankings[i])
  }

  lemma ShareBeats(k: nat, ranking: seq<int>, a: int, b: int)
    requires NoDup(ranking) && (b in ranking ==> Precedes(ranking, a, b))
    ensures Share(k, ranking, 0, a) >= Share(k, ranking, 0, b) >= 0.0
    ensures b in ranking ==> Share(k, ranking, 0, a) > Share(k, ranking, 0, b)
  {
    if b in ranking {
      var i, j :| 0 <= i < j < |ranking| && ranking[i] == a && ranking[j] == b;
      ShareAt(k, ranking, 0, i);
      ShareAt(k, ranking, 0, j);
      WeightFalls(k, i, j);
    } else {
      ShareAbsent(k, ranking, 0, b);
      if a in ranking {
        var i :| 0 <= i < |ranking| && ranking[i] == a;
        ShareAt(k, ranking, 0, i);
        WeightFalls(k, i, i + 1);
      } else {
        ShareAbsent(k, ranking, 0, a);
      }
    }
  }

  lemma {:induction false} SumBeats(k: nat, rankings: seq<seq<int>>, a: int, b: int)
    requires AllNoDup(rankings) && Beats(rankings, a, b)
    ensures Sum(k, rankings, a) >= Sum(k, rankings, b)
    ensures Found(rankings, b) ==> Sum(k, rankings, a) > Sum(k, rankings, b)
  {
    if rankings != [] {
      ShareBeats(k, rankings[0], a, b);
      SumBeats(k, rankings[1..], a, b);
      assert rankings == [rankings[0]] + rankings[1..];
      FoundCons(rankings[0], rankings[1..], b);
    }
  }

  /** An id that is ahead of another in every ranking containing the other precedes it, for any
      number of duplicate-free rankings and any `k`. */
  lemma Dominance(k: nat, rankings: seq<seq<int>>, a: int, b: int)
    requires AllNoDup(rankings) && Beats(rankings, a, b) && Found(rankings, b)
    ensures Precedes(Fused(k, rankings), a, b)
  {
    SumBeats(k, rankings, a, b);
    var i :| 0 <= i < |rankings| && b in rankings[i];
    assert Precedes(rankings[i], a, b);
    assert a in rankings[i];
    HigherFirst(k, rankings, a, b);
  }

  // ----- Both halves against one -----

  lemma SumOfTwo(k: nat, r1: seq<int>, r2: seq<int>, id: int)
    ensures Sum(k, [r1, r2], id) == Share(k, r1, 0, id) + Share(k, r2, 0, id)
    ensures Found([r1, r2], id) <==> id in r1 || id in r2
  {
    assert [r1, r2] == [r1] + [r2] && [r2] == [r2] + [];
    assert [r1, r2][1..] == [r2] && [r2][1..] == [];
    assert Sum(k, [r2], id) == Share(k, r2, 0, id);
    FoundCons(r1, [r2], id);
    FoundCons(r2, [], id);
  }

  lemma ShareBounds(k: nat, ranking: seq<int>, id: int)
    requires NoDup(ranking) && id in ranking
    ensures Weight(k, |ranking| - 1) <= Share(k, ranking, 0, id) <= Weight(k, 0)
  {
    var i :| 0 <= i < |ranking| && ranking[i] == id;
    ShareAt(k, ranking, 0, i);
    if i > 0 { WeightFalls(k, 0, i); }
    if i < |ranking| - 1 { WeightFalls(k, i, |ranking| - 1); }
  }

  lemma WeightOfShorter(k: nat, ranking: seq<int>, n: nat)
    requires 1 <= |ranking| <= n
    ensures Weight(k, |ranking| - 1) >= Weight(k, n - 1)
  {
    if |ranking| < n { WeightFalls(k, |ranking| - 1, n - 1); }
  }

  /** Two duplicate-free rankings of at most `n` ids: an id found by both precedes an id found by one. */
  lemma BothBeatsOne(k: nat, n: nat, r1: seq<int>, r2: seq<int>, x: int, y: int)
    requires n <= k + 1 && NoDup(r1) && NoDup(r2) && |r1| <= n && |r2| <= n
    requires x in r1 && x in r2 && (y in r1 <==> y !in r2)
    ensures Precedes(Fused(k, [r1, r2]), x, y)
  {
    SumOfTwo(k, r1, r2, x);
    SumOfTwo(k, r1, r2, y);
    ShareBounds(k, r1, x);
    ShareBounds(k, r2, x);
    WeightOfShorter(k, r1, n);
    WeightOfShorter(k, r2, n);
    TwoBeatOne(k, n);
    if y in r1 {
      ShareBounds(k, r1, y);
      ShareAbsent(k, r2, 0, y);
    } else {
      ShareBounds(k, r2, y);
      ShareAbsent(k, r1, 0, y);
    }
    HigherFirst(k, [r1, r2], x, y);
  }

  /** For rankings of at most `n` ids, whatever they are, both halves outrank one. */
  ghost predicate BothFirst(k: nat, n: nat) {
    forall r1: seq<int>, r2: seq<int>, x: int, y: int ::
      NoDup(r1) && NoDup(r2) && |r1| <= n && |r2| <= n && x in r1 && x in r2 && (y in r1 <==> y !in r2)
      ==> Precedes(Fused(k, [r1, r2]), x, y)
  }

  /** Ids 1, 2, ..., `k + 1` (or their negatives), then 0. */
  function Line(k: nat, sign: int): seq<int> {
    seq(k + 2, i => if i == k + 1 then 0 else if sign > 0 then i + 1 else -(i + 1))
  }

  lemma FirstKey(k: nat, r1: seq<int>, r2: seq<int>)
    requires r1 != []
    ensures Tally(k, [r1, r2]).keys != [] && Tally(k, [r1, r2]).keys[0] == r1[0]
  {
    var first, rest := Ballot(r1[0], 0), Cast(r1[1..], 1) + Ballots([r2]);
    assert [r1, r2][1..] == [r2];
    assert Ballots([r1, r2]) == [first] + rest;
    EndCons(Counter(k), first, rest, EMPTY);
    var book := Count(k, EMPTY, first);
    assert book.keys == [r1[0]];
    TallyHolds(k, rest, book, 0);
  }

  lemma TwoWorstIsOneBest(k: nat)
    ensures Weight(k, k + 1) + Weight(k, k + 1) == Weight(k, 0)
  {
    var b := (k + 1) as real;
    assert (k + (k + 1) + 1) as real == 2.0 * b;
    assert 1.0 / (2.0 * b) + 1.0 / (2.0 * b) == 1.0 / b;
  }

  /** One id more and the worst of both ties with the best of one, which was seen first. */
  lemma TieGoesToOne(k: nat)
    ensures Precedes(Fused(k, [Line(k, 1), Line(k, -1)]), 1, 0)
  {
    var r1, r2 := Line(k, 1), Line(k, -1);
    var book := Tally(k, [r1, r2]);
    assert r1[0] == 1 && r1[k + 1] == 0 && r2[k + 1] == 0;
    SumOfTwo(k, r1, r2, 0);
    SumOfTwo(k, r1, r2, 1);
    ShareAt(k, r1, 0, k + 1);
    ShareAt(k, r2, 0, k + 1);
    ShareAt(k, r1, 0, 0);
    ShareAbsent(k, r2, 0, 1);
    TwoWorstIsOneBest(k);
    TallyIs(k, [r1, r2], 0);
    TallyIs(k, [r1, r2], 1);
    FirstKey(k, r1, r2);
    var h :| 0 <= h < |book.keys| && book.keys[h] == 0;
    OrderedPrecedes(book, 0, h);
  }

  lemma OneWay(s: seq<int>, a: int, b: int)
    requires NoDup(s) && Precedes(s, a, b)
    ensures !Precedes(s, b, a)
  {}

  /** Both halves always outrank one exactly when the rankings are at most `k + 1` long: with the
      code's `k = 60` and 50 candidates it holds, and it would up to 61. */
  lemma BothFirstIff(k: nat, n: nat)
    ensures BothFirst(k, n) <==> n <= k + 1
  {
    if n <= k + 1 {
      forall r1: seq<int>, r2: seq<int>, x: int, y: int
        | NoDup(r1) && NoDup(r2) && |r1| <= n && |r2| <= n && x in r1 && x in r2 && (y in r1 <==> y !in r2)
        ensures Precedes(Fused(k, [r1, r2]), x, y)
      {
        BothBeatsOne(k, n, r1, r2, x, y);
      }
    } else {
      var r1, r2 := Line(k, 1), Line(k, -1);
      TieGoesToOne(k);
      FusedIsUnion(k, [r1, r2]);
      OneWay(Fused(k, [r1, r2]), 1, 0);
      assert r1[0] == 1 && r1[k + 1] == 0 && r2[k + 1] == 0;
      assert 1 !in r2;
    }
  }

  // ----- One ranking -----

  lemma {:induction false} KeysOfCast(k: nat, ranking: seq<int>, place: nat, book: Book)
    requires NoDup(ranking) && forall i :: 0 <= i < |ranking| ==> ranking[i] !in book.scores
    ensures RunEnd(Counter(k), Cast(ranking, place), book).keys == book.keys + ranking
  {
    if ranking == [] {
      assert book.keys + ranking == book.keys;
    } else {
      KeysOfCast(k, ranking[1..], place + 1, Count(k, book, Ballot(ranking[0], place)));
      EndCons(Counter(k), Ballot(ranking[0], place), Cast(ranking[1..], place + 1), book);
      assert book.keys + [ranking[0]] + ranking[1..] == book.keys + ranking;
    }
  }

  lemma TallyOfOne(k: nat, ranking: seq<int>)
    requires NoDup(ranking)
    ensures Tally(k, [ranking]).keys == ranking
    ensures forall i :: 0 <= i < |ranking| ==> Tally(k, [ranking]).Score(ranking[i]) == Weight(k, i)
  {
    assert [ranking][1..] == [];
    assert Ballots([ranking]) == Cast(ranking, 0) by { assert Cast(ranking, 0) + [] == Cast(ranking, 0); }
    KeysOfCast(k, ranking, 0, EMPTY);
    forall i | 0 <= i < |ranking| ensures Tally(k, [ranking]).Score(ranking[i]) == Weight(k, i) {
      TallyIs(k, [ranking], ranking[i]);
      ShareAt(k, ranking, 0, i);
      assert Sum(k, [ranking], ranking[i]) == Share(k, ranking, 0, ranking[i]) + Sum(k, [], ranking[i]);
    }
  }

  /** Keys whose scores already fall are left in place. */
  lemma OrderedInPlace(book: Book)
    requires forall i, j :: 0 <= i < j < |book.keys| ==> book.Score(book.keys[i]) >= book.Score(book.keys[j])
    ensures Ordered(book) == book.keys
  {
    ArgSortOfSorted(Scores(book));
  }

  /** A duplicate-free ranking fused alone comes back as it was. */
  lemma OneFusesToItself(k: nat, ranking: seq<int>)
    requires NoDup(ranking)
    ensures Fused(k, [ranking]) == ranking
  {
    TallyOfOne(k, ranking);
    var book := Tally(k, [ranking]);
    forall i, j | 0 <= i < j < |ranking| ensures book.Score(ranking[i]) >= book.Score(ranking[j]) {
      WeightFalls(k, i, j);
    }
    OrderedInPlace(book);
  }
}
