/**
  What the dense query of `backend/eval/dense_plan_time.py` answers, in the rows' own terms: which pairs a
  session can be shown, which of them a statement returns, with what score and in what order.
 */
module DenseRows {
  import opened Options
  import opened Seqs
  import opened Ranking
  import opened Sql
  import opened DensePlan

  // ----- What the policies admit -----

  /** A label both have. */
  ghost predicate Share(labels: set<Id>, held: set<Id>) {
    exists l :: l in labels && l in held
  }

  /** A session the policies bind is shown a joined pair of its own tenant when the chunk has no label or
      one the session holds; it need not hold them all.  A session they do not bind is shown every pair. */
  lemma VisibleMeans(s: Session, emb: seq<Emb>, chk: seq<Chk>, p: Pair)
    ensures p in Visible(s, emb, chk)
       <==> && p.0 in emb && p.1 in chk && p.1.id == p.0.chunkId && p.1.tenant == p.0.tenant
            && (s.bypassesRls || (s.tenant == Some(p.0.tenant) && (p.1.labels == {} || Share(p.1.labels, s.labels))))
  {
    VisibleHas(s, emb, chk, p);
    if Share(p.1.labels, s.labels) {
      var l :| l in p.1.labels && l in s.labels;
      assert l in p.1.labels * s.labels;
    } else {
      assert p.1.labels * s.labels == {};
    }
  }

  /** A scope names documents; NULL names none, and neither does a NULL in it. */
  lemma DocumentInMeans(docs: Scope, p: Pair)
    ensures DocumentIn(docs)(p) == True <==> docs.Some? && Some(p.1.document) in docs.value
  {}

  // ----- What a statement returns -----

  /** A pair the statement may return: visible, wanted, and of the query's model and version. */
  ghost predicate Row(s: Session, emb: seq<Emb>, chk: seq<Chk>, q: Query, cond: Condition, p: Pair) {
    p in Visible(s, emb, chk) && cond(p) == True && p.0.mdl == q.mdl && p.0.version == q.version
  }

  ghost predicate IsOf(it: Item, q: Query, p: Pair) {
    it.id == p.1.id && it.score == 1.0 - q.distance(p.0.vector)
  }

  ghost predicate Listed(found: seq<Item>, q: Query, p: Pair) {
    exists i :: 0 <= i < |found| && IsOf(found[i], q, p)
  }

  lemma KeptIsRow(s: Session, emb: seq<Emb>, chk: seq<Chk>, q: Query, cond: Condition, p: Pair)
    ensures p in Filter(Visible(s, emb, chk), Wanted(q, cond)) <==> Row(s, emb, chk, q, cond, p)
  {
    FilterKeeps(Visible(s, emb, chk), Wanted(q, cond), p);
  }

  /** Every item returned is a row, with its chunk and one less its distance. */
  lemma ReturnedIsRow(s: Session, emb: seq<Emb>, chk: seq<Chk>, q: Query, cond: Condition, it: Item) returns (p: Pair)
    requires it in Select(s, emb, chk, q, cond)
    ensures Row(s, emb, chk, q, cond, p) && IsOf(it, q, p)
  {
    var kept := Filter(Visible(s, emb, chk), Wanted(q, cond));
    TopMember(Scores(q, kept), q.want, it);
    var i :| 0 <= i < |kept| && Scores(q, kept)[i] == it;
    p := kept[i];
    KeptIsRow(s, emb, chk, q, cond, p);
  }

  /** A row left out of the answer is at least as far as every row in it, and the answer is full. */
  lemma OmittedIsFarther(s: Session, emb: seq<Emb>, chk: seq<Chk>, q: Query, cond: Condition, p: Pair)
    requires Row(s, emb, chk, q, cond, p) && !Listed(Select(s, emb, chk, q, cond), q, p)
    ensures var found := Select(s, emb, chk, q, cond);
      |found| == q.want && forall i :: 0 <= i < |found| ==> 1.0 - found[i].score <= q.distance(p.0.vector)
  {
    var kept := Filter(Visible(s, emb, chk), Wanted(q, cond));
    KeptIsRow(s, emb, chk, q, cond, p);
    var i :| 0 <= i < |kept| && kept[i] == p;
    var x := Scores(q, kept)[i];
    LeftOut(Scores(q, kept), q.want, x);
  }

  /** An answer is the nearest of its rows: at most as many as wanted, each a row with its own score, in
      order of distance, and whatever row is not in it is no nearer than what is. */
  ghost predicate IsNearest(s: Session, emb: seq<Emb>, chk: seq<Chk>, q: Query, cond: Condition, found: seq<Item>) {
    && |found| <= q.want && BestFirst(found)
    && (forall it :: it in found ==> exists p :: Row(s, emb, chk, q, cond, p) && IsOf(it, q, p))
    && (forall p :: Row(s, emb, chk, q, cond, p) && !Listed(found, q, p) ==>
          |found| == q.want && forall i :: 0 <= i < |found| ==> 1.0 - found[i].score <= q.distance(p.0.vector))
  }

  lemma SelectIsNearest(s: Session, emb: seq<Emb>, chk: seq<Chk>, q: Query, cond: Condition)
    ensures IsNearest(s, emb, chk, q, cond, Select(s, emb, chk, q, cond))
  {
    var found := Select(s, emb, chk, q, cond);
    TopIsOrdered(Scores(q, Filter(Visible(s, emb, chk), Wanted(q, cond))), q.want);
    forall it | it in found ensures exists p :: Row(s, emb, chk, q, cond, p) && IsOf(it, q, p) {
      var p := ReturnedIsRow(s, emb, chk, q, cond, it);
    }
    forall p | Row(s, emb, chk, q, cond, p) && !Listed(found, q, p)
      ensures |found| == q.want && forall i :: 0 <= i < |found| ==> 1.0 - found[i].score <= q.distance(p.0.vector)
    {
      OmittedIsFarther(s, emb, chk, q, cond, p);
    }
  }

  /** The shipped query, from the rows: what it returns are passages of the session's own tenant it holds
      a label of, in the query's model and version, scored by their distance and nearest first; and no
      such passage it leaves out is nearer than one it returns. */
  lemma ShippedIsNearest(s: Session, emb: seq<Emb>, chk: seq<Chk>, q: Query)
    requires !s.bypassesRls
    ensures var found := FShipped(s, emb, chk, q);
      && |found| <= q.want
      && (forall i, j :: 0 <= i < j < |found| ==> 1.0 - found[i].score <= 1.0 - found[j].score)
      && (forall it :: it in found ==> exists p :: Own(s, emb, chk, q, p) && IsOf(it, q, p))
      && (forall p :: Own(s, emb, chk, q, p) && !Listed(found, q, p) ==>
            |found| == q.want && forall i :: 0 <= i < |found| ==> 1.0 - found[i].score <= q.distance(p.0.vector))
  {
    SelectIsNearest(s, emb, chk, q, Always());
    forall p ensures Own(s, emb, chk, q, p) <==> Row(s, emb, chk, q, Always(), p) { VisibleMeans(s, emb, chk, p); }
  }

  ghost predicate Own(s: Session, emb: seq<Emb>, chk: seq<Chk>, q: Query, p: Pair) {
    && p.0 in emb && p.1 in chk && p.1.id == p.0.chunkId
    && s.tenant == Some(p.0.tenant) == Some(p.1.tenant)
    && (p.1.labels == {} || exists l :: l in p.1.labels && l in s.labels)
    && p.0.mdl == q.mdl && p.0.version == q.version
  }

  /** The scoped query likewise, among the passages of the documents named. */
  lemma ScopedIsNearest(s: Session, emb: seq<Emb>, chk: seq<Chk>, q: Query, docs: seq<Option<Id>>)
    requires !s.bypassesRls
    ensures var found := FShippedScoped(s, emb, chk, q, Some(docs));
      && |found| <= q.want
      && (forall i, j :: 0 <= i < j < |found| ==> 1.0 - found[i].score <= 1.0 - found[j].score)
      && (forall it :: it in found ==> exists p :: Named(s, emb, chk, q, docs, p) && IsOf(it, q, p))
      && (forall p :: Named(s, emb, chk, q, docs, p) && !Listed(found, q, p) ==>
            |found| == q.want && forall i :: 0 <= i < |found| ==> 1.0 - found[i].score <= q.distance(p.0.vector))
  {
    SelectIsNearest(s, emb, chk, q, DocumentIn(Some(docs)));
    forall p ensures Named(s, emb, chk, q, docs, p) <==> Row(s, emb, chk, q, DocumentIn(Some(docs)), p) {
      VisibleMeans(s, emb, chk, p);
      DocumentInMeans(Some(docs), p);
    }
  }

  ghost predicate Named(s: Session, emb: seq<Emb>, chk: seq<Chk>, q: Query, docs: seq<Option<Id>>, p: Pair) {
    Own(s, emb, chk, q, p) && Some(p.1.document) in docs
  }

  // ----- No row twice -----

  /** The primary keys: one embedding of a chunk by each model and version, one chunk of an id, in a
      tenant. */
  ghost predicate Keyed(emb: seq<Emb>, chk: seq<Chk>) {
    && (forall i, j :: 0 <= i < j < |emb| ==>
          !(emb[i].chunkId == emb[j].chunkId && emb[i].mdl == emb[j].mdl && emb[i].version == emb[j].version
            && emb[i].tenant == emb[j].tenant))
    && (forall i, j :: 0 <= i < j < |chk| ==> !(chk[i].id == chk[j].id && chk[i].tenant == chk[j].tenant))
  }

  predicate SameKey(a: Pair, b: Pair) {
    a.1.id == b.1.id && a.0.mdl == b.0.mdl && a.0.version == b.0.version && a.0.tenant == b.0.tenant
  }

  ghost predicate PairsApart(ps: seq<Pair>) {
    forall i, j :: 0 <= i < j < |ps| ==> !SameKey(ps[i], ps[j])
  }

  lemma {:induction false} JoinOneApart(e: Emb, chk: seq<Chk>)
    requires forall i, j :: 0 <= i < j < |chk| ==> !(chk[i].id == chk[j].id && chk[i].tenant == chk[j].tenant)
    ensures |JoinOne(e, chk)| <= 1
  {
    if chk != [] {
      JoinOneApart(e, chk[1..]);
      if JoinOne(e, chk[1..]) != [] {
        var p := JoinOne(e, chk[1..])[0];
        JoinOneHas(e, chk[1..], p);
        var i :| 0 <= i < |chk[1..]| && chk[1..][i] == p.1;
        assert chk[i + 1] == p.1;
      }
    }
  }

  lemma {:induction false} JoinApart(emb: seq<Emb>, chk: seq<Chk>)
    requires Keyed(emb, chk)
    ensures PairsApart(Join(emb, chk))
  {
    if emb != [] {
      JoinOneApart(emb[0], chk);
      JoinApart(emb[1..], chk);
      var first, rest := JoinOne(emb[0], chk), Join(emb[1..], chk);
      forall i, j | 0 <= i < |first| && 0 <= j < |rest| ensures !SameKey(first[i], rest[j]) {
        JoinOneHas(emb[0], chk, first[i]);
        JoinHas(emb[1..], chk, rest[j]);
        var k :| 0 <= k < |emb[1..]| && emb[1..][k] == rest[j].0;
        assert emb[k + 1] == rest[j].0;
      }
    }
  }

  lemma {:induction false} FilterApart(ps: seq<Pair>, p: Pair -> bool)
    requires PairsApart(ps)
    ensures PairsApart(Filter(ps, p))
  {
    if ps != [] {
      var rest := Filter(ps[1..], p);
      FilterApart(ps[1..], p);
      forall j | 0 <= j < |rest| ensures !SameKey(ps[0], rest[j]) {
        assert rest[j] in rest;
        FilterKeeps(ps[1..], p, rest[j]);
        var i :| 0 <= i < |ps[1..]| && ps[1..][i] == rest[j];
        assert ps[i + 1] == rest[j];
      }
    }
  }

  lemma TopApart(s: seq<Item>, k: nat)
    requires forall i, j :: 0 <= i < j < |s| ==> s[i].id != s[j].id
    ensures forall i, j :: 0 <= i < j < |Top(s, k)| ==> Top(s, k)[i].id != Top(s, k)[j].id
  {
    var t := Sort(s);
    SortSorts(s);
    NoDupBag(s, t);
    forall i, j | 0 <= i < j < |t| ensures t[i].id != t[j].id {
      assert t[i] in multiset(t) && t[j] in multiset(t);
      assert t[i] in s && t[j] in s;
    }
  }

  /** No chunk is returned twice: of the embeddings of one, the query's model and version pick one. */
  lemma EachChunkOnce(s: Session, emb: seq<Emb>, chk: seq<Chk>, q: Query, cond: Condition)
    requires Keyed(emb, chk) && !s.bypassesRls
    ensures var found := Select(s, emb, chk, q, cond);
      forall i, j :: 0 <= i < j < |found| ==> found[i].id != found[j].id
  {
    var kept := Filter(Visible(s, emb, chk), Wanted(q, cond));
    PushDown(emb, chk, EmbFilter(s), ChkFilter(s));
    JoinApart(emb, chk);
    FilterApart(Join(emb, chk), PairFilter(EmbFilter(s), ChkFilter(s)));
    FilterApart(Visible(s, emb, chk), Wanted(q, cond));
    forall i, j | 0 <= i < j < |kept| ensures kept[i].1.id != kept[j].1.id {
      assert kept[i] in kept && kept[j] in kept;
      KeptIsRow(s, emb, chk, q, cond, kept[i]);
      KeptIsRow(s, emb, chk, q, cond, kept[j]);
      VisibleMeans(s, emb, chk, kept[i]);
      VisibleMeans(s, emb, chk, kept[j]);
    }
    TopApart(Scores(q, kept), q.want);
  }
}
