/**
  What no statement of `backend/eval/dense_plan_time.py` depends on: the order its rows are stored in,
  and so the partitions they are stored in.  This holds whatever binds the session, the owner's
  sessions that bypass the policies included.
 */
module RowOrder {
  import opened Options
  import opened Seqs
  import opened Ranking
  import opened Sql
  import opened DensePlan

  // ----- Bags -----

  lemma FilterSameBag<T(!new)>(a: seq<T>, b: seq<T>, p: T -> bool)
    requires multiset(a) == multiset(b)
    ensures multiset(Filter(a, p)) == multiset(Filter(b, p))
  {
    forall x ensures multiset(Filter(a, p))[x] == multiset(Filter(b, p))[x] {
      FilterBag(a, p, x);
      FilterBag(b, p, x);
    }
  }

  predicate Joined(p: Pair) { p.1.id == p.0.chunkId && p.1.tenant == p.0.tenant }

  lemma {:induction false} JoinOneBag(e: Emb, chk: seq<Chk>, p: Pair)
    ensures multiset(JoinOne(e, chk))[p] == if p.0 == e && Joined(p) then multiset(chk)[p.1] else 0
  {
    if chk != [] {
      JoinOneBag(e, chk[1..], p);
      assert chk == [chk[0]] + chk[1..];
    }
  }

  lemma JoinOneSameBag(e: Emb, chk: seq<Chk>, chk2: seq<Chk>)
    requires multiset(chk) == multiset(chk2)
    ensures multiset(JoinOne(e, chk)) == multiset(JoinOne(e, chk2))
  {
    forall p ensures multiset(JoinOne(e, chk))[p] == multiset(JoinOne(e, chk2))[p] {
      JoinOneBag(e, chk, p);
      JoinOneBag(e, chk2, p);
    }
  }

  lemma {:induction false} JoinRight(emb: seq<Emb>, chk: seq<Chk>, chk2: seq<Chk>)
    requires multiset(chk) == multiset(chk2)
    ensures multiset(Join(emb, chk)) == multiset(Join(emb, chk2))
  {
    if emb != [] {
      JoinOneSameBag(emb[0], chk, chk2);
      JoinRight(emb[1..], chk, chk2);
    }
  }

  lemma JoinCons(e: Emb, rest: seq<Emb>, chk: seq<Chk>)
    ensures Join([e] + rest, chk) == JoinOne(e, chk) + Join(rest, chk)
  {
    assert ([e] + rest)[1..] == rest;
  }

  lemma {:induction false} JoinConcat(a: seq<Emb>, b: seq<Emb>, chk: seq<Chk>)
    ensures Join(a + b, chk) == Join(a, chk) + Join(b, chk)
  {
    if a == [] {
      assert a + b == b;
    } else {
      JoinConcat(a[1..], b, chk);
      Regroup([a[0]], a[1..], b);
      assert a == [a[0]] + a[1..];
      JoinCons(a[0], a[1..] + b, chk);
      Regroup(JoinOne(a[0], chk), Join(a[1..], chk), Join(b, chk));
    }
  }

  lemma JoinWithout(emb: seq<Emb>, i: nat, chk: seq<Chk>)
    requires i < |emb|
    ensures multiset(Join(emb, chk)) == multiset(Join(emb[..i] + emb[i + 1..], chk)) + multiset(JoinOne(emb[i], chk))
  {
    JoinConcat(emb[..i], emb[i..], chk);
    JoinConcat(emb[..i], emb[i + 1..], chk);
    assert emb == emb[..i] + emb[i..];
    assert emb[i..][1..] == emb[i + 1..];
  }

  lemma {:induction false} JoinLeft(emb: seq<Emb>, emb2: seq<Emb>, chk: seq<Chk>)
    requires multiset(emb) == multiset(emb2)
    ensures multiset(Join(emb, chk)) == multiset(Join(emb2, chk))
  {
    assert |multiset(emb)| == |multiset(emb2)|;
    if emb != [] {
      var j := BagHead(emb, emb2);
      JoinLeft(emb[1..], emb2[..j] + emb2[j + 1..], chk);
      JoinWithout(emb2, j, chk);
    }
  }

  lemma JoinSameBag(emb: seq<Emb>, emb2: seq<Emb>, chk: seq<Chk>, chk2: seq<Chk>)
    requires multiset(emb) == multiset(emb2) && multiset(chk) == multiset(chk2)
    ensures multiset(Join(emb, chk)) == multiset(Join(emb2, chk2))
  {
    JoinLeft(emb, emb2, chk);
    JoinRight(emb2, chk, chk2);
  }

  lemma ScoresWithout(q: Query, ps: seq<Pair>, i: nat)
    requires i < |ps|
    ensures multiset(Scores(q, ps)) == multiset(Scores(q, ps[..i] + ps[i + 1..])) + multiset{Score(q, ps[i])}
  {
    BagWithout(Scores(q, ps), i);
    assert Scores(q, ps)[..i] + Scores(q, ps)[i + 1..] == Scores(q, ps[..i] + ps[i + 1..]);
  }

  lemma {:induction false} ScoresSameBag(q: Query, a: seq<Pair>, b: seq<Pair>)
    requires multiset(a) == multiset(b)
    ensures multiset(Scores(q, a)) == multiset(Scores(q, b))
  {
    assert |multiset(a)| == |multiset(b)|;
    if a != [] {
      var j := BagHead(a, b);
      ScoresSameBag(q, a[1..], b[..j] + b[j + 1..]);
      assert Scores(q, a) == [Score(q, a[0])] + Scores(q, a[1..]);
      ScoresWithout(q, b, j);
    }
  }

  /** The answer to any statement, for any session, is decided by which rows there are and how many of
      each, not by how they are stored. */
  lemma SameRowsSameAnswer(s: Session, emb: seq<Emb>, emb2: seq<Emb>, chk: seq<Chk>, chk2: seq<Chk>, q: Query,
      cond: Condition)
    requires multiset(emb) == multiset(emb2) && multiset(chk) == multiset(chk2)
    ensures Select(s, emb, chk, q, cond) == Select(s, emb2, chk2, q, cond)
  {
    FilterSameBag(emb, emb2, EmbFilter(s));
    FilterSameBag(chk, chk2, ChkFilter(s));
    JoinSameBag(Filter(emb, EmbFilter(s)), Filter(emb2, EmbFilter(s)),
                Filter(chk, ChkFilter(s)), Filter(chk2, ChkFilter(s)));
    FilterSameBag(Visible(s, emb, chk), Visible(s, emb2, chk2), Wanted(q, cond));
    ScoresSameBag(q, Filter(Visible(s, emb, chk), Wanted(q, cond)), Filter(Visible(s, emb2, chk2), Wanted(q, cond)));
    SortOfSameBag(Scores(q, Filter(Visible(s, emb, chk), Wanted(q, cond))),
                  Scores(q, Filter(Visible(s, emb2, chk2), Wanted(q, cond))));
  }

  // ----- Partitions are storage -----

  lemma RouteSnoc<T>(rows: seq<T>, tenantOf: T -> Id, place: Id -> nat, n: nat)
    ensures Flatten(Route(rows, tenantOf, place, n + 1))
         == Flatten(Route(rows, tenantOf, place, n)) + Filter(rows, PlacedAt(tenantOf, place, n))
  {
    var before, last := Route(rows, tenantOf, place, n), Filter(rows, PlacedAt(tenantOf, place, n));
    assert Route(rows, tenantOf, place, n + 1) == before + [last];
    FlattenConcat(before, [last]);
    assert [last] == [last] + [];
    FlattenCons(last, []);
  }

  lemma {:induction false} RouteBag<T(!new)>(rows: seq<T>, tenantOf: T -> Id, place: Id -> nat, n: nat, x: T)
    ensures multiset(Flatten(Route(rows, tenantOf, place, n)))[x]
         == if place(tenantOf(x)) < n then multiset(rows)[x] else 0
  {
    if n > 0 {
      RouteBag(rows, tenantOf, place, n - 1, x);
      RouteSnoc(rows, tenantOf, place, n - 1);
      FilterBag(rows, PlacedAt(tenantOf, place, n - 1), x);
    }
  }

  lemma RouteKeepsRows<T(!new)>(rows: seq<T>, tenantOf: T -> Id, place: Id -> nat, modulus: nat)
    requires forall x :: x in rows ==> place(tenantOf(x)) < modulus
    ensures multiset(Flatten(Route(rows, tenantOf, place, modulus))) == multiset(rows)
  {
    forall x ensures multiset(Flatten(Route(rows, tenantOf, place, modulus)))[x] == multiset(rows)[x] {
      RouteBag(rows, tenantOf, place, modulus, x);
      if x in multiset(rows) { assert x in rows; }
    }
  }

  /** Loaded at any modulus, every session, the owner's too, gets the list the unpartitioned pair gives. */
  lemma ModulusInvisibleToAll(s: Session, emb: seq<Emb>, chk: seq<Chk>, place: Id -> nat, modulus: nat, q: Query,
      cond: Condition)
    requires forall t :: place(t) < modulus
    ensures Select(s, Flatten(Route(emb, EmbTenant, place, modulus)), Flatten(Route(chk, ChkTenant, place, modulus)),
                   q, cond)
         == Select(s, emb, chk, q, cond)
  {
    RouteKeepsRows(emb, EmbTenant, place, modulus);
    RouteKeepsRows(chk, ChkTenant, place, modulus);
    SameRowsSameAnswer(s, Flatten(Route(emb, EmbTenant, place, modulus)), emb,
                       Flatten(Route(chk, ChkTenant, place, modulus)), chk, q, cond);
  }

  // ----- The qualifier prunes on its own -----

  function EmbOf(v: Id): Emb -> bool { (e: Emb) => e.tenant == v }
  function ChkOf(v: Id): Chk -> bool { (c: Chk) => c.tenant == v }
  function EmbOfBy(v: Id, s: Session): Emb -> bool { (e: Emb) => e.tenant == v && EmbAdmits(s, e) }
  function ChkOfBy(v: Id, s: Session): Chk -> bool { (c: Chk) => c.tenant == v && ChkAdmits(s, c) }

  function WantedBy(q: Query, v: Id, s: Session): Pair -> bool {
    (p: Pair) => EmbAdmits(s, p.0) && ChkAdmits(s, p.1) && Wanted(q, TenantIs(Some(v)))(p)
  }

  /** A statement qualified by a tenant reads only that tenant's rows of both relations. */
  lemma QualifiedReadsOwn(v: Id, s: Session, emb: seq<Emb>, chk: seq<Chk>, q: Query)
    ensures FForced(Some(v), s, emb, chk, q) == FForced(Some(v), s, Filter(emb, EmbOf(v)), Filter(chk, ChkOf(v)), q)
  {
    var wanted, all := Wanted(q, TenantIs(Some(v))), Join(emb, chk);
    PushDown(emb, chk, EmbFilter(s), ChkFilter(s));
    FilterTwice(all, PairFilter(EmbFilter(s), ChkFilter(s)), wanted, WantedBy(q, v, s));
    FilterTwice(emb, EmbOf(v), EmbFilter(s), EmbOfBy(v, s));
    FilterTwice(chk, ChkOf(v), ChkFilter(s), ChkOfBy(v, s));
    PushDown(emb, chk, EmbOfBy(v, s), ChkOfBy(v, s));
    forall p | p in all ensures WantedBy(q, v, s)(p) <==> PairFilter(EmbOfBy(v, s), ChkOfBy(v, s))(p) && wanted(p) {
      JoinHas(emb, chk, p);
    }
    FilterTwice(all, PairFilter(EmbOfBy(v, s), ChkOfBy(v, s)), wanted, WantedBy(q, v, s));
  }

  /** The local's qualifier alone justifies reading one partition of each relation: for the owner, whom
      no policy binds, as for everyone else. */
  lemma QualifierPrunes(s: Session, emb: seq<seq<Emb>>, chk: seq<seq<Chk>>, place: Id -> nat, q: Query)
    requires s.tenant.Some? && place(s.tenant.value) < |emb| == |chk|
    requires Routed(emb, EmbTenant, place) && Routed(chk, ChkTenant, place)
    ensures var at := place(s.tenant.value);
      FLocal(s, Flatten(emb), Flatten(chk), q) == FLocal(s, emb[at], chk[at], q)
  {
    var v := s.tenant.value;
    var at := place(v);
    forall i, e | 0 <= i < |emb| && e in emb[i] && EmbOf(v)(e) ensures i == at { assert place(EmbTenant(e)) == i; }
    forall i, c | 0 <= i < |chk| && c in chk[i] && ChkOf(v)(c) ensures i == at { assert place(ChkTenant(c)) == i; }
    OnlyOnePartition(emb, EmbOf(v), at);
    OnlyOnePartition(chk, ChkOf(v), at);
    QualifiedReadsOwn(v, s, Flatten(emb), Flatten(chk), q);
    QualifiedReadsOwn(v, s, emb[at], chk[at], q);
  }
}
