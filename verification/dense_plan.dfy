/**
  The dense query of `backend/eval/dense_plan_time.py` and its document-scoped pair from
  `backend/eval/dense_two_functions.py`: two relations under row-level security, joined, filtered,
  ordered by distance and limited.

  Rows are values; a vector is an opaque id and a query gives every vector a distance.  The scans
  are exact, ties in distance are settled by the chunk id (the order the file's own comparisons
  use), and a partitioned relation is the list of its partitions.
 */
module DensePlan {
  import opened Options
  import opened Seqs
  import opened Ranking
  import opened Sql

  type Id = nat

  datatype Emb = Emb(chunkId: Id, tenant: Id, mdl: Id, version: Id, vector: Id)
  datatype Chk = Chk(id: Id, document: Id, tenant: Id, labels: set<Id>)

  /** `zenith.tenant_id` and `zenith.label_ids`, and whether the role is one the policies bind. */
  datatype Session = Session(tenant: Option<Id>, labels: set<Id>, bypassesRls: bool)

  datatype Query = Query(distance: Id -> real, mdl: Id, version: Id, want: nat)

  type Pair = (Emb, Chk)
  type Scope = Option<seq<Option<Id>>>

  // ----- Policies -----

  function TenantPolicy(s: Session, tenant: Id): Tri {
    Equal(Some(tenant), s.tenant)
  }

  function LabelPolicy(s: Session, c: Chk): Tri {
    And(TenantPolicy(s, c.tenant), Or(Test(c.labels == {}), Test(c.labels * s.labels != {})))
  }

  predicate EmbAdmits(s: Session, e: Emb) {
    s.bypassesRls || TenantPolicy(s, e.tenant) == True
  }

  predicate ChkAdmits(s: Session, c: Chk) {
    s.bypassesRls || LabelPolicy(s, c) == True
  }

  function EmbFilter(s: Session): Emb -> bool { (e: Emb) => EmbAdmits(s, e) }
  function ChkFilter(s: Session): Chk -> bool { (c: Chk) => ChkAdmits(s, c) }

  // ----- The query -----

  function JoinOne(e: Emb, chk: seq<Chk>): seq<Pair> {
    if chk == [] then []
    else if chk[0].id == e.chunkId && chk[0].tenant == e.tenant then [(e, chk[0])] + JoinOne(e, chk[1..])
    else JoinOne(e, chk[1..])
  }

  /** `emb e JOIN chk c ON c.id = e.chunk_id AND c.tenant_id = e.tenant_id`. */
  function Join(emb: seq<Emb>, chk: seq<Chk>): seq<Pair> {
    if emb == [] then [] else JoinOne(emb[0], chk) + Join(emb[1..], chk)
  }

  /** What a statement can see of the join. */
  function Visible(s: Session, emb: seq<Emb>, chk: seq<Chk>): seq<Pair> {
    Join(Filter(emb, EmbFilter(s)), Filter(chk, ChkFilter(s)))
  }

  function Score(q: Query, p: Pair): Item {
    Item(1.0 - q.distance(p.0.vector), p.1.id)
  }

  function Scores(q: Query, ps: seq<Pair>): seq<Item> {
    seq(|ps|, i requires 0 <= i < |ps| => Score(q, ps[i]))
  }

  function Space(q: Query, p: Pair): Tri {
    And(Test(p.0.mdl == q.mdl), Test(p.0.version == q.version))
  }

  type Condition = Pair -> Tri

  function Always(): Condition { (p: Pair) => True }
  function TenantIs(v: Option<Id>): Condition { (p: Pair) => Equal(Some(p.0.tenant), v) }
  function DocumentIn(docs: Scope): Condition { (p: Pair) => EqualAny(p.1.document, docs) }
  function Both(a: Condition, b: Condition): Condition { (p: Pair) => And(a(p), b(p)) }
  function Either(a: Condition, b: Condition): Condition { (p: Pair) => Or(a(p), b(p)) }
  function Constant(t: Tri): Condition { (p: Pair) => t }

  function Wanted(q: Query, cond: Condition): Pair -> bool {
    (p: Pair) => And(cond(p), Space(q, p)) == True
  }

  /** `SELECT ... WHERE cond AND model AND version ORDER BY distance LIMIT want`. */
  function Select(s: Session, emb: seq<Emb>, chk: seq<Chk>, q: Query, cond: Condition): seq<Item> {
    Top(Scores(q, Filter(Visible(s, emb, chk), Wanted(q, cond))), q.want)
  }

  // ----- The arms -----

  function FShipped(s: Session, emb: seq<Emb>, chk: seq<Chk>, q: Query): seq<Item> {
    Select(s, emb, chk, q, Always())
  }

  /** The tenant arrives as an argument. */
  function FForced(v: Option<Id>, s: Session, emb: seq<Emb>, chk: seq<Chk>, q: Query): seq<Item> {
    Select(s, emb, chk, q, TenantIs(v))
  }

  /** The tenant is read into a local, refused when NULL, and used as a qualifier. */
  function FLocal(s: Session, emb: seq<Emb>, chk: seq<Chk>, q: Query): seq<Item> {
    if s.tenant.None? then [] else FForced(s.tenant, s, emb, chk, q)
  }

  /** The qualifier is the `STABLE` call itself: no local, and no guard on NULL. */
  function FGuc(s: Session, emb: seq<Emb>, chk: seq<Chk>, q: Query): seq<Item> {
    Select(s, emb, chk, q, TenantIs(s.tenant))
  }

  const REST_OF_STATEMENT: string := " AND e.embedding_model = $2"

  /** The tenant is written into the statement as a literal and read back by the parser. */
  function FDynamic(show: Id -> string, s: Session, emb: seq<Emb>, chk: seq<Chk>, q: Query): seq<Item> {
    if s.tenant.None? then []
    else Select(s, emb, chk, q, TextIs(show, ReadLiteral(Literal(show(s.tenant.value)) + REST_OF_STATEMENT)))
  }

  function TextIs(show: Id -> string, parsed: Option<(string, string)>): Condition {
    (p: Pair) => Equal(Some(show(p.0.tenant)), if parsed.Some? then Some(parsed.value.0) else None)
  }

  // The document-scoped pair.

  function FShippedScoped(s: Session, emb: seq<Emb>, chk: seq<Chk>, q: Query, docs: Scope): seq<Item> {
    Select(s, emb, chk, q, DocumentIn(docs))
  }

  function FForcedScoped(v: Option<Id>, s: Session, emb: seq<Emb>, chk: seq<Chk>, q: Query, docs: Scope): seq<Item> {
    Select(s, emb, chk, q, Both(TenantIs(v), DocumentIn(docs)))
  }

  function FScopedBare(s: Session, emb: seq<Emb>, chk: seq<Chk>, q: Query, docs: Scope): seq<Item> {
    if s.tenant.None? then [] else FForcedScoped(s.tenant, s, emb, chk, q, docs)
  }

  function FScopedOr(s: Session, emb: seq<Emb>, chk: seq<Chk>, q: Query, docs: Scope): seq<Item> {
    if s.tenant.None? then []
    else Select(s, emb, chk, q, Both(TenantIs(s.tenant), Either(Constant(IsNull(docs)), DocumentIn(docs))))
  }

  // ----- The join -----

  lemma {:induction false} JoinOneHas(e: Emb, chk: seq<Chk>, p: Pair)
    ensures p in JoinOne(e, chk) <==> p.0 == e && p.1 in chk && p.1.id == e.chunkId && p.1.tenant == e.tenant
  {
    if chk != [] {
      JoinOneHas(e, chk[1..], p);
      assert chk == [chk[0]] + chk[1..];
    }
  }

  lemma {:induction false} JoinHas(emb: seq<Emb>, chk: seq<Chk>, p: Pair)
    ensures p in Join(emb, chk) <==> p.0 in emb && p.1 in chk && p.1.id == p.0.chunkId && p.1.tenant == p.0.tenant
  {
    if emb != [] {
      JoinOneHas(emb[0], chk, p);
      JoinHas(emb[1..], chk, p);
      assert emb == [emb[0]] + emb[1..];
    }
  }

  /** What is visible is admitted: both rows by their policies, and both of one tenant. */
  lemma VisibleHas(s: Session, emb: seq<Emb>, chk: seq<Chk>, p: Pair)
    ensures p in Visible(s, emb, chk)
       <==> p.0 in emb && p.1 in chk && p.1.id == p.0.chunkId && p.1.tenant == p.0.tenant
            && EmbAdmits(s, p.0) && ChkAdmits(s, p.1)
  {
    JoinHas(Filter(emb, EmbFilter(s)), Filter(chk, ChkFilter(s)), p);
    FilterKeeps(emb, EmbFilter(s), p.0);
    FilterKeeps(chk, ChkFilter(s), p.1);
  }

  // ----- Rewriting preserves meaning -----

  /** Two conditions select the same list when they agree on every pair the session can see. */
  lemma SelectAgree(s: Session, emb: seq<Emb>, chk: seq<Chk>, q: Query, a: Condition, b: Condition)
    requires forall p :: p in Visible(s, emb, chk) ==> (a(p) == True <==> b(p) == True)
    ensures Select(s, emb, chk, q, a) == Select(s, emb, chk, q, b)
  {
    FilterAgree(Visible(s, emb, chk), Wanted(q, a), Wanted(q, b));
  }

  lemma SelectNothing(s: Session, emb: seq<Emb>, chk: seq<Chk>, q: Query, cond: Condition)
    requires forall p :: p in Visible(s, emb, chk) ==> cond(p) != True
    ensures Select(s, emb, chk, q, cond) == []
  {
    FilterNone(Visible(s, emb, chk), Wanted(q, cond));
  }

  /** Under the caller's policies every visible pair already belongs to the session's tenant. */
  lemma VisibleIsOwn(s: Session, emb: seq<Emb>, chk: seq<Chk>)
    requires !s.bypassesRls
    ensures forall p :: p in Visible(s, emb, chk) ==> Some(p.0.tenant) == s.tenant == Some(p.1.tenant)
  {
    forall p | p in Visible(s, emb, chk) ensures Some(p.0.tenant) == s.tenant == Some(p.1.tenant) {
      VisibleHas(s, emb, chk, p);
    }
  }

  /** The three rewrites return what the shipped query returns, row for row and in order, for
      every session the policies bind: a tenant, none, any labels. */
  lemma RewritesPreserveMeaning(show: Id -> string, s: Session, emb: seq<Emb>, chk: seq<Chk>, q: Query)
    requires !s.bypassesRls
    requires forall a, b :: show(a) == show(b) ==> a == b
    ensures FLocal(s, emb, chk, q) == FShipped(s, emb, chk, q)
    ensures FGuc(s, emb, chk, q) == FShipped(s, emb, chk, q)
    ensures FDynamic(show, s, emb, chk, q) == FShipped(s, emb, chk, q)
  {
    VisibleIsOwn(s, emb, chk);
    if s.tenant.None? {
      SelectNothing(s, emb, chk, q, Always());
      SelectNothing(s, emb, chk, q, TenantIs(s.tenant));
    } else {
      var text := show(s.tenant.value);
      LiteralRoundTrip(text, REST_OF_STATEMENT);
      SelectAgree(s, emb, chk, q, TenantIs(s.tenant), Always());
      SelectAgree(s, emb, chk, q, TextIs(show, ReadLiteral(Literal(text) + REST_OF_STATEMENT)), Always());
    }
  }

  /** With no tenant in the session nothing comes back, not everything. */
  lemma NoTenantNoRows(s: Session, emb: seq<Emb>, chk: seq<Chk>, q: Query, cond: Condition)
    requires !s.bypassesRls && s.tenant.None?
    ensures Select(s, emb, chk, q, cond) == []
  {
    VisibleIsOwn(s, emb, chk);
    SelectNothing(s, emb, chk, q, cond);
  }

  /** The qualifier is never what decides: asked for any other tenant, or for NULL, it returns
      nothing; asked for the session's own it returns what the policies alone return. */
  lemma ForcedNeverDecides(v: Option<Id>, s: Session, emb: seq<Emb>, chk: seq<Chk>, q: Query)
    requires !s.bypassesRls
    ensures FForced(v, s, emb, chk, q) == if v == s.tenant then FShipped(s, emb, chk, q) else []
  {
    VisibleIsOwn(s, emb, chk);
    if v == s.tenant && v.Some? {
      SelectAgree(s, emb, chk, q, TenantIs(v), Always());
    } else {
      SelectNothing(s, emb, chk, q, TenantIs(v));
      if v == s.tenant { SelectNothing(s, emb, chk, q, Always()); }
    }
  }

  // ----- Where every returned row came from -----

  lemma SelectSource(s: Session, emb: seq<Emb>, chk: seq<Chk>, q: Query, cond: Condition, it: Item) returns (p: Pair)
    requires it in Select(s, emb, chk, q, cond)
    ensures p in Visible(s, emb, chk) && cond(p) == True && it == Score(q, p)
  {
    var visible := Visible(s, emb, chk);
    var kept := Filter(visible, Wanted(q, cond));
    TopMember(Scores(q, kept), q.want, it);
    var i :| 0 <= i < |kept| && Scores(q, kept)[i] == it;
    p := kept[i];
    FilterKeeps(visible, Wanted(q, cond), p);
  }

  /** Whatever condition a statement adds, counted against the policy-free placement of the
      chunks: no row it returns belongs to another tenant. */
  lemma NoForeignRows(assign: map<Id, Id>, s: Session, emb: seq<Emb>, chk: seq<Chk>, q: Query, cond: Condition)
    requires !s.bypassesRls
    requires forall e :: e in emb ==> e.chunkId in assign && assign[e.chunkId] == e.tenant
    ensures forall it :: it in Select(s, emb, chk, q, cond) ==> it.id in assign && Some(assign[it.id]) == s.tenant
  {
    VisibleIsOwn(s, emb, chk);
    forall it | it in Select(s, emb, chk, q, cond) ensures it.id in assign && Some(assign[it.id]) == s.tenant {
      var p := SelectSource(s, emb, chk, q, cond, it);
      VisibleHas(s, emb, chk, p);
    }
  }

  // ----- Pruning -----

  /** Every row sits in the partition its tenant hashes to. */
  ghost predicate Routed<T(!new)>(parts: seq<seq<T>>, tenantOf: T -> Id, place: Id -> nat) {
    forall i, x :: 0 <= i < |parts| && x in parts[i] ==> place(tenantOf(x)) == i
  }

  lemma {:induction false} OnlyOnePartition<T(!new)>(parts: seq<seq<T>>, admits: T -> bool, at: nat)
    requires at < |parts|
    requires forall i, x :: 0 <= i < |parts| && x in parts[i] && admits(x) ==> i == at
    ensures Filter(Flatten(parts), admits) == Filter(parts[at], admits)
  {
    FilterConcat(parts[0], Flatten(parts[1..]), admits);
    var rest := parts[1..];
    if at == 0 {
      NoPartition(rest, admits);
    } else {
      FilterNone(parts[0], admits);
      OnlyOnePartition(rest, admits, at - 1);
    }
  }

  lemma {:induction false} NoPartition<T(!new)>(parts: seq<seq<T>>, admits: T -> bool)
    requires forall i, x :: 0 <= i < |parts| && x in parts[i] ==> !admits(x)
    ensures Filter(Flatten(parts), admits) == []
  {
    if parts != [] {
      FilterConcat(parts[0], Flatten(parts[1..]), admits);
      FilterNone(parts[0], admits);
      var rest := parts[1..];
      assert forall i :: 0 <= i < |rest| ==> rest[i] == parts[i + 1];
      NoPartition(rest, admits);
    }
  }

  function EmbTenant(e: Emb): Id { e.tenant }
  function ChkTenant(c: Chk): Id { c.tenant }

  /** Reading only the partition the tenant hashes to, on both relations, shows a session exactly
      what reading every partition shows it, for every modulus and placement.  Every arm reads
      through `Visible`, so every arm returns the same list. */
  lemma PruningPreservesMeaning(s: Session, emb: seq<seq<Emb>>, chk: seq<seq<Chk>>, place: Id -> nat,
                                q: Query, cond: Condition)
    requires !s.bypassesRls && s.tenant.Some?
    requires place(s.tenant.value) < |emb| == |chk|
    requires Routed(emb, EmbTenant, place) && Routed(chk, ChkTenant, place)
    ensures var at := place(s.tenant.value);
      Select(s, Flatten(emb), Flatten(chk), q, cond) == Select(s, emb[at], chk[at], q, cond)
  {
    var at := place(s.tenant.value);
    forall i, e | 0 <= i < |emb| && e in emb[i] && EmbFilter(s)(e) ensures i == at {
      assert place(EmbTenant(e)) == i;
    }
    forall i, c | 0 <= i < |chk| && c in chk[i] && ChkFilter(s)(c) ensures i == at {
      assert place(ChkTenant(c)) == i;
    }
    OnlyOnePartition(emb, EmbFilter(s), at);
    OnlyOnePartition(chk, ChkFilter(s), at);
  }

  /** `_load`: each inserted row goes to its tenant's partition. */
  function Route<T>(rows: seq<T>, tenantOf: T -> Id, place: Id -> nat, modulus: nat): seq<seq<T>> {
    seq(modulus, i requires 0 <= i < modulus => Filter(rows, PlacedAt(tenantOf, place, i)))
  }

  function PlacedAt<T>(tenantOf: T -> Id, place: Id -> nat, i: nat): T -> bool {
    x => place(tenantOf(x)) == i
  }

  lemma RouteRoutes<T(!new)>(rows: seq<T>, tenantOf: T -> Id, place: Id -> nat, modulus: nat)
    ensures Routed(Route(rows, tenantOf, place, modulus), tenantOf, place)
  {
    var parts := Route(rows, tenantOf, place, modulus);
    forall i, x | 0 <= i < |parts| && x in parts[i] ensures place(tenantOf(x)) == i {
      FilterKeeps(rows, PlacedAt(tenantOf, place, i), x);
    }
  }

  lemma RoutedRowsVisible<T(!new)>(rows: seq<T>, tenantOf: T -> Id, place: Id -> nat, modulus: nat,
                                   admits: T -> bool, at: nat)
    requires at < modulus && forall x :: admits(x) ==> place(tenantOf(x)) == at
    ensures Filter(Flatten(Route(rows, tenantOf, place, modulus)), admits) == Filter(rows, admits)
  {
    var parts := Route(rows, tenantOf, place, modulus);
    RouteRoutes(rows, tenantOf, place, modulus);
    forall i, x | 0 <= i < |parts| && x in parts[i] && admits(x) ensures i == at {
      assert place(tenantOf(x)) == i;
    }
    OnlyOnePartition(parts, admits, at);
    FilterTwice(rows, PlacedAt(tenantOf, place, at), admits, admits);
  }

  /** The modulus is invisible: the same rows loaded at any modulus answer every statement with
      the list the unpartitioned pair answers with. */
  lemma ModulusInvisible(s: Session, emb: seq<Emb>, chk: seq<Chk>, place: Id -> nat, modulus: nat,
                         q: Query, cond: Condition)
    requires !s.bypassesRls
    requires s.tenant.Some? ==> place(s.tenant.value) < modulus
    ensures Select(s, Flatten(Route(emb, EmbTenant, place, modulus)), Flatten(Route(chk, ChkTenant, place, modulus)),
                   q, cond)
         == Select(s, emb, chk, q, cond)
  {
    if s.tenant.None? {
      NoTenantNoRows(s, emb, chk, q, cond);
      NoTenantNoRows(s, Flatten(Route(emb, EmbTenant, place, modulus)), Flatten(Route(chk, ChkTenant, place, modulus)),
                     q, cond);
    } else {
      RoutedRowsVisible(emb, EmbTenant, place, modulus, EmbFilter(s), place(s.tenant.value));
      RoutedRowsVisible(chk, ChkTenant, place, modulus, ChkFilter(s), place(s.tenant.value));
    }
  }

  // ----- The owner's side -----

  lemma {:induction false} JoinOneFiltered(e: Emb, chk: seq<Chk>, pc: Chk -> bool, both: Pair -> bool)
    requires forall c :: c in chk ==> (both((e, c)) <==> pc(c))
    ensures JoinOne(e, Filter(chk, pc)) == Filter(JoinOne(e, chk), both)
  {
    if chk != [] {
      JoinOneFiltered(e, chk[1..], pc, both);
      var c, rest := chk[0], Filter(chk[1..], pc);
      assert ([c] + rest)[1..] == rest;
      assert ([(e, c)] + JoinOne(e, chk[1..]))[1..] == JoinOne(e, chk[1..]);
    }
  }

  function PairFilter(pe: Emb -> bool, pc: Chk -> bool): Pair -> bool {
    (p: Pair) => pe(p.0) && pc(p.1)
  }

  /** Filtering the relations and then joining is joining and then filtering. */
  lemma {:induction false} PushDown(emb: seq<Emb>, chk: seq<Chk>, pe: Emb -> bool, pc: Chk -> bool)
    ensures Join(Filter(emb, pe), Filter(chk, pc)) == Filter(Join(emb, chk), PairFilter(pe, pc))
  {
    var both := PairFilter(pe, pc);
    if emb != [] {
      PushDown(emb[1..], chk, pe, pc);
      var e, rest := emb[0], Filter(emb[1..], pe);
      FilterConcat(JoinOne(e, chk), Join(emb[1..], chk), both);
      if pe(e) {
        JoinOneFiltered(e, chk, pc, both);
        assert ([e] + rest)[1..] == rest;
      } else {
        forall p | p in JoinOne(e, chk) ensures !both(p) { JoinOneHas(e, chk, p); }
        FilterNone(JoinOne(e, chk), both);
      }
    }
  }

  /** Where no policy binds, a statement that asks for one tenant's rows gets what the policies would
      show a session of that tenant that holds every label. */
  lemma OwnerSelect(owner: Session, v: Id, every: set<Id>, emb: seq<Emb>, chk: seq<Chk>, q: Query, cond: Condition)
    requires owner.bypassesRls && forall c :: c in chk ==> c.labels <= every
    requires forall p :: cond(p) == True ==> p.0.tenant == v
    ensures Select(owner, emb, chk, q, cond) == Select(Session(Some(v), every, false), emb, chk, q, cond)
  {
    var app, wanted, all := Session(Some(v), every, false), Wanted(q, cond), Join(emb, chk);
    PushDown(emb, chk, EmbFilter(owner), ChkFilter(owner));
    PushDown(emb, chk, EmbFilter(app), ChkFilter(app));
    forall p | p in all && wanted(p) ensures EmbAdmits(app, p.0) && ChkAdmits(app, p.1) {
      JoinHas(emb, chk, p);
      if p.1.labels != {} { var l :| l in p.1.labels; assert l in p.1.labels * every; }
    }
    FilterTwice(all, PairFilter(EmbFilter(owner), ChkFilter(owner)), wanted, wanted);
    FilterTwice(all, PairFilter(EmbFilter(app), ChkFilter(app)), wanted, wanted);
  }

  /** The qualifier does on the owner's side what the tenant policy does on the application's, and not
      what the label policy does: the owner who asks for a tenant is answered as that tenant's session
      holding every label in use, and with no tenant with nothing. */
  lemma ForcedOnOwnerSide(v: Option<Id>, owner: Session, emb: seq<Emb>, chk: seq<Chk>, q: Query, every: set<Id>)
    requires owner.bypassesRls && forall c :: c in chk ==> c.labels <= every
    ensures FForced(v, owner, emb, chk, q) == FShipped(Session(v, every, false), emb, chk, q)
  {
    var app := Session(v, every, false);
    ForcedNeverDecides(v, app, emb, chk, q);
    if v.Some? {
      OwnerSelect(owner, v.value, every, emb, chk, q, TenantIs(v));
    } else {
      SelectNothing(owner, emb, chk, q, TenantIs(v));
      NoTenantNoRows(app, emb, chk, q, Always());
    }
  }

  /** So does every form of the query that carries one. */
  lemma OwnerSide(show: Id -> string, owner: Session, emb: seq<Emb>, chk: seq<Chk>, q: Query, every: set<Id>)
    requires owner.bypassesRls && forall c :: c in chk ==> c.labels <= every
    requires forall a, b :: show(a) == show(b) ==> a == b
    ensures var expected := FShipped(Session(owner.tenant, every, false), emb, chk, q);
      && FLocal(owner, emb, chk, q) == expected
      && FGuc(owner, emb, chk, q) == expected
      && FDynamic(show, owner, emb, chk, q) == expected
  {
    var app := Session(owner.tenant, every, false);
    ForcedOnOwnerSide(owner.tenant, owner, emb, chk, q, every);
    RewritesPreserveMeaning(show, app, emb, chk, q);
    if owner.tenant.Some? {
      var text := show(owner.tenant.value);
      LiteralRoundTrip(text, REST_OF_STATEMENT);
      OwnerSelect(owner, owner.tenant.value, every, emb, chk, q,
                  TextIs(show, ReadLiteral(Literal(text) + REST_OF_STATEMENT)));
    }
  }

  /** And the scoped forms, within the scope. */
  lemma ScopedOnOwnerSide(v: Option<Id>, owner: Session, emb: seq<Emb>, chk: seq<Chk>, q: Query, docs: Scope,
      every: set<Id>)
    requires owner.bypassesRls && forall c :: c in chk ==> c.labels <= every
    ensures FForcedScoped(v, owner, emb, chk, q, docs) == FShippedScoped(Session(v, every, false), emb, chk, q, docs)
  {
    var app, cond := Session(v, every, false), Both(TenantIs(v), DocumentIn(docs));
    ScopedRewrite(v, app, emb, chk, q, docs);
    if v.Some? {
      forall p | cond(p) == True ensures p.0.tenant == v.value { assert TenantIs(v)(p) == True; }
      OwnerSelect(owner, v.value, every, emb, chk, q, cond);
    } else {
      SelectNothing(owner, emb, chk, q, cond);
    }
  }

  // ----- The isolation grid -----

  datatype Grid = Grid(onDiagonal: nat, offDiagonal: nat, leaks: seq<(Id, Id)>)

  function Own(tenants: seq<Id>, labels: set<Id>, emb: seq<Emb>, chk: seq<Chk>, q: Query): nat {
    if tenants == [] then 0
    else |FShipped(Session(Some(tenants[0]), labels, false), emb, chk, q)| + Own(tenants[1..], labels, emb, chk, q)
  }

  /** What each tenant's own session gets, as a list. */
  function Diagonal(tenants: seq<Id>, labels: set<Id>, emb: seq<Emb>, chk: seq<Chk>, q: Query): seq<nat> {
    seq(|tenants|, i requires 0 <= i < |tenants| => |FShipped(Session(Some(tenants[i]), labels, false), emb, chk, q)|)
  }

  lemma {:induction false} OwnIsSum(tenants: seq<Id>, labels: set<Id>, emb: seq<Emb>, chk: seq<Chk>, q: Query)
    ensures Own(tenants, labels, emb, chk, q) == Sum(Diagonal(tenants, labels, emb, chk, q))
  {
    if tenants != [] {
      OwnIsSum(tenants[1..], labels, emb, chk, q);
      assert Diagonal(tenants, labels, emb, chk, q)[1..] == Diagonal(tenants[1..], labels, emb, chk, q);
    }
  }

  lemma {:induction false} OwnSnoc(tenants: seq<Id>, t: Id, labels: set<Id>, emb: seq<Emb>, chk: seq<Chk>, q: Query)
    ensures Own(tenants + [t], labels, emb, chk, q)
         == Own(tenants, labels, emb, chk, q) + |FShipped(Session(Some(t), labels, false), emb, chk, q)|
  {
    if tenants != [] {
      OwnSnoc(tenants[1..], t, labels, emb, chk, q);
      assert (tenants + [t])[1..] == tenants[1..] + [t];
    }
  }

  /** `_isolation`: every session asked for every tenant's rows.  Off the diagonal nothing comes
      back and no cell is reported; on it, every tenant gets all of its own. */
  method Isolation(tenants: seq<Id>, labels: set<Id>, emb: seq<Emb>, chk: seq<Chk>, q: Query) returns (g: Grid)
    requires NoDup(tenants)
    ensures g == Grid(Sum(Diagonal(tenants, labels, emb, chk, q)), 0, [])
  {
    OwnIsSum(tenants, labels, emb, chk, q);
    var on, off, leaks := 0, 0, [];
    for i := 0 to |tenants|
      invariant on == Own(tenants[..i], labels, emb, chk, q) && off == 0 && leaks == []
    {
      var s := Session(Some(tenants[i]), labels, false);
      assert tenants[..i + 1] == tenants[..i] + [tenants[i]];
      OwnSnoc(tenants[..i], tenants[i], labels, emb, chk, q);
      ghost var before := on;
      for j := 0 to |tenants|
        invariant off == 0 && leaks == []
        invariant on == before + (if i < j then |FShipped(s, emb, chk, q)| else 0)
      {
        assert tenants[i] == tenants[j] <==> i == j;
        ForcedNeverDecides(Some(tenants[j]), s, emb, chk, q);
        var context, requested := tenants[i], tenants[j];
        var count := |FForced(Some(requested), s, emb, chk, q)|;
        if context == requested {
          on := on + count;
        } else {
          off := off + count;
          if count != 0 {
            leaks := leaks + [(context, requested)];
          }
        }
      }
    }
    assert tenants[..|tenants|] == tenants;
    return Grid(on, off, leaks);
  }

  // ----- The pair stays in step -----

  ghost predicate ScopeCovers(s: Session, chk: seq<Chk>, docs: Scope) {
    docs.Some? && forall c :: c in chk && ChkAdmits(s, c) ==> Some(c.document) in docs.value
  }

  /** A scope naming every document the session can reach restricts nothing. */
  lemma InStep(s: Session, emb: seq<Emb>, chk: seq<Chk>, q: Query, docs: Scope)
    requires ScopeCovers(s, chk, docs)
    ensures FScopedBare(s, emb, chk, q, docs) == FLocal(s, emb, chk, q)
  {
    forall p | p in Visible(s, emb, chk) ensures EqualAny(p.1.document, docs) == True { VisibleHas(s, emb, chk, p); }
    SelectAgree(s, emb, chk, q, Both(TenantIs(s.tenant), DocumentIn(docs)), TenantIs(s.tenant));
  }

  /** The guarded form is the pair in one function: the unscoped one on NULL, the bare one on a
      scope, NULL elements included.  The bare form on NULL is empty. */
  lemma OrIsThePair(s: Session, emb: seq<Emb>, chk: seq<Chk>, q: Query, docs: Scope)
    ensures FScopedOr(s, emb, chk, q, docs)
         == if docs.None? then FLocal(s, emb, chk, q) else FScopedBare(s, emb, chk, q, docs)
    ensures docs.None? ==> FScopedBare(s, emb, chk, q, docs) == []
  {
    var guarded := Both(TenantIs(s.tenant), Either(Constant(IsNull(docs)), DocumentIn(docs)));
    var bare := Both(TenantIs(s.tenant), DocumentIn(docs));
    if docs.None? {
      SelectAgree(s, emb, chk, q, guarded, TenantIs(s.tenant));
      SelectNothing(s, emb, chk, q, bare);
    } else {
      SelectAgree(s, emb, chk, q, guarded, bare);
    }
  }

  /** The scoped rewrite returns what the scoped shipped query returns, and a forced tenant off the
      diagonal returns nothing whatever the scope names. */
  lemma ScopedRewrite(v: Option<Id>, s: Session, emb: seq<Emb>, chk: seq<Chk>, q: Query, docs: Scope)
    requires !s.bypassesRls
    ensures FScopedBare(s, emb, chk, q, docs) == FShippedScoped(s, emb, chk, q, docs)
    ensures v != s.tenant ==> FForcedScoped(v, s, emb, chk, q, docs) == []
  {
    VisibleIsOwn(s, emb, chk);
    if v != s.tenant { SelectNothing(s, emb, chk, q, Both(TenantIs(v), DocumentIn(docs))); }
    if s.tenant.None? {
      SelectNothing(s, emb, chk, q, DocumentIn(docs));
    } else {
      SelectAgree(s, emb, chk, q, Both(TenantIs(s.tenant), DocumentIn(docs)), DocumentIn(docs));
    }
  }

  /** A document scope is not an access grant: every row comes from a passage the policies admit,
      in a document the scope names. */
  lemma ScopeGrantsNothing(s: Session, emb: seq<Emb>, chk: seq<Chk>, q: Query, docs: Scope, it: Item) returns (p: Pair)
    requires it in FScopedBare(s, emb, chk, q, docs)
    ensures it == Score(q, p) && p.0 in emb && p.1 in chk && EmbAdmits(s, p.0) && ChkAdmits(s, p.1)
    ensures Some(p.0.tenant) == s.tenant == Some(p.1.tenant)
    ensures docs.Some? && Some(p.1.document) in docs.value
  {
    p := SelectSource(s, emb, chk, q, Both(TenantIs(s.tenant), DocumentIn(docs)), it);
    VisibleHas(s, emb, chk, p);
  }

  lemma {:induction false} CountBetterPairs(x: Item, q: Query, ps: seq<Pair>, p: Pair -> bool)
    ensures CountBetter(x, Scores(q, Filter(ps, p))) <= CountBetter(x, Scores(q, ps))
  {
    if ps != [] {
      CountBetterPairs(x, q, ps[1..], p);
      assert Scores(q, ps)[1..] == Scores(q, ps[1..]);
      var rest := Filter(ps[1..], p);
      assert Scores(q, [ps[0]] + rest)[1..] == Scores(q, rest);
    }
  }

  /** And it loses nothing it names: a passage of the unscoped list in a document of the scope is
      in the scoped list. */
  lemma ScopeHidesNothing(s: Session, emb: seq<Emb>, chk: seq<Chk>, q: Query, docs: Scope, p: Pair)
    requires docs.Some? && p in Visible(s, emb, chk) && Some(p.1.document) in docs.value
    requires Equal(Some(p.0.tenant), s.tenant) == True && Space(q, p) == True
    requires Score(q, p) in FLocal(s, emb, chk, q)
    ensures Score(q, p) in FScopedBare(s, emb, chk, q, docs)
  {
    var visible := Visible(s, emb, chk);
    var wide, narrow := Wanted(q, TenantIs(s.tenant)), Wanted(q, Both(TenantIs(s.tenant), DocumentIn(docs)));
    var inScope := (r: Pair) => EqualAny(r.1.document, docs) == True;
    FilterTwice(visible, wide, inScope, narrow);
    TopMember(Scores(q, Filter(visible, wide)), q.want, Score(q, p));
    CountBetterPairs(Score(q, p), q, Filter(visible, wide), inScope);
    FilterKeeps(visible, narrow, p);
    var kept := Filter(visible, narrow);
    var i :| 0 <= i < |kept| && kept[i] == p;
    assert Scores(q, kept)[i] == Score(q, p);
    TopMember(Scores(q, kept), q.want, Score(q, p));
  }
}
