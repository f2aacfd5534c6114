/**
  Row-level security on the partitions themselves: `_build` of `backend/eval/dense_plan_time.py`
  creates every partition together with a policy of its own, because a partition inherits neither
  the flag nor the policy of its parent, and a statement that names a partition is bound by the
  partition's alone.
 */
module PartitionRls {
  import opened Options
  import opened Seqs
  import opened Sql
  import opened DensePlan

  const BATCH: nat := 16

  datatype Policy = TenantOnly | TenantAndLabels

  /** What guards one relation: the flag, and the policy if it has one. */
  datatype Guard = Guard(rls: bool, policy: Option<Policy>)

  const EMB_GUARD: Guard := Guard(true, Some(TenantOnly))
  const CHK_GUARD: Guard := Guard(true, Some(TenantAndLabels))

  predicate EmbPasses(g: Guard, s: Session, e: Emb) {
    s.bypassesRls || !g.rls || (g.policy.Some? && TenantPolicy(s, e.tenant) == True)
  }

  predicate ChkPasses(g: Guard, s: Session, c: Chk) {
    || s.bypassesRls || !g.rls
    || (g.policy.Some? && (if g.policy.value.TenantOnly? then TenantPolicy(s, c.tenant) else LabelPolicy(s, c)) == True)
  }

  function EmbBy(g: Guard, s: Session): Emb -> bool { (e: Emb) => EmbPasses(g, s, e) }
  function ChkBy(g: Guard, s: Session): Chk -> bool { (c: Chk) => ChkPasses(g, s, c) }

  // ----- Building -----

  class Catalog {
    var emb: seq<Guard>
    var chk: seq<Guard>

    ghost predicate Built(modulus: nat)
      reads this
    {
      && |emb| == |chk| == modulus
      && (forall i :: 0 <= i < modulus ==> emb[i] == EMB_GUARD)
      && (forall i :: 0 <= i < modulus ==> chk[i] == CHK_GUARD)
    }

    constructor ()
      ensures Built(0)
    {
      emb, chk := [], [];
    }

    /** One turn of the loop in the `DO` block: six statements, for remainder `i`. */
    method CreatePair(i: nat)
      requires Built(i)
      modifies this
      ensures Built(i + 1)
    {
      emb := emb + [Guard(false, None)];
      emb := emb[i := emb[i].(rls := true)];
      emb := emb[i := emb[i].(policy := Some(TenantOnly))];
      chk := chk + [Guard(false, None)];
      chk := chk[i := chk[i].(rls := true)];
      chk := chk[i := chk[i].(policy := Some(TenantAndLabels))];
    }

    /** The partitions of one rung, in batches: each remainder once, and none unguarded. */
    method Build(modulus: nat)
      requires Built(0)
      modifies this
      ensures Built(modulus)
    {
      var low := 0;
      while low < modulus
        invariant low <= modulus && Built(low)
      {
        var high := if low + BATCH < modulus then low + BATCH else modulus;
        for i := low to high
          invariant Built(i)
        {
          CreatePair(i);
        }
        low := high;
      }
    }
  }

  // ----- Reading a partition by name -----

  ghost predicate GuardsEmb(g: Guard) {
    forall s: Session, rows: seq<Emb> :: Filter(rows, EmbBy(g, s)) == Filter(rows, EmbFilter(s))
  }

  ghost predicate GuardsChk(g: Guard) {
    forall s: Session, rows: seq<Chk> :: Filter(rows, ChkBy(g, s)) == Filter(rows, ChkFilter(s))
  }

  lemma OneRow<T>(x: T, p: T -> bool)
    ensures Filter([x], p) == if p(x) then [x] else []
  {
    assert [x][1..] == [];
  }

  /** A partition shows every session exactly what its parent would, whatever it holds, if and only
      if it was given the flag and a policy. */
  lemma EmbGuardIff(g: Guard)
    ensures GuardsEmb(g) <==> g.rls && g.policy.Some?
  {
    if g.rls && g.policy.Some? {
      forall s: Session, rows: seq<Emb> ensures Filter(rows, EmbBy(g, s)) == Filter(rows, EmbFilter(s)) {
        FilterAgree(rows, EmbBy(g, s), EmbFilter(s));
      }
    } else {
      var row := Emb(0, 0, 0, 0, 0);
      var s := Session(if g.rls then Some(0) else None, {}, false);
      OneRow(row, EmbBy(g, s));
      OneRow(row, EmbFilter(s));
      assert Filter([row], EmbBy(g, s)) != Filter([row], EmbFilter(s));
    }
  }

  /** For a partition of the chunks the policy must be the one with labels. */
  lemma ChkGuardIff(g: Guard)
    ensures GuardsChk(g) <==> g == CHK_GUARD
  {
    if g == CHK_GUARD {
      forall s: Session, rows: seq<Chk> ensures Filter(rows, ChkBy(g, s)) == Filter(rows, ChkFilter(s)) {
        FilterAgree(rows, ChkBy(g, s), ChkFilter(s));
      }
    } else {
      var unlabelled, labelled := Chk(0, 0, 0, {}), Chk(0, 0, 0, {0});
      var s := Session(if g.rls then Some(0) else None, {}, false);
      var row := if g.rls && g.policy.Some? then labelled else unlabelled;
      OneRow(row, ChkBy(g, s));
      OneRow(row, ChkFilter(s));
      assert Filter([row], ChkBy(g, s)) != Filter([row], ChkFilter(s));
    }
  }

  /** What a session reads by naming the partitions one after another. */
  function ReadEmb(guards: seq<Guard>, parts: seq<seq<Emb>>, s: Session): seq<Emb>
    requires |guards| == |parts|
  {
    if parts == [] then [] else Filter(parts[0], EmbBy(guards[0], s)) + ReadEmb(guards[1..], parts[1..], s)
  }

  function ReadChk(guards: seq<Guard>, parts: seq<seq<Chk>>, s: Session): seq<Chk>
    requires |guards| == |parts|
  {
    if parts == [] then [] else Filter(parts[0], ChkBy(guards[0], s)) + ReadChk(guards[1..], parts[1..], s)
  }

  lemma {:induction false} EmbReadsAsParent(guards: seq<Guard>, parts: seq<seq<Emb>>, s: Session)
    requires |guards| == |parts| && forall i :: 0 <= i < |guards| ==> guards[i] == EMB_GUARD
    ensures ReadEmb(guards, parts, s) == Filter(Flatten(parts), EmbFilter(s))
  {
    if parts != [] {
      EmbReadsAsParent(guards[1..], parts[1..], s);
      FilterAgree(parts[0], EmbBy(guards[0], s), EmbFilter(s));
      FilterConcat(parts[0], Flatten(parts[1..]), EmbFilter(s));
    }
  }

  lemma {:induction false} ChkReadsAsParent(guards: seq<Guard>, parts: seq<seq<Chk>>, s: Session)
    requires |guards| == |parts| && forall i :: 0 <= i < |guards| ==> guards[i] == CHK_GUARD
    ensures ReadChk(guards, parts, s) == Filter(Flatten(parts), ChkFilter(s))
  {
    if parts != [] {
      ChkReadsAsParent(guards[1..], parts[1..], s);
      FilterAgree(parts[0], ChkBy(guards[0], s), ChkFilter(s));
      FilterConcat(parts[0], Flatten(parts[1..]), ChkFilter(s));
    }
  }

  /** After `_build` and any load at any modulus, going round the parent buys nothing: the partitions
      read by name show a session exactly what the policies admit of the unpartitioned relations. */
  lemma NamingPartitionsGrantsNothing(catalog: Catalog, s: Session, emb: seq<Emb>, chk: seq<Chk>, place: Id -> nat,
      modulus: nat)
    requires catalog.Built(modulus) && !s.bypassesRls
    requires s.tenant.Some? ==> place(s.tenant.value) < modulus
    ensures ReadEmb(catalog.emb, Route(emb, EmbTenant, place, modulus), s) == Filter(emb, EmbFilter(s))
    ensures ReadChk(catalog.chk, Route(chk, ChkTenant, place, modulus), s) == Filter(chk, ChkFilter(s))
  {
    var es, cs := Route(emb, EmbTenant, place, modulus), Route(chk, ChkTenant, place, modulus);
    EmbReadsAsParent(catalog.emb, es, s);
    ChkReadsAsParent(catalog.chk, cs, s);
    if s.tenant.Some? {
      RoutedRowsVisible(emb, EmbTenant, place, modulus, EmbFilter(s), place(s.tenant.value));
      RoutedRowsVisible(chk, ChkTenant, place, modulus, ChkFilter(s), place(s.tenant.value));
    } else {
      FilterNone(emb, EmbFilter(s));
      FilterNone(chk, ChkFilter(s));
      FilterNone(Flatten(es), EmbFilter(s));
      FilterNone(Flatten(cs), ChkFilter(s));
    }
  }
}
