/**
  Hash placement and widening, `backend/eval/modulus_cost.py`: which partition a tenant's rows go
  to, how many rows a query then reaches, and what that is on average over every placement.

  The seeded uuid hash is an arbitrary function to signed 64-bit integers.
 */
module Modulus {
  import opened Arith
  import opened Options
  import opened Seqs

  type Tenant = nat

  const TWO64: int := 18446744073709551616
  const HASH_COMBINE: int := 5305509591434766563

  predicate IsSigned64(h: int) { -TWO64 / 2 <= h < TWO64 / 2 }

  // ----- `_remainder` -----

  /** The signed hash as a numeric, made unsigned by hand, then `hash_combine64(0, h)`. */
  function Combined(h: int): (c: nat)
    requires IsSigned64(h)
    ensures c < TWO64 && (c - (h + HASH_COMBINE)) % TWO64 == 0
  {
    var unsigned: nat := h + if h < 0 then TWO64 else 0;
    (unsigned + HASH_COMBINE) % TWO64
  }

  function Remainder(h: int, modulus: nat): (r: nat)
    requires IsSigned64(h) && modulus > 0
    ensures r < modulus
  {
    Combined(h) % modulus
  }

  /** The by-hand conversion is unsigned 64-bit addition with wrap-around: the only value below
      2^64 congruent to the sum, so the only one any correct route can compute. */
  lemma CombinedIsWrapping(h: int, c: nat)
    requires -0x8000_0000_0000_0000 <= h < 0x8000_0000_0000_0000 && c < 0x1_0000_0000_0000_0000
    requires (c - (h + 0x49A0F4DD15E5A8E3)) % 0x1_0000_0000_0000_0000 == 0
    ensures c == Combined(h)
  {}

  lemma ModOfMod(x: nat, p: nat, k: nat)
    requires p > 0 && k > 0
    ensures p * k > 0 && (x % (p * k)) % p == x % p
  {
    MulMono(1, k, p);
    var big := p * k;
    var q, r := x / big, x % big;
    Euclid(r / p, r % p, p);
    assert x == (q * k + r / p) * p + r % p by {
      assert q * big == (q * k) * p;
      assert (q * k + r / p) * p == (q * k) * p + (r / p) * p;
    }
    Euclid(q * k + r / p, r % p, p);
  }

  // ----- Loading and widening -----

  /** Where each tenant goes. */
  type Hash = h: Tenant -> int | forall t :: IsSigned64(h(t)) witness (t: Tenant) => 0

  function InPartition(hash: Hash, modulus: nat, r: nat): Tenant -> bool
    requires modulus > 0
  {
    (t: Tenant) => Remainder(hash(t), modulus) == r
  }

  /** The rows (one tenant each) that a tenant's query reaches at a modulus. */
  function Reached(rows: seq<Tenant>, hash: Hash, modulus: nat, tenant: Tenant): seq<Tenant>
    requires modulus > 0
  {
    Filter(rows, InPartition(hash, modulus, Remainder(hash(tenant), modulus)))
  }

  /** Routing a load row by row leaves each partition holding exactly the rows of its residue. */
  method Load(rows: seq<Tenant>, hash: Hash, modulus: nat) returns (parts: array<seq<Tenant>>)
    requires modulus > 0
    ensures fresh(parts) && parts.Length == modulus
    ensures forall r :: 0 <= r < modulus ==> parts[r] == Filter(rows, InPartition(hash, modulus, r))
  {
    parts := new seq<Tenant>[modulus](_ => []);
    for i := 0 to |rows|
      invariant forall r :: 0 <= r < modulus ==> parts[r] == Filter(rows[..i], InPartition(hash, modulus, r))
    {
      var at := Remainder(hash(rows[i]), modulus);
      forall r | 0 <= r < modulus
        ensures Filter(rows[..i + 1], InPartition(hash, modulus, r))
             == Filter(rows[..i], InPartition(hash, modulus, r)) + (if r == at then [rows[i]] else [])
      {
        assert rows[..i + 1] == rows[..i] + [rows[i]];
        FilterConcat(rows[..i], [rows[i]], InPartition(hash, modulus, r));
      }
      parts[at] := parts[at] + [rows[i]];
    }
    assert rows[..|rows|] == rows;
  }

  /** What the planner computes: `hash_combine64(0, h)` in 64-bit arithmetic that wraps. */
  function Wrapped(h: int): (c: nat)
    ensures c < TWO64 && (c - (h + HASH_COMBINE)) % TWO64 == 0
  {
    (h + HASH_COMBINE) % TWO64
  }

  /** `satisfies_hash_partition`: the planner's own answer. */
  predicate Satisfies(hash: Hash, modulus: nat, remainder: nat, tenant: Tenant)
    requires modulus > 0
  {
    Wrapped(hash(tenant)) % modulus == remainder
  }

  datatype Widening = Widening(owned: nat, counted: nat, predicted: nat, authoritative: bool, routesAgree: bool,
                               share: Option<real>, widening: Option<real>)

  /** An exact ratio, or nothing over nothing. */
  function Ratio(a: nat, b: nat): Option<real> {
    if b == 0 then None else Some(a as real / b as real)
  }

  /** The ratio is the quotient. */
  lemma RatioMeans(a: nat, b: nat)
    ensures Ratio(a, b).None? <==> b == 0
    ensures Ratio(a, b).Some? ==> Ratio(a, b).value * b as real == a as real
  {}

  lemma RatioBounds(a: nat, b: nat)
    requires a <= b
    ensures Ratio(a, b).Some? ==> 0.0 <= Ratio(a, b).value <= 1.0
    ensures Ratio(b, a).Some? ==> Ratio(b, a).value >= 1.0
  {}

  /** `_widening`: counted by reading the partition the tenant hashes to, predicted by summing the
      row counts of the tenants sharing its remainder, and the remainder checked against the planner's.
      After any load, at any modulus, the three routes agree, the share reached is at most 1 and the
      widening at least 1.  No modulus (zero) is the unpartitioned table, which a query reaches whole. */
  method MeasureWidening(rows: seq<Tenant>, hash: Hash, modulus: nat, tenant: Tenant, sharing: seq<Tenant>)
    returns (w: Widening)
    requires NoDup(sharing)
    requires modulus > 0 ==> forall t ::
      t in sharing <==> t in rows && Remainder(hash(t), modulus) == Remainder(hash(tenant), modulus)
    ensures var reached := if modulus > 0 then |Reached(rows, hash, modulus, tenant)| else |rows|;
      && w.owned == Count(rows, tenant) && w.counted == w.predicted == reached
      && w.authoritative && w.routesAgree
      && w.share == (if modulus > 0 then Ratio(reached, |rows|) else Some(1.0))
      && w.widening == Ratio(reached, w.owned)
    ensures w.owned <= w.counted <= |rows|
    ensures w.share.Some? ==> 0.0 <= w.share.value <= 1.0
    ensures w.widening.Some? ==> w.widening.value >= 1.0
  {
    OwnedIsReached(rows, hash, 1, tenant);
    var owned := Count(rows, tenant);
    if modulus == 0 {
      RatioBounds(owned, |rows|);
      return Widening(owned, |rows|, |rows|, true, true, Some(1.0), Ratio(|rows|, owned));
    }
    var remainder := Remainder(hash(tenant), modulus);
    CombinedIsWrapping(hash(tenant), Wrapped(hash(tenant)));
    var authoritative := Satisfies(hash, modulus, remainder, tenant);
    var parts := Load(rows, hash, modulus);
    var counted := |parts[remainder]|;
    var predicted := 0;
    for i := 0 to |sharing|
      invariant predicted + Census(rows, sharing[i..]) == Census(rows, sharing)
    {
      predicted := predicted + Count(rows, sharing[i]);
      assert sharing[i..][1..] == sharing[i + 1..];
    }
    CensusIsFilter(rows, sharing, InPartition(hash, modulus, remainder));
    OwnedIsReached(rows, hash, modulus, tenant);
    RatioBounds(owned, counted);
    RatioBounds(counted, |rows|);
    return Widening(owned, counted, predicted, authoritative, counted == predicted && authoritative,
                    Ratio(counted, |rows|), Ratio(counted, owned));
  }

  lemma {:induction false} OwnedIsReached(rows: seq<Tenant>, hash: Hash, modulus: nat, tenant: Tenant)
    requires modulus > 0
    ensures Count(rows, tenant) <= |Reached(rows, hash, modulus, tenant)| <= |rows|
  {
    if rows != [] { OwnedIsReached(rows[1..], hash, modulus, tenant); }
  }

  /** When one modulus divides another, the finer partition is carved out of the coarser one: a
      query reaches no more rows, and never fewer than it owns. */
  lemma NestedModuli(rows: seq<Tenant>, hash: Hash, p: nat, k: nat, tenant: Tenant)
    requires p > 0 && k > 0
    ensures p * k > 0
    ensures Reached(Reached(rows, hash, p, tenant), hash, p * k, tenant) == Reached(rows, hash, p * k, tenant)
    ensures Count(rows, tenant) <= |Reached(rows, hash, p * k, tenant)| <= |Reached(rows, hash, p, tenant)|
  {
    MulMono(1, k, p);
    var coarse := InPartition(hash, p, Remainder(hash(tenant), p));
    var fine := InPartition(hash, p * k, Remainder(hash(tenant), p * k));
    forall t | fine(t) ensures coarse(t) {
      ModOfMod(Combined(hash(t)), p, k);
      ModOfMod(Combined(hash(tenant)), p, k);
    }
    FilterTwice(rows, coarse, fine, fine);
    OwnedIsReached(rows, hash, p * k, tenant);
    OwnedIsReached(Reached(rows, hash, p, tenant), hash, p * k, tenant);
  }

  function PartitionSizes(rows: seq<Tenant>, hash: Hash, modulus: nat, upTo: nat): nat
    requires modulus > 0
  {
    if upTo == 0 then 0
    else PartitionSizes(rows, hash, modulus, upTo - 1) + |Filter(rows, InPartition(hash, modulus, upTo - 1))|
  }

  lemma {:induction false} SizesCons(rows: seq<Tenant>, hash: Hash, modulus: nat, upTo: nat)
    requires modulus > 0 && rows != []
    ensures PartitionSizes(rows, hash, modulus, upTo)
         == PartitionSizes(rows[1..], hash, modulus, upTo) + (if Remainder(hash(rows[0]), modulus) < upTo then 1 else 0)
  {
    if upTo > 0 { SizesCons(rows, hash, modulus, upTo - 1); }
  }

  /** Nothing is lost in placement: the partitions' row counts add up to the corpus. */
  lemma {:induction false} PartitionsSumToCorpus(rows: seq<Tenant>, hash: Hash, modulus: nat)
    requires modulus > 0
    ensures PartitionSizes(rows, hash, modulus, modulus) == |rows|
  {
    if rows == [] {
      EmptySizes(hash, modulus, modulus);
    } else {
      PartitionsSumToCorpus(rows[1..], hash, modulus);
      SizesCons(rows, hash, modulus, modulus);
    }
  }

  lemma {:induction false} EmptySizes(hash: Hash, modulus: nat, upTo: nat)
    requires modulus > 0
    ensures PartitionSizes([], hash, modulus, upTo) == 0
  {
    if upTo > 0 { EmptySizes(hash, modulus, upTo - 1); }
  }

  // ----- Expectation over every placement -----

  function Power(p: nat, n: nat): nat {
    if n == 0 then 1 else p * Power(p, n - 1)
  }

  function Prefixed(r: nat, pls: seq<seq<nat>>): seq<seq<nat>> {
    if pls == [] then [] else [[r] + pls[0]] + Prefixed(r, pls[1..])
  }

  function PrefixedBelow(limit: nat, pls: seq<seq<nat>>): seq<seq<nat>> {
    if limit == 0 then [] else PrefixedBelow(limit - 1, pls) + Prefixed(limit - 1, pls)
  }

  /** Every way of placing `n` tenants in `p` partitions. */
  function Placements(n: nat, p: nat): seq<seq<nat>> {
    if n == 0 then [[]] else PrefixedBelow(p, Placements(n - 1, p))
  }

  /** The rows a partition holds when `own` rows are there already and each other tenant brings its
      rows if it lands there. */
  function Held(own: nat, others: seq<nat>, at: nat, placement: seq<nat>): nat
    requires |placement| == |others|
  {
    if others == [] then own
    else Held(own, others[1..], at, placement[1..]) + (if placement[0] == at then others[0] else 0)
  }

  function Counts(rows: seq<Tenant>, tenants: seq<Tenant>): (counts: seq<nat>)
    ensures |counts| == |tenants|
  {
    if tenants == [] then [] else [Count(rows, tenants[0])] + Counts(rows, tenants[1..])
  }

  /** Where the hash puts each tenant. */
  function Placed(hash: Hash, modulus: nat, tenants: seq<Tenant>): (placement: seq<nat>)
    requires modulus > 0
    ensures |placement| == |tenants| && forall i :: 0 <= i < |placement| ==> placement[i] < modulus
  {
    if tenants == [] then [] else [Remainder(hash(tenants[0]), modulus)] + Placed(hash, modulus, tenants[1..])
  }

  lemma {:induction false} HeldIsCensus(rows: seq<Tenant>, hash: Hash, modulus: nat, own: nat, others: seq<Tenant>,
      at: nat)
    requires modulus > 0
    ensures Held(own, Counts(rows, others), at, Placed(hash, modulus, others))
         == own + Census(rows, Filter(others, InPartition(hash, modulus, at)))
  {
    if others != [] {
      HeldIsCensus(rows, hash, modulus, own, others[1..], at);
      var counts, placed := Counts(rows, others[1..]), Placed(hash, modulus, others[1..]);
      assert ([Count(rows, others[0])] + counts)[1..] == counts;
      assert ([Remainder(hash(others[0]), modulus)] + placed)[1..] == placed;
      var rest := Filter(others[1..], InPartition(hash, modulus, at));
      assert ([others[0]] + rest)[1..] == rest;
    }
  }

  /** The rows a query reaches are what the expectation averages: its own and those of the tenants the
      hash happens to put beside it, and where the hash puts them is one of the placements. */
  lemma ReachedIsHeld(rows: seq<Tenant>, hash: Hash, modulus: nat, tenant: Tenant, others: seq<Tenant>)
    requires modulus > 0 && NoDup(others) && tenant !in others
    requires forall t :: t in rows ==> t == tenant || t in others
    ensures var placement := Placed(hash, modulus, others);
            && |Reached(rows, hash, modulus, tenant)|
               == Held(Count(rows, tenant), Counts(rows, others), Remainder(hash(tenant), modulus), placement)
            && placement in Placements(|others|, modulus)
  {
    var at := Remainder(hash(tenant), modulus);
    var p := InPartition(hash, modulus, at);
    var beside := Filter(others, p);
    HeldIsCensus(rows, hash, modulus, Count(rows, tenant), others, at);
    FilterNoDup(others, p);
    forall t ensures t in beside <==> t in others && p(t) { FilterKeeps(others, p, t); }
    var all := [tenant] + beside;
    assert all[1..] == beside;
    CensusIsFilter(rows, all, p);
    PlacementsHas(|others|, modulus, Placed(hash, modulus, others));
  }

  ghost predicate Long(pls: seq<seq<nat>>, n: nat) {
    forall i :: 0 <= i < |pls| ==> |pls[i]| == n
  }

  function TotalHeld(own: nat, others: seq<nat>, at: nat, pls: seq<seq<nat>>): nat
    requires Long(pls, |others|)
  {
    if pls == [] then 0 else Held(own, others, at, pls[0]) + TotalHeld(own, others, at, pls[1..])
  }

  lemma {:induction false} PrefixedShape(r: nat, pls: seq<seq<nat>>, n: nat)
    requires Long(pls, n)
    ensures |Prefixed(r, pls)| == |pls| && forall i :: 0 <= i < |pls| ==> Prefixed(r, pls)[i] == [r] + pls[i]
    ensures Long(Prefixed(r, pls), n + 1)
  {
    if pls != [] { PrefixedShape(r, pls[1..], n); }
  }

  lemma {:induction false} BelowShape(limit: nat, pls: seq<seq<nat>>, n: nat)
    requires Long(pls, n)
    ensures |PrefixedBelow(limit, pls)| == limit * |pls| && Long(PrefixedBelow(limit, pls), n + 1)
  {
    if limit > 0 {
      BelowShape(limit - 1, pls, n);
      PrefixedShape(limit - 1, pls, n);
      assert limit * |pls| == (limit - 1) * |pls| + |pls|;
    }
  }

  lemma PrefixedHas(r: nat, pls: seq<seq<nat>>, n: nat, x: seq<nat>)
    requires Long(pls, n)
    ensures x in Prefixed(r, pls) <==> |x| > 0 && x[0] == r && x[1..] in pls
  {
    PrefixedShape(r, pls, n);
    var all := Prefixed(r, pls);
    if |x| > 0 && x[0] == r && x[1..] in pls {
      var i :| 0 <= i < |pls| && pls[i] == x[1..];
      assert x == [r] + pls[i] == all[i];
    }
    if x in all {
      var i :| 0 <= i < |all| && all[i] == x;
      assert x[1..] == pls[i];
    }
  }

  lemma {:induction false} BelowHas(limit: nat, pls: seq<seq<nat>>, n: nat, x: seq<nat>)
    requires Long(pls, n)
    ensures x in PrefixedBelow(limit, pls) <==> |x| > 0 && x[0] < limit && x[1..] in pls
  {
    if limit > 0 {
      BelowHas(limit - 1, pls, n, x);
      PrefixedHas(limit - 1, pls, n, x);
    }
  }

  lemma {:induction false} BelowNoDup(limit: nat, pls: seq<seq<nat>>, n: nat)
    requires Long(pls, n) && NoDup(pls)
    ensures NoDup(PrefixedBelow(limit, pls))
  {
    if limit > 0 {
      BelowNoDup(limit - 1, pls, n);
      PrefixedShape(limit - 1, pls, n);
      var before, last := PrefixedBelow(limit - 1, pls), Prefixed(limit - 1, pls);
      forall i, j | 0 <= i < j < |last| ensures last[i] != last[j] {
        assert last[i][1..] == pls[i] && last[j][1..] == pls[j];
      }
      forall x | x in before ensures x !in last {
        BelowHas(limit - 1, pls, n, x);
        PrefixedHas(limit - 1, pls, n, x);
      }
      Apart(before, last);
    }
  }

  lemma Apart<T(!new)>(a: seq<T>, b: seq<T>)
    requires NoDup(a) && NoDup(b) && forall x :: x in a ==> x !in b
    ensures NoDup(a + b)
  {
    forall i, j | 0 <= i < j < |a + b| ensures (a + b)[i] != (a + b)[j] {
      if i < |a| <= j { assert a[i] in a && b[j - |a|] in b; }
    }
  }

  ghost predicate IsPlacement(x: seq<nat>, n: nat, p: nat) {
    |x| == n && forall i :: 0 <= i < n ==> x[i] < p
  }

  lemma PlacementCons(x: seq<nat>, n: nat, p: nat)
    requires n > 0
    ensures IsPlacement(x, n, p) <==> |x| > 0 && x[0] < p && IsPlacement(x[1..], n - 1, p)
  {
    if |x| > 0 && x[0] < p && IsPlacement(x[1..], n - 1, p) {
      forall i | 0 <= i < n ensures x[i] < p { if i > 0 { assert x[i] == x[1..][i - 1]; } }
    }
  }

  lemma {:induction false} PlacementsLong(n: nat, p: nat)
    ensures |Placements(n, p)| == Power(p, n) && Long(Placements(n, p), n)
  {
    if n > 0 {
      PlacementsLong(n - 1, p);
      BelowShape(p, Placements(n - 1, p), n - 1);
    }
  }

  lemma {:induction false} PlacementsHas(n: nat, p: nat, x: seq<nat>)
    ensures x in Placements(n, p) <==> IsPlacement(x, n, p)
  {
    if n > 0 {
      PlacementsLong(n - 1, p);
      BelowHas(p, Placements(n - 1, p), n - 1, x);
      PlacementCons(x, n, p);
      if |x| > 0 { PlacementsHas(n - 1, p, x[1..]); }
    }
  }

  /** `Placements` is the whole space, each placement once. */
  lemma {:induction false} PlacementsComplete(n: nat, p: nat)
    ensures |Placements(n, p)| == Power(p, n) && NoDup(Placements(n, p))
    ensures forall x: seq<nat> :: x in Placements(n, p) <==> IsPlacement(x, n, p)
  {
    PlacementsLong(n, p);
    if n > 0 {
      PlacementsComplete(n - 1, p);
      PlacementsLong(n - 1, p);
      BelowNoDup(p, Placements(n - 1, p), n - 1);
    }
    forall x: seq<nat> ensures x in Placements(n, p) <==> IsPlacement(x, n, p) { PlacementsHas(n, p, x); }
  }

  lemma {:induction false} TotalPrefixed(own: nat, others: seq<nat>, at: nat, r: nat, pls: seq<seq<nat>>)
    requires others != [] && Long(pls, |others| - 1)
    ensures Long(Prefixed(r, pls), |others|)
    ensures TotalHeld(own, others, at, Prefixed(r, pls))
         == TotalHeld(own, others[1..], at, pls) + (if r == at then |pls| * others[0] else 0)
  {
    PrefixedShape(r, pls, |others| - 1);
    if pls != [] {
      TotalPrefixed(own, others, at, r, pls[1..]);
      assert ([r] + pls[0])[1..] == pls[0];
      assert |pls| * others[0] == others[0] + |pls[1..]| * others[0];
    }
  }

  lemma {:induction false} TotalConcat(own: nat, others: seq<nat>, at: nat, a: seq<seq<nat>>, b: seq<seq<nat>>)
    requires Long(a, |others|) && Long(b, |others|)
    ensures Long(a + b, |others|)
    ensures TotalHeld(own, others, at, a + b) == TotalHeld(own, others, at, a) + TotalHeld(own, others, at, b)
  {
    if a == [] {
      assert a + b == b;
    } else {
      TotalConcat(own, others, at, a[1..], b);
      assert (a + b)[1..] == a[1..] + b;
    }
  }

  lemma {:induction false} TotalBelow(own: nat, others: seq<nat>, at: nat, limit: nat, pls: seq<seq<nat>>)
    requires others != [] && Long(pls, |others| - 1)
    ensures Long(PrefixedBelow(limit, pls), |others|)
    ensures TotalHeld(own, others, at, PrefixedBelow(limit, pls))
         == limit * TotalHeld(own, others[1..], at, pls) + (if at < limit then |pls| * others[0] else 0)
  {
    BelowShape(limit, pls, |others| - 1);
    if limit > 0 {
      TotalBelow(own, others, at, limit - 1, pls);
      TotalPrefixed(own, others, at, limit - 1, pls);
      TotalConcat(own, others, at, PrefixedBelow(limit - 1, pls), Prefixed(limit - 1, pls));
      OneMore(limit, TotalHeld(own, others[1..], at, pls));
    }
  }

  lemma OneMore(k: int, t: int)
    ensures k * t == (k - 1) * t + t
  {}

  function TotalOverPlacements(own: nat, others: seq<nat>, at: nat, p: nat): nat {
    PlacementsLong(|others|, p);
    TotalHeld(own, others, at, Placements(|others|, p))
  }

  lemma OneTenantMore(own: nat, others: seq<nat>, at: nat, p: nat)
    requires at < p && others != []
    ensures TotalOverPlacements(own, others, at, p)
         == p * TotalOverPlacements(own, others[1..], at, p) + Power(p, |others| - 1) * others[0]
  {
    PlacementsLong(|others|, p);
    PlacementsLong(|others| - 1, p);
    TotalBelow(own, others, at, p, Placements(|others| - 1, p));
  }

  /** Summed over every placement of the other tenants, a tenant's partition holds its own rows
      every time and everybody else's rows one time in `p`. */
  lemma {:induction false} ExpectedHeld(own: nat, others: seq<nat>, at: nat, p: nat)
    requires at < p
    ensures p * TotalOverPlacements(own, others, at, p) == Power(p, |others|) * (p * own + Sum(others))
  {
    if others == [] {
      assert TotalHeld(own, others, at, [[]]) == own;
    } else {
      var rest := others[1..];
      ExpectedHeld(own, rest, at, p);
      OneTenantMore(own, others, at, p);
      FoldExpectation(p, TotalOverPlacements(own, others, at, p), TotalOverPlacements(own, rest, at, p),
                      Power(p, |others|), Power(p, |rest|), others[0], p * own + Sum(rest));
    }
  }

  lemma FoldExpectation(p: nat, held: nat, before: nat, power: nat, fewer: nat, w: nat, mean: nat)
    requires held == p * before + fewer * w && power == p * fewer && p * before == fewer * mean
    ensures p * held == power * (mean + w)
  {
    assert p * held == p * (fewer * mean) + p * (fewer * w);
    assert power * (mean + w) == (p * fewer) * mean + (p * fewer) * w;
  }

  // ----- The closed form and the rule -----

  /** `_reached`: the share of the corpus a tenant of share `s` reaches. */
  function ClosedForm(s: real, p: nat): real
    requires p > 0
  {
    s + (1.0 - s) / p as real
  }

  /** `total` rows over `placements` placements average to the closed form of the tenant's share
      `own / corpus`, taken of the corpus. */
  predicate IsMean(total: nat, placements: nat, own: nat, corpus: nat, p: nat)
    requires corpus > 0 && p > 0
  {
    total as real == placements as real * (corpus as real * ClosedForm(own as real / corpus as real, p))
  }

  /** The closed form is the average over every placement, as shares of a corpus of `n` rows. */
  lemma ClosedFormIsMean(own: nat, others: seq<nat>, at: nat, p: nat)
    requires at < p && own + Sum(others) > 0
    ensures IsMean(TotalOverPlacements(own, others, at, p), Power(p, |others|), own, own + Sum(others), p)
  {
    ExpectedHeld(own, others, at, p);
    MeanAsShare(TotalOverPlacements(own, others, at, p), Power(p, |others|), own, Sum(others), p);
  }

  lemma MeanAsShare(total: nat, power: nat, own: nat, rest: nat, p: nat)
    requires p > 0 && own + rest > 0 && p * total == power * (p * own + rest)
    ensures IsMean(total, power, own, own + rest, p)
  {
    var n, q := (own + rest) as real, p as real;
    var s := own as real / n;
    assert n * s == own as real;
    var c := (1.0 - s) / q;
    assert c * q == 1.0 - s;
    assert n * (c * q) == n - own as real == rest as real;
    assert (n * (s + c)) * q == own as real * q + rest as real by {
      assert n * (s + c) == own as real + n * c;
      assert (n * c) * q == n * (c * q);
    }
    ScaleMean(total as real, power as real, n * (s + c), q, own as real * q + rest as real);
  }

  lemma ScaleMean(total: real, power: real, mean: real, q: real, scaled: real)
    requires q > 0.0 && total * q == power * scaled && mean * q == scaled
    ensures total == power * mean
  {
    assert (total - power * mean) * q == 0.0;
  }

  /** The floor: no modulus takes a tenant below its own share. */
  lemma ReachedHasFloor(s: real, p: nat)
    requires 0.0 <= s <= 1.0 && p > 0
    ensures s <= ClosedForm(s, p) <= 1.0
  {
    ShareOfRest(1.0 - s, p as real, (1.0 - s) / p as real);
  }

  lemma ShareOfRest(a: real, q: real, c: real)
    requires a >= 0.0 && q >= 1.0 && c * q == a
    ensures 0.0 <= c <= a
  {
    if c >= 0.0 { assert c * (q - 1.0) >= 0.0; }
  }

  /** The rule: a tenant of share `s` reaches at most `eps` extra rows exactly when the modulus is
      at least `(1 - s) / (eps * s)`. */
  lemma TheRule(s: real, eps: real, p: nat)
    requires 0.0 < s <= 1.0 && eps > 0.0 && p > 0
    ensures eps * s > 0.0
    ensures ClosedForm(s, p) <= (1.0 + eps) * s <==> p as real >= (1.0 - s) / (eps * s)
  {
    var extra, q := eps * s, p as real;
    assert extra > 0.0;
    var c, bound := (1.0 - s) / q, (1.0 - s) / extra;
    CrossOver(1.0 - s, q, extra, c, bound);
    assert (1.0 + eps) * s == s + extra;
  }

  lemma CrossOver(a: real, q: real, extra: real, c: real, bound: real)
    requires q > 0.0 && extra > 0.0 && c * q == a && bound * extra == a
    ensures c <= extra <==> q >= bound
  {
    if c <= extra {
      assert (extra - c) * q >= 0.0;
      assert (q - bound) * extra >= 0.0;
    } else {
      assert (c - extra) * q > 0.0;
      assert (bound - q) * extra > 0.0;
    }
  }
}
