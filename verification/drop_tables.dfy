/**
  The batched teardown `_drop_tables` of `backend/eval/modulus_cost.py` over a schema's catalogue.

  A statement is a transaction: it fails and changes nothing, or it drops its tables and, by
  CASCADE, every partition of a dropped parent.  Which statements fail is an arbitrary pattern.
  Partitions are ordinary tables and are not partitioned again.
 */
module DropTables {
  import opened Options
  import opened Seqs

  type Name = nat

  const BATCH: nat := 16

  datatype Kind = Ordinary | Partitioned
  datatype Table = Table(kind: Kind, parent: Option<Name>)
  datatype Statement = Statement(names: nat, removed: nat, ok: bool)

  type Schema = map<Name, Table>

  ghost predicate OneLevel(tables: Schema) {
    forall n :: n in tables && tables[n].parent.Some? ==>
      tables[n].kind == Ordinary && tables[n].parent.value in tables
      && tables[tables[n].parent.value].kind == Partitioned
  }

  /** What the listing query still returns: everything not kept. */
  function Candidates(tables: Schema, keep: set<Name>): set<Name> {
    set n | n in tables && n !in keep
  }

  /** A kept table survives unless it is a partition of a parent that is not kept. */
  predicate Safe(tables: Schema, keep: set<Name>, n: Name) {
    n in tables && n in keep && (tables[n].parent.Some? ==> tables[n].parent.value in keep)
  }

  /** No kept table hangs from a parent that is not kept. */
  ghost predicate KeepClosed(tables: Schema, keep: set<Name>) {
    forall n :: n in tables && n in keep ==> Safe(tables, keep, n)
  }

  function Dropped(tables: Schema, names: seq<Name>): Schema {
    map n | n in tables && n !in names && !(tables[n].parent.Some? && tables[n].parent.value in names) :: tables[n]
  }

  /** One page of the listing: ordinary tables first, so a parent appears only behind every
      ordinary table that is left. */
  ghost predicate IsPage(tables: Schema, keep: set<Name>, names: seq<Name>) {
    && NoDup(names)
    && (forall i :: 0 <= i < |names| ==> names[i] in Candidates(tables, keep))
    && (forall i, n ::
          (0 <= i < |names| && tables[names[i]].kind == Partitioned
           && n in Candidates(tables, keep) && tables[n].kind == Ordinary) ==> n in names[..i])
    && |names| <= BATCH
    && (names == [] ==> Candidates(tables, keep) == {})
  }

  function Elements(names: seq<Name>): set<Name> {
    set n | n in names
  }

  lemma {:induction false} ElementsCount(names: seq<Name>)
    requires NoDup(names)
    ensures |Elements(names)| == |names|
  {
    if names != [] {
      ElementsCount(names[1..]);
      assert names == [names[0]] + names[1..];
      assert Elements(names) == {names[0]} + Elements(names[1..]);
    }
  }

  lemma ParentListed(tables: Schema, keep: set<Name>, names: seq<Name>, n: Name)
    requires OneLevel(tables) && IsPage(tables, keep, names)
    requires n in Candidates(tables, keep) && tables[n].parent.Some? && tables[n].parent.value in names
    ensures n in names
  {
    var i :| 0 <= i < |names| && names[i] == tables[n].parent.value;
    assert n in names[..i];
  }

  lemma DropPageKeys(tables: Schema, keep: set<Name>, names: seq<Name>)
    requires OneLevel(tables) && IsPage(tables, keep, names)
    ensures Candidates(Dropped(tables, names), keep) == Candidates(tables, keep) - Elements(names)
    ensures KeepClosed(tables, keep) ==> Dropped(tables, names).Keys == tables.Keys - Elements(names)
  {
    forall n | n in Candidates(tables, keep) && tables[n].parent.Some? && tables[n].parent.value in names
      ensures n in names
    {
      ParentListed(tables, keep, names, n);
    }
  }

  /** Dropping a page removes exactly the page's candidates: CASCADE stays inside the batch. */
  lemma DropPage(tables: Schema, keep: set<Name>, names: seq<Name>)
    requires OneLevel(tables) && IsPage(tables, keep, names)
    ensures Shrinks(tables, Dropped(tables, names), keep)
    ensures Candidates(Dropped(tables, names), keep) == Candidates(tables, keep) - Elements(names)
    ensures |Candidates(Dropped(tables, names), keep)| == |Candidates(tables, keep)| - |names|
    ensures KeepClosed(tables, keep) ==> |Dropped(tables, names)| == |tables| - |names|
  {
    DropPageKeys(tables, keep, names);
    ElementsCount(names);
    Fewer(Candidates(tables, keep), Elements(names));
    Fewer(tables.Keys, Elements(names));
  }

  /** What teardown does to a schema, however far it gets. */
  ghost predicate Shrinks(before: Schema, after: Schema, keep: set<Name>) {
    && OneLevel(after)
    && (forall n :: n in after ==> n in before && after[n] == before[n])
    && (forall n :: Safe(before, keep, n) ==> Safe(after, keep, n))
    && (KeepClosed(before, keep) ==> KeepClosed(after, keep))
  }

  /** No statement names more than a batch; none removes more than it names while no kept table hangs
      from one that is dropped. */
  ghost predicate LogGrows(a: seq<Statement>, b: seq<Statement>, bounded: bool) {
    && a <= b
    && forall i :: |a| <= i < |b| ==> b[i].names <= 16 && (bounded ==> b[i].removed <= b[i].names)
  }

  ghost predicate OneMore(a: seq<Statement>, b: seq<Statement>, names: nat, ok: bool) {
    |b| == |a| + 1 && b[|a|].names == names && b[|a|].ok == ok
  }

  /** From `a` on the log has one statement a table, and only the last may have failed. */
  ghost predicate Singles(a: seq<Statement>, b: seq<Statement>, dropped: nat, all: bool) {
    && |b| == |a| + dropped + (if all then 0 else 1)
    && (forall i :: |a| <= i < |b| ==> b[i].names == 1)
    && (forall i :: |a| <= i < |a| + dropped ==> b[i].ok)
  }

  /** As many statements as there are sixteens in `dropped`, begun ones counted. */
  ghost predicate Batched(a: seq<Statement>, b: seq<Statement>, dropped: nat) {
    |b| == |a| + (dropped + 15) / 16
  }

  lemma SinglesNext(a: seq<Statement>, b: seq<Statement>, c: seq<Statement>, dropped: nat, ok: bool)
    requires Singles(a, b, dropped, true) && b <= c && OneMore(b, c, 1, ok)
    ensures Singles(a, c, if ok then dropped + 1 else dropped, ok)
  {}

  ghost predicate NoneFails(fails: nat -> bool) {
    forall i :: !fails(i)
  }

  /** When nothing fails, every batch so far was a full one or the last. */
  ghost predicate Calm(fails: nat -> bool, a: seq<Statement>, b: seq<Statement>, dropped: nat, left: set<Name>) {
    NoneFails(fails) ==> Batched(a, b, dropped) && (dropped % BATCH == 0 || left == {})
  }

  lemma CalmNext(fails: nat -> bool, a: seq<Statement>, b: seq<Statement>, c: seq<Statement>, dropped: nat,
      left: set<Name>, names: seq<Name>)
    requires Calm(fails, a, b, dropped, left) && OneMore(b, c, |names|, !fails(|b|))
    requires names != [] && |names| <= BATCH && Elements(names) <= left
    requires |names| < BATCH ==> Elements(names) == left
    ensures if fails(|b|) then !NoneFails(fails) else Calm(fails, a, c, dropped + |names|, left - Elements(names))
  {
    assert names[0] in Elements(names);
  }

  ghost predicate EndsOnFailedSingle(log: seq<Statement>) {
    log != [] && log[|log| - 1].names == 1 && !log[|log| - 1].ok
  }

  /** Where the fallback stands after its first `i` names. */
  ghost predicate Partway(start: Schema, tables: Schema, keep: set<Name>, names: seq<Name>, i: nat) {
    && i <= |names|
    && Shrinks(start, tables, keep)
    && Candidates(tables, keep) == Candidates(start, keep) - Elements(names[..i])
    && |Candidates(tables, keep)| == |Candidates(start, keep)| - i
  }

  /** Dropping the next name alone takes the fallback one name further, and no further. */
  lemma DropNext(start: Schema, tables: Schema, keep: set<Name>, names: seq<Name>, i: nat)
    requires OneLevel(start) && IsPage(start, keep, names) && i < |names|
    requires Partway(start, tables, keep, names, i)
    ensures Partway(start, Dropped(tables, [names[i]]), keep, names, i + 1)
    ensures KeepClosed(start, keep) ==> |Dropped(tables, [names[i]])| == |tables| - 1
  {
    NextIsPage(start, tables, keep, names, i);
    DropPage(tables, keep, [names[i]]);
    NextElement(names, i);
    ShrinksTwice(start, tables, Dropped(tables, [names[i]]), keep);
  }

  lemma NextIsPage(start: Schema, tables: Schema, keep: set<Name>, names: seq<Name>, i: nat)
    requires OneLevel(start) && IsPage(start, keep, names) && i < |names|
    requires Partway(start, tables, keep, names, i)
    ensures IsPage(tables, keep, [names[i]])
  {
    assert names[i] !in names[..i];
    assert names[i] in Candidates(start, keep);
  }

  lemma Fewer(whole: set<Name>, part: set<Name>)
    requires part <= whole
    ensures |whole - part| == |whole| - |part|
  {
    assert whole == (whole - part) + part;
  }

  lemma ShrinksTwice(a: Schema, b: Schema, c: Schema, keep: set<Name>)
    requires Shrinks(a, b, keep) && Shrinks(b, c, keep)
    ensures Shrinks(a, c, keep)
  {
    forall n | n in c ensures n in a && c[n] == a[n] { assert n in b; }
  }

  lemma LogGrowsTwice(a: seq<Statement>, b: seq<Statement>, c: seq<Statement>, bounded: bool, still: bool)
    requires LogGrows(a, b, bounded) && LogGrows(b, c, still) && (bounded ==> still)
    ensures LogGrows(a, c, bounded)
  {
    forall i | |a| <= i < |b| ensures c[i] == b[i] {}
  }

  /** A finished teardown leaves exactly the safe tables. */
  lemma FinishedLeavesSafe(before: Schema, after: Schema, keep: set<Name>)
    requires Shrinks(before, after, keep) && Candidates(after, keep) == {}
    ensures after.Keys == set n | n in before && Safe(before, keep, n)
  {
    forall n | n in after ensures Safe(before, keep, n) {
      assert n !in Candidates(after, keep);
      if after[n].parent.Some? { assert after[n].parent.value !in Candidates(after, keep); }
    }
  }

  /** How far the teardown has come. */
  ghost predicate Torn(fails: nat -> bool, start: Schema, first: seq<Statement>, tables: Schema, log: seq<Statement>,
      keep: set<Name>, dropped: nat)
  {
    && Shrinks(start, tables, keep)
    && dropped == |Candidates(start, keep)| - |Candidates(tables, keep)|
    && LogGrows(first, log, KeepClosed(start, keep))
    && Calm(fails, first, log, dropped, Candidates(tables, keep))
  }

  lemma TornOn(fails: nat -> bool, start: Schema, first: seq<Statement>, before: Schema, logged: seq<Statement>,
      tables: Schema, log: seq<Statement>, keep: set<Name>, dropped: nat, more: nat)
    requires Torn(fails, start, first, before, logged, keep, dropped)
    requires Shrinks(before, tables, keep) && LogGrows(logged, log, KeepClosed(before, keep))
    requires |Candidates(tables, keep)| == |Candidates(before, keep)| - more
    requires NoneFails(fails) ==> Calm(fails, first, log, dropped + more, Candidates(tables, keep))
    ensures Torn(fails, start, first, tables, log, keep, dropped + more)
  {
    ShrinksTwice(start, before, tables, keep);
    LogGrowsTwice(first, logged, log, KeepClosed(start, keep), KeepClosed(before, keep));
  }

  lemma NextElement(names: seq<Name>, i: nat)
    requires i < |names|
    ensures Elements(names[..i + 1]) == Elements(names[..i]) + Elements([names[i]])
  {
    assert names[..i + 1] == names[..i] + [names[i]];
  }

  class Catalog {
    const fails: nat -> bool
    var tables: Schema
    var log: seq<Statement>

    constructor (tables: Schema, fails: nat -> bool)
      ensures this.tables == tables && this.fails == fails && log == []
    {
      this.tables, this.fails, log := tables, fails, [];
    }

    /** `DROP TABLE IF EXISTS names CASCADE`, as one transaction. */
    method Drop(names: seq<Name>) returns (ok: bool)
      modifies this
      ensures ok == !fails(|old(log)|)
      ensures tables == if ok then Dropped(old(tables), names) else old(tables)
      ensures |tables| <= |old(tables)|
      ensures log == old(log) + [Statement(|names|, if ok then |old(tables)| - |tables| else 0, ok)]
    {
      ok := !fails(|log|);
      var removed: nat := 0;
      if ok {
        var after := Dropped(tables, names);
        assert after.Keys <= tables.Keys;
        Fewer(tables.Keys, after.Keys);
        removed := |tables| - |after|;
        tables := after;
      }
      log := log + [Statement(|names|, removed, ok)];
    }

    /** The listing query: `ORDER BY relkind DESC LIMIT BATCH`, in any order within a kind. */
    method List(keep: set<Name>) returns (names: seq<Name>)
      ensures IsPage(tables, keep, names)
      ensures |names| < BATCH ==> Elements(names) == Candidates(tables, keep)
    {
      var rest := set n | n in tables && n !in keep && tables[n].kind == Ordinary;
      var behind := set n | n in tables && n !in keep && tables[n].kind == Partitioned;
      ghost var ordinary, partitioned := rest, behind;
      assert Candidates(tables, keep) == ordinary + partitioned;
      names := [];
      while rest != {} && |names| < BATCH
        invariant NoDup(names) && |names| <= BATCH
        invariant Elements(names) + rest == ordinary && Elements(names) !! rest
        decreases rest
      {
        var n :| n in rest;
        rest := rest - {n};
        names := names + [n];
      }
      if rest != {} {
        return;
      }
      var parents: seq<Name> := [];
      while behind != {} && |names| + |parents| < BATCH
        invariant NoDup(parents) && |names| + |parents| <= BATCH
        invariant Elements(parents) + behind == partitioned && Elements(parents) !! behind
        decreases behind
      {
        var n :| n in behind;
        behind := behind - {n};
        parents := parents + [n];
      }
      PageOf(tables, keep, names, parents);
      if names + parents == [] {
        assert Elements(names) == {} == Elements(parents);
      }
      names := names + parents;
    }

    /** One statement over a page. */
    method DropListed(names: seq<Name>, keep: set<Name>) returns (ok: bool)
      requires OneLevel(tables) && IsPage(tables, keep, names)
      modifies this
      ensures Shrinks(old(tables), tables, keep)
      ensures Candidates(tables, keep) == Candidates(old(tables), keep) - (if ok then Elements(names) else {})
      ensures |Candidates(tables, keep)| == |Candidates(old(tables), keep)| - (if ok then |names| else 0)
      ensures LogGrows(old(log), log, KeepClosed(old(tables), keep))
      ensures OneMore(old(log), log, |names|, ok) && ok == !fails(|old(log)|)
      ensures !ok && |names| == 1 ==> EndsOnFailedSingle(log)
    {
      DropPage(tables, keep, names);
      ok := Drop(names);
    }

    /** One name of the fallback. */
    method DropAlone(ghost start: Schema, names: seq<Name>, i: nat, keep: set<Name>) returns (ok: bool)
      requires OneLevel(start) && IsPage(start, keep, names) && i < |names|
      requires Partway(start, tables, keep, names, i)
      modifies this
      ensures Partway(start, tables, keep, names, if ok then i + 1 else i)
      ensures LogGrows(old(log), log, KeepClosed(start, keep))
      ensures OneMore(old(log), log, 1, ok) && ok == !fails(|old(log)|)
      ensures !ok ==> EndsOnFailedSingle(log)
    {
      DropNext(start, tables, keep, names, i);
      ok := Drop([names[i]]);
    }

    /** The fallback: the page one table at a time, given up at the first that fails. */
    method DropEach(names: seq<Name>, keep: set<Name>) returns (dropped: nat, all: bool)
      requires OneLevel(tables) && IsPage(tables, keep, names)
      modifies this
      ensures Shrinks(old(tables), tables, keep)
      ensures |Candidates(tables, keep)| == |Candidates(old(tables), keep)| - dropped
      ensures LogGrows(old(log), log, KeepClosed(old(tables), keep))
      ensures if all then dropped == |names| else EndsOnFailedSingle(log)
      ensures Singles(old(log), log, dropped, all)
    {
      ghost var start, startLog := tables, log;
      ghost var bounded := KeepClosed(start, keep);
      dropped := 0;
      all := true;
      for i := 0 to |names|
        invariant dropped == i && Partway(start, tables, keep, names, i)
        invariant LogGrows(startLog, log, bounded) && Singles(startLog, log, dropped, true)
      {
        ghost var logged := log;
        all := DropAlone(start, names, i, keep);
        LogGrowsTwice(startLog, logged, log, bounded, bounded);
        SinglesNext(startLog, logged, log, dropped, all);
        if !all {
          return;
        }
        dropped := dropped + 1;
      }
    }

    /** One turn of the loop: the page in one statement, and table by table when that fails. */
    method Turn(ghost start: Schema, ghost first: seq<Statement>, names: seq<Name>, keep: set<Name>, dropped: nat)
      returns (more: nat, go: bool)
      requires OneLevel(tables) && IsPage(tables, keep, names) && names != []
      requires |names| < BATCH ==> Elements(names) == Candidates(tables, keep)
      requires Torn(fails, start, first, tables, log, keep, dropped)
      modifies this
      ensures Torn(fails, start, first, tables, log, keep, dropped + more)
      ensures |Candidates(tables, keep)| == |Candidates(old(tables), keep)| - more
      ensures if go then more > 0 else !NoneFails(fails) && EndsOnFailedSingle(log)
    {
      ghost var before, logged := tables, log;
      go := DropListed(names, keep);
      CalmNext(fails, first, logged, log, dropped, Candidates(before, keep), names);
      TornOn(fails, start, first, before, logged, tables, log, keep, dropped, if go then |names| else 0);
      if go {
        return |names|, true;
      }
      before, logged := tables, log;
      more, go := DropEach(names, keep);
      TornOn(fails, start, first, before, logged, tables, log, keep, dropped, more);
    }

    /** The teardown.  For every pattern of failures it ends; what it leaves is nothing, or what
        stood when dropping one table by itself failed.  The count is the number of listed tables
        gone.  No safe table is touched, and when it finishes exactly the safe ones are left.  When
        nothing fails there is one statement for every batch of tables. */
    method DropTables(keep: set<Name>) returns (dropped: nat)
      requires OneLevel(tables)
      modifies this
      ensures Shrinks(old(tables), tables, keep)
      ensures dropped == |Candidates(old(tables), keep)| - |Candidates(tables, keep)|
      ensures Candidates(tables, keep) == {} || EndsOnFailedSingle(log)
      ensures Candidates(tables, keep) == {} ==> tables.Keys == set n | n in old(tables) && Safe(old(tables), keep, n)
      ensures LogGrows(old(log), log, KeepClosed(old(tables), keep))
      ensures NoneFails(fails) ==> Candidates(tables, keep) == {} && Batched(old(log), log, dropped)
    {
      ghost var start, first := tables, log;
      dropped := 0;
      while true
        invariant Torn(fails, start, first, tables, log, keep, dropped)
        decreases |Candidates(tables, keep)|
      {
        var names := List(keep);
        if names == [] {
          FinishedLeavesSafe(start, tables, keep);
          return;
        }
        var more, go := Turn(start, first, names, keep, dropped);
        dropped := dropped + more;
        if !go {
          if Candidates(tables, keep) == {} { FinishedLeavesSafe(start, tables, keep); }
          return;
        }
      }
    }
  }

  lemma PageOf(tables: Schema, keep: set<Name>, ordinary: seq<Name>, parents: seq<Name>)
    requires NoDup(ordinary) && NoDup(parents) && |ordinary| + |parents| <= BATCH
    requires Elements(ordinary) == set n | n in tables && n !in keep && tables[n].kind == Ordinary
    requires forall n :: n in Elements(parents) ==> n in tables && n !in keep && tables[n].kind == Partitioned
    requires ordinary + parents == [] ==> Candidates(tables, keep) == {}
    ensures IsPage(tables, keep, ordinary + parents)
  {
    var names := ordinary + parents;
    forall i | 0 <= i < |names|
      ensures names[i] in Candidates(tables, keep) && (i < |ordinary| <==> tables[names[i]].kind == Ordinary)
    {
      if i < |ordinary| { assert names[i] in Elements(ordinary); } else { assert names[i] in Elements(parents); }
    }
    forall i, n | 0 <= i < |names| && tables[names[i]].kind == Partitioned
                  && n in Candidates(tables, keep) && tables[n].kind == Ordinary
      ensures n in names[..i]
    {
      assert n in Elements(ordinary);
      var j :| 0 <= j < |ordinary| && ordinary[j] == n;
      assert names[..i][j] == n;
    }
  }

  /** When the teardown finishes, every kept table has survived it exactly when none hung from a
      parent that was not kept. */
  lemma KeptSurviveIff(before: Schema, after: Schema, keep: set<Name>)
    requires OneLevel(before) && Shrinks(before, after, keep) && Candidates(after, keep) == {}
    ensures (forall n :: n in before && n in keep ==> n in after) <==> KeepClosed(before, keep)
  {
    FinishedLeavesSafe(before, after, keep);
  }

  /** The condition matters: keep a partition and drop its parent, and CASCADE takes it. */
  lemma CascadeTakesAKeptPartition()
    ensures var tables: Schema := map[1 := Table(Partitioned, None), 2 := Table(Ordinary, Some(1))];
      OneLevel(tables) && IsPage(tables, {2}, [1]) && 2 !in Dropped(tables, [1])
  {}
}
