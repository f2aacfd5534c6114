/**
  The lock barrier of `backend/eval/lock_budget.py`: N transactions take their locks from one
  shared table, wait on a gate until every one of them has finished taking or failed, and then
  let go together.

  The protocol is a step system over all interleavings (`Enabled`/`Apply`).  The lock table is
  the nominal one, `max_locks_per_transaction * (max_connections + max_prepared_transactions)`
  slots.  A failure may come from a full table or from anything else (`Break`), and after a
  failure the server may free any part of the worker's locks before the rollback frees the rest.
 */
module LockBudget {
  import opened Arith
  import opened Options
  import Seqs

  // ----- The gate -----

  datatype GateState = GateState(arrived: nat, isSet: bool)

  function ArriveAt(g: GateState, expected: nat): GateState {
    GateState(g.arrived + 1, g.isSet || g.arrived + 1 >= expected)
  }

  class Gate {
    const expected: nat
    var arrived: nat
    var event: bool

    function Contents(): GateState
      reads this
    {
      GateState(arrived, event)
    }

    constructor (expected: nat)
      ensures this.expected == expected && Contents() == GateState(0, false)
    {
      this.expected := expected;
      arrived, event := 0, false;
    }

    method Arrive()
      modifies this
      ensures Contents() == ArriveAt(old(Contents()), expected)
    {
      arrived := arrived + 1;
      if arrived >= expected {
        event := true;
      }
    }
  }

  // ----- The step system -----

  datatype Outcome = Clean | OutOfLocks | OtherError

  datatype Pc =
    | Start                      // before `connect()`
    | Planning                   // inside the `try`, taking locks
    | Waiting                    // arrived holding everything, awaiting the event
    | Failed(outcome: Outcome)   // arrived through the `except`, rollback pending
    | Finished(outcome: Outcome) // rolled back

  datatype Worker = Worker(demand: nat, pc: Pc, held: nat)

  datatype State = State(capacity: nat, workers: seq<Worker>, gate: GateState)

  datatype Step =
    | Connect(w: nat)
    | Lock(w: nat)
    | Exhaust(w: nat, kept: nat)
    | Break(w: nat, kept: nat)
    | Arrive(w: nat)
    | Wake(w: nat)
    | Rollback(w: nat)

  function Init(capacity: nat, demands: seq<nat>): State {
    State(capacity, seq(|demands|, i requires 0 <= i < |demands| => Worker(demands[i], Start, 0)),
          GateState(0, false))
  }

  function Total(ws: seq<Worker>, f: Worker -> nat): nat {
    if ws == [] then 0 else f(ws[0]) + Total(ws[1..], f)
  }

  function HeldOf(w: Worker): nat { w.held }
  function DemandOf(w: Worker): nat { w.demand }
  function ArrivedBit(w: Worker): nat { if w.pc.Start? || w.pc.Planning? then 0 else 1 }

  function Used(s: State): nat { Total(s.workers, HeldOf) }

  predicate Enabled(s: State, step: Step) {
    step.w < |s.workers| &&
    var w := s.workers[step.w];
    match step
    case Connect(_) => w.pc.Start?
    case Lock(_) => w.pc.Planning? && w.held < w.demand && Used(s) < s.capacity
    case Exhaust(_, kept) => w.pc.Planning? && w.held < w.demand && Used(s) >= s.capacity && kept <= w.held
    case Break(_, kept) => w.pc.Planning? && kept <= w.held
    case Arrive(_) => w.pc.Planning? && w.held == w.demand
    case Wake(_) => w.pc.Waiting? && s.gate.isSet
    case Rollback(_) => w.pc.Failed?
  }

  function Apply(s: State, step: Step): State
    requires Enabled(s, step)
  {
    var w := s.workers[step.w];
    var gate := if step.Exhaust? || step.Break? || step.Arrive? then ArriveAt(s.gate, |s.workers|) else s.gate;
    var w' := match step
      case Connect(_) => w.(pc := Planning)
      case Lock(_) => w.(held := w.held + 1)
      case Exhaust(_, kept) => w.(pc := Failed(OutOfLocks), held := kept)
      case Break(_, kept) => w.(pc := Failed(OtherError), held := kept)
      case Arrive(_) => w.(pc := Waiting)
      case Wake(_) => w.(pc := Finished(Clean), held := 0)
      case Rollback(_) => w.(pc := Finished(w.pc.outcome), held := 0);
    s.(workers := s.workers[step.w := w'], gate := gate)
  }

  ghost predicate Next(s: State, s': State) {
    exists step :: Enabled(s, step) && s' == Apply(s, step)
  }

  /** A run of the protocol: consecutive states, each one step after the last. */
  ghost predicate IsRun(capacity: nat, demands: seq<nat>, run: seq<State>) {
    |run| > 0 &&
    if |run| == 1 then run[0] == Init(capacity, demands)
    else IsRun(capacity, demands, run[..|run| - 1]) && Next(run[|run| - 2], run[|run| - 1])
  }

  function Last(run: seq<State>): State
    requires |run| > 0
  {
    run[|run| - 1]
  }

  predicate AllFinished(s: State) {
    forall i :: 0 <= i < |s.workers| ==> s.workers[i].pc.Finished?
  }

  predicate AllClean(s: State) {
    forall i :: 0 <= i < |s.workers| ==> s.workers[i].pc == Finished(Clean)
  }

  predicate EndsWith(w: Worker, o: Outcome) {
    (w.pc.Failed? || w.pc.Finished?) && w.pc.outcome == o
  }

  /** No worker has met an error other than a full lock table. */
  predicate NoOtherError(s: State) {
    forall i :: 0 <= i < |s.workers| ==> !EndsWith(s.workers[i], OtherError)
  }

  predicate NoExhaustion(s: State) {
    forall i :: 0 <= i < |s.workers| ==> !EndsWith(s.workers[i], OutOfLocks)
  }

  // ----- Totals -----

  lemma {:induction false} TotalUpdate(ws: seq<Worker>, i: nat, w: Worker, f: Worker -> nat)
    requires i < |ws|
    ensures Total(ws[i := w], f) + f(ws[i]) == Total(ws, f) + f(w)
  {
    if i == 0 {
      assert ws[i := w][1..] == ws[1..];
    } else {
      TotalUpdate(ws[1..], i - 1, w, f);
      assert ws[i := w][1..] == ws[1..][i - 1 := w];
    }
  }

  lemma {:induction false} TotalMonotone(ws: seq<Worker>, f: Worker -> nat, g: Worker -> nat)
    requires forall i :: 0 <= i < |ws| ==> f(ws[i]) <= g(ws[i])
    ensures Total(ws, f) <= Total(ws, g)
    ensures Total(ws, f) == Total(ws, g) <==> forall i :: 0 <= i < |ws| ==> f(ws[i]) == g(ws[i])
  {
    if ws != [] {
      var tail := ws[1..];
      assert forall i :: 0 <= i < |tail| ==> tail[i] == ws[i + 1];
      TotalMonotone(tail, f, g);
      if forall i :: 0 <= i < |tail| ==> f(tail[i]) == g(tail[i]) {
        forall i | 1 <= i < |ws| ensures f(ws[i]) == g(ws[i]) { assert ws[i] == tail[i - 1]; }
      } else {
        var i :| 0 <= i < |tail| && f(tail[i]) != g(tail[i]);
        assert f(ws[i + 1]) != g(ws[i + 1]);
      }
    }
  }

  function One(w: Worker): nat { 1 }

  lemma {:induction false} TotalOnes(ws: seq<Worker>)
    ensures Total(ws, One) == |ws|
  {
    if ws != [] { TotalOnes(ws[1..]); }
  }

  lemma {:induction false} InitTotals(ws: seq<Worker>)
    requires forall i :: 0 <= i < |ws| ==> ws[i].pc == Start && ws[i].held == 0
    ensures Total(ws, HeldOf) == 0 && Total(ws, ArrivedBit) == 0
  {
    if ws != [] { InitTotals(ws[1..]); }
  }

  // ----- What every step keeps -----

  predicate WorkerOk(w: Worker, isSet: bool) {
    match w.pc
    case Start => w.held == 0
    case Planning => w.held <= w.demand
    case Waiting => w.held == w.demand
    case Failed(o) => o != Clean && w.held <= w.demand
    case Finished(o) => w.held == 0 && (o == Clean ==> isSet)
  }

  ghost predicate Inv(s: State) {
    && Used(s) <= s.capacity
    && s.gate.arrived == Total(s.workers, ArrivedBit)
    && (s.gate.isSet <==> 0 < |s.workers| <= s.gate.arrived)
    && forall i :: 0 <= i < |s.workers| ==> WorkerOk(s.workers[i], s.gate.isSet)
  }

  predicate SameDemands(s: State, demands: seq<nat>) {
    |s.workers| == |demands| && forall i :: 0 <= i < |demands| ==> s.workers[i].demand == demands[i]
  }

  lemma StepKeepsCapacity(s: State, step: Step)
    requires Inv(s) && Enabled(s, step)
    ensures Used(Apply(s, step)) <= s.capacity
  {
    TotalUpdate(s.workers, step.w, Apply(s, step).workers[step.w], HeldOf);
  }

  lemma StepKeepsCount(s: State, step: Step)
    requires Inv(s) && Enabled(s, step)
    ensures Apply(s, step).gate.arrived == Total(Apply(s, step).workers, ArrivedBit)
  {
    TotalUpdate(s.workers, step.w, Apply(s, step).workers[step.w], ArrivedBit);
  }

  lemma StepKeepsWorkers(s: State, step: Step, i: nat)
    requires Inv(s) && Enabled(s, step) && i < |s.workers|
    ensures WorkerOk(Apply(s, step).workers[i], Apply(s, step).gate.isSet)
  {
    assert WorkerOk(s.workers[i], s.gate.isSet);
  }

  lemma StepKeepsInv(s: State, step: Step)
    requires Inv(s) && Enabled(s, step)
    ensures Inv(Apply(s, step))
  {
    StepKeepsCapacity(s, step);
    StepKeepsCount(s, step);
    var s' := Apply(s, step);
    forall i | 0 <= i < |s'.workers| ensures WorkerOk(s'.workers[i], s'.gate.isSet) { StepKeepsWorkers(s, step, i); }
  }

  /** Every state of every interleaving satisfies the invariant. */
  lemma {:induction false} RunKeepsInv(capacity: nat, demands: seq<nat>, run: seq<State>)
    requires IsRun(capacity, demands, run)
    ensures Inv(Last(run)) && Last(run).capacity == capacity && SameDemands(Last(run), demands)
  {
    if |run| == 1 {
      InitTotals(run[0].workers);
    } else {
      RunKeepsInv(capacity, demands, run[..|run| - 1]);
      var s := run[|run| - 2];
      var step :| Enabled(s, step) && run[|run| - 1] == Apply(s, step);
      StepKeepsInv(s, step);
    }
  }

  /** Once the event is set, every worker has arrived. */
  lemma SetMeansAllArrived(s: State)
    requires Inv(s) && s.gate.isSet
    ensures s.gate.arrived == |s.workers|
    ensures forall i :: 0 <= i < |s.workers| ==> ArrivedBit(s.workers[i]) == 1
  {
    TotalMonotone(s.workers, ArrivedBit, One);
    TotalOnes(s.workers);
    forall i | 0 <= i < |s.workers| ensures ArrivedBit(s.workers[i]) == 1 {
      assert ArrivedBit(s.workers[i]) == One(s.workers[i]);
    }
  }

  /** Barrier safety: no transaction lets go cleanly until every one has acquired or failed, and
      the gate counts each worker once. */
  lemma NoEarlyRelease(capacity: nat, demands: seq<nat>, run: seq<State>, w: nat)
    requires IsRun(capacity, demands, run)
    requires w < |demands| && w < |Last(run).workers| && Last(run).workers[w].pc == Finished(Clean)
    ensures Last(run).gate.arrived == |demands|
    ensures forall i :: 0 <= i < |Last(run).workers| ==>
              !Last(run).workers[i].pc.Start? && !Last(run).workers[i].pc.Planning?
  {
    RunKeepsInv(capacity, demands, run);
    var s := Last(run);
    assert WorkerOk(s.workers[w], s.gate.isSet);
    SetMeansAllArrived(s);
    forall i | 0 <= i < |s.workers| ensures !s.workers[i].pc.Start? && !s.workers[i].pc.Planning? {
      assert ArrivedBit(s.workers[i]) == 1;
    }
  }

  /** A worker that has arrived never arrives again, so the gate's counter moves once a worker. */
  lemma ArrivesOnce(s: State, step: Step)
    requires Inv(s) && Enabled(s, step)
    ensures forall i :: 0 <= i < |s.workers| ==>
              ArrivedBit(s.workers[i]) <= ArrivedBit(Apply(s, step).workers[i])
    ensures Apply(s, step).gate.arrived == s.gate.arrived +
              (if ArrivedBit(s.workers[step.w]) < ArrivedBit(Apply(s, step).workers[step.w]) then 1 else 0)
  {
    assert WorkerOk(s.workers[step.w], s.gate.isSet);
  }

  /** Every completed run ends with each worker counted exactly once. */
  lemma CompletedCount(capacity: nat, demands: seq<nat>, run: seq<State>)
    requires IsRun(capacity, demands, run) && AllFinished(Last(run))
    ensures Last(run).gate == GateState(|demands|, |demands| > 0)
  {
    RunKeepsInv(capacity, demands, run);
    var ws := Last(run).workers;
    forall i | 0 <= i < |ws| ensures ArrivedBit(ws[i]) == One(ws[i]) {}
    TotalMonotone(ws, ArrivedBit, One);
    TotalOnes(ws);
  }

  predicate Held(w: Worker) { w.pc.Waiting? && w.held == w.demand }
  predicate NotFailed(w: Worker) { w.pc.Waiting? || w.pc == Finished(Clean) }

  /** One step neither revives a failed worker after the event is set, nor sets the event while a
      clean worker still lacks a lock. */
  lemma BarrierStep(s: State, step: Step, i: nat)
    requires Inv(s) && Enabled(s, step) && i < |s.workers| && NotFailed(Apply(s, step).workers[i])
    ensures s.gate.isSet ==> NotFailed(s.workers[i])
    ensures !s.gate.isSet ==> Held(Apply(s, step).workers[i])
  {
    assert WorkerOk(s.workers[i], s.gate.isSet);
    if s.gate.isSet {
      SetMeansAllArrived(s);
      assert ArrivedBit(s.workers[i]) == 1;
    }
  }

  /** In `s`, every transaction that has not failed by `end` holds all of its locks. */
  ghost predicate AllHeld(end: State, s: State) {
    |s.workers| == |end.workers|
    && forall i :: 0 <= i < |s.workers| && NotFailed(end.workers[i]) ==> Held(s.workers[i])
  }

  /** One step carries the state in which all was held past it, or is the one that makes it. */
  lemma HeldStep(s: State, step: Step, at: State)
    requires Inv(s) && Enabled(s, step) && Apply(s, step).gate.isSet
    requires s.gate.isSet ==> AllHeld(s, at)
    requires !s.gate.isSet ==> at == Apply(s, step)
    ensures AllHeld(Apply(s, step), at)
  {
    var end := Apply(s, step);
    forall i | 0 <= i < |at.workers| && NotFailed(end.workers[i]) ensures Held(at.workers[i]) {
      BarrierStep(s, step, i);
    }
  }

  /** A run whose event is set has a state in which all was held. */
  lemma {:induction false} HeldOnRun(capacity: nat, demands: seq<nat>, run: seq<State>) returns (at: nat)
    requires IsRun(capacity, demands, run) && Last(run).gate.isSet
    ensures at < |run| && IsRun(capacity, demands, run[..at + 1])
    ensures AllHeld(Last(run), run[at])
  {
    var before := run[..|run| - 1];
    RunKeepsInv(capacity, demands, before);
    var s := Last(before);
    var step :| Enabled(s, step) && Last(run) == Apply(s, step);
    if s.gate.isSet {
      at := HeldOnRun(capacity, demands, before);
      assert run[..at + 1] == before[..at + 1];
    } else {
      at := |run| - 1;
      assert run[..at + 1] == run;
    }
    HeldStep(s, step, run[at]);
  }

  /** The barrier does its job: there is one state of the run in which every transaction that
      ends cleanly holds all of its locks. */
  lemma AllHeldAtOnce(capacity: nat, demands: seq<nat>, run: seq<State>) returns (at: nat)
    requires IsRun(capacity, demands, run) && Last(run).gate.isSet
    ensures at < |run| && IsRun(capacity, demands, run[..at + 1])
    ensures AllHeld(Last(run), run[at])
    ensures |Last(run).workers| == |run[at].workers| == |demands|
    ensures forall i :: 0 <= i < |demands| && Last(run).workers[i].pc == Finished(Clean)
                     ==> run[at].workers[i].held == demands[i]
  {
    at := HeldOnRun(capacity, demands, run);
    RunKeepsInv(capacity, demands, run[..at + 1]);
    forall i | 0 <= i < |demands| && Last(run).workers[i].pc == Finished(Clean)
      ensures run[at].workers[i].held == demands[i]
    {
      assert Held(run[at].workers[i]);
    }
  }

  // ----- Progress -----

  /** No reachable state deadlocks: until every worker has rolled back some step is enabled, and
      it need not be a spurious failure. */
  lemma Progress(s: State) returns (step: Step)
    requires Inv(s) && !AllFinished(s)
    ensures Enabled(s, step) && !step.Break?
  {
    if i :| 0 <= i < |s.workers| && s.workers[i].pc.Start? {
      step := Connect(i);
    } else if i :| 0 <= i < |s.workers| && s.workers[i].pc.Planning? {
      var w := s.workers[i];
      assert WorkerOk(w, s.gate.isSet);
      step := if w.held == w.demand then Arrive(i) else if Used(s) < s.capacity then Lock(i) else Exhaust(i, 0);
    } else if i :| 0 <= i < |s.workers| && s.workers[i].pc.Failed? {
      step := Rollback(i);
    } else {
      forall i | 0 <= i < |s.workers| ensures ArrivedBit(s.workers[i]) == One(s.workers[i]) {}
      TotalMonotone(s.workers, ArrivedBit, One);
      TotalOnes(s.workers);
      var i :| 0 <= i < |s.workers| && !s.workers[i].pc.Finished?;
      step := Wake(i);
    }
  }

  /** What a worker has left to do. */
  function Effort(w: Worker): nat {
    match w.pc
    case Start => w.demand + 3
    case Planning => if w.held <= w.demand then w.demand - w.held + 2 else 2
    case Waiting => 1
    case Failed(_) => 1
    case Finished(_) => 0
  }

  lemma StepSpendsEffort(s: State, step: Step)
    requires Inv(s) && Enabled(s, step)
    ensures Total(Apply(s, step).workers, Effort) < Total(s.workers, Effort)
  {
    var w' := Apply(s, step).workers[step.w];
    assert WorkerOk(s.workers[step.w], s.gate.isSet);
    TotalUpdate(s.workers, step.w, w', Effort);
  }

  /** Every run is finite: no interleaving is longer than the work there was. */
  lemma {:induction false} RunsAreBounded(capacity: nat, demands: seq<nat>, run: seq<State>)
    requires IsRun(capacity, demands, run)
    ensures |run| - 1 + Total(Last(run).workers, Effort) <= Total(Init(capacity, demands).workers, Effort)
  {
    if |run| > 1 {
      var before := run[..|run| - 1];
      RunsAreBounded(capacity, demands, before);
      RunKeepsInv(capacity, demands, before);
      var step :| Enabled(Last(before), step) && Last(run) == Apply(Last(before), step);
      StepSpendsEffort(Last(before), step);
    }
  }

  /** Any run extends to one in which every worker has finished, adding no spurious failure. */
  lemma {:induction false} Completes(capacity: nat, demands: seq<nat>, run: seq<State>) returns (full: seq<State>)
    requires IsRun(capacity, demands, run)
    ensures IsRun(capacity, demands, full) && run <= full && AllFinished(Last(full))
    ensures NoOtherError(Last(run)) ==> NoOtherError(Last(full))
    decreases Total(Last(run).workers, Effort)
  {
    RunKeepsInv(capacity, demands, run);
    var s := Last(run);
    if AllFinished(s) {
      full := run;
    } else {
      var step := Progress(s);
      var longer := run + [Apply(s, step)];
      assert longer[..|longer| - 1] == run;
      StepSpendsEffort(s, step);
      full := Completes(capacity, demands, longer);
    }
  }

  // ----- When the table is large enough -----

  lemma {:induction false} DemandTotal(ws: seq<Worker>, demands: seq<nat>)
    requires |ws| == |demands| && forall i :: 0 <= i < |ws| ==> ws[i].demand == demands[i]
    ensures Total(ws, DemandOf) == Seqs.Sum(demands)
  {
    if ws != [] { DemandTotal(ws[1..], demands[1..]); }
  }

  lemma ExhaustedMeansShort(s: State, step: Step)
    requires Inv(s) && Enabled(s, step) && step.Exhaust?
    ensures s.capacity < Total(s.workers, DemandOf)
  {
    forall i | 0 <= i < |s.workers| ensures HeldOf(s.workers[i]) <= DemandOf(s.workers[i]) {
      assert WorkerOk(s.workers[i], s.gate.isSet);
    }
    TotalMonotone(s.workers, HeldOf, DemandOf);
    assert HeldOf(s.workers[step.w]) != DemandOf(s.workers[step.w]);
  }

  /** With a slot for every lock anyone can want, no step of any interleaving finds the table full. */
  lemma {:induction false} EnoughNeverExhausts(capacity: nat, demands: seq<nat>, run: seq<State>)
    requires IsRun(capacity, demands, run) && Seqs.Sum(demands) <= capacity
    ensures NoExhaustion(Last(run))
    ensures forall step :: Enabled(Last(run), step) ==> !step.Exhaust?
  {
    RunKeepsInv(capacity, demands, run);
    var s := Last(run);
    DemandTotal(s.workers, demands);
    forall step | Enabled(s, step) ensures !step.Exhaust? {
      if step.Exhaust? { ExhaustedMeansShort(s, step); }
    }
    if |run| > 1 {
      EnoughNeverExhausts(capacity, demands, run[..|run| - 1]);
    }
  }

  /** A completed run free of other errors is clean exactly when the table holds every demand at
      once.  This is what makes a rung's verdict a statement about the table. */
  lemma {:induction false} VerdictIsCapacity(capacity: nat, demands: seq<nat>, run: seq<State>)
    requires IsRun(capacity, demands, run) && AllFinished(Last(run)) && NoOtherError(Last(run))
    ensures AllClean(Last(run)) <==> Seqs.Sum(demands) <= capacity
  {
    RunKeepsInv(capacity, demands, run);
    var s := Last(run);
    if Seqs.Sum(demands) <= capacity {
      EnoughNeverExhausts(capacity, demands, run);
      forall i | 0 <= i < |s.workers| ensures s.workers[i].pc == Finished(Clean) {
        assert !EndsWith(s.workers[i], OtherError) && !EndsWith(s.workers[i], OutOfLocks);
      }
    }
    if AllClean(s) && |demands| > 0 {
      assert WorkerOk(s.workers[0], s.gate.isSet);
      var at := AllHeldAtOnce(capacity, demands, run);
      RunKeepsInv(capacity, demands, run[..at + 1]);
      var t := run[at];
      assert t == Last(run[..at + 1]);
      forall i | 0 <= i < |t.workers| ensures HeldOf(t.workers[i]) == DemandOf(t.workers[i]) {
        assert NotFailed(s.workers[i]);
        assert Held(t.workers[i]);
      }
      TotalMonotone(t.workers, HeldOf, DemandOf);
      DemandTotal(t.workers, demands);
    }
  }

  // ----- Sizing -----

  /** `_server`: the nominal slots a setting of `max_locks_per_transaction` buys. */
  function NominalSlots(setting: nat, maxConnections: nat, prepared: nat): nat {
    setting * (maxConnections + prepared)
  }

  /** `_sizing`, pool-bounded: the source's negated floor division.  The divisor is positive, so
      Dafny's division floors as Python's does. */
  function PoolBounded(demand: nat, concurrency: nat, maxConnections: nat, prepared: nat): (m: nat)
    requires maxConnections + prepared > 0
    ensures forall setting: nat ::
              m <= setting <==> demand * concurrency <= NominalSlots(setting, maxConnections, prepared)
  {
    var n := maxConnections + prepared;
    var negated: int := (0 - demand) * concurrency;
    DivisionFloors(negated, n);
    CeilingIsLeast(demand * concurrency, n, negated / n);
    -(negated / n)
  }

  lemma DivisionFloors(a: int, n: nat)
    requires n > 0
    ensures (a / n) * n <= a < (a / n) * n + n
  {}

  lemma CeilingIsLeast(total: nat, n: nat, q: int)
    requires n > 0 && q * n <= 0 - total < q * n + n
    ensures q <= 0
    ensures forall k: nat :: -q <= k <==> total <= k * n
  {
    if q >= 1 { MulMono(1, q, n); }
    forall k: nat ensures -q <= k <==> total <= k * n {
      assert (-q) * n == -(q * n) && (-q - 1) * n == -(q * n) - n;
      if -q <= k { MulMono(-q, k, n); } else { MulMono(k, -q - 1, n); }
    }
  }

  function Uniform(demand: nat, concurrency: nat): seq<nat> {
    seq(concurrency, _ => demand)
  }

  lemma {:induction false} UniformSum(demand: nat, concurrency: nat)
    ensures Seqs.Sum(Uniform(demand, concurrency)) == demand * concurrency
  {
    if concurrency > 0 {
      UniformSum(demand, concurrency - 1);
      assert Uniform(demand, concurrency)[1..] == Uniform(demand, concurrency - 1);
    }
  }

  lemma {:induction false} SumBound(demands: seq<nat>, demand: nat)
    requires forall i :: 0 <= i < |demands| ==> demands[i] <= demand
    ensures Seqs.Sum(demands) <= demand * |demands|
  {
    if demands != [] {
      SumBound(demands[1..], demand);
      assert demand * |demands| == demand + demand * |demands[1..]|;
    }
  }

  /** The pool-bounded setting covers every load it was sized for: at most `concurrency`
      transactions, at most `demand` locks each, in any interleaving. */
  lemma SizedSettingIsSafe(demand: nat, concurrency: nat, maxConnections: nat, prepared: nat,
                           setting: nat, demands: seq<nat>, run: seq<State>)
    requires maxConnections + prepared > 0
    requires PoolBounded(demand, concurrency, maxConnections, prepared) <= setting
    requires |demands| <= concurrency && forall i :: 0 <= i < |demands| ==> demands[i] <= demand
    requires IsRun(NominalSlots(setting, maxConnections, prepared), demands, run)
    ensures NoExhaustion(Last(run))
    ensures forall step :: Enabled(Last(run), step) ==> !step.Exhaust?
  {
    SumBound(demands, demand);
    MulMono(|demands|, concurrency, demand);
    EnoughNeverExhausts(NominalSlots(setting, maxConnections, prepared), demands, run);
  }

  /** ... and it is the least one.  At any smaller setting every completed run of `concurrency`
      transactions of that demand has a failure, and a run whose only failures are a full lock
      table exists. */
  lemma SmallerSettingFails(demand: nat, concurrency: nat, maxConnections: nat, prepared: nat, setting: nat)
    returns (run: seq<State>)
    requires maxConnections + prepared > 0
    requires setting < PoolBounded(demand, concurrency, maxConnections, prepared)
    ensures var slots := NominalSlots(setting, maxConnections, prepared);
      var demands := Uniform(demand, concurrency);
      && (forall r :: IsRun(slots, demands, r) && AllFinished(Last(r)) ==> !AllClean(Last(r)))
      && IsRun(slots, demands, run) && AllFinished(Last(run)) && NoOtherError(Last(run)) && !NoExhaustion(Last(run))
  {
    var slots := NominalSlots(setting, maxConnections, prepared);
    var demands := Uniform(demand, concurrency);
    UniformSum(demand, concurrency);
    forall r | IsRun(slots, demands, r) && AllFinished(Last(r)) ensures !AllClean(Last(r)) {
      if AllClean(Last(r)) { VerdictIsCapacity(slots, demands, r); }
    }
    run := Completes(slots, demands, [Init(slots, demands)]);
    VerdictIsCapacity(slots, demands, run);
    var i :| 0 <= i < |Last(run).workers| && Last(run).workers[i].pc != Finished(Clean);
    assert EndsWith(Last(run).workers[i], OutOfLocks) by {
      assert !EndsWith(Last(run).workers[i], OtherError);
    }
  }

  /** `_sizing`, connection-bounded: the setting is the demand itself.  It is always enough for
      `maxConnections` transactions; it is the least such setting exactly when the prepared
      transactions' share of the table is too small to carry one lock per backend. */
  lemma ConnectionBounded(demand: nat, maxConnections: nat, prepared: nat)
    requires maxConnections > 0 && demand > 0
    ensures PoolBounded(demand, maxConnections, maxConnections, prepared) <= demand
    ensures PoolBounded(demand, maxConnections, maxConnections, prepared) == demand
            <==> (demand - 1) * prepared < maxConnections
  {
    var m := PoolBounded(demand, maxConnections, maxConnections, prepared);
    var less: nat := demand - 1;
    assert NominalSlots(demand, maxConnections, prepared) == demand * maxConnections + demand * prepared;
    assert NominalSlots(less, maxConnections, prepared) == demand * maxConnections - maxConnections + less * prepared;
    assert m <= less <==> demand * maxConnections <= NominalSlots(less, maxConnections, prepared);
  }

  /** One connection, one prepared transaction, two locks: a setting of one buys two slots. */
  lemma PreparedShareCarriesOne()
    ensures PoolBounded(2, 1, 1, 1) == 1
  {
    ConnectionBounded(2, 1, 1);
    assert 2 * 1 <= NominalSlots(1, 1, 1);
  }

  // ----- The ladder -----

  datatype Bracket = Bracket(clean: seq<nat>, broke: seq<nat>, highestClean: Option<nat>, lowestFailure: Option<nat>)

  function Highest(s: seq<nat>): (m: Option<nat>)
    ensures m.None? <==> s == []
    ensures m.Some? ==> m.value in s && forall c :: c in s ==> c <= m.value
  {
    if s == [] then None
    else
      assert s == [s[0]] + s[1..];
      var rest := Highest(s[1..]);
      if rest.None? || rest.value < s[0] then Some(s[0]) else rest
  }

  function Lowest(s: seq<nat>): (m: Option<nat>)
    ensures m.None? <==> s == []
    ensures m.Some? ==> m.value in s && forall c :: c in s ==> m.value <= c
  {
    if s == [] then None
    else
      assert s == [s[0]] + s[1..];
      var rest := Lowest(s[1..]);
      if rest.None? || s[0] < rest.value then Some(s[0]) else rest
  }

  /** The rungs whose transactions all fit and met no other error, or the others, in ladder order. */
  function Rungs(ladder: seq<nat>, ends: seq<State>, demand: nat, capacity: nat, sound: bool): seq<nat>
    requires |ends| == |ladder|
  {
    if ladder == [] then []
    else
      var n := |ladder| - 1;
      Rungs(ladder[..n], ends[..n], demand, capacity, sound)
        + (if Sound(demand, capacity, ladder[n], ends[n]) == sound then [ladder[n]] else [])
  }

  predicate Sound(demand: nat, capacity: nat, concurrent: nat, end: State) {
    demand * concurrent <= capacity && NoOtherError(end)
  }

  lemma {:induction false} RungIsOneOf(ladder: seq<nat>, ends: seq<State>, demand: nat, capacity: nat, sound: bool,
      rung: nat)
    requires |ends| == |ladder| && rung in Rungs(ladder, ends, demand, capacity, sound)
    ensures exists i :: 0 <= i < |ladder| && ladder[i] == rung && Sound(demand, capacity, rung, ends[i]) == sound
  {
    var n := |ladder| - 1;
    if rung in Rungs(ladder[..n], ends[..n], demand, capacity, sound) {
      RungIsOneOf(ladder[..n], ends[..n], demand, capacity, sound, rung);
      var i :| 0 <= i < n && ladder[..n][i] == rung && Sound(demand, capacity, rung, ends[..n][i]) == sound;
      assert ladder[i] == rung;
    } else {
      assert ladder[n] == rung;
    }
  }

  /** `x` stands before `y` in the list. */
  ghost predicate Before(s: seq<nat>, x: nat, y: nat) {
    exists a, b :: 0 <= a < b < |s| && s[a] == x && s[b] == y
  }

  lemma {:induction false} RungIsKept(ladder: seq<nat>, ends: seq<State>, demand: nat, capacity: nat, i: nat)
    requires |ends| == |ladder| && i < |ladder|
    ensures ladder[i] in Rungs(ladder, ends, demand, capacity, Sound(demand, capacity, ladder[i], ends[i]))
  {
    var n := |ladder| - 1;
    if i < n { RungIsKept(ladder[..n], ends[..n], demand, capacity, i); }
  }

  lemma {:induction false} RungsKeepOrder(ladder: seq<nat>, ends: seq<State>, demand: nat, capacity: nat, sound: bool,
      i: nat, j: nat)
    requires |ends| == |ladder| && i < j < |ladder|
    requires Sound(demand, capacity, ladder[i], ends[i]) == Sound(demand, capacity, ladder[j], ends[j]) == sound
    ensures Before(Rungs(ladder, ends, demand, capacity, sound), ladder[i], ladder[j])
  {
    var n := |ladder| - 1;
    var before := Rungs(ladder[..n], ends[..n], demand, capacity, sound);
    var all := Rungs(ladder, ends, demand, capacity, sound);
    if j < n {
      RungsKeepOrder(ladder[..n], ends[..n], demand, capacity, sound, i, j);
      var a, b :| 0 <= a < b < |before| && before[a] == ladder[i] && before[b] == ladder[j];
      assert all[a] == ladder[i] && all[b] == ladder[j];
    } else {
      RungIsKept(ladder[..n], ends[..n], demand, capacity, i);
      var a :| 0 <= a < |before| && before[a] == ladder[i];
      assert all[a] == ladder[i] && all[|before|] == ladder[j];
    }
  }

  lemma {:induction false} RungsSplit(ladder: seq<nat>, ends: seq<State>, demand: nat, capacity: nat)
    requires |ends| == |ladder|
    ensures multiset(Rungs(ladder, ends, demand, capacity, true))
          + multiset(Rungs(ladder, ends, demand, capacity, false)) == multiset(ladder)
  {
    if ladder != [] {
      var n := |ladder| - 1;
      RungsSplit(ladder[..n], ends[..n], demand, capacity);
      assert ladder == ladder[..n] + [ladder[n]];
    }
  }

  /** Every rung of the ladder is in one list, under its own verdict, and no rung is lost or moved. */
  ghost predicate Splits(ladder: seq<nat>, ends: seq<State>, clean: seq<nat>, broke: seq<nat>)
    requires |ends| == |ladder|
  {
    && multiset(clean) + multiset(broke) == multiset(ladder)
    && (forall i :: 0 <= i < |ladder| ==> ladder[i] in if AllClean(ends[i]) then clean else broke)
    && (forall i, j :: 0 <= i < j < |ladder| && AllClean(ends[i]) && AllClean(ends[j]) ==>
          Before(clean, ladder[i], ladder[j]))
    && (forall i, j :: 0 <= i < j < |ladder| && !AllClean(ends[i]) && !AllClean(ends[j]) ==>
          Before(broke, ladder[i], ladder[j]))
  }

  method AnyFailed(end: State) returns (failed: bool)
    ensures failed <==> !AllClean(end)
  {
    failed := false;
    for j := 0 to |end.workers|
      invariant failed <==> exists k :: 0 <= k < j && end.workers[k].pc != Finished(Clean)
    {
      if end.workers[j].pc != Finished(Clean) {
        failed := true;
      }
    }
  }

  /** What a rung's gathered results can be: the end of any completed run of its workers. */
  ghost predicate RungEnds(capacity: nat, demand: nat, concurrent: nat, end: State) {
    exists run :: IsRun(capacity, Uniform(demand, concurrent), run) && end == Last(run) && AllFinished(end)
  }

  /** A rung is clean exactly when its transactions fit the table together and none of them met
      another error. */
  lemma RungVerdict(capacity: nat, demand: nat, concurrent: nat, end: State)
    requires RungEnds(capacity, demand, concurrent, end)
    ensures AllClean(end) <==> Sound(demand, capacity, concurrent, end)
  {
    var run :| IsRun(capacity, Uniform(demand, concurrent), run) && end == Last(run) && AllFinished(end);
    UniformSum(demand, concurrent);
    if AllClean(end) || NoOtherError(end) {
      forall i | 0 <= i < |end.workers| ensures AllClean(end) ==> !EndsWith(end.workers[i], OtherError) {}
      VerdictIsCapacity(capacity, Uniform(demand, concurrent), run);
    }
  }

  /** The bracket is one: with no error but a full table, every clean rung lies below every broken one. */
  lemma RungsBracket(ladder: seq<nat>, ends: seq<State>, demand: nat, capacity: nat, low: nat, high: nat)
    requires |ends| == |ladder| && forall i :: 0 <= i < |ladder| ==> NoOtherError(ends[i])
    requires low in Rungs(ladder, ends, demand, capacity, true) && high in Rungs(ladder, ends, demand, capacity, false)
    ensures low < high
  {
    RungIsOneOf(ladder, ends, demand, capacity, true, low);
    RungIsOneOf(ladder, ends, demand, capacity, false, high);
    if high <= low { MulMono(high, low, demand); }
  }

  ghost predicate LadderEnds(capacity: nat, demand: nat, ladder: seq<nat>, ends: seq<State>) {
    |ends| == |ladder| && forall i :: 0 <= i < |ladder| ==> RungEnds(capacity, demand, ladder[i], ends[i])
  }

  lemma RungsAreSplit(demand: nat, capacity: nat, ladder: seq<nat>, ends: seq<State>)
    requires LadderEnds(capacity, demand, ladder, ends)
    ensures Splits(ladder, ends, Rungs(ladder, ends, demand, capacity, true),
                   Rungs(ladder, ends, demand, capacity, false))
  {
    RungsSplit(ladder, ends, demand, capacity);
    forall i | 0 <= i < |ladder| ensures AllClean(ends[i]) <==> Sound(demand, capacity, ladder[i], ends[i]) {
      RungVerdict(capacity, demand, ladder[i], ends[i]);
    }
    forall i | 0 <= i < |ladder|
      ensures ladder[i] in Rungs(ladder, ends, demand, capacity, AllClean(ends[i]))
    {
      RungIsKept(ladder, ends, demand, capacity, i);
    }
    forall i, j | 0 <= i < j < |ladder| && AllClean(ends[i]) == AllClean(ends[j])
      ensures Before(Rungs(ladder, ends, demand, capacity, AllClean(ends[i])), ladder[i], ladder[j])
    {
      RungsKeepOrder(ladder, ends, demand, capacity, AllClean(ends[i]), i, j);
    }
  }

  lemma ListedRung(demand: nat, capacity: nat, ladder: seq<nat>, ends: seq<State>, clean: bool, rung: nat)
    returns (i: nat)
    requires LadderEnds(capacity, demand, ladder, ends) && rung in Rungs(ladder, ends, demand, capacity, clean)
    ensures i < |ladder| && ladder[i] == rung && AllClean(ends[i]) == clean
    ensures clean ==> demand * rung <= capacity
  {
    RungIsOneOf(ladder, ends, demand, capacity, clean, rung);
    i :| 0 <= i < |ladder| && ladder[i] == rung && Sound(demand, capacity, rung, ends[i]) == clean;
    RungVerdict(capacity, demand, rung, ends[i]);
  }

  /** `_concurrency`: every rung's results, split by whether any worker failed, then bracketed.
      Whatever the interleavings were, each rung is listed under its own verdict, in ladder order; the
      highest clean rung is one and none is above it, the lowest broken one likewise; every clean rung
      fits; and when nothing but the table went wrong anywhere, every clean rung lies below every broken
      one. */
  method Concurrency(demand: nat, capacity: nat, ladder: seq<nat>, ends: seq<State>) returns (b: Bracket)
    requires LadderEnds(capacity, demand, ladder, ends)
    ensures Splits(ladder, ends, b.clean, b.broke)
    ensures forall i :: 0 <= i < |ladder| && AllClean(ends[i]) ==>
              b.highestClean.Some? && ladder[i] <= b.highestClean.value
    ensures forall i :: 0 <= i < |ladder| && !AllClean(ends[i]) ==>
              b.lowestFailure.Some? && b.lowestFailure.value <= ladder[i]
    ensures b.highestClean.Some? ==>
              exists i :: 0 <= i < |ladder| && ladder[i] == b.highestClean.value && AllClean(ends[i])
    ensures b.lowestFailure.Some? ==>
              exists i :: 0 <= i < |ladder| && ladder[i] == b.lowestFailure.value && !AllClean(ends[i])
    ensures b.highestClean.Some? ==> demand * b.highestClean.value <= capacity
    ensures b.highestClean.Some? && b.lowestFailure.Some? && (forall i :: 0 <= i < |ladder| ==> NoOtherError(ends[i]))
            ==> b.highestClean.value < b.lowestFailure.value
  {
    var clean, broke := [], [];
    for i := 0 to |ladder|
      invariant clean == Rungs(ladder[..i], ends[..i], demand, capacity, true)
      invariant broke == Rungs(ladder[..i], ends[..i], demand, capacity, false)
    {
      var failed := AnyFailed(ends[i]);
      RungVerdict(capacity, demand, ladder[i], ends[i]);
      assert ladder[..i + 1][..i] == ladder[..i] && ends[..i + 1][..i] == ends[..i];
      if failed {
        broke := broke + [ladder[i]];
      } else {
        clean := clean + [ladder[i]];
      }
    }
    assert ladder[..|ladder|] == ladder && ends[..|ladder|] == ends;
    b := Bracket(clean, broke, Highest(clean), Lowest(broke));
    RungsAreSplit(demand, capacity, ladder, ends);
    if b.highestClean.Some? {
      var i := ListedRung(demand, capacity, ladder, ends, true, b.highestClean.value);
    }
    if b.lowestFailure.Some? {
      var j := ListedRung(demand, capacity, ladder, ends, false, b.lowestFailure.value);
      if b.highestClean.Some? && forall i :: 0 <= i < |ladder| ==> NoOtherError(ends[i]) {
        RungsBracket(ladder, ends, demand, capacity, b.highestClean.value, b.lowestFailure.value);
      }
    }
  }
}
