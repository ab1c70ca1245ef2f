/** One call of RunExecution, layer by layer, for any answers of its steps. */
module RunLayers {
  import opened Common
  import opened WorkflowModel
  import opened Dag
  import opened Planner
  import opened Retry
  import opened VersionCounter

  /**
   * What executing a step reports: its verdict, whether it found its condition false, and how often it advanced
   * the engine's version counter.
   */
  datatype Report = Report(verdict: Verdict, conditionFalse: bool, bumps: nat)

  datatype Ending = PlanRejected(error: PlanError) | Completed | SuspendedRun | FailedRun

  predicate DepsMeet(s: StepDef, skip: set<string>) {
    exists d :: d in s.dependsOn && d in skip
  }

  /** Whether a step of a layer ends up in the skip set, given the skip set of the layers before. */
  predicate Skips(report: string -> Report, skip: set<string>, s: StepDef) {
    DepsMeet(s, skip) || report(s.id).conditionFalse
  }

  function SkippedIn(report: string -> Report, skip: set<string>, layer: seq<StepDef>): set<string> {
    set s | s in layer && Skips(report, skip, s) :: s.id
  }

  /** The skip set after the first `k` layers. */
  function SkipAfter(report: string -> Report, p: Plan, k: nat): set<string>
    requires k <= |p|
  {
    if k == 0 then {}
    else
      var before := SkipAfter(report, p, k - 1);
      before + SkippedIn(report, before, p[k - 1])
  }

  /** The step is executed in its layer and reports the verdict. */
  predicate Gives(report: string -> Report, skip: set<string>, s: StepDef, verdict: Verdict) {
    !DepsMeet(s, skip) && report(s.id).verdict == verdict
  }

  predicate LayerGives(report: string -> Report, skip: set<string>, layer: seq<StepDef>, verdict: Verdict) {
    exists s :: s in layer && Gives(report, skip, s, verdict)
  }

  predicate LayerPasses(report: string -> Report, skip: set<string>, layer: seq<StepDef>) {
    forall s :: s in layer ==> DepsMeet(s, skip) || report(s.id).verdict == Ok
  }

  /** No step of the layer depends on a step of the same layer. */
  predicate Independent(layer: seq<StepDef>) {
    forall s, t :: s in layer && t in layer ==> s.id !in t.dependsOn
  }

  predicate AllIndependent(p: Plan) {
    forall k :: 0 <= k < |p| ==> Independent(p[k])
  }

  lemma PlanLayersAreIndependent(steps: seq<StepDef>, p: Plan)
    requires IsPlan(steps, p)
    ensures AllIndependent(p)
  {
    forall k | 0 <= k < |p| ensures Independent(p[k]) {
      forall s, t | s in p[k] && t in p[k] ensures s.id !in t.dependsOn {
        if s.id in t.dependsOn {
          assert AtDepth(steps, k, s) && AtDepth(steps, k, t);
          assert s.id in Deps(steps, t.id);
          DependencyIsEarlier(steps, s.id, t.id, k, k);
        }
      }
    }
  }

  /** Skipping steps of the layer does not change which of its steps have a skipped dependency. */
  lemma LayerSkipsAreNew(layer: seq<StepDef>, skip0: set<string>, skip: set<string>, def: StepDef)
    requires def in layer && forall s :: s in layer ==> s.id !in def.dependsOn
    requires skip0 <= skip && forall x :: x in skip ==> x in skip0 || exists s :: s in layer && s.id == x
    ensures DepsMeet(def, skip) <==> DepsMeet(def, skip0)
  {}

  lemma QuietLayerPasses(report: string -> Report, skip: set<string>, layer: seq<StepDef>)
    requires !LayerGives(report, skip, layer, Err) && !LayerGives(report, skip, layer, SuspendedErr)
    ensures LayerPasses(report, skip, layer)
  {
    forall s | s in layer ensures DepsMeet(s, skip) || report(s.id).verdict == Ok {
      assert !Gives(report, skip, s, Err) && !Gives(report, skip, s, SuspendedErr);
    }
  }

  /** No layer but `m` holds the step. */
  predicate OnlyIn(p: Plan, x: string, m: nat) {
    forall k :: 0 <= k < |p| && k != m ==> NotIn(p[k], x)
  }

  predicate NotIn(layer: seq<StepDef>, x: string) {
    forall s :: s in layer ==> s.id != x
  }

  lemma PlannedOnlyIn(steps: seq<StepDef>, p: Plan, x: string, m: nat)
    requires IsPlan(steps, p) && LongestChain(steps, x, m)
    ensures OnlyIn(p, x, m)
  {
    forall k | 0 <= k < |p| && k != m ensures NotIn(p[k], x) {
      forall s | s in p[k] ensures s.id != x {
        assert AtDepth(steps, k, s);
        if s.id == x { LongestChainUnique(steps, x, m, k); }
      }
    }
  }

  lemma KeptOneLayer(p: Plan, report: string -> Report, x: string, k: nat)
    requires k < |p| && NotIn(p[k], x)
    ensures x in SkipAfter(report, p, k + 1) <==> x in SkipAfter(report, p, k)
  {}

  lemma {:induction false} StepStaysInItsLayer(p: Plan, report: string -> Report, x: string, m: nat, k: nat)
    requires m < k <= |p| && OnlyIn(p, x, m)
    ensures x in SkipAfter(report, p, k) <==> x in SkipAfter(report, p, m + 1)
    decreases k
  {
    if k != m + 1 {
      StepStaysInItsLayer(p, report, x, m, k - 1);
      KeptOneLayer(p, report, x, k - 1);
    }
  }

  lemma {:induction false} NotSkippedEarly(p: Plan, report: string -> Report, x: string, m: nat, k: nat)
    requires k <= m && k <= |p| && OnlyIn(p, x, m)
    ensures x !in SkipAfter(report, p, k)
  {
    if k == 0 {
    } else {
      NotSkippedEarly(p, report, x, m, k - 1);
      KeptOneLayer(p, report, x, k - 1);
    }
  }

  /** Whether a dependency is skipped is decided before the layer begins. */
  lemma DependencyDecided(steps: seq<StepDef>, p: Plan, report: string -> Report, s: StepDef, k: nat, m: nat, d: string)
    requires Plannable(steps) && IsPlan(steps, p) && k < |p| && s in p[k] && d in s.dependsOn && k <= m <= |p|
    ensures d in SkipAfter(report, p, k) <==> d in SkipAfter(report, p, m)
  {
    PlanRespectsDependencies(steps, p, k, s, d);
    var j :| 0 <= j < k && InLayer(p, j, d);
    var t :| t in p[j] && t.id == d;
    assert AtDepth(steps, j, t);
    PlannedOnlyIn(steps, p, d, j);
    StepStaysInItsLayer(p, report, d, j, k);
    StepStaysInItsLayer(p, report, d, j, m);
  }

  lemma DependenciesDecided(steps: seq<StepDef>, p: Plan, report: string -> Report, s: StepDef, k: nat, m: nat)
    requires Plannable(steps) && IsPlan(steps, p) && k < |p| && s in p[k] && k <= m <= |p|
    ensures DepsMeet(s, SkipAfter(report, p, k)) <==> exists d :: d in s.dependsOn && d in SkipAfter(report, p, m)
  {
    forall d | d in s.dependsOn ensures d in SkipAfter(report, p, k) <==> d in SkipAfter(report, p, m) {
      DependencyDecided(steps, p, report, s, k, m, d);
    }
  }

  /** In a layer that has been run, a step is skipped exactly for its condition or for a dependency. */
  lemma SkippedFor(steps: seq<StepDef>, p: Plan, report: string -> Report, k: nat, m: nat, s: StepDef)
    requires Plannable(steps) && IsPlan(steps, p) && k < m <= |p| && s in p[k]
    ensures s.id in SkipAfter(report, p, m)
      <==> report(s.id).conditionFalse || exists d :: d in s.dependsOn && d in SkipAfter(report, p, m)
  {
    assert AtDepth(steps, k, s);
    PlannedOnlyIn(steps, p, s.id, k);
    StepStaysInItsLayer(p, report, s.id, k, m);
    NotSkippedEarly(p, report, s.id, k, k);
    DependenciesDecided(steps, p, report, s, k, m);
    forall t | t in p[k] && t.id == s.id ensures t == s {
      assert DistinctIds(p[k]);
    }
  }

  lemma {:induction false} SkippedAreRun(p: Plan, report: string -> Report, m: nat, x: string)
    requires m <= |p| && x in SkipAfter(report, p, m)
    ensures exists k, s :: 0 <= k < m && s in p[k] && s.id == x
  {
    if m == 0 {
    } else if x in SkipAfter(report, p, m - 1) {
      SkippedAreRun(p, report, m - 1, x);
    }
  }

  /**
   * The skip set of a run through all layers does not depend on the order within layers: a step is in it exactly
   * when its condition was false or one of its dependencies is in it.
   */
  lemma SkipSetIsClosure(steps: seq<StepDef>, p: Plan, report: string -> Report, s: StepDef)
    requires Plannable(steps) && IsPlan(steps, p) && s in steps
    ensures var skip := SkipAfter(report, p, |p|);
      s.id in skip <==> report(s.id).conditionFalse || exists d :: d in s.dependsOn && d in skip
  {
    assert Placed(p, s);
    var k :| 0 <= k < |p| && s in p[k];
    SkippedFor(steps, p, report, k, |p|, s);
  }

  predicate PassesAt(report: string -> Report, p: Plan, k: nat) {
    k < |p| && LayerPasses(report, SkipAfter(report, p, k), p[k])
  }

  predicate PassesBefore(report: string -> Report, p: Plan, at: nat) {
    forall k :: 0 <= k < at ==> PassesAt(report, p, k)
  }

  /** How a run ends: it passes every layer, or layer `at - 1` is the first it does not pass. */
  predicate EndsAt(report: string -> Report, p: Plan, at: nat, stop: Verdict) {
    match stop
    case Ok => at == |p| && PassesBefore(report, p, at)
    case Err =>
      && 0 < at <= |p| && PassesBefore(report, p, at - 1)
      && LayerGives(report, SkipAfter(report, p, at - 1), p[at - 1], Err)
    case SuspendedErr =>
      && 0 < at <= |p| && PassesBefore(report, p, at - 1)
      && LayerGives(report, SkipAfter(report, p, at - 1), p[at - 1], SuspendedErr)
      && !LayerGives(report, SkipAfter(report, p, at - 1), p[at - 1], Err)
  }

  function Stopping(errors: seq<Verdict>): Verdict {
    if Err in errors then Err else if errors != [] then SuspendedErr else Ok
  }

  /** A layer's errors decide whether the run goes on. */
  lemma LayerDecided(report: string -> Report, p: Plan, k: nat, errors: seq<Verdict>)
    requires k < |p| && PassesBefore(report, p, k) && Ok !in errors
    requires SuspendedErr in errors <==> LayerGives(report, SkipAfter(report, p, k), p[k], SuspendedErr)
    requires Err in errors <==> LayerGives(report, SkipAfter(report, p, k), p[k], Err)
    ensures if Stopping(errors) == Ok then PassesBefore(report, p, k + 1) else EndsAt(report, p, k + 1, Stopping(errors))
  {
    if errors == [] {
      QuietLayerPasses(report, SkipAfter(report, p, k), p[k]);
    } else {
      assert errors[0] in errors && (errors[0] == Err || errors[0] == SuspendedErr);
    }
  }

  // ---- What a run does, said of its steps and their reports alone -----------------------------

  /** In the layers that were run, steps are skipped for a false condition or a skipped dependency, and no others. */
  ghost predicate SkipsSay(report: string -> Report, p: Plan, at: nat, skip: set<string>) {
    && at <= |p|
    && (forall k, s :: 0 <= k < at && s in p[k] ==>
          (s.id in skip <==> report(s.id).conditionFalse || exists d :: d in s.dependsOn && d in skip))
    && (forall x :: x in skip ==> exists k, s :: 0 <= k < at && s in p[k] && s.id == x)
  }

  /** Every step of the first `n` layers that has no skipped dependency was executed and returned nil. */
  ghost predicate PassesSay(report: string -> Report, p: Plan, n: nat, skip: set<string>) {
    && n <= |p|
    && (forall k, s :: 0 <= k < n && s in p[k] ==> report(s.id).verdict == Ok || exists d :: d in s.dependsOn && d in skip)
  }

  /** Some step of layer `k` has no skipped dependency and returned the verdict. */
  ghost predicate SomeReturns(report: string -> Report, p: Plan, k: nat, skip: set<string>, verdict: Verdict) {
    k < |p| && exists s :: s in p[k] && report(s.id).verdict == verdict && forall d :: d in s.dependsOn ==> d !in skip
  }

  lemma SkipsSayAfter(steps: seq<StepDef>, p: Plan, report: string -> Report, at: nat)
    requires Plannable(steps) && IsPlan(steps, p) && at <= |p|
    ensures SkipsSay(report, p, at, SkipAfter(report, p, at))
  {
    var skip := SkipAfter(report, p, at);
    forall k, s | 0 <= k < at && s in p[k]
      ensures s.id in skip <==> report(s.id).conditionFalse || exists d :: d in s.dependsOn && d in skip
    {
      SkippedFor(steps, p, report, k, at, s);
    }
    forall x | x in skip ensures exists k, s :: 0 <= k < at && s in p[k] && s.id == x {
      SkippedAreRun(p, report, at, x);
    }
  }

  lemma PassesSayBefore(steps: seq<StepDef>, p: Plan, report: string -> Report, n: nat, at: nat)
    requires Plannable(steps) && IsPlan(steps, p) && n <= at <= |p| && PassesBefore(report, p, n)
    ensures PassesSay(report, p, n, SkipAfter(report, p, at))
  {
    forall k, s | 0 <= k < n && s in p[k]
      ensures report(s.id).verdict == Ok || exists d :: d in s.dependsOn && d in SkipAfter(report, p, at)
    {
      assert PassesAt(report, p, k);
      DependenciesDecided(steps, p, report, s, k, at);
    }
  }

  lemma SomeReturnsIff(steps: seq<StepDef>, p: Plan, report: string -> Report, k: nat, verdict: Verdict)
    requires Plannable(steps) && IsPlan(steps, p) && k < |p|
    ensures LayerGives(report, SkipAfter(report, p, k), p[k], verdict)
      <==> SomeReturns(report, p, k, SkipAfter(report, p, k + 1), verdict)
  {
    forall s | s in p[k]
      ensures DepsMeet(s, SkipAfter(report, p, k)) <==> exists d :: d in s.dependsOn && d in SkipAfter(report, p, k + 1)
    {
      DependenciesDecided(steps, p, report, s, k, k + 1);
    }
    forall s | s in p[k] && Gives(report, SkipAfter(report, p, k), s, verdict)
      ensures SomeReturns(report, p, k, SkipAfter(report, p, k + 1), verdict)
    {}
    forall s | s in p[k] && report(s.id).verdict == verdict && (forall d :: d in s.dependsOn ==> d !in SkipAfter(report, p, k + 1))
      ensures LayerGives(report, SkipAfter(report, p, k), p[k], verdict)
    {
      assert Gives(report, SkipAfter(report, p, k), s, verdict);
    }
  }

  /** The ending of a run, its skip set and where it stopped, in these terms. */
  ghost predicate RunSays(report: string -> Report, p: Plan, at: nat, stop: Verdict, skip: set<string>) {
    && SkipsSay(report, p, at, skip)
    && match stop
       case Ok => at == |p| && PassesSay(report, p, at, skip)
       case Err => at > 0 && PassesSay(report, p, at - 1, skip) && SomeReturns(report, p, at - 1, skip, Err)
       case SuspendedErr =>
         && at > 0 && PassesSay(report, p, at - 1, skip) && SomeReturns(report, p, at - 1, skip, SuspendedErr)
         && !SomeReturns(report, p, at - 1, skip, Err)
  }

  lemma StoppingSays(steps: seq<StepDef>, p: Plan, report: string -> Report, at: nat, stop: Verdict)
    requires Plannable(steps) && IsPlan(steps, p) && 0 < at <= |p| && stop != Ok && EndsAt(report, p, at, stop)
    ensures SomeReturns(report, p, at - 1, SkipAfter(report, p, at), stop)
    ensures stop == SuspendedErr ==> !SomeReturns(report, p, at - 1, SkipAfter(report, p, at), Err)
  {
    SomeReturnsIff(steps, p, report, at - 1, Err);
    SomeReturnsIff(steps, p, report, at - 1, SuspendedErr);
  }

  lemma EndingSays(steps: seq<StepDef>, p: Plan, report: string -> Report, at: nat, stop: Verdict)
    requires Plannable(steps) && IsPlan(steps, p) && at <= |p| && EndsAt(report, p, at, stop)
    ensures RunSays(report, p, at, stop, SkipAfter(report, p, at))
  {
    SkipsSayAfter(steps, p, report, at);
    if stop == Ok {
      PassesSayBefore(steps, p, report, at, at);
    } else {
      PassesSayBefore(steps, p, report, at - 1, at);
      StoppingSays(steps, p, report, at, stop);
    }
  }

  /** Over the steps of a completed run. */
  lemma CompletedSays(steps: seq<StepDef>, p: Plan, report: string -> Report, at: nat, skip: set<string>, s: StepDef)
    requires IsPlan(steps, p) && RunSays(report, p, at, Ok, skip) && s in steps
    ensures s.id in skip <==> report(s.id).conditionFalse || exists d :: d in s.dependsOn && d in skip
    ensures report(s.id).verdict == Ok || exists d :: d in s.dependsOn && d in skip
  {
    assert Placed(p, s);
  }

  function VerdictOf(ending: Ending): Verdict {
    match ending
    case Completed => Ok
    case SuspendedRun => SuspendedErr
    case _ => Err
  }

  /** A run ends in only one way: where and how it stops is decided by the steps' reports alone. */
  lemma EndingIsUnique(report: string -> Report, p: Plan, at: nat, stop: Verdict, at': nat, stop': Verdict)
    requires EndsAt(report, p, at, stop) && EndsAt(report, p, at', stop')
    ensures at == at' && stop == stop'
  {
    if stop != Ok { StoppedDoesNotPass(report, p, at, stop); }
    if stop' != Ok { StoppedDoesNotPass(report, p, at', stop'); }
  }

  lemma StoppedDoesNotPass(report: string -> Report, p: Plan, at: nat, stop: Verdict)
    requires EndsAt(report, p, at, stop) && stop != Ok
    ensures !PassesAt(report, p, at - 1)
  {
    var s :| s in p[at - 1] && Gives(report, SkipAfter(report, p, at - 1), s, stop);
  }

  class Engine {
    /** The counter the engine takes the versions of its execution updates from; all its runs share it. */
    var version: int
    /** What the runs of this engine have done to the counter. */
    ghost var log: seq<Op>

    ghost predicate Valid()
      reads this
    {
      version == CounterAfter(log)
    }

    constructor ()
      ensures Valid() && log == []
    {
      version, log := 0, [];
    }

    method Apply(op: Op)
      requires Valid()
      modifies this
      ensures Valid() && log == old(log) + [op] && version == AfterOp(old(version), op)
    {
      version, log := AfterOp(version, op), log + [op];
      assert log[..|log| - 1] == old(log);
    }

    /** Other runs of this engine act, in any way and any number of times. */
    method Yield(run: nat)
      requires Valid()
      modifies this
      ensures Valid() && old(log) <= log
    {
      var ops: seq<Op> := *;
      for i := 0 to |ops|
        invariant Valid() && old(log) <= log
      {
        if ops[i].run != run {
          Apply(ops[i]);
        }
      }
    }

    method NextVersion(run: nat) returns (v: int)
      requires Valid()
      modifies this
      ensures Valid() && log == old(log) + [Next(run)] && v == version == old(version) + 1
    {
      Apply(Next(run));
      v := version;
    }

    /** The claims a step makes advance the counter, with other runs in between. */
    method Advance(run: nat, bumps: nat)
      requires Valid()
      modifies this
      ensures Valid() && old(log) <= log
    {
      for i := 0 to bumps
        invariant Valid() && old(log) <= log
      {
        Yield(run);
        var unused := NextVersion(run);
      }
    }

    /** One layer: its steps run in any order, each skipped if a dependency was skipped before the layer began. */
    method RunLayer(run: nat, layer: seq<StepDef>, report: string -> Report, skip0: set<string>)
      returns (skip: set<string>, errors: seq<Verdict>)
      requires Valid() && Independent(layer)
      modifies this
      ensures skip == skip0 + SkippedIn(report, skip0, layer)
      ensures Ok !in errors
      ensures SuspendedErr in errors <==> LayerGives(report, skip0, layer, SuspendedErr)
      ensures Err in errors <==> LayerGives(report, skip0, layer, Err)
      ensures forall s :: s in layer && s.id !in skip0 ==>
        (s.id in skip ==> exists t :: t in layer && t.id == s.id && (report(t.id).conditionFalse || exists d :: d in t.dependsOn && d in skip0))
      ensures forall s :: s in layer && (report(s.id).conditionFalse || exists d :: d in s.dependsOn && d in skip0) ==> s.id in skip
      ensures Valid() && old(log) <= log
    {
      skip, errors := skip0, [];
      var waiting := set s | s in layer;
      while waiting != {}
        invariant forall s :: s in waiting ==> s in layer
        invariant skip == skip0 + set s | s in layer && s !in waiting && Skips(report, skip0, s) :: s.id
        invariant Ok !in errors
        invariant SuspendedErr in errors <==> exists s :: s in layer && s !in waiting && Gives(report, skip0, s, SuspendedErr)
        invariant Err in errors <==> exists s :: s in layer && s !in waiting && Gives(report, skip0, s, Err)
        invariant Valid() && old(log) <= log
      {
        var def :| def in waiting;
        LayerSkipsAreNew(layer, skip0, skip, def);
        if exists d :: d in def.dependsOn && d in skip {
          skip := skip + {def.id};
        } else {
          var r := report(def.id);
          Advance(run, r.bumps);
          if r.conditionFalse {
            skip := skip + {def.id};
          }
          if r.verdict != Ok {
            errors := errors + [r.verdict];
          }
        }
        waiting := waiting - {def};
      }
    }

    /** The last operation on the counter is one of this run. */
    ghost predicate JustNamed(run: nat)
      reads this
    {
      log != [] && log[|log| - 1] == Next(run)
    }

    /** Handles a layer's errors in the order they arrived; a failure ends the run at once, a suspension at the end. */
    method HandleErrors(run: nat, errors: seq<Verdict>) returns (stop: Verdict)
      requires Valid() && Ok !in errors
      modifies this
      ensures stop == Stopping(errors)
      ensures Valid() && old(log) <= log && (stop != Ok ==> |log| > |old(log)| && JustNamed(run))
    {
      var suspended := false;
      for i := 0 to |errors|
        invariant Err !in errors[..i] && (suspended <==> i > 0)
        invariant Valid() && old(log) <= log && (suspended ==> |log| > |old(log)| && JustNamed(run))
      {
        Yield(run);
        if errors[i] == SuspendedErr {
          var suspending := NextVersion(run);
          suspended := true;
        } else {
          assert errors[i] in errors;
          var compensating := NextVersion(run);
          Yield(run);
          var failed := NextVersion(run);
          return Err;
        }
      }
      stop := if suspended then SuspendedErr else Ok;
    }

    /** Runs the layers in order, up to the first one in which an executed step does not return nil. */
    method RunPlan(run: nat, plan: Plan, report: string -> Report)
      returns (stop: Verdict, at: nat, skip: set<string>)
      requires Valid() && AllIndependent(plan)
      modifies this
      ensures EndsAt(report, plan, at, stop) && skip == SkipAfter(report, plan, at)
      ensures Valid() && old(log) <= log && (stop != Ok ==> |log| > |old(log)| && JustNamed(run))
    {
      at, skip, stop := 0, {}, Ok;
      while at < |plan|
        invariant at <= |plan| && skip == SkipAfter(report, plan, at)
        invariant stop == Ok && PassesBefore(report, plan, at)
        invariant Valid() && old(log) <= log
      {
        var errors;
        skip, errors := RunLayer(run, plan[at], report, skip);
        stop := HandleErrors(run, errors);
        LayerDecided(report, plan, at, errors);
        at := at + 1;
        if stop != Ok {
          return;
        }
      }
    }

    /**
     * The whole run: a plan that cannot be built is refused; otherwise the run completes, is suspended or fails as
     * its layers decide. `finalVersion` is the version its last execution update names: the shared counter after a
     * log that holds this run's start and, in between, whatever the engine's other runs did.
     */
    method RunExecution(run: nat, claimedVersion: int, steps: seq<StepDef>, report: string -> Report)
      returns (ending: Ending, plan: Plan, at: nat, skip: set<string>, finalVersion: int)
      requires Valid()
      modifies this
      ensures ending.PlanRejected? <==> !Plannable(steps)
      ensures ending.PlanRejected? ==> IsPlanError(steps, ending.error)
      ensures !ending.PlanRejected? ==>
        IsPlan(steps, plan) && EndsAt(report, plan, at, VerdictOf(ending)) && skip == SkipAfter(report, plan, at)
      ensures ending.Completed? ==> RunSays(report, plan, at, Ok, skip)
      ensures ending.FailedRun? ==> RunSays(report, plan, at, Err, skip)
      ensures ending.SuspendedRun? ==> RunSays(report, plan, at, SuspendedErr, skip)
      ensures ending.Completed? ==> forall s :: s in steps ==>
        (s.id in skip <==> report(s.id).conditionFalse || exists d :: d in s.dependsOn && d in skip)
      ensures ending.Completed? ==> forall s :: s in steps ==>
        report(s.id).verdict == Ok || exists d :: d in s.dependsOn && d in skip
      ensures Valid() && finalVersion == CounterAfter(log)
      ensures old(log) + [Start(run, claimedVersion)] <= log && |log| > |old(log)| + 1 && JustNamed(run)
      ensures exists s: nat ::
        |old(log)| <= s && IsLastStart(log, s) && finalVersion == log[s].claimed + (|log| - 1 - s)
    {
      ghost var a := |log|;
      Apply(Start(run, claimedVersion));
      var planned := BuildExecutionPlan(steps);
      if planned.Failure? {
        Yield(run);
        finalVersion := NextVersion(run);
        NamedByLastStart(log, a);
        return PlanRejected(planned.error), [], 0, {}, finalVersion;
      }
      plan := planned.value;
      var stop;
      PlanLayersAreIndependent(steps, plan);
      stop, at, skip := RunPlan(run, plan, report);
      EndingSays(steps, plan, report, at, stop);
      if stop == Ok {
        forall s | s in steps
          ensures s.id in skip <==> report(s.id).conditionFalse || exists d :: d in s.dependsOn && d in skip
          ensures report(s.id).verdict == Ok || exists d :: d in s.dependsOn && d in skip
        {
          CompletedSays(steps, plan, report, at, skip, s);
        }
      }
      match stop {
        case Err =>
          ending, finalVersion := FailedRun, version;
        case SuspendedErr =>
          ending, finalVersion := SuspendedRun, version;
        case Ok =>
          Yield(run);
          finalVersion := NextVersion(run);
          ending := Completed;
      }
      NamedByLastStart(log, a);
    }
  }

  lemma NamedByLastStart(log: seq<Op>, a: nat)
    requires a < |log| && log[a].Start?
    ensures exists s: nat :: a <= s && IsLastStart(log, s) && CounterAfter(log) == log[s].claimed + (|log| - 1 - s)
  {
    var s := LastStart(log, a);
    CounterFromLastStart(log, s);
  }
}
