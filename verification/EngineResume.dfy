/** What a run that resumes an execution does differently from the runs before it. */
module EngineResume {
  import opened Common
  import opened StepRecords
  import opened Retry
  import opened Engine
  import opened EngineRuns
  import opened EngineTheorems
  import opened EngineProgress

  // ---- Skipped steps and their causes, in runs that need not get through ----------------------

  /** A skipped step has a cause in the same run. */
  ghost predicate SkipsCaused(c: Config, r: Run) {
    forall x {:trigger SkipCaused(c, r, x)} :: x in r.skip ==> SkipCaused(c, r, x)
  }

  predicate SkipCaused(c: Config, r: Run, x: string) {
    x in c.deps && (x in r.falseCond || DepSkipped(c, r.skip, x))
  }

  /** A step whose condition was false was executed: it is no compensation and has no skipped dependency. */
  ghost predicate FalseExecuted(c: Config, r: Run) {
    forall f {:trigger Executed(c, r, f)} :: f in r.falseCond ==> Executed(c, r, f)
  }

  predicate Executed(c: Config, r: Run, f: string) {
    && f in c.action && c.action[f] != COMPENSATION && f in c.level && c.level[f] <= r.layer
    && f in c.deps && !DepSkipped(c, r.skip, f) && f in r.skip
  }

  ghost predicate Causes(c: Config, r: Run) {
    SkipsCaused(c, r) && FalseExecuted(c, r)
  }

  /** A step of the current layer is no dependency of a step up to this layer. */
  lemma LaterSkipsAreNoDeps(c: Config, skip: set<string>, y: string, f: string)
    requires ValidConfig(c) && f in c.level && y in c.level && c.level[f] <= c.level[y]
    ensures DepSkipped(c, skip + {y}, f) <==> DepSkipped(c, skip, f)
  {
    assert y !in c.deps[f];
    assert c.deps[f] * (skip + {y}) == c.deps[f] * skip;
  }

  lemma MoreSkipsKeepCause(c: Config, r: Run, t: Run, x: string)
    requires SkipCaused(c, r, x) && r.skip <= t.skip && r.falseCond <= t.falseCond
    ensures SkipCaused(c, t, x)
  {
    assert c.deps[x] * r.skip <= c.deps[x] * t.skip;
  }

  /** One more step of the current layer is skipped, for a cause. */
  lemma OneMoreSkip(c: Config, r: Run, t: Run, y: string)
    requires ValidConfig(c) && Causes(c, r) && y in c.level && c.level[y] == r.layer == t.layer
    requires t.skip == r.skip + {y} && (t.falseCond == r.falseCond || t.falseCond == r.falseCond + {y})
    requires y !in t.falseCond ==> DepSkipped(c, r.skip, y)
    requires t.falseCond != r.falseCond ==> y in c.action && c.action[y] != COMPENSATION && !DepSkipped(c, r.skip, y)
    ensures Causes(c, t)
  {
    forall x | x in t.skip ensures SkipCaused(c, t, x) {
      if x in r.skip {
        assert SkipCaused(c, r, x);
        MoreSkipsKeepCause(c, r, t, x);
      } else {
        LaterSkipsAreNoDeps(c, r.skip, y, y);
      }
    }
    forall f | f in t.falseCond ensures Executed(c, t, f) {
      if f in r.falseCond { assert Executed(c, r, f); }
      LaterSkipsAreNoDeps(c, r.skip, y, f);
    }
  }

  lemma SameSkipsCaused(c: Config, r: Run, t: Run)
    requires Causes(c, r) && t.skip == r.skip && t.falseCond == r.falseCond && r.layer <= t.layer
    ensures Causes(c, t)
  {
    forall x | x in t.skip ensures SkipCaused(c, t, x) { assert SkipCaused(c, r, x); }
    forall f | f in t.falseCond ensures Executed(c, t, f) { assert Executed(c, r, f); }
  }

  lemma GoKeepsCauses(c: Config, s: System, n: nat, y: string, e: Event)
    requires ValidConfig(c) && Enabled(c, s, Go(n, y, e)) && RunOk(c, s.ever, s.runs[n])
    requires Causes(c, s.runs[n])
    ensures var t := Moved(c, s.runs[n], y, e); Causes(c, t)
  {
    var r, t := s.runs[n], Moved(c, s.runs[n], y, e);
    if CondFalse(e) {
      assert StandsOk(c, s.ever, r, y);
      OneMoreSkip(c, r, t, y);
    } else {
      SameSkipsCaused(c, r, t);
    }
  }

  lemma CheckKeepsCauses(c: Config, s: System, n: nat, y: string)
    requires ValidConfig(c) && Enabled(c, s, Check(n, y)) && RunOk(c, s.ever, s.runs[n])
    requires Causes(c, s.runs[n])
    ensures var t := Checked(c, s.runs[n], y); Causes(c, t)
  {
    var r, t := s.runs[n], Checked(c, s.runs[n], y);
    if DepSkipped(c, r.skip, y) {
      assert StandsOk(c, s.ever, r, y);
      OneMoreSkip(c, r, t, y);
    } else {
      SameSkipsCaused(c, r, t);
    }
  }

  /** Beginning, advancing and halting skip nothing. */
  lemma QuietKeepsCauses(c: Config, s: System, a: Action, n: nat)
    requires Enabled(c, s, a) && Mover(a) == Some(n) && (a.Begin? || a.Advance? || a.Halt?)
    requires n in s.runs ==> Causes(c, s.runs[n])
    ensures Causes(c, Do(c, s, a).runs[n])
  {
    if !a.Begin? {
      SameSkipsCaused(c, s.runs[n], Do(c, s, a).runs[n]);
    }
  }

  lemma CausesStay(c: Config, s: System, a: Action, n: nat)
    requires ValidConfig(c) && Inv(c, s) && Enabled(c, s, a) && n in Do(c, s, a).runs
    requires n in s.runs ==> Causes(c, s.runs[n])
    ensures Causes(c, Do(c, s, a).runs[n])
  {
    if Mover(a) != Some(n) {
      OthersStay(c, s, a, n);
    } else {
      match a {
        case Check(_, y) => CheckKeepsCauses(c, s, n, y);
        case Go(_, y, e) => GoKeepsCauses(c, s, n, y, e);
        case _ => QuietKeepsCauses(c, s, a, n);
      }
    }
  }

  lemma CausesStep(c: Config, states: seq<System>, actions: seq<Action>, i: nat, n: nat)
    requires ValidConfig(c) && Execution(c, states, actions) && i < |actions| && n in states[i + 1].runs
    requires n in states[i].runs ==> Causes(c, states[i].runs[n])
    ensures Causes(c, states[i + 1].runs[n])
  {
    InvAlways(c, states, actions, i);
    assert LeadsAt(c, states, actions, i);
    CausesStay(c, states[i], actions[i], n);
  }

  lemma {:induction false} CausesAlways(c: Config, states: seq<System>, actions: seq<Action>, i: nat, n: nat)
    requires ValidConfig(c) && Execution(c, states, actions) && i < |states| && n in states[i].runs
    ensures Causes(c, states[i].runs[n])
  {
    if i == 0 {
    } else {
      if n in states[i - 1].runs { CausesAlways(c, states, actions, i - 1, n); }
      CausesStep(c, states, actions, i - 1, n);
    }
  }

  /** A skipped step is, or depends on, a step whose condition the run found false. */
  lemma {:induction false} SkipRoot(c: Config, r: Run, x: string) returns (g: string)
    requires ValidConfig(c) && SkipsCaused(c, r) && x in r.skip
    ensures g in r.falseCond && (g == x || Anc(c, g, x))
    decreases if x in c.level then c.level[x] else 0
  {
    assert SkipCaused(c, r, x);
    if x in r.falseCond {
      g := x;
    } else {
      var d :| d in c.deps[x] * r.skip;
      g := SkipRoot(c, r, d);
    }
  }

  // ---- What a later run skips ------------------------------------------------------------------

  lemma SuccessWhenEver(c: Config, s: System, x: string)
    requires ValidConfig(c) && Inv(c, s) && x in s.ever && x in c.action && c.action[x] != COMPENSATION
    ensures x in s.rows && s.rows[x].status == Status.Success
  {
    assert RowsOk(c, s);
  }

  /** What a later run found false was not SUCCESS when that run began. */
  lemma FalseIsNew(c: Config, states: seq<System>, actions: seq<Action>, i: nat, b: nat, j: nat, m: nat, g: string)
    requires ValidConfig(c) && Execution(c, states, actions) && i <= b < j < |states| && actions[b] == Begin(m)
    requires m in states[j].runs && g in states[j].runs[m].falseCond
    ensures g !in states[i].ever
  {
    CausesAlways(c, states, actions, j, m);
    assert Executed(c, states[j].runs[m], g);
    if g in states[i].ever {
      InvAlways(c, states, actions, i);
      SuccessWhenEver(c, states[i], g);
      SuccessIsFinal(c, states, actions, i, b, g);
      LaterRunForgetsCondition(c, states, actions, b, j, m, g);
    }
  }

  /**
   * A step whose condition a run found false, and which it left SUCCESS, is never skipped by any run that begins
   * later; neither run needs to get through all layers.
   */
  lemma FalseStepNeverSkippedLater(
    c: Config, states: seq<System>, actions: seq<Action>, i: nat, n: nat, f: string, b: nat, m: nat, j: nat)
    requires ValidConfig(c) && Execution(c, states, actions) && i <= b < j < |states| && actions[b] == Begin(m)
    requires n in states[i].runs && f in states[i].runs[n].falseCond
    requires f in states[i].rows && states[i].rows[f].status == Status.Success
    requires m in states[j].runs
    ensures f !in states[j].runs[m].skip
  {
    InvAlways(c, states, actions, i);
    CausesAlways(c, states, actions, i, n);
    CausesAlways(c, states, actions, j, m);
    assert Executed(c, states[i].runs[n], f);
    if f in states[j].runs[m].skip {
      var g := SkipRoot(c, states[j].runs[m], f);
      FalseIsNew(c, states, actions, i, b, j, m, g);
      WasEver(c, states[i], n, f, g);
    }
  }

  /** A step found false and left SUCCESS, and everything it depends on, has been recorded SUCCESS. */
  lemma WasEver(c: Config, s: System, n: nat, f: string, g: string)
    requires ValidConfig(c) && Inv(c, s) && n in s.runs && Executed(c, s.runs[n], f)
    requires f in s.rows && s.rows[f].status == Status.Success && (g == f || Anc(c, g, f))
    ensures g in s.ever
  {
    assert RecordsOk(c, s) && RowsOk(c, s);
    if g == f {
    } else {
      assert RunOk(c, s.ever, s.runs[n]);
      ClearAncestors(c, s.ever, s.runs[n], f, g);
    }
  }

  /** A run through all layers leaves every step SUCCESS whose condition it found false. */
  lemma FalseIsLeftSuccess(c: Config, states: seq<System>, actions: seq<Action>, i: nat, n: nat, f: string)
    requires ValidConfig(c) && Execution(c, states, actions) && i < |states|
    requires n in states[i].runs && states[i].runs[n].layer == c.height && f in states[i].runs[n].falseCond
    ensures f in states[i].rows && states[i].rows[f].status == Status.Success
  {
    InvAlways(c, states, actions, i);
    CausesAlways(c, states, actions, i, n);
    assert Executed(c, states[i].runs[n], f);
    SkipSetIsExact(c, states, actions, i, n, f);
    SuccessWhenEver(c, states[i], f);
  }

  /**
   * After a run through all layers, a run that begins later skips, at any time, all that the first one skipped if and
   * only if the first found no condition false, and so skipped nothing.
   */
  lemma LaterRunSkipsIff(
    c: Config, states: seq<System>, actions: seq<Action>, i: nat, n: nat, b: nat, m: nat, j: nat)
    requires ValidConfig(c) && Execution(c, states, actions) && i <= b < j < |states| && actions[b] == Begin(m)
    requires n in states[i].runs && states[i].runs[n].layer == c.height && m in states[j].runs
    ensures states[i].runs[n].skip <= states[j].runs[m].skip <==> states[i].runs[n].falseCond == {}
  {
    var r, t := states[i].runs[n], states[j].runs[m];
    CausesAlways(c, states, actions, i, n);
    if r.falseCond == {} {
      if x :| x in r.skip { var g := SkipRoot(c, r, x); }
    } else {
      var f :| f in r.falseCond;
      assert Executed(c, r, f);
      FalseIsLeftSuccess(c, states, actions, i, n, f);
      FalseStepNeverSkippedLater(c, states, actions, i, n, f, b, m, j);
    }
  }

  lemma {:induction false} AncTransitive(c: Config, z: string, y: string, x: string)
    requires ValidConfig(c) && Anc(c, z, y) && Anc(c, y, x)
    ensures Anc(c, z, x)
    decreases if x in c.level then c.level[x] else 0
  {
    var d :| d in c.deps[x] && (d == y || Anc(c, y, d));
    if d == y {
    } else {
      AncTransitive(c, z, y, d);
    }
  }

  lemma SkipsFollow(c: Config, states: seq<System>, actions: seq<Action>, i: nat, n: nat, f: string, x: string)
    requires ValidConfig(c) && Execution(c, states, actions) && i < |states|
    requires n in states[i].runs && states[i].runs[n].layer == c.height
    requires f in c.level && x in c.level && f in states[i].runs[n].skip && Anc(c, f, x)
    ensures x in states[i].runs[n].skip
  {
    SkipSetIsExact(c, states, actions, i, n, f);
    SkipSetIsExact(c, states, actions, i, n, x);
    var r := states[i].runs[n];
    if f !in r.falseCond {
      var g :| g in r.falseCond && Anc(c, g, f);
      AncTransitive(c, g, f, x);
    }
  }

  lemma SkipsAreSteps(c: Config, states: seq<System>, actions: seq<Action>, i: nat, n: nat)
    requires ValidConfig(c) && Execution(c, states, actions) && i < |states| && n in states[i].runs
    ensures forall x :: x in states[i].runs[n].skip || x in states[i].runs[n].falseCond ==> x in c.level
  {
    InvAlways(c, states, actions, i);
    assert RunOk(c, states[i].ever, states[i].runs[n]);
  }

  /**
   * Of two runs through all layers, the second skips whatever the first skipped if and only if it skips each step
   * whose condition the first found false.
   */
  lemma SkipsContainedIff(c: Config, states: seq<System>, actions: seq<Action>, i: nat, n: nat, j: nat, m: nat)
    requires ValidConfig(c) && Execution(c, states, actions) && i < |states| && j < |states|
    requires n in states[i].runs && states[i].runs[n].layer == c.height
    requires m in states[j].runs && states[j].runs[m].layer == c.height
    ensures states[i].runs[n].skip <= states[j].runs[m].skip <==> states[i].runs[n].falseCond <= states[j].runs[m].skip
  {
    var r, t := states[i].runs[n], states[j].runs[m];
    SkipsAreSteps(c, states, actions, i, n);
    forall f | f in r.falseCond ensures f in r.skip {
      SkipSetIsExact(c, states, actions, i, n, f);
    }
    if r.falseCond <= t.skip {
      forall x | x in r.skip ensures x in t.skip {
        SkipSetIsExact(c, states, actions, i, n, x);
        if x !in r.falseCond {
          var f :| f in r.falseCond && Anc(c, f, x);
          SkipsFollow(c, states, actions, j, m, f, x);
        }
      }
    }
  }

  // ---- Such executions exist -------------------------------------------------------------------

  /** A workflow of two steps, the second of which depends on the first. */
  ghost predicate IsPair(c: Config, f: string, x: string) {
    && ValidConfig(c) && c.threaded && c.height == 2 && f != x && c.level == map[f := 0, x := 1]
    && c.deps[f] == {} && c.deps[x] == {f} && Executable(c, f) && Executable(c, x)
  }

  lemma PairLayers(c: Config, f: string, x: string)
    requires IsPair(c, f, x)
    ensures Layer(c, 0) == {f} && Layer(c, 1) == {x} && Layer(c, 2) == {}
  {}

  lemma AdvanceRun(c: Config, s: System, n: nat) returns (t: System)
    requires ValidConfig(c) && Reachable(c, s) && n in s.runs && !s.runs[n].halted && s.runs[n].layer < c.height
    requires forall x :: x in s.runs[n].pcs ==> s.runs[n].pcs[x] == Returned(Ok)
    ensures Reachable(c, t) && t.rows == s.rows && t.runs == s.runs[n := Advanced(c, s.runs[n])]
  {
    t := Do(c, s, Advance(n));
    StepFrom(c, Init(c), s, Advance(n), t);
  }

  lemma SkipStep(c: Config, s: System, n: nat, x: string) returns (t: System)
    requires ValidConfig(c) && Reachable(c, s) && At(s, n, x, Spawned) && x in c.level && DepSkipped(c, s.runs[n].skip, x)
    ensures Reachable(c, t) && t.rows == s.rows && Touches(s, t, n, x)
    ensures At(t, n, x, Returned(Ok)) && x in t.runs[n].skip
  {
    t := Do(c, s, Check(n, x));
    StepFrom(c, Init(c), s, Check(n, x), t);
  }

  /** Run 0 has skipped the second step and got through; run 1 may begin. */
  predicate SkippedOnce(c: Config, s: System, f: string, x: string) {
    && s.runs.Keys == {0} && s.runs[0].layer == c.height && x in s.runs[0].skip
    && f in s.rows && s.rows[f].status == Status.Success && x in s.rows && s.rows[x].status == Status.Pending
  }

  /** Run 0 stands in layer `k`, has skipped on account of the first step, and the second is still PENDING. */
  predicate FirstDone(c: Config, s: System, f: string, x: string, k: nat) {
    && s.runs.Keys == {0} && s.runs[0].layer == k && !s.runs[0].halted && f in s.runs[0].skip
    && f in s.rows && s.rows[f].status == Status.Success && x in s.rows && s.rows[x].status == Status.Pending
  }

  /** The run has one goroutine in this layer, and it has returned nil. */
  predicate Through(s: System, n: nat, f: string) {
    n in s.runs && s.runs[n].pcs.Keys == {f} && s.runs[n].pcs[f] == Returned(Ok)
  }

  lemma ExecuteFirst(c: Config, f: string, x: string) returns (t: System)
    requires IsPair(c, f, x)
    ensures Reachable(c, t) && FirstDone(c, t, f, x, 0) && Through(t, 0, f)
  {
    var s := BeginFirst(c, f, x);
    t := ExecuteStep(c, Init(c), s, 0, f, true);
  }

  lemma BeginFirst(c: Config, f: string, x: string) returns (t: System)
    requires IsPair(c, f, x)
    ensures Reachable(c, t) && t.runs.Keys == {0} && t.runs[0].layer == 0 && !t.runs[0].halted && t.runs[0].pcs.Keys == {f}
    ensures At(t, 0, f, Spawned) && !DepSkipped(c, t.runs[0].skip, f)
    ensures f in t.rows && x in t.rows && t.rows[f].status == Status.Pending && t.rows[x].status == Status.Pending
  {
    PairLayers(c, f, x);
    NoActionFrom(c, Init(c));
    t := BeginRun(c, Init(c), Init(c), 0);
  }

  lemma FirstRunSkips(c: Config, f: string, x: string) returns (t: System)
    requires IsPair(c, f, x)
    ensures Reachable(c, t) && SkippedOnce(c, t, f, x)
  {
    var a := ExecuteFirst(c, f, x);
    var b := AdvanceRun(c, a, 0);
    t := SkipAndPass(c, b, f, x);
  }

  lemma SkipAndPass(c: Config, s: System, f: string, x: string) returns (t: System)
    requires IsPair(c, f, x) && Reachable(c, s) && FirstDone(c, s, f, x, 1) && s.runs[0].pcs == Spawn(c, 1)
    ensures Reachable(c, t) && SkippedOnce(c, t, f, x)
  {
    PairLayers(c, f, x);
    assert f in c.deps[x] * s.runs[0].skip;
    var a := SkipStep(c, s, 0, x);
    t := AdvanceRun(c, a, 0);
  }

  lemma BeginSecond(c: Config, s: System, f: string, x: string) returns (t: System)
    requires IsPair(c, f, x) && Reachable(c, s) && SkippedOnce(c, s, f, x)
    ensures Reachable(c, t) && t.rows == s.rows && t.runs.Keys == {0, 1} && t.runs[0] == s.runs[0]
    ensures t.runs[1].layer == 0 && !t.runs[1].halted && t.runs[1].skip == {} && t.runs[1].pcs.Keys == {f}
    ensures At(t, 1, f, Spawned)
  {
    PairLayers(c, f, x);
    t := BeginRun(c, Init(c), s, 1);
  }

  /** Run 1 finds the first step SUCCESS, goes on, and executes the second one. */
  lemma SecondRunExecutes(c: Config, s: System, f: string, x: string) returns (t: System)
    requires IsPair(c, f, x) && Reachable(c, s) && SkippedOnce(c, s, f, x)
    ensures Reachable(c, t) && 0 in t.runs && 1 in t.runs && x in t.runs[0].skip && t.runs[0].layer == c.height
    ensures At(t, 1, x, Returned(Ok)) && (x, s.rows[x].version) in t.acted && x !in t.runs[1].skip
  {
    var a := BeginSecond(c, s, f, x);
    var b := RereadStep(c, Init(c), a, 1, f);
    t := SecondStep(c, b, f, x, s.rows[x].version);
  }

  lemma SecondStep(c: Config, s: System, f: string, x: string, v: int) returns (t: System)
    requires IsPair(c, f, x) && Reachable(c, s) && s.runs.Keys == {0, 1} && x in s.runs[0].skip && s.runs[0].layer == c.height
    requires s.runs[1].layer == 0 && !s.runs[1].halted && s.runs[1].skip == {} && Through(s, 1, f)
    requires x in s.rows && s.rows[x].status == Status.Pending && s.rows[x].version == v
    ensures Reachable(c, t) && 0 in t.runs && 1 in t.runs && x in t.runs[0].skip && t.runs[0].layer == c.height
    ensures At(t, 1, x, Returned(Ok)) && (x, v) in t.acted && x !in t.runs[1].skip
  {
    PairLayers(c, f, x);
    var a := AdvanceRun(c, s, 1);
    assert !DepSkipped(c, a.runs[1].skip, x);
    t := ExecuteStep(c, Init(c), a, 1, x, false);
  }

  /**
   * For every workflow of two dependent steps there is an execution in which a run through all layers skips the second
   * step, and a later run executes it.
   */
  lemma LaterRunExecutesSkipped(c: Config, f: string, x: string) returns (t: System, v: int)
    requires IsPair(c, f, x)
    ensures Reachable(c, t) && 0 in t.runs && 1 in t.runs && x in t.runs[0].skip && t.runs[0].layer == c.height
    ensures At(t, 1, x, Returned(Ok)) && (x, v) in t.acted && x !in t.runs[1].skip
  {
    var s := FirstRunSkips(c, f, x);
    v := s.rows[x].version;
    t := SecondRunExecutes(c, s, f, x);
  }

  lemma SuchWorkflowsExist()
    ensures IsPair(
      Config(
        map["first" := 0, "second" := 1], map["first" := {}, "second" := {"first"}], 2,
        map["first" := "HTTP", "second" := "HTTP"], map["first" := 1, "second" := 1], {"HTTP"}, true),
      "first", "second")
  {}
}
