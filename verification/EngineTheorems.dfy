/** The engine's guarantees over whole executions, for workflows planned by the planner. */
module EngineTheorems {
  import opened Common
  import opened WorkflowModel
  import opened Dag
  import opened Planner
  import opened StepRecords
  import opened Retry
  import opened Engine
  import opened EngineRuns

  // ---- A planned workflow gives a valid configuration -----------------------------------------

  ghost function LayerOf(p: Plan, x: string): (k: nat)
    requires exists k :: InLayer(p, k, x)
    ensures InLayer(p, k, x)
  {
    var k :| InLayer(p, k, x);
    k
  }

  ghost function StepOf(steps: seq<StepDef>, x: string): (s: StepDef)
    requires x in Ids(steps)
    ensures s in steps && s.id == x
  {
    var s :| s in steps && s.id == x;
    s
  }

  lemma EveryStepHasLayer(steps: seq<StepDef>, p: Plan, x: string)
    requires IsPlan(steps, p) && x in Ids(steps)
    ensures exists k :: InLayer(p, k, x)
  {
    var s := StepOf(steps, x);
    assert Placed(p, s);
    var k :| 0 <= k < |p| && s in p[k];
    assert InLayer(p, k, x);
  }

  /** The configuration in which the engine runs a planned step list. */
  ghost predicate ConfigOf(steps: seq<StepDef>, p: Plan, c: Config) {
    && c.level.Keys == c.deps.Keys == c.action.Keys == c.attempts.Keys == Ids(steps)
    && c.height == |p| && COMPENSATION !in c.registered
    && (forall x :: x in c.level ==> InLayer(p, c.level[x], x))
    && (forall x :: x in c.deps ==> c.deps[x] == Deps(steps, x))
    && (forall s :: s in steps ==> c.action[s.id] == s.action && c.attempts[s.id] == Attempts(s))
  }

  lemma InLayerIsLongestChain(steps: seq<StepDef>, p: Plan, k: nat, x: string)
    requires IsPlan(steps, p) && InLayer(p, k, x)
    ensures LongestChain(steps, x, k)
  {
    var s :| s in p[k] && s.id == x;
    assert AtDepth(steps, k, s);
  }

  lemma DependencyIsLower(steps: seq<StepDef>, p: Plan, x: string, d: string, k: nat, j: nat)
    requires IsPlan(steps, p) && InLayer(p, k, x) && InLayer(p, j, d) && d in Deps(steps, x)
    ensures j < k
  {
    InLayerIsLongestChain(steps, p, k, x);
    InLayerIsLongestChain(steps, p, j, d);
    DependencyIsEarlier(steps, d, x, j, k);
  }

  lemma ConfigDepOk(steps: seq<StepDef>, p: Plan, c: Config, x: string, d: string)
    requires DepsExist(steps) && IsPlan(steps, p) && ConfigOf(steps, p, c) && x in c.level && d in c.deps[x]
    ensures d in c.level && c.level[d] < c.level[x]
  {
    DepsAreIds(steps, x);
    DependencyIsLower(steps, p, x, d, c.level[x], c.level[d]);
  }

  lemma PlanGivesValidConfig(steps: seq<StepDef>, p: Plan, c: Config)
    requires DepsExist(steps) && IsPlan(steps, p) && ConfigOf(steps, p, c)
    ensures ValidConfig(c)
  {
    forall x, d | x in c.level && d in c.deps[x] ensures d in c.level && c.level[d] < c.level[x] {
      ConfigDepOk(steps, p, c, x, d);
    }
  }

  ghost function LevelMap(steps: seq<StepDef>, p: Plan): (m: map<string, nat>)
    requires forall x :: x in Ids(steps) ==> exists k :: InLayer(p, k, x)
    ensures m.Keys == Ids(steps) && forall x :: x in m ==> InLayer(p, m[x], x)
  {
    map x | x in Ids(steps) :: LayerOf(p, x)
  }

  ghost function StepMap(steps: seq<StepDef>): (m: map<string, StepDef>)
    ensures m.Keys == Ids(steps) && forall x :: x in m ==> m[x] in steps && m[x].id == x
  {
    map x | x in Ids(steps) :: StepOf(steps, x)
  }

  ghost function MakeConfig(steps: seq<StepDef>, height: nat, level: map<string, nat>, byId: map<string, StepDef>,
                            registered: set<string>, threaded: bool): Config
  {
    Config(level, map x | x in byId :: Deps(steps, x), height, map x | x in byId :: byId[x].action,
           map x | x in byId :: Attempts(byId[x]), registered, threaded)
  }

  lemma MadeConfigOk(steps: seq<StepDef>, p: Plan, level: map<string, nat>, byId: map<string, StepDef>,
                     registered: set<string>, threaded: bool)
    requires level.Keys == byId.Keys == Ids(steps) && COMPENSATION !in registered
    requires forall x :: x in level ==> InLayer(p, level[x], x)
    requires forall s :: s in steps ==> s.id in byId && byId[s.id] == s
    ensures ConfigOf(steps, p, MakeConfig(steps, |p|, level, byId, registered, threaded))
  {}

  /** Every planned workflow has such a configuration. */
  lemma PlanHasConfig(steps: seq<StepDef>, p: Plan, registered: set<string>, threaded: bool) returns (c: Config)
    requires DistinctIds(steps) && IsPlan(steps, p) && COMPENSATION !in registered
    ensures ConfigOf(steps, p, c) && c.registered == registered && c.threaded == threaded
  {
    forall x | x in Ids(steps) ensures exists k :: InLayer(p, k, x) { EveryStepHasLayer(steps, p, x); }
    var byId := StepMap(steps);
    forall s | s in steps ensures s.id in byId && byId[s.id] == s { OneStepPerId(steps, s, byId[s.id]); }
    MadeConfigOk(steps, p, LevelMap(steps, p), byId, registered, threaded);
    c := MakeConfig(steps, |p|, LevelMap(steps, p), byId, registered, threaded);
  }

  lemma OneStepPerId(steps: seq<StepDef>, s: StepDef, t: StepDef)
    requires DistinctIds(steps) && s in steps && t in steps && s.id == t.id
    ensures s == t
  {}

  lemma {:induction false} ChainIsAnc(steps: seq<StepDef>, p: Plan, c: Config, ch: seq<string>, y: string, x: string)
    requires ValidConfig(c) && ConfigOf(steps, p, c)
    requires ChainTo(steps, ch, x) && |ch| > 1 && ch[0] == y
    ensures Anc(c, y, x)
    decreases |ch|
  {
    ShortenChain(steps, ch, x);
    var d := ch[|ch| - 2];
    assert x in Ids(steps) by { assert ch[|ch| - 1] in Ids(steps); }
    if |ch| > 2 {
      ChainIsAnc(steps, p, c, ch[..|ch| - 1], y, d);
    }
  }

  // ---- Over whole executions ---------------------------------------------------------------------

  lemma {:induction false} InvAlways(c: Config, states: seq<System>, actions: seq<Action>, i: nat)
    requires ValidConfig(c) && Execution(c, states, actions) && i < |states|
    ensures Inv(c, states[i])
  {
    if i == 0 {
      InvInit(c);
    } else {
      InvAlways(c, states, actions, i - 1);
      assert LeadsAt(c, states, actions, i - 1);
      InvStays(c, states[i - 1], actions[i - 1]);
    }
  }

  /**
   * Whatever the interleaving, crashes and resumptions: once the layer loop has set a step to RUNNING, everything it
   * transitively depends on has been recorded SUCCESS, and is SUCCESS now unless it is a compensation step.
   */
  lemma DependenciesFirst(steps: seq<StepDef>, p: Plan, c: Config, states: seq<System>, actions: seq<Action>,
                          i: nat, x: string, y: string)
    requires DepsExist(steps) && IsPlan(steps, p) && ConfigOf(steps, p, c)
    requires Execution(c, states, actions) && i < |states|
    requires x in states[i].began && Ancestor(steps, y, x)
    ensures y in states[i].ever
    ensures y in c.action && y in states[i].rows
    ensures c.action[y] != COMPENSATION ==> states[i].rows[y].status == Status.Success
  {
    PlanGivesValidConfig(steps, p, c);
    InvAlways(c, states, actions, i);
    var ch :| ChainTo(steps, ch, x) && |ch| > 1 && ch[0] == y;
    ChainIsAnc(steps, p, c, ch, y, x);
    assert AncestorsEver(c, states[i].ever, x);
  }

  lemma SuccessStep(c: Config, states: seq<System>, actions: seq<Action>, j: nat, x: string)
    requires ValidConfig(c) && Execution(c, states, actions) && j < |actions|
    requires x in c.action && c.action[x] != COMPENSATION
    requires x in states[j].rows && states[j].rows[x].status == Status.Success
    ensures x in states[j + 1].rows && states[j + 1].rows[x] == states[j].rows[x]
  {
    InvAlways(c, states, actions, j);
    assert LeadsAt(c, states, actions, j);
    SuccessStays(c, states[j], actions[j], x);
  }

  /** SUCCESS is final for every step that is not a compensation. */
  lemma {:induction false} SuccessIsFinal(c: Config, states: seq<System>, actions: seq<Action>, i: nat, j: nat, x: string)
    requires ValidConfig(c) && Execution(c, states, actions) && i <= j < |states|
    requires x in c.action && c.action[x] != COMPENSATION
    requires x in states[i].rows && states[i].rows[x].status == Status.Success
    ensures x in states[j].rows && states[j].rows[x] == states[i].rows[x]
  {
    if i == j {
    } else {
      SuccessIsFinal(c, states, actions, i, j - 1, x);
      SuccessStep(c, states, actions, j - 1, x);
    }
  }

  lemma VersionStep(c: Config, states: seq<System>, actions: seq<Action>, j: nat, x: string)
    requires ValidConfig(c) && Execution(c, states, actions) && j < |actions| && x in states[j].rows
    ensures x in states[j + 1].rows && states[j].rows[x].version <= states[j + 1].rows[x].version
  {
    InvAlways(c, states, actions, j);
    assert LeadsAt(c, states, actions, j);
    ActionGrowsRows(c, states[j], actions[j]);
    assert RowGrows(states[j].rows[x], states[j + 1].rows[x]);
  }

  lemma {:induction false} VersionsGrow(c: Config, states: seq<System>, actions: seq<Action>, i: nat, j: nat, x: string)
    requires ValidConfig(c) && Execution(c, states, actions) && i <= j < |states| && x in states[i].rows
    ensures x in states[j].rows && states[i].rows[x].version <= states[j].rows[x].version
  {
    if i == j {
    } else {
      VersionsGrow(c, states, actions, i, j - 1, x);
      VersionStep(c, states, actions, j - 1, x);
    }
  }

  /** Action `i` is a claim of step `x` that takes effect. */
  predicate ClaimsAt(actions: seq<Action>, i: nat, x: string) {
    i < |actions| && actions[i].Go? && actions[i].step == x && actions[i].e.Claim? && actions[i].e.w.applied
  }

  /** Two effective claims of a step are of different versions of its record: the later one is of a newer version. */
  lemma ClaimsAreOfNewVersions(c: Config, states: seq<System>, actions: seq<Action>, i: nat, j: nat, x: string)
    requires ValidConfig(c) && Execution(c, states, actions)
    requires i < j && ClaimsAt(actions, i, x) && ClaimsAt(actions, j, x)
    ensures x in states[i].rows && x in states[j].rows && states[i].rows[x].version < states[j].rows[x].version
  {
    assert LeadsAt(c, states, actions, i);
    assert LeadsAt(c, states, actions, j);
    VersionsGrow(c, states, actions, i + 1, j, x);
  }

  /** Each claimed version of a step's record has its action run at most once, by the one worker that claimed it. */
  lemma OneActionPerClaim(c: Config, states: seq<System>, actions: seq<Action>, i: nat, x: string, v: int)
    requires ValidConfig(c) && Execution(c, states, actions) && i < |states|
    ensures states[i].acted[(x, v)] <= 1
    ensures states[i].acted[(x, v)] == 1 ==> (x, v) in states[i].owner
    ensures forall n, m :: ActsOn(states[i], n, x, v) && ActsOn(states[i], m, x, v) ==> n == m
  {
    InvAlways(c, states, actions, i);
    var s := states[i];
    assert s.acted[(x, v)] > 0 ==> (x, v) in s.acted;
    forall n, m | ActsOn(s, n, x, v) && ActsOn(s, m, x, v) ensures n == m {
      assert RunActs(s, n) && RunActs(s, m);
      assert ActingOk(s, n, x, s.runs[n].pcs[x]) && ActingOk(s, m, x, s.runs[m].pcs[x]);
    }
  }

  predicate ActsOn(s: System, n: nat, x: string, v: int) {
    n in s.runs && x in s.runs[n].pcs && s.runs[n].pcs[x].AtAct? && s.runs[n].pcs[x].claimed == v
  }

  // ---- Skip sets ---------------------------------------------------------------------------------

  /**
   * A run that gets through all layers has skipped exactly the steps whose condition it found false and everything
   * reachable from them; every step without a skipped dependency was recorded SUCCESS.
   */
  lemma SkipSetIsExact(c: Config, states: seq<System>, actions: seq<Action>, i: nat, n: nat, x: string)
    requires ValidConfig(c) && Execution(c, states, actions) && i < |states|
    requires n in states[i].runs && states[i].runs[n].layer == c.height && x in c.level
    ensures
      var r := states[i].runs[n];
      && (x in r.skip <==> x in r.falseCond || exists f :: f in r.falseCond && Anc(c, f, x))
      && (!DepSkipped(c, r.skip, x) ==> x in states[i].ever)
  {
    InvAlways(c, states, actions, i);
    var r := states[i].runs[n];
    assert RunOk(c, states[i].ever, r);
    assert PassedOk(c, states[i].ever, r, x);
    if x in r.skip {
      SkipHasCause(c, states[i].ever, r, x);
    }
    forall f | f in r.falseCond && Anc(c, f, x) ensures x in r.skip {
      CauseIsSkipped(c, states[i].ever, r, f, x);
    }
  }

  lemma {:induction false} SkipHasCause(c: Config, ever: set<string>, r: Run, x: string)
    requires ValidConfig(c) && RunOk(c, ever, r) && r.layer == c.height && x in c.level && x in r.skip
    ensures x in r.falseCond || exists f :: f in r.falseCond && Anc(c, f, x)
    decreases c.level[x]
  {
    assert PassedOk(c, ever, r, x);
    if x !in r.falseCond {
      var d :| d in c.deps[x] * r.skip;
      SkipHasCause(c, ever, r, d);
      if d in r.falseCond {
        assert Anc(c, d, x);
      } else {
        var f :| f in r.falseCond && Anc(c, f, d);
        assert Anc(c, f, x);
      }
    }
  }

  lemma {:induction false} CauseIsSkipped(c: Config, ever: set<string>, r: Run, f: string, x: string)
    requires ValidConfig(c) && RunOk(c, ever, r) && r.layer == c.height && f in r.falseCond && Anc(c, f, x)
    ensures x in r.skip
    decreases if x in c.level then c.level[x] else 0
  {
    var d :| d in c.deps[x] && (d == f || Anc(c, f, d));
    assert PassedOk(c, ever, r, d) && PassedOk(c, ever, r, x);
    if d != f {
      CauseIsSkipped(c, ever, r, f, d);
    }
    assert d in c.deps[x] * r.skip;
  }

  // ---- Resumed runs ------------------------------------------------------------------------------

  /** The run has not executed the step, nor found its condition false. */
  predicate Untouched(r: Run, x: string) {
    x !in r.falseCond && (x in r.pcs ==> r.pcs[x].Spawned? || r.pcs[x].AtRead? || r.pcs[x].Returned?)
  }

  lemma UntouchedStays(c: Config, s: System, a: Action, n: nat, x: string)
    requires Enabled(c, s, a) && n in s.runs && Untouched(s.runs[n], x)
    requires x in s.rows && s.rows[x].status == Status.Success
    ensures n in Do(c, s, a).runs && Untouched(Do(c, s, a).runs[n], x)
  {
    RunsRemain(c, s, a, n);
    if Mover(a) != Some(n) {
      OthersStay(c, s, a, n);
    }
  }

  /**
   * A run that begins when a step is already SUCCESS never executes it and never learns that its condition was false,
   * so it does not skip what an earlier run skipped on its account.
   */
  lemma {:induction false} LaterRunForgetsCondition(
    c: Config, states: seq<System>, actions: seq<Action>, i: nat, j: nat, n: nat, x: string)
    requires ValidConfig(c) && Execution(c, states, actions) && i < j < |states|
    requires actions[i] == Begin(n) && x in c.action && c.action[x] != COMPENSATION
    requires x in states[i].rows && states[i].rows[x].status == Status.Success
    ensures n in states[j].runs && Untouched(states[j].runs[n], x)
  {
    if j == i + 1 {
      BeginsUntouched(c, states, actions, i, n, x);
    } else {
      LaterRunForgetsCondition(c, states, actions, i, j - 1, n, x);
      SuccessIsFinal(c, states, actions, i, j - 1, x);
      UntouchedAlong(c, states, actions, j - 1, n, x);
    }
  }

  lemma BeginsUntouched(c: Config, states: seq<System>, actions: seq<Action>, i: nat, n: nat, x: string)
    requires Execution(c, states, actions) && i < |actions| && actions[i] == Begin(n)
    ensures n in states[i + 1].runs && Untouched(states[i + 1].runs[n], x)
  {
    assert LeadsAt(c, states, actions, i);
  }

  lemma UntouchedAlong(c: Config, states: seq<System>, actions: seq<Action>, j: nat, n: nat, x: string)
    requires Execution(c, states, actions) && j < |actions| && n in states[j].runs && Untouched(states[j].runs[n], x)
    requires x in states[j].rows && states[j].rows[x].status == Status.Success
    ensures n in states[j + 1].runs && Untouched(states[j + 1].runs[n], x)
  {
    assert LeadsAt(c, states, actions, j);
    UntouchedStays(c, states[j], actions[j], n, x);
  }

  // ---- The engine as written never completes a step --------------------------------------------------

  predicate NeverPast(row: Row) {
    row.status == Pending || row.status == Running
  }

  lemma StaleStepKeepsRow(c: Config, s: System, a: Action, x: string)
    requires RecordsOk(c, s) && Enabled(c, s, a) && !c.threaded
    requires x in c.action && c.action[x] != COMPENSATION && x in s.rows && NeverPast(s.rows[x])
    requires forall w :: w in s.resumers ==> s.resumers[w].step in c.action && c.action[s.resumers[w].step] == COMPENSATION
    ensures x in Do(c, s, a).rows && NeverPast(Do(c, s, a).rows[x])
  {
    if a.Go? && a.step == x {
      assert RunKnows(s.rows, s.runs[a.run]);
      StaleWrite(c, s.rows, x, s.runs[a.run].pcs[x], a.e);
    } else {
      OtherRowsStay(c, s, a, x);
    }
  }

  /** A worker that names the version from before its claim changes nothing after the claim. */
  lemma StaleWrite(c: Config, rows: map<string, Row>, x: string, pc: Pc, e: Event)
    requires x in rows && x in c.action && x in c.attempts && Knows(rows[x], pc) && !c.threaded
    requires After(c.attempts[x], pc, e).Some? && CanAnswer(c, rows, x, pc, e)
    ensures Applied(e) ==> e.Claim?
  {}

  ghost predicate NothingPast(c: Config, s: System) {
    && (forall x :: x in s.rows && x in c.action && c.action[x] != COMPENSATION ==> NeverPast(s.rows[x]))
    && (forall w :: w in s.resumers ==> s.resumers[w].step in c.action && c.action[s.resumers[w].step] == COMPENSATION)
  }

  lemma ResumerSource(c: Config, s: System, a: Action, w: nat)
    requires Enabled(c, s, a) && w in Do(c, s, a).resumers
    ensures
      || (w in s.resumers && Do(c, s, a).resumers[w] == s.resumers[w])
      || (a.ResumeRead? && Do(c, s, a).resumers[w].step == a.step)
  {}

  lemma NoNewResumers(c: Config, s: System, a: Action, w: nat)
    requires c.action.Keys == c.level.Keys == s.rows.Keys && Enabled(c, s, a) && NothingPast(c, s)
    requires w in Do(c, s, a).resumers
    ensures Do(c, s, a).resumers[w].step in c.action && c.action[Do(c, s, a).resumers[w].step] == COMPENSATION
  {
    ResumerSource(c, s, a, w);
    if a.ResumeRead? { assert a.step in s.rows && s.rows[a.step].status == Suspended; }
  }

  lemma NothingPastStays(c: Config, s: System, a: Action)
    requires ValidConfig(c) && RecordsOk(c, s) && Enabled(c, s, a) && !c.threaded && NothingPast(c, s)
    ensures NothingPast(c, Do(c, s, a))
  {
    ActionGrowsRows(c, s, a);
    forall x | x in Do(c, s, a).rows && x in c.action && c.action[x] != COMPENSATION
      ensures NeverPast(Do(c, s, a).rows[x])
    {
      StaleStepKeepsRow(c, s, a, x);
    }
    forall w | w in Do(c, s, a).resumers
      ensures Do(c, s, a).resumers[w].step in c.action && c.action[Do(c, s, a).resumers[w].step] == COMPENSATION
    {
      NoNewResumers(c, s, a, w);
    }
  }

  /**
   * With the version handling as written, no execution of any workflow ever records a step as SUCCESS, FAILED or
   * SUSPENDED, compensation steps apart.
   */
  lemma {:induction false} AsWrittenNothingCompletes(c: Config, states: seq<System>, actions: seq<Action>, i: nat)
    requires ValidConfig(c) && Execution(c, states, actions) && i < |states| && !c.threaded
    ensures NothingPast(c, states[i])
  {
    if i == 0 {
    } else {
      AsWrittenNothingCompletes(c, states, actions, i - 1);
      InvAlways(c, states, actions, i - 1);
      assert LeadsAt(c, states, actions, i - 1);
      NothingPastStays(c, states[i - 1], actions[i - 1]);
    }
  }

  // ---- Every goroutine follows the retry loop ----------------------------------------------------

  /** The calls run `n` has made for step `x`. */
  function History(actions: seq<Action>, n: nat, x: string): seq<Event> {
    if actions == [] then []
    else
      var k := |actions| - 1;
      Recorded(History(actions[..k], n, x), actions[k], n, x)
  }

  function Recorded(h: seq<Event>, a: Action, n: nat, x: string): seq<Event> {
    if a.Go? && a.run == n && a.step == x then h + [a.e] else h
  }

  /** The calls made so far lead from the top of the loop to where the goroutine stands. */
  predicate Follows(c: Config, s: System, n: nat, x: string, h: seq<Event>)
    requires x in c.level && x in c.attempts
  {
    if n !in s.runs || c.level[x] > s.runs[n].layer then h == []
    else if x !in s.runs[n].pcs then AfterAll(c.attempts[x], AtRead(0), h).Some?
    else if s.runs[n].pcs[x] == Spawned then h == []
    else
      || AfterAll(c.attempts[x], AtRead(0), h) == Some(s.runs[n].pcs[x])
      || (h == [] && s.runs[n].pcs[x] == Returned(Ok))
  }

  lemma FollowsOneCall(c: Config, s: System, n: nat, x: string, e: Event, h: seq<Event>)
    requires x in c.level && Enabled(c, s, Go(n, x, e)) && Follows(c, s, n, x, h) && c.level[x] <= s.runs[n].layer
    ensures Follows(c, Stepped(c, s, n, x, e), n, x, h + [e])
  {
    AfterAppend(c.attempts[x], AtRead(0), h, e);
  }

  lemma FollowsAdvance(c: Config, s: System, n: nat, x: string, h: seq<Event>)
    requires ValidConfig(c) && x in c.level && Enabled(c, s, Advance(n)) && Follows(c, s, n, x, h)
    requires RunOk(c, s.ever, s.runs[n])
    ensures Follows(c, Do(c, s, Advance(n)), n, x, h)
  {
    var r, t := s.runs[n], Advanced(c, s.runs[n]);
    assert c.level[x] == t.layer <==> x in t.pcs;
    assert c.level[x] == r.layer <==> x in r.pcs;
  }

  lemma FollowsOwnRun(c: Config, s: System, a: Action, n: nat, x: string, h: seq<Event>)
    requires ValidConfig(c) && x in c.level && Enabled(c, s, a) && Follows(c, s, n, x, h)
    requires Mover(a) == Some(n) && !(a.Go? && a.step == x)
    requires n in s.runs ==> RunOk(c, s.ever, s.runs[n])
    ensures Follows(c, Do(c, s, a), n, x, h)
  {
    match a {
      case Advance(_) =>
        FollowsAdvance(c, s, n, x, h);
      case Go(_, y, e) =>
        FollowsSameStand(c, s, Do(c, s, a), n, x, h);
      case Halt(_) =>
        FollowsSameStand(c, s, Do(c, s, a), n, x, h);
      case _ =>
    }
  }

  /** A step that leaves the run's layer and the step's goroutine where they are. */
  lemma FollowsSameStand(c: Config, s: System, t: System, n: nat, x: string, h: seq<Event>)
    requires x in c.level && x in c.attempts && Follows(c, s, n, x, h) && n in s.runs && n in t.runs
    requires t.runs[n].layer == s.runs[n].layer && (x in t.runs[n].pcs <==> x in s.runs[n].pcs)
    requires x in s.runs[n].pcs ==> t.runs[n].pcs[x] == s.runs[n].pcs[x]
    ensures Follows(c, t, n, x, h)
  {}

  lemma FollowsOtherRun(c: Config, s: System, a: Action, n: nat, x: string, h: seq<Event>)
    requires x in c.level && x in c.attempts && Enabled(c, s, a) && Follows(c, s, n, x, h) && Mover(a) != Some(n)
    ensures Follows(c, Do(c, s, a), n, x, h)
  {
    if n in s.runs { RunsRemain(c, s, a, n); }
    if n in Do(c, s, a).runs { OthersStay(c, s, a, n); }
  }

  lemma FollowsStep(c: Config, s: System, a: Action, n: nat, x: string, h: seq<Event>)
    requires ValidConfig(c) && x in c.level && Enabled(c, s, a) && Follows(c, s, n, x, h)
    requires n in s.runs ==> RunOk(c, s.ever, s.runs[n])
    ensures Follows(c, Do(c, s, a), n, x, Recorded(h, a, n, x))
  {
    if Mover(a) != Some(n) {
      FollowsOtherRun(c, s, a, n, x, h);
    } else if a.Go? && a.step == x {
      FollowsOneCall(c, s, n, x, a.e, h);
    } else {
      FollowsOwnRun(c, s, a, n, x, h);
    }
  }

  lemma HistoryStep(actions: seq<Action>, i: nat, n: nat, x: string)
    requires i < |actions|
    ensures History(actions[..i + 1], n, x) == Recorded(History(actions[..i], n, x), actions[i], n, x)
  {
    assert actions[..i + 1][..i] == actions[..i];
  }

  lemma RunsRemain(c: Config, s: System, a: Action, n: nat)
    requires Enabled(c, s, a) && n in s.runs
    ensures n in Do(c, s, a).runs
  {}

  lemma RunsAlong(c: Config, states: seq<System>, actions: seq<Action>, j: nat, n: nat)
    requires ValidConfig(c) && Execution(c, states, actions) && j < |actions|
    ensures n in states[j].runs ==> RunOk(c, states[j].ever, states[j].runs[n])
    ensures Leads(c, states[j], actions[j], states[j + 1])
  {
    InvAlways(c, states, actions, j);
    assert LeadsAt(c, states, actions, j);
  }

  /** In every interleaving, the calls a run makes for a step form a path of the retry loop, ending where it stands. */
  lemma {:induction false} GoroutinesFollowLoop(c: Config, states: seq<System>, actions: seq<Action>, i: nat, n: nat, x: string)
    requires ValidConfig(c) && Execution(c, states, actions) && i < |states| && x in c.level
    ensures Follows(c, states[i], n, x, History(actions[..i], n, x))
  {
    if i == 0 {
    } else {
      GoroutinesFollowLoop(c, states, actions, i - 1, n, x);
      RunsAlong(c, states, actions, i - 1, n);
      HistoryStep(actions, i - 1, n, x);
      FollowsStep(c, states[i - 1], actions[i - 1], n, x, History(actions[..i - 1], n, x));
    }
  }

  /** So the calls come in the loop's order, and after a claim that the store refused the goroutine makes no other. */
  lemma GoroutineCallsInOrder(c: Config, states: seq<System>, actions: seq<Action>, i: nat, n: nat, x: string)
    requires ValidConfig(c) && Execution(c, states, actions) && i < |states| && x in c.level
    ensures var h := History(actions[..i], n, x);
      && InOrder(h)
      && forall k :: 0 <= k < |h| && h[k].Claim? && !h[k].w.ok ==> k == |h| - 1
  {
    GoroutinesFollowLoop(c, states, actions, i, n, x);
    var h := History(actions[..i], n, x);
    if h != [] {
      CallsInOrder(c.attempts[x], h);
      forall k | 0 <= k < |h| - 1 ensures h[k].Claim? ==> h[k].w.ok {
        var m := k + 1;
        assert Followed(h[k], h[m]);
      }
    }
  }

  /** So no run executes a step's action more often than the step has attempts. */
  lemma RunActsAtMostAttempts(c: Config, states: seq<System>, actions: seq<Action>, i: nat, n: nat, x: string)
    requires ValidConfig(c) && Execution(c, states, actions) && i < |states| && x in c.level && c.attempts[x] >= 1
    ensures Acts(History(actions[..i], n, x)) <= c.attempts[x]
  {
    GoroutinesFollowLoop(c, states, actions, i, n, x);
    var h := History(actions[..i], n, x);
    if h != [] {
      ActsBounded(c.attempts[x], AtRead(0), h);
    }
  }
}
