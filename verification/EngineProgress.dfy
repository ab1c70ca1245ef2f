/** Executions that get somewhere: whatever state an execution is in, a new run can bring it to completion. */
module EngineProgress {
  import opened Common
  import opened WorkflowModel
  import opened Dag
  import opened Planner
  import opened StepRecords
  import opened Retry
  import opened Engine
  import opened EngineRuns
  import opened EngineTheorems

  // ---- Reachable states ------------------------------------------------------------------------

  /** The actions lead from `o` to `s`. */
  ghost predicate Leading(c: Config, o: System, states: seq<System>, actions: seq<Action>, s: System) {
    && |states| == |actions| + 1 && states[0] == o && states[|actions|] == s
    && (forall i {:trigger LeadsAt(c, states, actions, i)} :: 0 <= i < |actions| ==> LeadsAt(c, states, actions, i))
  }

  ghost predicate From(c: Config, o: System, s: System) {
    exists states, actions :: Leading(c, o, states, actions, s)
  }

  /** The states of executions. */
  ghost predicate Reachable(c: Config, s: System) {
    From(c, Init(c), s)
  }

  lemma NoActionFrom(c: Config, s: System)
    ensures From(c, s, s)
  {
    assert Leading(c, s, [s], [], s);
  }

  lemma StepFrom(c: Config, o: System, s: System, a: Action, t: System)
    requires From(c, o, s) && Leads(c, s, a, t)
    ensures From(c, o, t)
  {
    var states, actions :| Leading(c, o, states, actions, s);
    var more, acts := states + [t], actions + [a];
    forall i | 0 <= i < |acts| ensures LeadsAt(c, more, acts, i) {
      assert i < |actions| ==> LeadsAt(c, states, actions, i);
    }
    assert Leading(c, o, more, acts, t);
  }

  lemma ReachableInv(c: Config, s: System)
    requires ValidConfig(c) && Reachable(c, s)
    ensures Inv(c, s)
  {
    var states, actions :| Leading(c, Init(c), states, actions, s);
    assert Execution(c, states, actions);
    InvAlways(c, states, actions, |actions|);
  }

  // ---- One step that succeeds ------------------------------------------------------------------

  const APPLIED := Write(true, true)

  predicate Executable(c: Config, x: string) {
    x in c.action && (c.action[x] in c.registered || c.action[x] == LOOP)
  }

  /** Run `n` has a goroutine for the step, and stands at `pc`. */
  predicate At(s: System, n: nat, x: string, pc: Pc) {
    n in s.runs && x in s.runs[n].pcs && s.runs[n].pcs[x] == pc
  }

  /** Everything but the step's record, its goroutine, the run's skip set and history is as before. */
  predicate Touches(s: System, t: System, n: nat, x: string)
    requires n in s.runs
  {
    && t.rows.Keys == s.rows.Keys && (forall y :: y in s.rows && y != x ==> t.rows[y] == s.rows[y])
    && n in t.runs && t.runs.Keys == s.runs.Keys && (forall m :: m in s.runs && m != n ==> t.runs[m] == s.runs[m])
    && t.runs[n].layer == s.runs[n].layer && t.runs[n].halted == s.runs[n].halted
    && t.runs[n].pcs.Keys == s.runs[n].pcs.Keys
    && (forall y :: y in s.runs[n].pcs && y != x ==> t.runs[n].pcs[y] == s.runs[n].pcs[y])
    && (forall k :: k in s.acted && k.0 != x ==> k in t.acted)
  }

  predicate SameSkips(s: System, t: System, n: nat) {
    n in s.runs && n in t.runs && t.runs[n].skip == s.runs[n].skip && t.runs[n].falseCond == s.runs[n].falseCond
  }

  lemma TouchesAgain(r: System, s: System, t: System, n: nat, x: string)
    requires n in r.runs && n in s.runs && Touches(r, s, n, x) && Touches(s, t, n, x)
    ensures Touches(r, t, n, x)
  {}

  /** One call of the step's goroutine. */
  lemma GoStep(c: Config, o: System, s: System, n: nat, x: string, e: Event, pc: Pc, next: Pc) returns (t: System)
    requires From(c, o, s) && Enabled(c, s, Go(n, x, e)) && At(s, n, x, pc) && After(c.attempts[x], pc, e) == Some(next)
    ensures From(c, o, t) && n in t.runs && Touches(s, t, n, x) && At(t, n, x, next)
    ensures t.rows == Wrote(s.rows, x, pc, e)
    ensures if CondFalse(e)
      then t.runs[n].skip == s.runs[n].skip + {x} && t.runs[n].falseCond == s.runs[n].falseCond + {x}
      else SameSkips(s, t, n)
    ensures e.Act? && pc.AtAct? ==> (x, pc.claimed) in t.acted
    ensures (forall k :: k in s.acted ==> k in t.acted)
  {
    t := Do(c, s, Go(n, x, e));
    StepFrom(c, o, s, Go(n, x, e), t);
  }

  lemma CheckStep(c: Config, o: System, s: System, n: nat, x: string) returns (t: System)
    requires ValidConfig(c) && From(c, o, s) && At(s, n, x, Spawned) && x in c.level
    requires !DepSkipped(c, s.runs[n].skip, x)
    ensures From(c, o, t) && Touches(s, t, n, x) && SameSkips(s, t, n)
    ensures At(t, n, x, AtRead(0)) && t.rows == s.rows
  {
    t := Do(c, s, Check(n, x));
    StepFrom(c, o, s, Check(n, x), t);
  }

  lemma ReadStep(c: Config, o: System, s: System, n: nat, x: string) returns (t: System)
    requires ValidConfig(c) && From(c, o, s) && At(s, n, x, AtRead(0)) && x in c.level && x in s.rows
    ensures From(c, o, t) && Touches(s, t, n, x) && SameSkips(s, t, n) && t.rows == s.rows
    ensures At(t, n, x, if s.rows[x].status == Status.Success then Returned(Ok) else AtClaim(0, s.rows[x]))
  {
    var next := if s.rows[x].status == Status.Success then Returned(Ok) else AtClaim(0, s.rows[x]);
    t := GoStep(c, o, s, n, x, Read(Some(s.rows[x])), AtRead(0), next);
  }

  lemma TakeStep(c: Config, o: System, s: System, n: nat, x: string) returns (t: System)
    requires ValidConfig(c) && From(c, o, s) && x in c.level && x in s.rows && At(s, n, x, AtClaim(0, s.rows[x]))
    ensures From(c, o, t) && Touches(s, t, n, x) && SameSkips(s, t, n)
    ensures At(t, n, x, AtAct(0, s.rows[x].version)) && t.rows[x].version == s.rows[x].version + 1
  {
    t := GoStep(c, o, s, n, x, Claim(APPLIED), AtClaim(0, s.rows[x]), AtAct(0, s.rows[x].version));
  }

  /** Check, read and claim. */
  lemma ClaimStep(c: Config, o: System, s: System, n: nat, x: string) returns (t: System)
    requires ValidConfig(c) && From(c, o, s) && At(s, n, x, Spawned) && x in c.level && x in s.rows
    requires !DepSkipped(c, s.runs[n].skip, x) && s.rows[x].status != Status.Success
    ensures From(c, o, t) && Touches(s, t, n, x) && SameSkips(s, t, n)
    ensures At(t, n, x, AtAct(0, s.rows[x].version)) && t.rows[x].version == s.rows[x].version + 1
  {
    var a := CheckStep(c, o, s, n, x);
    var b := ReadStep(c, o, a, n, x);
    TouchesAgain(s, a, b, n, x);
    t := TakeStep(c, o, b, n, x);
    TouchesAgain(s, b, t, n, x);
  }

  lemma ActStep(c: Config, o: System, s: System, n: nat, x: string, v: int, condFalse: bool) returns (t: System)
    requires ValidConfig(c) && From(c, o, s) && At(s, n, x, AtAct(0, v)) && x in c.level && x in s.rows && Executable(c, x)
    ensures From(c, o, t) && Touches(s, t, n, x) && At(t, n, x, AtSuccess(v)) && t.rows == s.rows
    ensures if condFalse
      then t.runs[n].skip == s.runs[n].skip + {x} && t.runs[n].falseCond == s.runs[n].falseCond + {x}
      else SameSkips(s, t, n)
    ensures (x, v) in t.acted
  {
    t := GoStep(c, o, s, n, x, Act(Result(condFalse)), AtAct(0, v), AtSuccess(v));
  }

  lemma RecordStep(c: Config, o: System, s: System, n: nat, x: string, v: int) returns (t: System)
    requires ValidConfig(c) && c.threaded && From(c, o, s) && At(s, n, x, AtSuccess(v)) && x in c.level && x in s.rows
    requires s.rows[x].version == v + 1
    ensures From(c, o, t) && Touches(s, t, n, x) && SameSkips(s, t, n)
    ensures At(t, n, x, Returned(Ok)) && t.rows[x].status == Status.Success
    ensures forall k :: k in s.acted ==> k in t.acted
  {
    t := GoStep(c, o, s, n, x, PutSuccess(APPLIED), AtSuccess(v), Returned(Ok));
  }

  /** Act and record the result. */
  lemma FinishStep(c: Config, o: System, s: System, n: nat, x: string, v: int, condFalse: bool) returns (t: System)
    requires ValidConfig(c) && c.threaded && From(c, o, s) && At(s, n, x, AtAct(0, v)) && x in c.level && x in s.rows
    requires Executable(c, x) && s.rows[x].version == v + 1
    ensures From(c, o, t) && Touches(s, t, n, x) && At(t, n, x, Returned(Ok)) && t.rows[x].status == Status.Success
    ensures if condFalse
      then t.runs[n].skip == s.runs[n].skip + {x} && t.runs[n].falseCond == s.runs[n].falseCond + {x}
      else SameSkips(s, t, n)
    ensures (x, v) in t.acted
  {
    var a := ActStep(c, o, s, n, x, v, condFalse);
    t := RecordStep(c, o, a, n, x, v);
    TouchesAgain(s, a, t, n, x);
  }

  /** A step that is not SUCCESS, whatever stopped it, and has no skipped dependency can be executed to SUCCESS. */
  lemma ExecuteStep(c: Config, o: System, s: System, n: nat, x: string, condFalse: bool) returns (t: System)
    requires ValidConfig(c) && c.threaded && From(c, o, s) && At(s, n, x, Spawned) && x in c.level && x in s.rows
    requires Executable(c, x) && !DepSkipped(c, s.runs[n].skip, x) && s.rows[x].status != Status.Success
    ensures From(c, o, t) && Touches(s, t, n, x) && At(t, n, x, Returned(Ok)) && t.rows[x].status == Status.Success
    ensures if condFalse
      then t.runs[n].skip == s.runs[n].skip + {x} && t.runs[n].falseCond == s.runs[n].falseCond + {x}
      else SameSkips(s, t, n)
    ensures (x, s.rows[x].version) in t.acted
  {
    var a := ClaimStep(c, o, s, n, x);
    t := FinishStep(c, o, a, n, x, s.rows[x].version, condFalse);
    TouchesAgain(s, a, t, n, x);
  }

  /** A run that finds a step SUCCESS returns from it at once. */
  lemma RereadStep(c: Config, o: System, s: System, n: nat, f: string) returns (t: System)
    requires ValidConfig(c) && From(c, o, s) && At(s, n, f, Spawned) && f in c.level && !DepSkipped(c, s.runs[n].skip, f)
    requires f in s.rows && s.rows[f].status == Status.Success
    ensures From(c, o, t) && Touches(s, t, n, f) && SameSkips(s, t, n) && At(t, n, f, Returned(Ok)) && t.rows == s.rows
  {
    var a := CheckStep(c, o, s, n, f);
    t := ReadStep(c, o, a, n, f);
    TouchesAgain(s, a, t, n, f);
  }

  /** Either way the step is passed. */
  lemma PassStep(c: Config, o: System, s: System, n: nat, x: string) returns (t: System)
    requires ValidConfig(c) && c.threaded && From(c, o, s) && At(s, n, x, Spawned) && x in c.level && x in s.rows
    requires Executable(c, x) && !DepSkipped(c, s.runs[n].skip, x)
    ensures From(c, o, t) && Touches(s, t, n, x) && SameSkips(s, t, n)
    ensures At(t, n, x, Returned(Ok)) && t.rows[x].status == Status.Success
  {
    if s.rows[x].status == Status.Success {
      t := RereadStep(c, o, s, n, x);
    } else {
      t := ExecuteStep(c, o, s, n, x, false);
    }
  }

  // ---- A run through all layers ----------------------------------------------------------------

  /** In layer `k` the steps of `rest` are still to run, and all others up to it are SUCCESS. */
  predicate RowAt(c: Config, s: System, k: nat, rest: set<string>, x: string)
    requires x in c.level
  {
    x in s.rows && (c.level[x] < k || (c.level[x] == k && x !in rest) ==> s.rows[x].status == Status.Success)
  }

  predicate PcAt(s: System, n: nat, rest: set<string>, x: string) {
    At(s, n, x, if x in rest then Spawned else Returned(Ok))
  }

  ghost predicate InLayerOf(c: Config, o: System, s: System, n: nat, k: nat, rest: set<string>) {
    && From(c, o, s) && n in s.runs && s.runs[n].layer == k && !s.runs[n].halted && rest <= Layer(c, k)
    && s.runs[n].pcs.Keys == Layer(c, k) && s.runs[n].skip == {} && s.runs[n].falseCond == {}
    && (forall x {:trigger RowAt(c, s, k, rest, x)} :: x in c.level ==> RowAt(c, s, k, rest, x))
    && (forall x {:trigger PcAt(s, n, rest, x)} :: x in Layer(c, k) ==> PcAt(s, n, rest, x))
  }

  lemma LayerStep(c: Config, o: System, s: System, n: nat, k: nat, rest: set<string>, x: string) returns (t: System)
    requires ValidConfig(c) && c.threaded && InLayerOf(c, o, s, n, k, rest) && x in rest && Executable(c, x)
    ensures InLayerOf(c, o, t, n, k, rest - {x})
  {
    assert RowAt(c, s, k, rest, x) && PcAt(s, n, rest, x);
    assert !DepSkipped(c, s.runs[n].skip, x);
    t := PassStep(c, o, s, n, x);
    forall y | y in c.level ensures RowAt(c, t, k, rest - {x}, y) {
      assert RowAt(c, s, k, rest, y);
      RowAfter(c, s, t, n, k, rest, x, y);
    }
    forall y | y in Layer(c, k) ensures PcAt(t, n, rest - {x}, y) {
      assert PcAt(s, n, rest, y);
      PcAfter(s, t, n, rest, x, y);
    }
  }

  lemma RowAfter(c: Config, s: System, t: System, n: nat, k: nat, rest: set<string>, x: string, y: string)
    requires n in s.runs && Touches(s, t, n, x) && x in t.rows && t.rows[x].status == Status.Success
    requires y in c.level && RowAt(c, s, k, rest, y)
    ensures RowAt(c, t, k, rest - {x}, y)
  {}

  lemma PcAfter(s: System, t: System, n: nat, rest: set<string>, x: string, y: string)
    requires n in s.runs && Touches(s, t, n, x) && At(t, n, x, Returned(Ok)) && PcAt(s, n, rest, y)
    ensures PcAt(t, n, rest - {x}, y)
  {}

  ghost predicate AllExecutable(c: Config) {
    forall x :: x in c.level ==> Executable(c, x)
  }

  lemma {:induction false} RunOneLayer(c: Config, o: System, s: System, n: nat, k: nat, rest: set<string>) returns (t: System)
    requires ValidConfig(c) && c.threaded && AllExecutable(c) && InLayerOf(c, o, s, n, k, rest)
    ensures InLayerOf(c, o, t, n, k, {})
    decreases |rest|
  {
    if rest == {} {
      t := s;
    } else {
      var x :| x in rest;
      t := LayerStep(c, o, s, n, k, rest, x);
      t := RunOneLayer(c, o, t, n, k, rest - {x});
    }
  }

  lemma NextLayer(c: Config, o: System, s: System, n: nat, k: nat) returns (t: System)
    requires ValidConfig(c) && InLayerOf(c, o, s, n, k, {}) && k < c.height
    ensures InLayerOf(c, o, t, n, k + 1, Layer(c, k + 1))
  {
    var j := k + 1;
    forall x | x in s.runs[n].pcs ensures s.runs[n].pcs[x] == Returned(Ok) { assert PcAt(s, n, {}, x); }
    t := Do(c, s, Advance(n));
    StepFrom(c, o, s, Advance(n), t);
    forall x | x in c.level ensures RowAt(c, t, j, Layer(c, j), x) { assert RowAt(c, s, k, {}, x); }
    forall x | x in Layer(c, j) ensures PcAt(t, n, Layer(c, j), x) {}
  }

  lemma {:induction false} RunAllLayers(c: Config, o: System, s: System, n: nat, k: nat) returns (t: System)
    requires ValidConfig(c) && c.threaded && AllExecutable(c) && k <= c.height && InLayerOf(c, o, s, n, k, Layer(c, k))
    ensures InLayerOf(c, o, t, n, c.height, {})
    decreases c.height - k
  {
    t := RunOneLayer(c, o, s, n, k, Layer(c, k));
    if k == c.height {
    } else {
      t := NextLayer(c, o, t, n, k);
      t := RunAllLayers(c, o, t, n, k + 1);
    }
  }

  lemma BeginRun(c: Config, o: System, s: System, n: nat) returns (t: System)
    requires From(c, o, s) && n !in s.runs
    ensures From(c, o, t) && t.rows == s.rows && t.runs == s.runs[n := FreshRun(c)]
  {
    t := Do(c, s, Begin(n));
    StepFrom(c, o, s, Begin(n), t);
  }

  lemma BeginInLayer(c: Config, o: System, s: System, n: nat) returns (t: System)
    requires ValidConfig(c) && From(c, o, s) && n !in s.runs && s.rows.Keys == c.level.Keys
    ensures InLayerOf(c, o, t, n, 0, Layer(c, 0))
  {
    t := BeginRun(c, o, s, n);
    forall x | x in c.level ensures RowAt(c, t, 0, Layer(c, 0), x) {}
    forall x | x in Layer(c, 0) ensures PcAt(t, n, Layer(c, 0), x) {}
  }

  /** A run has got through all layers, and every record is SUCCESS. */
  predicate Completed(c: Config, s: System, n: nat) {
    n in s.runs && s.runs[n].layer == c.height && forall x :: x in c.level ==> x in s.rows && s.rows[x].status == Status.Success
  }

  /**
   * With threaded versions nothing that crashes, failures and suspensions leave behind is a dead end: from every state
   * of every execution, every new run can get through all layers, skip nothing and leave every record SUCCESS.
   */
  lemma NoDeadEnd(c: Config, s: System, n: nat) returns (t: System)
    requires ValidConfig(c) && c.threaded && AllExecutable(c) && Reachable(c, s) && n !in s.runs
    ensures From(c, s, t) && Completed(c, t, n) && t.runs[n].skip == {}
  {
    ReachableInv(c, s);
    NoActionFrom(c, s);
    var a := BeginInLayer(c, s, s, n);
    t := RunAllLayers(c, s, a, n, 0);
    forall x | x in c.level ensures x in t.rows && t.rows[x].status == Status.Success {
      assert RowAt(c, t, c.height, {}, x);
    }
  }

  ghost predicate CanComplete(c: Config, s: System) {
    exists t, n :: n !in s.runs && From(c, s, t) && Completed(c, t, n)
  }

  lemma {:induction false} SomeNewRun(runs: set<nat>) returns (n: nat)
    ensures forall m :: m in runs ==> m < n
  {
    if runs == {} {
      n := 0;
    } else {
      var m :| m in runs;
      var k := SomeNewRun(runs - {m});
      n := if m < k then k else m + 1;
      assert forall p :: p in runs ==> p == m || p in runs - {m};
    }
  }

  lemma FromTransitive(c: Config, o: System, s: System, t: System)
    requires From(c, o, s) && From(c, s, t)
    ensures From(c, o, t)
  {
    var first, before :| Leading(c, o, first, before, s);
    var second, after :| Leading(c, s, second, after, t);
    var states, actions := first + second[1..], before + after;
    forall i | 0 <= i < |actions| ensures LeadsAt(c, states, actions, i) {
      if i < |before| {
        assert LeadsAt(c, first, before, i);
      } else {
        assert LeadsAt(c, second, after, i - |before|);
      }
    }
    assert Leading(c, o, states, actions, t);
  }

  /** From every state of every execution completion is possible if and only if versions are threaded. */
  lemma CompletesIffThreaded(c: Config, s: System)
    requires ValidConfig(c) && AllExecutable(c) && c.level != map[] && Reachable(c, s)
    ensures CanComplete(c, s) <==> c.threaded
  {
    if c.threaded {
      var n := SomeNewRun(s.runs.Keys);
      var t := NoDeadEnd(c, s, n);
    } else {
      forall t, n | From(c, s, t) ensures !Completed(c, t, n) {
        FromTransitive(c, Init(c), s, t);
        NotCompletedAsWritten(c, t, n);
      }
    }
  }

  lemma NotCompletedAsWritten(c: Config, s: System, n: nat)
    requires ValidConfig(c) && AllExecutable(c) && c.level != map[] && !c.threaded && Reachable(c, s)
    ensures !Completed(c, s, n)
  {
    var states, actions :| Leading(c, Init(c), states, actions, s);
    assert Execution(c, states, actions);
    AsWrittenNothingCompletes(c, states, actions, |actions|);
    var x :| x in c.level;
    assert Executable(c, x);
    assert x in s.rows ==> NeverPast(s.rows[x]);
  }

  /**
   * For every plan of a step list whose actions are all registered or loops, and every state of every execution of it:
   * some continuation in which a new run gets through all layers and leaves every record SUCCESS exists if and only if
   * versions are threaded.
   */
  lemma PlanCompletesIffThreaded(steps: seq<StepDef>, p: Plan, c: Config, s: System)
    requires Plannable(steps) && IsPlan(steps, p) && ConfigOf(steps, p, c) && Reachable(c, s)
    requires forall d :: d in steps ==> d.action in c.registered || d.action == LOOP
    ensures CanComplete(c, s) <==> c.threaded
  {
    PlanIsExecutable(steps, p, c);
    CompletesIffThreaded(c, s);
  }

  lemma PlanIsExecutable(steps: seq<StepDef>, p: Plan, c: Config)
    requires Plannable(steps) && IsPlan(steps, p) && ConfigOf(steps, p, c)
    requires forall d :: d in steps ==> d.action in c.registered || d.action == LOOP
    ensures ValidConfig(c) && AllExecutable(c) && c.level != map[]
  {
    PlanGivesValidConfig(steps, p, c);
    forall x | x in c.level ensures Executable(c, x) {
      var d :| d in steps && d.id == x;
    }
    assert steps[0].id in Ids(steps);
  }
}
