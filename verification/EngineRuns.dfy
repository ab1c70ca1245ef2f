/** What holds of every run of the engine, in every interleaving. */
module EngineRuns {
  import opened Common
  import opened StepRecords
  import opened Retry
  import opened Engine

  // ---- One run: skip propagation and the layer barrier --------------------------------------

  /** A step is skipped exactly when its condition was false in this run or a dependency of it is skipped. */
  predicate SkipRule(c: Config, r: Run, x: string)
    requires x in c.deps
  {
    x in r.skip <==> x in r.falseCond || DepSkipped(c, r.skip, x)
  }

  predicate PassedOk(c: Config, ever: set<string>, r: Run, x: string)
    requires x in c.deps
  {
    SkipRule(c, r, x) && (DepSkipped(c, r.skip, x) || x in ever)
  }

  predicate StandsOk(c: Config, ever: set<string>, r: Run, x: string)
    requires x in c.deps && x in r.pcs
  {
    match r.pcs[x]
    case Spawned => x !in r.skip && x !in r.falseCond
    case Returned(verdict) => verdict == Ok ==> PassedOk(c, ever, r, x)
    case AtSuccess(_) => !DepSkipped(c, r.skip, x) && SkipRule(c, r, x)
    case _ => !DepSkipped(c, r.skip, x) && x !in r.skip && x !in r.falseCond
  }

  predicate UpTo(c: Config, xs: set<string>, k: nat) {
    forall x :: x in xs ==> x in c.level && c.level[x] <= k
  }

  ghost predicate RunOk(c: Config, ever: set<string>, r: Run)
    requires ValidConfig(c)
  {
    && r.layer <= c.height && r.pcs.Keys == Layer(c, r.layer)
    && UpTo(c, r.skip, r.layer) && UpTo(c, r.falseCond, r.layer)
    && (forall x :: x in c.level && c.level[x] < r.layer ==> PassedOk(c, ever, r, x))
    && (forall x :: x in r.pcs ==> StandsOk(c, ever, r, x))
  }

  lemma RunOkMono(c: Config, ever: set<string>, more: set<string>, r: Run)
    requires ValidConfig(c) && RunOk(c, ever, r) && ever <= more
    ensures RunOk(c, more, r)
  {
    forall x | x in c.level && c.level[x] < r.layer ensures PassedOk(c, more, r, x) {
      assert PassedOk(c, ever, r, x);
    }
    forall x | x in r.pcs ensures StandsOk(c, more, r, x) {
      assert StandsOk(c, ever, r, x);
    }
  }

  lemma FreshOk(c: Config, ever: set<string>)
    requires ValidConfig(c)
    ensures RunOk(c, ever, FreshRun(c))
  {}

  /** Skipping a step of the current layer does not touch the dependencies of any step seen so far. */
  lemma SkipFrame(c: Config, skip: set<string>, x: string, y: string, k: nat)
    requires ValidConfig(c) && x in c.level && y in c.level && c.level[x] == k && c.level[y] <= k
    ensures DepSkipped(c, skip + {x}, y) <==> DepSkipped(c, skip, y)
  {
    assert x !in c.deps[y];
    assert c.deps[y] * (skip + {x}) == c.deps[y] * skip;
  }

  /** Moving one goroutine of the layer, with or without skipping its step, leaves the other steps as they were. */
  lemma OneStepMoves(c: Config, ever: set<string>, more: set<string>, r: Run, t: Run, x: string)
    requires ValidConfig(c) && RunOk(c, ever, r) && x in r.pcs && ever <= more
    requires t.layer == r.layer && x in t.pcs && t.pcs == r.pcs[x := t.pcs[x]]
    requires (t.skip == r.skip && t.falseCond == r.falseCond) || (t.skip == r.skip + {x} && r.falseCond <= t.falseCond <= r.falseCond + {x})
    requires StandsOk(c, more, t, x)
    ensures RunOk(c, more, t)
  {
    RunOkMono(c, ever, more, r);
    forall y | y in c.level && c.level[y] <= r.layer ensures DepSkipped(c, t.skip, y) <==> DepSkipped(c, r.skip, y) {
      SkipFrame(c, r.skip, x, y, r.layer);
    }
    forall y | y in c.level && c.level[y] < r.layer ensures PassedOk(c, more, t, y) {
      assert PassedOk(c, more, r, y);
    }
    forall y | y in t.pcs ensures StandsOk(c, more, t, y) {
      if y != x { assert StandsOk(c, more, r, y); }
    }
  }

  lemma CheckOk(c: Config, ever: set<string>, r: Run, x: string)
    requires ValidConfig(c) && RunOk(c, ever, r) && x in r.pcs && x in c.deps && r.pcs[x] == Spawned
    ensures RunOk(c, ever, Checked(c, r, x))
  {
    assert StandsOk(c, ever, r, x);
    var t := Checked(c, r, x);
    SkipFrame(c, r.skip, x, x, r.layer);
    OneStepMoves(c, ever, ever, r, t, x);
  }

  lemma GoStands(c: Config, ever: set<string>, more: set<string>, r: Run, x: string, e: Event)
    requires ValidConfig(c) && RunOk(c, ever, r) && x in r.pcs && x in c.attempts && ever <= more
    requires After(c.attempts[x], r.pcs[x], e).Some?
    requires RecordsSuccess(e) ==> x in more
    ensures StandsOk(c, more, Moved(c, r, x, e), x)
  {
    assert StandsOk(c, ever, r, x);
    SkipFrame(c, r.skip, x, x, r.layer);
  }

  lemma GoOk(c: Config, ever: set<string>, more: set<string>, r: Run, x: string, e: Event)
    requires ValidConfig(c) && RunOk(c, ever, r) && x in r.pcs && x in c.attempts && ever <= more
    requires After(c.attempts[x], r.pcs[x], e).Some?
    requires RecordsSuccess(e) ==> x in more
    ensures RunOk(c, more, Moved(c, r, x, e))
  {
    GoStands(c, ever, more, r, x, e);
    OneStepMoves(c, ever, more, r, Moved(c, r, x, e), x);
  }

  lemma AdvanceOk(c: Config, ever: set<string>, r: Run)
    requires ValidConfig(c) && RunOk(c, ever, r) && r.layer < c.height && AllOk(r)
    ensures RunOk(c, ever, Advanced(c, r))
  {
    var t := Advanced(c, r);
    forall x | x in c.level && c.level[x] < t.layer ensures PassedOk(c, ever, t, x) {
      if c.level[x] == r.layer {
        assert x in r.pcs && StandsOk(c, ever, r, x);
      } else {
        assert PassedOk(c, ever, r, x);
      }
    }
  }

  // ---- Ancestors -----------------------------------------------------------------------------

  /** `y` is reached from `x` by following dependencies. */
  ghost predicate Anc(c: Config, y: string, x: string)
    requires ValidConfig(c)
    decreases if x in c.level then c.level[x] else 0
  {
    x in c.level && exists d :: d in c.deps[x] && (d == y || Anc(c, y, d))
  }

  ghost predicate AncestorsEver(c: Config, ever: set<string>, x: string)
    requires ValidConfig(c)
  {
    forall y :: Anc(c, y, x) ==> y in ever
  }

  lemma NotSkipped(c: Config, skip: set<string>, x: string, d: string)
    requires x in c.deps && d in c.deps[x] && !DepSkipped(c, skip, x)
    ensures d !in skip
  {
    var both := c.deps[x] * skip;
    assert d in both <==> d in skip;
  }

  /** Behind a step that a run neither skipped nor had to skip, everything was recorded SUCCESS. */
  lemma {:induction false} ClearAncestors(c: Config, ever: set<string>, r: Run, x: string, y: string)
    requires ValidConfig(c) && RunOk(c, ever, r) && x in c.level && c.level[x] <= r.layer
    requires !DepSkipped(c, r.skip, x) && Anc(c, y, x)
    ensures y in ever && y !in r.skip && y !in r.falseCond
    decreases c.level[x]
  {
    var d :| d in c.deps[x] && (d == y || Anc(c, y, d));
    NotSkipped(c, r.skip, x, d);
    assert PassedOk(c, ever, r, d);
    if d != y {
      ClearAncestors(c, ever, r, d, y);
    }
  }

  // ---- Claims ---------------------------------------------------------------------------------

  predicate OwnerOk(s: System, key: (string, int)) {
    key.0 in s.rows && key.1 < s.rows[key.0].version
  }

  predicate ActingOk(s: System, n: nat, x: string, pc: Pc) {
    pc.AtAct? ==> (x, pc.claimed) in s.owner && s.owner[(x, pc.claimed)] == n && (x, pc.claimed) !in s.acted
  }

  ghost predicate RunActs(s: System, n: nat)
    requires n in s.runs
  {
    forall x :: x in s.runs[n].pcs ==> ActingOk(s, n, x, s.runs[n].pcs[x])
  }

  ghost predicate ClaimsOk(s: System) {
    && (forall key :: key in s.owner ==> OwnerOk(s, key))
    && (forall key :: key in s.acted ==> key in s.owner && s.acted[key] == 1)
    && (forall n :: n in s.runs ==> RunActs(s, n))
  }

  /** The claim of a version that takes effect is the first one of that version. */
  lemma ClaimIsFirst(c: Config, s: System, n: nat, x: string, w: Write)
    requires ClaimsOk(s) && Enabled(c, s, Go(n, x, Claim(w))) && w.applied
    ensures (x, s.runs[n].pcs[x].seen.version) !in s.owner
  {
    var key := (x, s.runs[n].pcs[x].seen.version);
    assert key in s.owner ==> OwnerOk(s, key);
  }

  lemma OwnersStayOk(c: Config, s: System, a: Action, key: (string, int))
    requires RecordsOk(c, s) && ClaimsOk(s) && Enabled(c, s, a) && key in Do(c, s, a).owner
    ensures OwnerOk(Do(c, s, a), key)
  {
    ActionGrowsRows(c, s, a);
    if key in s.owner {
      assert OwnerOk(s, key);
      assert RowGrows(s.rows[key.0], Do(c, s, a).rows[key.0]);
    }
  }

  lemma ActedStaysOk(c: Config, s: System, a: Action, key: (string, int))
    requires ClaimsOk(s) && Enabled(c, s, a) && key in Do(c, s, a).acted
    ensures key in Do(c, s, a).owner && Do(c, s, a).acted[key] == 1
  {
    if a.Go? && a.e.Act? {
      assert RunActs(s, a.run);
      assert ActingOk(s, a.run, a.step, s.runs[a.run].pcs[a.step]);
    }
  }

  /** An action of another run leaves a claim that is being acted on alone. */
  lemma ActingSurvives(c: Config, s: System, a: Action, n: nat, x: string, pc: Pc)
    requires ClaimsOk(s) && Enabled(c, s, a) && ActingOk(s, n, x, pc)
    requires a.Go? ==> a.run != n || a.step != x
    ensures ActingOk(Do(c, s, a), n, x, pc)
  {
    if a.Go? && pc.AtAct? {
      assert RunActs(s, a.run);
      assert ActingOk(s, a.run, a.step, s.runs[a.run].pcs[a.step]);
      if a.e.Claim? && a.e.w.applied { ClaimIsFirst(c, s, a.run, a.step, a.e.w); }
    }
  }

  lemma GoneActs(c: Config, s: System, n: nat, x: string, e: Event)
    requires ClaimsOk(s) && Enabled(c, s, Go(n, x, e))
    ensures ActingOk(Stepped(c, s, n, x, e), n, x, After(c.attempts[x], s.runs[n].pcs[x], e).value)
  {
    if e.Claim? && e.w.applied {
      ClaimIsFirst(c, s, n, x, e.w);
    }
  }

  lemma RunsStillAct(c: Config, s: System, a: Action, n: nat)
    requires ClaimsOk(s) && Enabled(c, s, a) && n in Do(c, s, a).runs
    ensures RunActs(Do(c, s, a), n)
  {
    var t := Do(c, s, a);
    forall x | x in t.runs[n].pcs ensures ActingOk(t, n, x, t.runs[n].pcs[x]) {
      if Mover(a) != Some(n) {
        OthersStay(c, s, a, n);
        assert RunActs(s, n);
        ActingSurvives(c, s, a, n, x, s.runs[n].pcs[x]);
      } else if a.Go? {
        if a.step == x {
          GoneActs(c, s, n, x, a.e);
        } else {
          assert RunActs(s, n);
          ActingSurvives(c, s, a, n, x, s.runs[n].pcs[x]);
        }
      } else if n in s.runs {
        assert RunActs(s, n);
      }
    }
  }

  lemma ClaimsStayOk(c: Config, s: System, a: Action)
    requires RecordsOk(c, s) && ClaimsOk(s) && Enabled(c, s, a)
    ensures ClaimsOk(Do(c, s, a))
  {
    var t := Do(c, s, a);
    forall key | key in t.owner ensures OwnerOk(t, key) { OwnersStayOk(c, s, a, key); }
    forall key | key in t.acted ensures key in t.owner && t.acted[key] == 1 { ActedStaysOk(c, s, a, key); }
    forall n | n in t.runs ensures RunActs(t, n) { RunsStillAct(c, s, a, n); }
  }

  // ---- The whole invariant -------------------------------------------------------------------

  ghost predicate Inv(c: Config, s: System)
    requires ValidConfig(c)
  {
    && RecordsOk(c, s) && ClaimsOk(s)
    && (forall n :: n in s.runs ==> RunOk(c, s.ever, s.runs[n]))
    && (forall x :: x in s.began ==> x in c.level && AncestorsEver(c, s.ever, x))
  }

  lemma SuccessIsRecorded(c: Config, s: System, n: nat, x: string, e: Event)
    requires RowsOk(c, s) && Enabled(c, s, Go(n, x, e)) && RecordsSuccess(e)
    ensures x in Stepped(c, s, n, x, e).ever
  {}

  lemma GoingRunOk(c: Config, s: System, n: nat, x: string, e: Event)
    requires ValidConfig(c) && RowsOk(c, s) && Enabled(c, s, Go(n, x, e)) && RunOk(c, s.ever, s.runs[n])
    ensures RunOk(c, Stepped(c, s, n, x, e).ever, Moved(c, s.runs[n], x, e))
  {
    if RecordsSuccess(e) { SuccessIsRecorded(c, s, n, x, e); }
    GoOk(c, s.ever, Stepped(c, s, n, x, e).ever, s.runs[n], x, e);
  }

  lemma MovedRunOk(c: Config, s: System, a: Action, n: nat)
    requires ValidConfig(c) && RowsOk(c, s) && Enabled(c, s, a) && Mover(a) == Some(n)
    requires n in s.runs ==> RunOk(c, s.ever, s.runs[n])
    ensures n in Do(c, s, a).runs && RunOk(c, Do(c, s, a).ever, Do(c, s, a).runs[n])
  {
    if a.Begin? {
      FreshOk(c, s.ever);
    } else if a.Check? {
      CheckOk(c, s.ever, s.runs[n], a.step);
    } else if a.Go? {
      GoingRunOk(c, s, n, a.step, a.e);
    } else if a.Advance? {
      AdvanceOk(c, s.ever, s.runs[n]);
    } else {
      HaltOk(c, s.ever, s.runs[n]);
    }
  }

  lemma HaltOk(c: Config, ever: set<string>, r: Run)
    requires ValidConfig(c) && RunOk(c, ever, r)
    ensures RunOk(c, ever, r.(halted := true))
  {
    var t := r.(halted := true);
    forall x | x in c.level && c.level[x] < r.layer ensures PassedOk(c, ever, t, x) {
      assert PassedOk(c, ever, r, x);
    }
    forall x | x in r.pcs ensures StandsOk(c, ever, t, x) {
      assert StandsOk(c, ever, r, x);
    }
  }

  /** A step is claimed only when everything it depends on was recorded SUCCESS. */
  lemma ClaimedAfterAncestors(c: Config, s: System, n: nat, x: string, w: Write)
    requires ValidConfig(c) && Inv(c, s) && Enabled(c, s, Go(n, x, Claim(w)))
    ensures x in c.level && AncestorsEver(c, s.ever, x)
  {
    var r := s.runs[n];
    assert RunOk(c, s.ever, r) && StandsOk(c, s.ever, r, x);
    forall y | Anc(c, y, x) ensures y in s.ever {
      ClearAncestors(c, s.ever, r, x, y);
    }
  }

  lemma AncestorsEverMono(c: Config, ever: set<string>, more: set<string>, x: string)
    requires ValidConfig(c) && AncestorsEver(c, ever, x) && ever <= more
    ensures AncestorsEver(c, more, x)
  {}

  lemma NewlyBegan(c: Config, s: System, a: Action, x: string)
    requires Enabled(c, s, a) && x in Do(c, s, a).began && x !in s.began
    ensures a.Go? && a.e.Claim? && a.step == x
  {}

  lemma BeganStaysOk(c: Config, s: System, a: Action, x: string)
    requires ValidConfig(c) && Inv(c, s) && Enabled(c, s, a) && x in Do(c, s, a).began
    ensures x in c.level && AncestorsEver(c, Do(c, s, a).ever, x)
  {
    if x !in s.began {
      NewlyBegan(c, s, a, x);
      ClaimedAfterAncestors(c, s, a.run, x, a.e.w);
    }
    EverGrows(c, s, a);
    AncestorsEverMono(c, s.ever, Do(c, s, a).ever, x);
  }

  lemma InvInit(c: Config)
    requires ValidConfig(c)
    ensures Inv(c, Init(c))
  {}

  lemma InvStays(c: Config, s: System, a: Action)
    requires ValidConfig(c) && Inv(c, s) && Enabled(c, s, a)
    ensures Inv(c, Do(c, s, a))
  {
    var t := Do(c, s, a);
    RecordsStayOk(c, s, a);
    ClaimsStayOk(c, s, a);
    EverGrows(c, s, a);
    forall n | n in t.runs ensures RunOk(c, t.ever, t.runs[n]) {
      assert n in s.runs ==> RunOk(c, s.ever, s.runs[n]);
      if Mover(a) == Some(n) {
        MovedRunOk(c, s, a, n);
      } else {
        OthersStay(c, s, a, n);
        RunOkMono(c, s.ever, t.ever, s.runs[n]);
      }
    }
    forall x | x in t.began ensures x in c.level && AncestorsEver(c, t.ever, x) { BeganStaysOk(c, s, a, x); }
  }
}
