/**
 * The execution engine as a transition system: any number of workers run the same execution at the same time, may
 * stop at any point, and share nothing but the step records.
 */
module Engine {
  import opened Common
  import opened StepRecords
  import opened Retry

  const COMPENSATION := "COMPENSATION"
  const LOOP := "LOOP"

  /**
   * A planned workflow: the layer and the dependencies of each step. `threaded` says whether a worker names the
   * record's new version in the writes after its claim, or the version it had before the claim.
   */
  datatype Config = Config(
    level: map<string, nat>,
    deps: map<string, set<string>>,
    height: nat,
    action: map<string, string>,
    attempts: map<string, nat>,
    registered: set<string>,
    threaded: bool)

  ghost predicate ValidConfig(c: Config) {
    && c.deps.Keys == c.level.Keys && c.action.Keys == c.level.Keys && c.attempts.Keys == c.level.Keys
    && (forall x :: x in c.level ==> c.level[x] < c.height)
    && (forall x, d :: x in c.level && d in c.deps[x] ==> d in c.level && c.level[d] < c.level[x])
    && COMPENSATION !in c.registered
  }

  /** One call of RunExecution: the layer it is in, where that layer's goroutines stand, and its skip set. */
  datatype Run = Run(
    layer: nat,
    pcs: map<string, Pc>,
    skip: set<string>,
    falseCond: set<string>,
    halted: bool)

  /** A resume request that has read the record it is about to complete. */
  datatype Resumer = Resumer(step: string, seen: Row)

  /**
   * `owner`, `acted`, `began` and `ever` record history: which run claimed which version of which step, how often
   * each claim's action ran, which steps were ever set to RUNNING by the layer loop, and which were ever SUCCESS.
   */
  datatype System = System(
    rows: map<string, Row>,
    runs: map<nat, Run>,
    resumers: map<nat, Resumer>,
    owner: map<(string, int), nat>,
    acted: multiset<(string, int)>,
    began: set<string>,
    ever: set<string>)

  function Layer(c: Config, k: nat): set<string> {
    set x | x in c.level && c.level[x] == k
  }

  /** The goroutines of a layer, one for each step. */
  function Spawn(c: Config, k: nat): map<string, Pc> {
    map x | x in Layer(c, k) :: Spawned
  }

  function FreshRun(c: Config): Run {
    Run(0, Spawn(c, 0), {}, {}, false)
  }

  function Init(c: Config): System {
    System(map x | x in c.level :: Row(Pending, 1, 0), map[], map[], map[], multiset{}, {}, {})
  }

  datatype Action =
    | Begin(run: nat)
    | Check(run: nat, step: string)
    | Go(run: nat, step: string, e: Event)
    | Advance(run: nat)
    | Halt(run: nat)
    | Compensate(step: string, version: int, status: Status)
    | ResumeRead(who: nat, step: string)
    | ResumeWrite(who: nat, applied: bool)

  // ---- Enabledness and effect of each action ----------------------------------------------

  predicate DepSkipped(c: Config, skip: set<string>, x: string)
    requires x in c.deps
  {
    c.deps[x] * skip != {}
  }

  /** The version a worker names in its next write. */
  function Used(c: Config, pc: Pc): int {
    match pc
    case AtClaim(_, seen) => seen.version
    case AtNote(_, v) => if c.threaded then v + 1 else v
    case AtFail(v, noted) => if c.threaded then v + 1 + (if noted then 1 else 0) else v
    case AtSuspend(v) => if c.threaded then v + 1 else v
    case AtSuccess(v) => if c.threaded then v + 1 else v
    case _ => 0
  }

  function PatchAt(pc: Pc, row: Row): Patch {
    match pc
    case AtClaim(_, _) => SetStatus(Running)
    case AtFail(_, _) => SetStatus(Failed)
    case AtSuspend(_) => SetStatus(Suspended)
    case AtSuccess(_) => SetStatus(Status.Success)
    case _ => SetRetryCount(row.retryCount + 1)
  }

  function WriteOf(e: Event): Option<Write> {
    match e
    case Claim(w) => Some(w)
    case NoteRetry(w) => Some(w)
    case PutFailed(w) => Some(w)
    case PutSuspended(w) => Some(w)
    case PutSuccess(w) => Some(w)
    case _ => None
  }

  predicate Applied(e: Event) {
    WriteOf(e).Some? && WriteOf(e).value.applied
  }

  /** The answers the store and the action registry can give. */
  predicate CanAnswer(c: Config, rows: map<string, Row>, x: string, pc: Pc, e: Event)
    requires x in rows && x in c.action
  {
    && (e.Read? ==> e.row == None || e.row == Some(rows[x]))
    && (e.Act? && c.action[x] != LOOP ==> (e.outcome.NoAction? <==> c.action[x] !in c.registered))
    && (WriteOf(e).Some? && WriteOf(e).value.ok ==> Applied(e))
    && (Applied(e) ==> Matches(rows, x, Used(c, pc)))
  }

  predicate Settled(r: Run) {
    forall x :: x in r.pcs ==> r.pcs[x].Returned?
  }

  predicate AllOk(r: Run) {
    forall x :: x in r.pcs ==> r.pcs[x] == Returned(Ok)
  }

  predicate Enabled(c: Config, s: System, a: Action) {
    match a
    case Begin(n) => n !in s.runs
    case Check(n, x) => n in s.runs && x in s.runs[n].pcs && x in c.deps && s.runs[n].pcs[x] == Spawned
    case Go(n, x, e) =>
      && n in s.runs && x in s.runs[n].pcs && x in s.rows && x in c.action && x in c.attempts
      && After(c.attempts[x], s.runs[n].pcs[x], e).Some?
      && CanAnswer(c, s.rows, x, s.runs[n].pcs[x], e)
    case Advance(n) => n in s.runs && !s.runs[n].halted && s.runs[n].layer < c.height && AllOk(s.runs[n])
    case Halt(n) => n in s.runs && Settled(s.runs[n]) && !AllOk(s.runs[n])
    case Compensate(x, v, status) => x in c.action && c.action[x] == COMPENSATION && Matches(s.rows, x, v)
    case ResumeRead(w, x) => w !in s.resumers && x in s.rows && s.rows[x].status == Suspended
    case ResumeWrite(w, applied) =>
      w in s.resumers && (applied ==> Matches(s.rows, s.resumers[w].step, s.resumers[w].seen.version))
  }

  function Checked(c: Config, r: Run, x: string): Run
    requires x in c.deps
  {
    if DepSkipped(c, r.skip, x)
    then r.(pcs := r.pcs[x := Returned(Ok)], skip := r.skip + {x})
    else r.(pcs := r.pcs[x := AtRead(0)])
  }

  predicate CondFalse(e: Event) {
    e.Act? && e.outcome == Result(true)
  }

  function Moved(c: Config, r: Run, x: string, e: Event): Run
    requires x in r.pcs && x in c.attempts && After(c.attempts[x], r.pcs[x], e).Some?
  {
    var pcs := r.pcs[x := After(c.attempts[x], r.pcs[x], e).value];
    if CondFalse(e) then r.(pcs := pcs, skip := r.skip + {x}, falseCond := r.falseCond + {x}) else r.(pcs := pcs)
  }

  function Advanced(c: Config, r: Run): Run {
    r.(layer := r.layer + 1, pcs := Spawn(c, r.layer + 1))
  }

  function Wrote(rows: map<string, Row>, x: string, pc: Pc, e: Event): map<string, Row>
    requires x in rows
  {
    if Applied(e) then rows[x := Patched(rows[x], PatchAt(pc, rows[x]))] else rows
  }

  function Stepped(c: Config, s: System, n: nat, x: string, e: Event): System
    requires Enabled(c, s, Go(n, x, e))
  {
    var pc := s.runs[n].pcs[x];
    s.(rows := Wrote(s.rows, x, pc, e),
       runs := s.runs[n := Moved(c, s.runs[n], x, e)],
       owner := if e.Claim? && e.w.applied then s.owner[(x, pc.seen.version) := n] else s.owner,
       acted := if e.Act? then s.acted[(x, pc.claimed) := s.acted[(x, pc.claimed)] + 1] else s.acted,
       began := if e.Claim? && e.w.applied then s.began + {x} else s.began,
       ever := if e.PutSuccess? && e.w.applied then s.ever + {x} else s.ever)
  }

  function Do(c: Config, s: System, a: Action): System
    requires Enabled(c, s, a)
  {
    match a
    case Begin(n) => s.(runs := s.runs[n := FreshRun(c)])
    case Check(n, x) => s.(runs := s.runs[n := Checked(c, s.runs[n], x)])
    case Go(n, x, e) => Stepped(c, s, n, x, e)
    case Advance(n) => s.(runs := s.runs[n := Advanced(c, s.runs[n])])
    case Halt(n) => s.(runs := s.runs[n := s.runs[n].(halted := true)])
    case Compensate(x, v, status) =>
      s.(rows := s.rows[x := Patched(s.rows[x], SetStatus(status))],
         ever := if status == Status.Success then s.ever + {x} else s.ever)
    case ResumeRead(w, x) => s.(resumers := s.resumers[w := Resumer(x, s.rows[x])])
    case ResumeWrite(w, applied) =>
      var x := s.resumers[w].step;
      if applied
      then s.(rows := s.rows[x := Patched(s.rows[x], SetStatus(Status.Success))], resumers := s.resumers - {w}, ever := s.ever + {x})
      else s.(resumers := s.resumers - {w})
  }

  /** An interleaving of any number of workers: each state follows from the one before by one enabled action. */
  ghost predicate Execution(c: Config, states: seq<System>, actions: seq<Action>) {
    && |states| == |actions| + 1 && states[0] == Init(c)
    && (forall i {:trigger LeadsAt(c, states, actions, i)} :: 0 <= i < |actions| ==> LeadsAt(c, states, actions, i))
  }

  ghost predicate LeadsAt(c: Config, states: seq<System>, actions: seq<Action>, i: nat)
    requires |states| == |actions| + 1 && i < |actions|
  {
    Leads(c, states[i], actions[i], states[i + 1])
  }

  ghost predicate Leads(c: Config, s: System, a: Action, t: System) {
    Enabled(c, s, a) && t == Do(c, s, a)
  }

  /** What each write of the engine leaves in the record, and that it touches no other. */
  lemma WritesSay(c: Config, s: System, n: nat, x: string, e: Event)
    requires Enabled(c, s, Go(n, x, e))
    ensures
      var was, now := s.rows, Do(c, s, Go(n, x, e)).rows;
      && x in now && (forall y :: y in was && y != x ==> y in now && now[y] == was[y])
      && (e.Claim? && e.w.applied ==> now[x] == Row(Running, was[x].version + 1, was[x].retryCount))
      && (e.NoteRetry? && e.w.applied ==> now[x] == Row(was[x].status, was[x].version + 1, was[x].retryCount + 1))
      && (e.PutFailed? && e.w.applied ==> now[x] == Row(Failed, was[x].version + 1, was[x].retryCount))
      && (e.PutSuspended? && e.w.applied ==> now[x] == Row(Suspended, was[x].version + 1, was[x].retryCount))
      && (e.PutSuccess? && e.w.applied ==> now[x] == Row(Status.Success, was[x].version + 1, was[x].retryCount))
      && (e.Read? || e.Act? || e.Sleep? || !e.w.applied ==> now == was)
  {
    assert After(c.attempts[x], s.runs[n].pcs[x], e).Some?;
  }

  // ---- Records: versions only grow, and a held version pins the status --------------------

  predicate RowGrows(was: Row, now: Row) {
    now == was || now.version == was.version + 1
  }

  /** What a worker knows about the record from where it stands. */
  predicate Knows(row: Row, pc: Pc) {
    match pc
    case AtClaim(_, seen) =>
      seen.version <= row.version && (seen.version == row.version ==> seen == row) && seen.status != Status.Success
    case AtAct(_, v) => v < row.version && (row.version == v + 1 ==> row.status == Running)
    case AtNote(_, v) => v < row.version && (row.version == v + 1 ==> row.status == Running)
    case AtSuspend(v) => v < row.version && (row.version == v + 1 ==> row.status == Running)
    case AtSuccess(v) => v < row.version && (row.version == v + 1 ==> row.status == Running)
    case AtFail(v, noted) =>
      var held := v + 1 + if noted then 1 else 0;
      held <= row.version && (row.version == held ==> row.status == Running)
    case _ => true
  }

  lemma KnowsIsStable(was: Row, now: Row, pc: Pc)
    requires Knows(was, pc) && RowGrows(was, now)
    ensures Knows(now, pc)
  {}

  /** A write that takes effect never hits a record that is SUCCESS. */
  lemma WritesMissSuccess(c: Config, rows: map<string, Row>, x: string, pc: Pc, e: Event)
    requires x in rows && x in c.action && x in c.attempts && Knows(rows[x], pc)
    requires After(c.attempts[x], pc, e).Some? && CanAnswer(c, rows, x, pc, e) && Applied(e)
    ensures rows[x].status != Status.Success
  {}

  /** One's own step keeps what one knows true of the record it leaves behind. */
  lemma KnowsAfterGo(c: Config, rows: map<string, Row>, x: string, pc: Pc, e: Event)
    requires x in rows && x in c.action && x in c.attempts && Knows(rows[x], pc)
    requires After(c.attempts[x], pc, e).Some? && CanAnswer(c, rows, x, pc, e)
    ensures Knows(Wrote(rows, x, pc, e)[x], After(c.attempts[x], pc, e).value)
    ensures RowGrows(rows[x], Wrote(rows, x, pc, e)[x])
  {}

  ghost predicate RunKnows(rows: map<string, Row>, r: Run) {
    forall x :: x in r.pcs ==> x in rows && Knows(rows[x], r.pcs[x])
  }

  ghost predicate RowsOk(c: Config, s: System) {
    && s.rows.Keys == c.level.Keys && s.ever <= c.level.Keys
    && (forall x :: x in s.rows && s.rows[x].status == Status.Success ==> x in s.ever)
    && (forall x :: x in s.ever && x in c.action && c.action[x] != COMPENSATION ==> s.rows[x].status == Status.Success)
  }

  ghost predicate ResumersKnow(s: System) {
    forall w :: w in s.resumers ==> ResumerKnows(s.rows, s.resumers[w])
  }

  predicate ResumerKnows(rows: map<string, Row>, q: Resumer) {
    && q.step in rows && q.seen.status == Suspended
    && q.seen.version <= rows[q.step].version
    && (q.seen.version == rows[q.step].version ==> q.seen == rows[q.step])
  }

  ghost predicate RecordsOk(c: Config, s: System) {
    && RowsOk(c, s) && ResumersKnow(s)
    && (forall n :: n in s.runs ==> RunKnows(s.rows, s.runs[n]))
  }

  /** How an action may change the records. */
  ghost predicate RowsGrow(was: map<string, Row>, now: map<string, Row>) {
    now.Keys == was.Keys && forall x :: x in was ==> RowGrows(was[x], now[x])
  }

  lemma KnowledgeSurvives(was: map<string, Row>, now: map<string, Row>, r: Run)
    requires RowsGrow(was, now) && RunKnows(was, r)
    ensures RunKnows(now, r)
  {
    forall x | x in r.pcs ensures x in now && Knows(now[x], r.pcs[x]) {
      KnowsIsStable(was[x], now[x], r.pcs[x]);
    }
  }

  lemma ResumersSurvive(was: map<string, Row>, now: map<string, Row>, q: Resumer)
    requires RowsGrow(was, now) && ResumerKnows(was, q)
    ensures ResumerKnows(now, q)
  {}

  /** Every action leaves each record alone or sets it to its next version. */
  lemma ActionGrowsRows(c: Config, s: System, a: Action)
    requires RecordsOk(c, s) && Enabled(c, s, a)
    ensures RowsGrow(s.rows, Do(c, s, a).rows)
  {}

  /** The record an action may write. */
  function Target(s: System, a: Action): Option<string> {
    match a
    case Go(_, x, _) => Some(x)
    case Compensate(x, _, _) => Some(x)
    case ResumeWrite(w, _) => if w in s.resumers then Some(s.resumers[w].step) else None
    case _ => None
  }

  lemma OtherRowsStay(c: Config, s: System, a: Action, x: string)
    requires Enabled(c, s, a) && x in s.rows && Target(s, a) != Some(x)
    ensures x in Do(c, s, a).rows && Do(c, s, a).rows[x] == s.rows[x]
  {}

  /** A SUCCESS record of a step that is not a compensation is changed by no action. */
  lemma SuccessStays(c: Config, s: System, a: Action, x: string)
    requires RecordsOk(c, s) && Enabled(c, s, a)
    requires x in s.rows && x in c.action && s.rows[x].status == Status.Success && c.action[x] != COMPENSATION
    ensures x in Do(c, s, a).rows && Do(c, s, a).rows[x] == s.rows[x]
  {
    if a.Go? && a.step == x && Applied(a.e) {
      assert RunKnows(s.rows, s.runs[a.run]);
      WritesMissSuccess(c, s.rows, x, s.runs[a.run].pcs[x], a.e);
    }
    if a.ResumeWrite? {
      assert ResumerKnows(s.rows, s.resumers[a.who]);
    }
  }

  lemma EverGrows(c: Config, s: System, a: Action)
    requires Enabled(c, s, a)
    ensures s.ever <= Do(c, s, a).ever && s.began <= Do(c, s, a).began
  {}

  lemma RowStaysOk(c: Config, s: System, a: Action, x: string)
    requires RecordsOk(c, s) && Enabled(c, s, a) && x in s.rows
    ensures
      var t := Do(c, s, a);
      && x in t.rows && (t.rows[x].status == Status.Success ==> x in t.ever)
      && (x in t.ever && x in c.action && c.action[x] != COMPENSATION ==> t.rows[x].status == Status.Success)
  {
    if x in s.ever && x in c.action && c.action[x] != COMPENSATION {
      SuccessStays(c, s, a, x);
    }
  }

  lemma EverAreSteps(c: Config, s: System, a: Action)
    requires RecordsOk(c, s) && Enabled(c, s, a)
    ensures Do(c, s, a).ever <= c.level.Keys
  {
    if a.ResumeWrite? {
      assert ResumerKnows(s.rows, s.resumers[a.who]);
    }
  }

  /** Only the run that acts moves. */
  function Mover(a: Action): Option<nat> {
    match a
    case Begin(n) => Some(n)
    case Check(n, _) => Some(n)
    case Go(n, _, _) => Some(n)
    case Advance(n) => Some(n)
    case Halt(n) => Some(n)
    case _ => None
  }

  lemma OthersStay(c: Config, s: System, a: Action, n: nat)
    requires Enabled(c, s, a) && n in Do(c, s, a).runs && Mover(a) != Some(n)
    ensures n in s.runs && Do(c, s, a).runs[n] == s.runs[n]
  {}

  lemma GoingRunKnows(c: Config, s: System, n: nat, x: string, e: Event)
    requires Enabled(c, s, Go(n, x, e)) && RunKnows(s.rows, s.runs[n])
    requires RowsGrow(s.rows, Wrote(s.rows, x, s.runs[n].pcs[x], e))
    ensures RunKnows(Wrote(s.rows, x, s.runs[n].pcs[x], e), Moved(c, s.runs[n], x, e))
  {
    KnowsAfterGo(c, s.rows, x, s.runs[n].pcs[x], e);
    KnowledgeSurvives(s.rows, Wrote(s.rows, x, s.runs[n].pcs[x], e), s.runs[n]);
  }

  lemma SpawnedKnows(c: Config, rows: map<string, Row>, k: nat, r: Run)
    requires rows.Keys == c.level.Keys && r.pcs == Spawn(c, k)
    ensures RunKnows(rows, r)
  {}

  lemma CheckedKnows(c: Config, rows: map<string, Row>, r: Run, x: string)
    requires RunKnows(rows, r) && x in r.pcs && x in c.deps
    ensures RunKnows(rows, Checked(c, r, x))
  {}

  lemma MovedRunKnows(c: Config, s: System, a: Action, n: nat)
    requires RecordsOk(c, s) && Enabled(c, s, a) && Mover(a) == Some(n)
    ensures n in Do(c, s, a).runs && RunKnows(Do(c, s, a).rows, Do(c, s, a).runs[n])
  {
    assert n in s.runs ==> RunKnows(s.rows, s.runs[n]);
    match a
    case Begin(_) => SpawnedKnows(c, s.rows, 0, FreshRun(c));
    case Check(_, x) => CheckedKnows(c, s.rows, s.runs[n], x);
    case Go(_, x, e) =>
      ActionGrowsRows(c, s, a);
      GoingRunKnows(c, s, n, x, e);
    case Advance(_) => SpawnedKnows(c, s.rows, s.runs[n].layer + 1, Advanced(c, s.runs[n]));
    case _ =>
  }

  lemma ResumersStay(c: Config, s: System, a: Action, w: nat)
    requires RecordsOk(c, s) && Enabled(c, s, a) && w in Do(c, s, a).resumers
    ensures if w in s.resumers then Do(c, s, a).resumers[w] == s.resumers[w]
            else ResumerKnows(s.rows, Do(c, s, a).resumers[w])
  {}

  lemma RecordsStayOk(c: Config, s: System, a: Action)
    requires ValidConfig(c) && RecordsOk(c, s) && Enabled(c, s, a)
    ensures RecordsOk(c, Do(c, s, a))
  {
    var t := Do(c, s, a);
    ActionGrowsRows(c, s, a);
    EverAreSteps(c, s, a);
    forall x | x in s.rows
      ensures t.rows[x].status == Status.Success ==> x in t.ever
      ensures x in t.ever && x in c.action && c.action[x] != COMPENSATION ==> t.rows[x].status == Status.Success
    {
      RowStaysOk(c, s, a, x);
    }
    forall n | n in t.runs ensures RunKnows(t.rows, t.runs[n]) {
      if Mover(a) == Some(n) {
        MovedRunKnows(c, s, a, n);
      } else {
        OthersStay(c, s, a, n);
        KnowledgeSurvives(s.rows, t.rows, s.runs[n]);
      }
    }
    forall w | w in t.resumers ensures ResumerKnows(t.rows, t.resumers[w]) {
      ResumersStay(c, s, a, w);
      ResumersSurvive(s.rows, t.rows, t.resumers[w]);
    }
  }
}
