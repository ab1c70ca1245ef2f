/** The retry loop around one step of an execution. */
module Retry {
  import opened Common
  import opened WorkflowModel
  import opened StepRecords

  /** What running an action gives; `NoAction` when no action is registered under the step's name. */
  datatype Outcome =
    | Result(conditionFalse: bool)
    | Suspends
    | Fails
    | NoAction

  /** A store update as the engine sees it: it may take effect and still be reported as an error. */
  datatype Write = Write(applied: bool, ok: bool)

  datatype Event =
    | Read(row: Option<Row>)
    | Claim(w: Write)
    | Act(outcome: Outcome)
    | NoteRetry(w: Write)
    | Sleep(nanos: int)
    | PutFailed(w: Write)
    | PutSuspended(w: Write)
    | PutSuccess(w: Write)

  datatype Verdict = Ok | SuspendedErr | Err

  /** Where a step's goroutine stands. `claimed` is the version the record had when the step was claimed. */
  datatype Pc =
    | Spawned
    | AtRead(attempt: nat)
    | AtClaim(attempt: nat, seen: Row)
    | AtAct(attempt: nat, claimed: int)
    | AtNote(attempt: nat, claimed: int)
    | AtSleep(attempt: nat)
    | AtFail(claimed: int, noted: bool)
    | AtSuspend(claimed: int)
    | AtSuccess(claimed: int)
    | Returned(verdict: Verdict)

  function Attempts(def: StepDef): nat
    ensures Attempts(def) >= 1
  {
    if def.maxRetries <= 0 then 1 else def.maxRetries + 1
  }

  const NANOS := 1_000_000_000
  const TWO63 := 0x8000_0000_0000_0000
  const TWO64 := 0x1_0000_0000_0000_0000

  function Pow2(n: nat): nat {
    if n == 0 then 1 else 2 * Pow2(n - 1)
  }

  /** Two's complement wrap-around of a 64-bit integer. */
  function Wrap64(x: int): int {
    var m := x % TWO64;
    if m < TWO63 then m else m - TWO64
  }

  /** The sleep after failed attempt `i`, in nanoseconds, in 64-bit arithmetic. */
  function Backoff(i: nat): int {
    Wrap64(Wrap64(Pow2(i)) * NANOS)
  }

  /** One step of the loop's control flow, given the answer of the call it makes. */
  function After(attempts: nat, pc: Pc, e: Event): Option<Pc> {
    match (pc, e)
    case (AtRead(i), Read(None)) => Some(Returned(Err))
    case (AtRead(i), Read(Some(row))) => Some(if row.status == Status.Success then Returned(Ok) else AtClaim(i, row))
    case (AtClaim(i, seen), Claim(w)) => Some(if w.ok then AtAct(i, seen.version) else Returned(Err))
    case (AtAct(i, c), Act(Result(_))) => Some(AtSuccess(c))
    case (AtAct(i, c), Act(Suspends)) => Some(AtSuspend(c))
    case (AtAct(i, c), Act(Fails)) => Some(AtNote(i, c))
    case (AtAct(i, c), Act(NoAction)) => Some(Returned(Err))
    case (AtNote(i, c), NoteRetry(w)) => Some(if i + 1 < attempts then AtSleep(i) else AtFail(c, w.ok))
    case (AtSleep(i), Sleep(nanos)) => if nanos == Backoff(i) then Some(AtRead(i + 1)) else None
    case (AtFail(c, noted), PutFailed(w)) => Some(Returned(Err))
    case (AtSuspend(c), PutSuspended(w)) => Some(Returned(SuspendedErr))
    case (AtSuccess(c), PutSuccess(w)) => Some(Returned(if w.ok then Ok else Err))
    case _ => None
  }

  /** The control flow along a whole trace of calls. */
  function AfterAll(attempts: nat, pc: Pc, trace: seq<Event>): Option<Pc>
    decreases trace
  {
    if trace == [] then Some(pc)
    else
      var next := After(attempts, pc, trace[0]);
      if next.None? then None else AfterAll(attempts, next.value, trace[1..])
  }

  lemma {:induction false} AfterAppend(attempts: nat, pc: Pc, trace: seq<Event>, e: Event)
    requires AfterAll(attempts, pc, trace).Some?
    ensures AfterAll(attempts, pc, trace + [e]) == After(attempts, AfterAll(attempts, pc, trace).value, e)
    decreases trace
  {
    if trace == [] {
    } else {
      assert (trace + [e])[1..] == trace[1..] + [e];
      AfterAppend(attempts, After(attempts, pc, trace[0]).value, trace[1..], e);
    }
  }

  /** The answers the outside world gives to attempt `i`. */
  datatype Answers = Answers(row: Option<Row>, claim: Write, outcome: Outcome, note: Write, put: Write)

  /** The attempt a trace has reached: each one begins with a read. */
  function Reads(trace: seq<Event>): nat {
    if trace == [] then 0
    else Reads(trace[..|trace| - 1]) + if trace[|trace| - 1].Read? then 1 else 0
  }

  /** The call is answered as the world answers in that attempt. */
  predicate Fits(a: Answers, e: Event) {
    match e
    case Read(row) => row == a.row
    case Claim(w) => w == a.claim
    case Act(outcome) => outcome == a.outcome
    case NoteRetry(w) => w == a.note
    case Sleep(_) => true
    case PutFailed(w) => w == a.put
    case PutSuspended(w) => w == a.put
    case PutSuccess(w) => w == a.put
  }

  /** Every call of the trace is answered by the world, in the attempt that makes it. */
  predicate Answered(world: nat -> Answers, trace: seq<Event>) {
    trace == [] ||
    (Answered(world, trace[..|trace| - 1]) && Reads(trace) > 0 && Fits(world(Reads(trace) - 1), trace[|trace| - 1]))
  }

  /** The calls made so far, in attempt `i`, lead to `pc`. */
  ghost predicate Stands(attempts: nat, world: nat -> Answers, trace: seq<Event>, i: nat, pc: Pc) {
    AfterAll(attempts, AtRead(0), trace) == Some(pc) && Answered(world, trace) && Reads(trace) == i
  }

  /** Records one call. */
  method Log(ghost attempts: nat, world: nat -> Answers, trace: seq<Event>, ghost i: nat, ghost pc: Pc, e: Event)
    returns (longer: seq<Event>, ghost next: Pc)
    requires Stands(attempts, world, trace, i, pc) && After(attempts, pc, e).Some?
    requires !e.Read? ==> i > 0 && Fits(world(i - 1), e)
    requires e.Read? ==> Fits(world(i), e)
    ensures next == After(attempts, pc, e).value
    ensures Stands(attempts, world, longer, if e.Read? then i + 1 else i, next)
  {
    AfterAppend(attempts, AtRead(0), trace, e);
    longer, next := trace + [e], After(attempts, pc, e).value;
    assert longer[..|trace|] == trace;
  }

  // ---- What may follow what, said of the calls alone -----------------------------------------

  /** The call and its answer are followed by another call. */
  predicate Followed(e: Event, f: Event) {
    match e
    case Read(None) => false
    case Read(Some(row)) => row.status != Status.Success && f.Claim?
    case Claim(w) => w.ok && f.Act?
    case Act(Result(_)) => f.PutSuccess?
    case Act(Suspends) => f.PutSuspended?
    case Act(Fails) => f.NoteRetry?
    case Act(NoAction) => false
    case NoteRetry(_) => f.Sleep? || f.PutFailed?
    case Sleep(_) => f.Read?
    case PutFailed(_) => false
    case PutSuspended(_) => false
    case PutSuccess(_) => false
  }

  /** The call and its answer end the loop with the verdict. */
  predicate Ends(e: Event, verdict: Verdict) {
    match e
    case Read(None) => verdict == Err
    case Read(Some(row)) => row.status == Status.Success && verdict == Ok
    case Claim(w) => !w.ok && verdict == Err
    case Act(outcome) => outcome == NoAction && verdict == Err
    case NoteRetry(_) => false
    case Sleep(_) => false
    case PutFailed(_) => verdict == Err
    case PutSuspended(_) => verdict == SuspendedErr
    case PutSuccess(w) => verdict == if w.ok then Ok else Err
  }

  ghost predicate InOrder(trace: seq<Event>) {
    && (trace != [] ==> trace[0].Read?)
    && (forall k, m :: 0 <= k && m == k + 1 && m < |trace| ==> Followed(trace[k], trace[m]))
  }

  lemma NextCall(attempts: nat, pc: Pc, e: Event, f: Event)
    requires After(attempts, pc, e).Some? && After(attempts, After(attempts, pc, e).value, f).Some?
    ensures Followed(e, f)
  {}

  lemma LastCall(attempts: nat, pc: Pc, e: Event, verdict: Verdict)
    requires After(attempts, pc, e) == Some(Returned(verdict))
    ensures Ends(e, verdict)
  {}

  /** The control flow makes its calls in this order, at every point of the loop. */
  lemma {:induction false} CallsInOrder(attempts: nat, trace: seq<Event>)
    requires AfterAll(attempts, AtRead(0), trace).Some?
    ensures InOrder(trace)
    decreases |trace|
  {
    var n := |trace| - 1;
    if n <= 0 {
    } else {
      AfterPrefix(attempts, AtRead(0), trace, n);
      CallsInOrder(attempts, trace[..n]);
      AfterPrefix(attempts, AtRead(0), trace, n - 1);
      AfterAppend(attempts, AtRead(0), trace[..n - 1], trace[n - 1]);
      assert trace[..n - 1] + [trace[n - 1]] == trace[..n];
      NextCall(attempts, AfterAll(attempts, AtRead(0), trace[..n - 1]).value, trace[n - 1], trace[n]);
      forall k, m | 0 <= k && m == k + 1 && m < |trace| ensures Followed(trace[k], trace[m]) {
        assert m < n ==> trace[..n][k] == trace[k] && trace[..n][m] == trace[m];
      }
    }
  }

  lemma EndsInOrder(attempts: nat, trace: seq<Event>, verdict: Verdict)
    requires AfterAll(attempts, AtRead(0), trace) == Some(Returned(verdict))
    ensures trace != [] && Ends(trace[|trace| - 1], verdict)
  {
    var n := |trace| - 1;
    AfterPrefix(attempts, AtRead(0), trace, n);
    AfterAppend(attempts, AtRead(0), trace[..n], trace[n]);
    assert trace[..n] + [trace[n]] == trace;
    LastCall(attempts, AfterAll(attempts, AtRead(0), trace[..n]).value, trace[n], verdict);
  }

  /** A point of the loop belongs to the attempt that the reads count. */
  predicate InAttempt(attempts: nat, pc: Pc, begun: nat) {
    match pc
    case AtRead(i) => i == begun
    case AtClaim(i, _) => i + 1 == begun
    case AtAct(i, _) => i + 1 == begun
    case AtNote(i, _) => i + 1 == begun
    case AtSleep(i) => i + 1 == begun < attempts
    case AtFail(_, _) => attempts <= begun
    case _ => true
  }

  lemma {:induction false} ReadsCountAttempts(attempts: nat, trace: seq<Event>)
    requires AfterAll(attempts, AtRead(0), trace).Some?
    ensures InAttempt(attempts, AfterAll(attempts, AtRead(0), trace).value, Reads(trace))
    decreases |trace|
  {
    if trace == [] {
    } else {
      var n := |trace| - 1;
      AfterPrefix(attempts, AtRead(0), trace, n);
      ReadsCountAttempts(attempts, trace[..n]);
      AfterAppend(attempts, AtRead(0), trace[..n], trace[n]);
      assert trace[..n] + [trace[n]] == trace;
    }
  }

  /** It sleeps after a failure, for the time of that attempt, while retries are left, and gives up when none is. */
  lemma SleepsWhileRetriesLeft(def: StepDef, trace: seq<Event>, k: nat)
    requires AfterAll(Attempts(def), AtRead(0), trace).Some? && k < |trace|
    ensures trace[k].Sleep? ==> 0 < Reads(trace[..k]) <= def.maxRetries && trace[k].nanos == Backoff(Reads(trace[..k]) - 1)
    ensures trace[k].PutFailed? ==> Reads(trace[..k]) > def.maxRetries
  {
    AfterPrefix(Attempts(def), AtRead(0), trace, k);
    ReadsCountAttempts(Attempts(def), trace[..k]);
  }

  /** Each answer in a trace is the one the world gives in the attempt that asks. */
  lemma AnswersAreTheWorlds(world: nat -> Answers, trace: seq<Event>, k: nat)
    requires Answered(world, trace) && k < |trace|
    ensures trace[k].Read? ==> trace[k].row == world(Reads(trace[..k])).row
    ensures !trace[k].Read? ==> Reads(trace[..k]) > 0
    ensures trace[k].Claim? ==> trace[k].w == world(Reads(trace[..k]) - 1).claim
    ensures trace[k].Act? ==> trace[k].outcome == world(Reads(trace[..k]) - 1).outcome
    ensures trace[k].NoteRetry? ==> trace[k].w == world(Reads(trace[..k]) - 1).note
    ensures trace[k].PutFailed? || trace[k].PutSuspended? || trace[k].PutSuccess? ==>
      trace[k].w == world(Reads(trace[..k]) - 1).put
  {
    AnsweredPrefix(world, trace, k + 1);
    assert trace[..k + 1][..k] == trace[..k];
  }

  /** The loop, against any world; `trace` lists the calls it makes and the world's answers. */
  method ExecuteStepWithRetry(def: StepDef, world: nat -> Answers) returns (verdict: Verdict, trace: seq<Event>)
    ensures AfterAll(Attempts(def), AtRead(0), trace) == Some(Returned(verdict))
    ensures Answered(world, trace)
    ensures trace != [] && InOrder(trace) && Ends(trace[|trace| - 1], verdict)
    ensures forall k :: 0 <= k < |trace| && trace[k].Claim? && !trace[k].w.ok ==> k == |trace| - 1 && verdict == Err
    ensures forall k :: 0 <= k < |trace| && trace[k].Read? && trace[k].row.None? ==> k == |trace| - 1 && verdict == Err
    ensures forall k :: 0 <= k < |trace| && trace[k].Act? && trace[k].outcome.NoAction? ==> k == |trace| - 1 && verdict == Err
  {
    verdict, trace := RunAttempts(def, world);
    CallsInOrder(Attempts(def), trace);
    EndsInOrder(Attempts(def), trace, verdict);
    StopsEndTheTrace(trace, verdict);
  }

  /** A refused claim, a missing record and a missing action are the last calls. */
  lemma StopsEndTheTrace(trace: seq<Event>, verdict: Verdict)
    requires trace != [] && InOrder(trace) && Ends(trace[|trace| - 1], verdict)
    ensures forall k :: 0 <= k < |trace| && trace[k].Claim? && !trace[k].w.ok ==> k == |trace| - 1 && verdict == Err
    ensures forall k :: 0 <= k < |trace| && trace[k].Read? && trace[k].row.None? ==> k == |trace| - 1 && verdict == Err
    ensures forall k :: 0 <= k < |trace| && trace[k].Act? && trace[k].outcome.NoAction? ==> k == |trace| - 1 && verdict == Err
  {
    forall k | 0 <= k < |trace| - 1
      ensures trace[k].Claim? ==> trace[k].w.ok
      ensures trace[k].Read? ==> trace[k].row.Some?
      ensures trace[k].Act? ==> !trace[k].outcome.NoAction?
    {
      var m := k + 1;
      assert Followed(trace[k], trace[m]);
    }
  }

  method RunAttempts(def: StepDef, world: nat -> Answers) returns (verdict: Verdict, trace: seq<Event>)
    ensures AfterAll(Attempts(def), AtRead(0), trace) == Some(Returned(verdict)) && Answered(world, trace)
  {
    var attempts := Attempts(def);
    ghost var pc := AtRead(0);
    trace := [];
    var i := 0;
    while i < attempts
      invariant i < attempts && pc == AtRead(i) && Stands(attempts, world, trace, i, pc)
      decreases attempts - i
    {
      var a := world(i);
      trace, pc := Log(attempts, world, trace, i, pc, Read(a.row));
      if a.row.None? {
        return Err, trace;
      }
      if a.row.value.status == Status.Success {
        return Ok, trace;
      }
      var done;
      done, verdict, trace, pc := Attempt(attempts, world, i, a.row.value, trace);
      if done {
        return;
      }
      i := i + 1;
    }
    assert false;
  }

  /** One attempt, after its read found a record that is not SUCCESS. */
  method Attempt(attempts: nat, world: nat -> Answers, i: nat, seen: Row, before: seq<Event>)
    returns (done: bool, verdict: Verdict, trace: seq<Event>, ghost pc: Pc)
    requires i < attempts && Stands(attempts, world, before, i + 1, AtClaim(i, seen))
    ensures Stands(attempts, world, trace, i + 1, pc)
    ensures if done then pc == Returned(verdict) else i + 1 < attempts && pc == AtRead(i + 1)
  {
    var a := world(i);
    done, verdict := true, Err;
    trace, pc := Log(attempts, world, before, i + 1, AtClaim(i, seen), Claim(a.claim));
    if !a.claim.ok {
      return;
    }
    trace, pc := Log(attempts, world, trace, i + 1, pc, Act(a.outcome));
    match a.outcome {
      case NoAction =>
      case Suspends =>
        trace, pc := Log(attempts, world, trace, i + 1, pc, PutSuspended(a.put));
        verdict := SuspendedErr;
      case Fails =>
        done, trace, pc := NoteFailure(attempts, world, i, seen.version, trace);
      case Result(_) =>
        trace, pc := Log(attempts, world, trace, i + 1, pc, PutSuccess(a.put));
        verdict := if a.put.ok then Ok else Err;
    }
  }

  /** After a failed action: note it, then sleep, or give up after the last attempt. */
  method NoteFailure(attempts: nat, world: nat -> Answers, i: nat, ghost claimed: int, before: seq<Event>)
    returns (done: bool, trace: seq<Event>, ghost pc: Pc)
    requires i < attempts && Stands(attempts, world, before, i + 1, AtNote(i, claimed))
    ensures Stands(attempts, world, trace, i + 1, pc)
    ensures if done then pc == Returned(Err) else i + 1 < attempts && pc == AtRead(i + 1)
  {
    var a := world(i);
    trace, pc := Log(attempts, world, before, i + 1, AtNote(i, claimed), NoteRetry(a.note));
    done := i >= attempts - 1;
    if done {
      trace, pc := Log(attempts, world, trace, i + 1, pc, PutFailed(a.put));
    } else {
      trace, pc := Log(attempts, world, trace, i + 1, pc, Sleep(Backoff(i)));
    }
  }

  lemma AnsweredPrefix(world: nat -> Answers, trace: seq<Event>, k: nat)
    requires Answered(world, trace) && k <= |trace|
    ensures Answered(world, trace[..k])
  {
    if k == |trace| {
      assert trace[..k] == trace;
    } else {
      AnsweredPrefix(world, trace[..|trace| - 1], k);
      assert trace[..|trace| - 1][..k] == trace[..k];
    }
  }

  /** A call and its answer are decided by where the loop stands and what the world answers there. */
  lemma SameCall(attempts: nat, pc: Pc, a: Answers, d: Event, e: Event)
    requires After(attempts, pc, d).Some? && After(attempts, pc, e).Some? && Fits(a, d) && Fits(a, e)
    ensures d == e
  {}

  lemma {:induction false} AfterPrefix(attempts: nat, pc: Pc, trace: seq<Event>, k: nat)
    requires AfterAll(attempts, pc, trace).Some? && k <= |trace|
    ensures AfterAll(attempts, pc, trace[..k]).Some?
    ensures k < |trace| ==> After(attempts, AfterAll(attempts, pc, trace[..k]).value, trace[k]).Some?
    decreases trace
  {
    if k == 0 {
    } else {
      AfterPrefix(attempts, After(attempts, pc, trace[0]).value, trace[1..], k - 1);
      assert trace[..k][0] == trace[0] && trace[..k][1..] == trace[1..][..k - 1];
    }
  }

  /** The attempt to which the next call belongs. */
  function NextAttempt(trace: seq<Event>, pc: Pc): nat {
    if pc.AtRead? || Reads(trace) == 0 then Reads(trace) else Reads(trace) - 1
  }

  lemma CallFits(attempts: nat, world: nat -> Answers, trace: seq<Event>, k: nat, pc: Pc)
    requires Answered(world, trace) && k < |trace| && After(attempts, pc, trace[k]).Some?
    ensures Fits(world(NextAttempt(trace[..k], pc)), trace[k])
  {
    AnsweredPrefix(world, trace, k + 1);
    assert trace[..k + 1][..k] == trace[..k];
    assert pc.AtRead? <==> trace[k].Read?;
  }

  /** Two traces of the loop that one world answers agree as far as both go. */
  lemma {:induction false} SamePrefix(attempts: nat, world: nat -> Answers, p: seq<Event>, q: seq<Event>, k: nat)
    requires AfterAll(attempts, AtRead(0), p).Some? && AfterAll(attempts, AtRead(0), q).Some?
    requires Answered(world, p) && Answered(world, q) && k <= |p| && k <= |q|
    ensures p[..k] == q[..k]
  {
    if k == 0 {
    } else {
      var m := k - 1;
      SamePrefix(attempts, world, p, q, m);
      AfterPrefix(attempts, AtRead(0), p, m);
      AfterPrefix(attempts, AtRead(0), q, m);
      var pc := AfterAll(attempts, AtRead(0), p[..m]).value;
      CallFits(attempts, world, p, m, pc);
      CallFits(attempts, world, q, m, pc);
      SameCall(attempts, pc, world(NextAttempt(p[..m], pc)), p[m], q[m]);
      assert p[..k] == p[..m] + [p[m]] && q[..k] == q[..m] + [q[m]];
    }
  }

  lemma NoLongerTrace(attempts: nat, world: nat -> Answers, p: seq<Event>, v: Verdict, q: seq<Event>)
    requires AfterAll(attempts, AtRead(0), p) == Some(Returned(v)) && AfterAll(attempts, AtRead(0), q).Some?
    requires Answered(world, p) && Answered(world, q)
    ensures |q| <= |p|
  {
    if |p| < |q| {
      SamePrefix(attempts, world, p, q, |p|);
      assert p[..|p|] == p;
      AfterPrefix(attempts, AtRead(0), q, |p|);
    }
  }

  /** For each world, the calls of the loop, their answers and the verdict are determined. */
  lemma TraceIsDetermined(attempts: nat, world: nat -> Answers, p: seq<Event>, v: Verdict, q: seq<Event>, w: Verdict)
    requires AfterAll(attempts, AtRead(0), p) == Some(Returned(v)) && AfterAll(attempts, AtRead(0), q) == Some(Returned(w))
    requires Answered(world, p) && Answered(world, q)
    ensures p == q && v == w
  {
    NoLongerTrace(attempts, world, p, v, q);
    NoLongerTrace(attempts, world, q, w, p);
    SamePrefix(attempts, world, p, q, |p|);
    assert p[..|p|] == p && q[..|q|] == q;
  }

  // ---- What every trace of the loop satisfies ----------------------------------------------

  function Acts(trace: seq<Event>): nat {
    if trace == [] then 0 else (if trace[0].Act? then 1 else 0) + Acts(trace[1..])
  }

  /** The actions that can still be run from a point of the loop. */
  function ActsLeft(attempts: nat, pc: Pc): int {
    match pc
    case AtRead(i) => attempts - i
    case AtClaim(i, _) => attempts - i
    case AtAct(i, _) => attempts - i
    case AtNote(i, _) => attempts - i - 1
    case AtSleep(i) => attempts - i - 1
    case _ => 0
  }

  predicate InLoop(attempts: nat, pc: Pc) {
    match pc
    case AtRead(i) => i < attempts
    case AtClaim(i, _) => i < attempts
    case AtAct(i, _) => i < attempts
    case AtNote(i, _) => i < attempts
    case AtSleep(i) => i + 1 < attempts
    case _ => true
  }

  lemma {:induction false} ActsBounded(attempts: nat, pc: Pc, trace: seq<Event>)
    requires InLoop(attempts, pc) && AfterAll(attempts, pc, trace).Some?
    ensures Acts(trace) <= ActsLeft(attempts, pc)
    ensures InLoop(attempts, AfterAll(attempts, pc, trace).value)
    decreases trace
  {
    if trace == [] {
    } else {
      ActsBounded(attempts, After(attempts, pc, trace[0]).value, trace[1..]);
    }
  }

  /** The action runs at most `max(1, maxRetries + 1)` times, however the world answers. */
  lemma AtMostAttemptsActs(def: StepDef, trace: seq<Event>)
    requires AfterAll(Attempts(def), AtRead(0), trace).Some?
    ensures Acts(trace) <= if def.maxRetries <= 0 then 1 else def.maxRetries + 1
  {
    ActsBounded(Attempts(def), AtRead(0), trace);
  }

  /** A claim that the store confirmed comes directly before every action. */
  lemma {:induction false} ActsAreClaimed(attempts: nat, pc: Pc, trace: seq<Event>, k: nat)
    requires AfterAll(attempts, pc, trace).Some? && k < |trace| && trace[k].Act?
    ensures k == 0 ==> pc.AtAct?
    ensures k > 0 ==> trace[k - 1].Claim? && trace[k - 1].w.ok
    decreases trace
  {
    if k == 0 {
    } else {
      ActsAreClaimed(attempts, After(attempts, pc, trace[0]).value, trace[1..], k - 1);
    }
  }

  /** The event that entitles the loop to return without an error: the record is SUCCESS. */
  predicate RecordsSuccess(e: Event) {
    || (e.Read? && e.row.Some? && e.row.value.status == Status.Success)
    || (e.PutSuccess? && e.w.ok)
  }

  /** A nil return is decided by the last call, and that call saw or stored SUCCESS; so is every other verdict. */
  lemma {:induction false} VerdictIsLastCall(attempts: nat, pc: Pc, trace: seq<Event>, verdict: Verdict)
    requires trace != [] && !pc.Returned?
    requires AfterAll(attempts, pc, trace) == Some(Returned(verdict))
    ensures verdict == Ok <==> RecordsSuccess(trace[|trace| - 1])
    ensures verdict == SuspendedErr <==> trace[|trace| - 1].PutSuspended?
    decreases trace
  {
    var next := After(attempts, pc, trace[0]).value;
    if |trace| > 1 {
      VerdictIsLastCall(attempts, next, trace[1..], verdict);
    }
  }

  // ---- Backoff ------------------------------------------------------------------------------

  function TotalSleep(trace: seq<Event>): int {
    if trace == [] then 0 else (if trace[0].Sleep? then trace[0].nanos else 0) + TotalSleep(trace[1..])
  }

  lemma {:induction false} Pow2Mono(i: nat, j: nat)
    requires i <= j
    ensures Pow2(i) <= Pow2(j)
  {
    if i == j {
    } else {
      Pow2Mono(i, j - 1);
    }
  }

  lemma Pow2Of34()
    ensures Pow2(33) == 0x2_0000_0000 && Pow2(34) == 0x4_0000_0000
  {
    Pow2Doubles(8, 8);
    Pow2Doubles(16, 16);
    Pow2Doubles(32, 1);
    Pow2Doubles(33, 1);
  }

  lemma {:induction false} Pow2Doubles(i: nat, j: nat)
    ensures Pow2(i + j) == Pow2(i) * Pow2(j)
  {
    if j == 0 {
    } else {
      Pow2Doubles(i, j - 1);
    }
  }

  lemma WrapExact(x: int)
    requires -TWO63 <= x < TWO63
    ensures Wrap64(x) == x
  {
    assert x >= 0 ==> x % TWO64 == x;
    assert x < 0 ==> (x + TWO64) % TWO64 == x + TWO64;
  }

  lemma WrapOnce(x: int)
    requires TWO63 <= x < TWO64
    ensures Wrap64(x) == x - TWO64
  {}

  /** A backoff is the exact power of two seconds up to attempt 33; the next one already wraps to a negative sleep. */
  lemma BackoffExact(i: nat)
    ensures i <= 33 ==> Backoff(i) == Pow2(i) * 1_000_000_000
    ensures Backoff(34) < 0
  {
    Pow2Of34();
    WrapExact(0x4_0000_0000);
    WrapOnce(0x4_0000_0000 * NANOS);
    if i <= 33 {
      Pow2Mono(i, 33);
      WrapExact(Pow2(i));
      WrapExact(Pow2(i) * NANOS);
    }
  }

  /** No backoff of a step can wrap if and only if it has at most 34 retries. */
  lemma NoOverflowIffFewRetries(def: StepDef)
    ensures (forall i: nat :: i < def.maxRetries ==> Backoff(i) == Pow2(i) * 1_000_000_000) <==> def.maxRetries <= 34
  {
    BackoffExact(34);
    if def.maxRetries <= 34 {
      forall i: nat | i + 1 < Attempts(def) ensures Backoff(i) == Pow2(i) * NANOS {
        BackoffExact(i);
      }
    } else {
      assert 34 + 1 < Attempts(def) && Backoff(34) != Pow2(34) * NANOS;
    }
  }

  /** The sleep a trace has behind it when it stands at attempt `i`. */
  function Slept(pc: Pc): int {
    match pc
    case AtRead(i) => Pow2(i) - 1
    case AtClaim(i, _) => Pow2(i) - 1
    case AtAct(i, _) => Pow2(i) - 1
    case AtNote(i, _) => Pow2(i) - 1
    case AtSleep(i) => Pow2(i) - 1
    case _ => 0
  }

  predicate Looping(pc: Pc) {
    pc.AtRead? || pc.AtClaim? || pc.AtAct? || pc.AtNote? || pc.AtSleep?
  }

  /** What one call of the loop adds to the sleep behind it. */
  lemma SleptInOneCall(attempts: nat, pc: Pc, e: Event)
    requires 1 <= attempts <= 35 && InLoop(attempts, pc) && Looping(pc) && After(attempts, pc, e).Some?
    ensures InLoop(attempts, After(attempts, pc, e).value)
    ensures e.Sleep? ==> pc.AtSleep? && e.nanos == Pow2(pc.attempt) * NANOS
    ensures e.Sleep? ==> Slept(After(attempts, pc, e).value) == Slept(pc) + Pow2(pc.attempt)
    ensures !e.Sleep? && Looping(After(attempts, pc, e).value) ==> Slept(After(attempts, pc, e).value) == Slept(pc)
    ensures !Looping(After(attempts, pc, e).value) ==> !e.Sleep?
    ensures After(attempts, pc, e).value.AtFail? ==> Slept(pc) == Pow2(attempts - 1) - 1
  {
    if e.Sleep? {
      BackoffExact(pc.attempt);
    }
  }

  lemma {:induction false} SleepWhileFailing(attempts: nat, pc: Pc, trace: seq<Event>)
    requires 1 <= attempts <= 35 && InLoop(attempts, pc) && Looping(pc)
    requires AfterAll(attempts, pc, trace).Some? && trace != [] && trace[|trace| - 1].PutFailed?
    ensures TotalSleep(trace) == (Pow2(attempts - 1) - 1 - Slept(pc)) * NANOS
    decreases trace
  {
    var next := After(attempts, pc, trace[0]).value;
    SleptInOneCall(attempts, pc, trace[0]);
    assert |trace| > 1 && trace[1..][|trace| - 2] == trace[|trace| - 1];
    if Looping(next) {
      SleepWhileFailing(attempts, next, trace[1..]);
    } else {
      FinalCall(attempts, next, trace[1..]);
    }
  }

  lemma NothingAfterReturn(attempts: nat, pc: Pc, trace: seq<Event>)
    requires pc.Returned? && AfterAll(attempts, pc, trace).Some?
    ensures trace == []
  {}

  /** Outside the loop body one call is left, and it never sleeps. */
  lemma FinalCall(attempts: nat, pc: Pc, trace: seq<Event>)
    requires !Looping(pc) && AfterAll(attempts, pc, trace).Some? && trace != []
    requires trace[|trace| - 1].PutFailed?
    ensures pc.AtFail? && TotalSleep(trace) == 0
  {
    NothingAfterReturn(attempts, After(attempts, pc, trace[0]).value, trace[1..]);
    assert trace == [trace[0]];
  }

  /** A step that fails on each of its attempts has slept 2^(attempts-1) - 1 seconds in all. */
  lemma TotalBackoff(def: StepDef, trace: seq<Event>)
    requires def.maxRetries <= 34
    requires AfterAll(Attempts(def), AtRead(0), trace) == Some(Returned(Err))
    requires trace[|trace| - 1].PutFailed?
    ensures TotalSleep(trace) == (Pow2(if def.maxRetries <= 0 then 0 else def.maxRetries) - 1) * 1_000_000_000
  {
    SleepWhileFailing(Attempts(def), AtRead(0), trace);
  }
}
