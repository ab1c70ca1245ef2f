/** Execution rows, the claims of the job poller, and cancellation. */
module Executions {
  import opened Common

  datatype ExecStatus = Pending | Running | Success | Failed | Cancelled | Suspended | Compensating

  datatype Exec = Exec(status: ExecStatus, version: int, createdAt: int, updatedAt: int)

  /** The batch size of a poll, and the age in seconds at which a running execution counts as stuck. */
  const BATCH := 5
  const STUCK := 15 * 60

  predicate Claimable(rows: map<string, Exec>, locked: set<string>, id: string) {
    id in rows && rows[id].status == Pending && id !in locked
  }

  /** `SELECT … WHERE status = 'PENDING' ORDER BY created_at LIMIT limit FOR UPDATE SKIP LOCKED`; ties in any order. */
  predicate OldestPending(rows: map<string, Exec>, locked: set<string>, limit: nat, picked: set<string>) {
    && |picked| <= limit
    && (forall id :: id in picked ==> Claimable(rows, locked, id))
    && (forall id :: id in rows ==> PassedOver(rows, locked, limit, picked, id))
  }

  /** A claimable row is left out only by a full batch of rows that are no younger. */
  predicate PassedOver(rows: map<string, Exec>, locked: set<string>, limit: nat, picked: set<string>, id: string)
    requires id in rows
  {
    Claimable(rows, locked, id) && id !in picked ==>
      |picked| == limit && forall p :: p in picked ==> p in rows && rows[p].createdAt <= rows[id].createdAt
  }

  predicate Matches(rows: map<string, Exec>, id: string, version: int) {
    id in rows && rows[id].version == version
  }

  /** The row an update writes. */
  function Next(row: Exec, status: ExecStatus, now: int): Exec {
    row.(status := status, version := row.version + 1, updatedAt := now)
  }

  predicate Stuck(row: Exec, now: int) {
    row.status == Running && row.updatedAt < now - STUCK
  }

  /** The table with every execution of `ids` claimed. */
  function ClaimAll(rows: map<string, Exec>, ids: set<string>, now: int): map<string, Exec> {
    map id | id in rows :: if id in ids then Next(rows[id], Running, now) else rows[id]
  }

  function Recovered(rows: map<string, Exec>, locked: set<string>, now: int): map<string, Exec> {
    map id | id in rows ::
      if Stuck(rows[id], now) && id !in locked then rows[id].(status := Pending, updatedAt := now) else rows[id]
  }

  /** The versions under which claimed executions are handed to the engine. */
  function ClaimedVersions(rows: map<string, Exec>, ids: set<string>): map<string, int> {
    map id | id in rows && id in ids :: rows[id].version + 1
  }

  datatype CancelError = NotFound | NotRunning | Conflict

  class ExecutionStore {
    var rows: map<string, Exec>
    /** The rows that transactions of other workers hold locked. */
    var locked: set<string>

    constructor (rows: map<string, Exec>)
      ensures this.rows == rows && locked == {}
    {
      this.rows := rows;
      locked := {};
    }

    method Update(id: string, currentVersion: int, status: ExecStatus, now: int) returns (ok: bool)
      modifies this`rows
      ensures ok <==> Matches(old(rows), id, currentVersion)
      ensures rows == if ok then old(rows)[id := Next(old(rows)[id], status, now)] else old(rows)
      ensures ok ==> rows[id] == Exec(status, currentVersion + 1, old(rows)[id].createdAt, now)
      ensures forall x :: x in old(rows) && x != id ==> x in rows && rows[x] == old(rows)[x]
    {
      ok := false;
      if id in rows && rows[id].version == currentVersion {
        rows := rows[id := rows[id].(status := status, version := currentVersion + 1, updatedAt := now)];
        ok := true;
      }
    }

    /** The oldest claimable row that is not picked yet. */
    method OldestOf(waiting: set<string>) returns (oldest: string)
      requires waiting != {} && waiting <= rows.Keys
      ensures oldest in waiting && forall id :: id in waiting ==> rows[oldest].createdAt <= rows[id].createdAt
    {
      oldest :| oldest in waiting;
      var rest := waiting - {oldest};
      while rest != {}
        invariant rest <= waiting && oldest in waiting
        invariant forall id :: id in waiting - rest ==> rows[oldest].createdAt <= rows[id].createdAt
      {
        var id :| id in rest;
        if rows[id].createdAt < rows[oldest].createdAt {
          oldest := id;
        }
        rest := rest - {id};
      }
    }

    method AcquireForWorker(limit: nat) returns (picked: set<string>)
      ensures OldestPending(rows, locked, limit, picked)
      ensures |picked| <= limit
      ensures forall id :: id in picked ==> id in rows && rows[id].status == Pending && id !in locked
      ensures forall id, p :: id in rows && rows[id].status == Pending && id !in locked && id !in picked && p in picked ==>
        |picked| == limit && rows[p].createdAt <= rows[id].createdAt
      ensures picked == {} && limit > 0 ==> forall id :: id in rows && rows[id].status == Pending ==> id in locked
    {
      picked := {};
      var waiting := set id | id in rows && rows[id].status == Pending && id !in locked;
      while waiting != {} && |picked| < limit
        invariant |picked| <= limit && picked !! waiting
        invariant forall id :: Claimable(rows, locked, id) <==> id in picked || id in waiting
        invariant forall p, id :: p in picked && id in waiting ==> rows[p].createdAt <= rows[id].createdAt
      {
        var id := OldestOf(waiting);
        picked := picked + {id};
        waiting := waiting - {id};
      }
    }

    method AcquireByIDForWorker(id: string) returns (row: Option<Exec>)
      ensures row == if Claimable(rows, locked, id) then Some(rows[id]) else None
    {
      row := if id in rows && rows[id].status == Pending && id !in locked then Some(rows[id]) else None;
    }

    /**
     * One claim transaction over a batch. No update inside it can conflict, so every acquired execution is set to
     * RUNNING and handed out once, with its new version.
     */
    method Poll(now: int) returns (picked: set<string>, handed: map<string, int>)
      modifies this`rows
      ensures OldestPending(old(rows), locked, BATCH, picked)
      ensures rows == ClaimAll(old(rows), picked, now) && handed == ClaimedVersions(old(rows), picked)
      ensures |picked| <= 5 && rows.Keys == old(rows).Keys && handed.Keys == picked
      ensures forall id :: id in picked ==> id in old(rows) && old(rows)[id].status == Pending && id !in locked
      ensures forall id :: id in picked ==>
        && rows[id] == Exec(Running, old(rows)[id].version + 1, old(rows)[id].createdAt, now)
        && handed[id] == rows[id].version
      ensures forall id :: id in rows && id !in picked ==> rows[id] == old(rows)[id]
    {
      picked := AcquireForWorker(BATCH);
      handed := ClaimBatch(picked, now);
    }

    method ClaimBatch(picked: set<string>, now: int) returns (handed: map<string, int>)
      requires picked <= rows.Keys
      modifies this`rows
      ensures rows == ClaimAll(old(rows), picked, now) && handed == ClaimedVersions(old(rows), picked)
    {
      ghost var before := rows;
      ghost var done: set<string> := {};
      handed := map[];
      var rest := picked;
      ClaimNone(before, now);
      while rest != {}
        invariant rest <= picked && done == picked - rest && picked <= before.Keys
        invariant rows == ClaimAll(before, done, now) && handed == ClaimedVersions(before, done)
      {
        var id :| id in rest;
        ClaimOneMore(before, done, id, now);
        var seen := rows[id];
        var ok := Update(id, seen.version, Running, now);
        assert ok;
        handed := handed[id := seen.version + 1];
        rest, done := rest - {id}, done + {id};
      }
      assert done == picked;
    }

    /** The claim of one execution whose id came off the queue. */
    method ProcessExecutionByID(id: string, now: int) returns (handed: Option<int>)
      modifies this`rows
      ensures handed.Some? <==> Claimable(old(rows), locked, id)
      ensures handed.Some? ==> rows == ClaimAll(old(rows), {id}, now) && handed.value == old(rows)[id].version + 1
      ensures handed.None? ==> rows == old(rows)
      ensures handed.Some? <==> id in old(rows) && old(rows)[id].status == Pending && id !in locked
      ensures handed.Some? ==> id in rows && handed.value == rows[id].version
      ensures handed.Some? ==> rows[id] == Exec(Running, old(rows)[id].version + 1, old(rows)[id].createdAt, now)
      ensures forall x :: x in old(rows) && x != id ==> x in rows && rows[x] == old(rows)[x]
    {
      var row := AcquireByIDForWorker(id);
      if row.None? {
        return None;
      }
      var ok := Update(id, row.value.version, Running, now);
      handed := Some(row.value.version + 1);
    }

    /** A run whose workflow is no longer found is marked FAILED under the version it was claimed with. */
    method ExecuteOne(id: string, version: int, workflowFound: bool, now: int) returns (started: bool)
      modifies this`rows
      ensures started == workflowFound
      ensures rows == if !workflowFound && id in old(rows) && old(rows)[id].version == version
                      then old(rows)[id := Exec(Failed, version + 1, old(rows)[id].createdAt, now)] else old(rows)
    {
      if !workflowFound {
        var ok := Update(id, version, Failed, now);
      }
      started := workflowFound;
    }

    /** Recovery returns stuck rows to the queue and leaves their versions alone. */
    method RecoverStuckJobs(now: int) returns (count: nat)
      modifies this`rows
      ensures rows == Recovered(old(rows), locked, now)
      ensures count == |set id | id in old(rows) && old(rows)[id].status == Running && old(rows)[id].updatedAt < now - 900 && id !in locked|
      ensures rows.Keys == old(rows).Keys
      ensures forall id :: id in rows ==> (rows[id] ==
        if old(rows)[id].status == Running && old(rows)[id].updatedAt < now - 900 && id !in locked
        then Exec(Pending, old(rows)[id].version, old(rows)[id].createdAt, now) else old(rows)[id])
    {
      var stuck := set id | id in rows && Stuck(rows[id], now) && id !in locked;
      count := |stuck|;
      assert stuck == set id | id in rows && rows[id].status == Running && rows[id].updatedAt < now - 900 && id !in locked;
      rows := map id | id in rows :: if id in stuck then rows[id].(status := Pending, updatedAt := now) else rows[id];
    }

    /** Cancel; `meanwhile` is the table that other writers leave between its read and its write. */
    method Cancel(id: string, meanwhile: map<string, Exec>, now: int) returns (r: Result<(), CancelError>)
      modifies this`rows
      ensures r == Result.Failure(NotFound) <==> id !in old(rows)
      ensures r == Result.Failure(NotRunning) <==> id in old(rows) && old(rows)[id].status != Running
      ensures r.Success? <==>
        id in old(rows) && old(rows)[id].status == Running && Matches(meanwhile, id, old(rows)[id].version)
      ensures rows == if r.Success? then meanwhile[id := Exec(Cancelled, meanwhile[id].version + 1, meanwhile[id].createdAt, now)]
                      else if r.error == Conflict then meanwhile else old(rows)
    {
      if id !in rows {
        return Result.Failure(NotFound);
      }
      var row := rows[id];
      if row.status != Running {
        return Result.Failure(NotRunning);
      }
      rows := meanwhile;
      var ok := Update(id, row.version, Cancelled, now);
      r := if ok then Result.Success(()) else Result.Failure(Conflict);
    }
  }

  lemma ClaimNone(before: map<string, Exec>, now: int)
    ensures ClaimAll(before, {}, now) == before && ClaimedVersions(before, {}) == map[]
  {}

  lemma ClaimOneMore(before: map<string, Exec>, done: set<string>, id: string, now: int)
    requires id in before && id !in done
    ensures ClaimAll(before, done, now)[id] == before[id]
    ensures ClaimAll(before, done + {id}, now) == ClaimAll(before, done, now)[id := Next(before[id], Running, now)]
    ensures ClaimedVersions(before, done + {id}) == ClaimedVersions(before, done)[id := before[id].version + 1]
  {}

  // ---- Bounded wait ----------------------------------------------------------------------------

  /** What stands before an execution in the queue: the other PENDING rows that are no younger. */
  function Ahead(rows: map<string, Exec>, target: string): set<string>
    requires target in rows
  {
    set id | id in rows && id != target && rows[id].status == Pending && rows[id].createdAt <= rows[target].createdAt
  }

  /** One committed poll: the table it reads, the rows locked by others, its batch and its time. */
  datatype PollView = PollView(rows: map<string, Exec>, locked: set<string>, picked: set<string>, now: int)

  /** The target waits, unlocked, at every poll; after a poll has claimed its batch, nothing is put ahead of it again. */
  ghost predicate Waits(polls: seq<PollView>, target: string) {
    && (forall i :: 0 <= i < |polls| ==>
          Claimable(polls[i].rows, polls[i].locked, target) && OldestPending(polls[i].rows, polls[i].locked, BATCH, polls[i].picked))
    && (forall i, j :: 0 <= i && j == i + 1 && j < |polls| ==>
          Ahead(polls[j].rows, target) <= Ahead(ClaimAll(polls[i].rows, polls[i].picked, polls[i].now), target))
  }

  /** What a poll claims leaves the queue. */
  lemma ClaimedLeaveQueue(rows: map<string, Exec>, picked: set<string>, now: int, target: string)
    requires target in rows
    ensures Ahead(ClaimAll(rows, picked, now), target) <= Ahead(rows, target) - picked
  {}

  lemma UnpickedLosesBatch(v: PollView, target: string)
    requires Claimable(v.rows, v.locked, target) && OldestPending(v.rows, v.locked, BATCH, v.picked) && target !in v.picked
    ensures |Ahead(ClaimAll(v.rows, v.picked, v.now), target)| + BATCH <= |Ahead(v.rows, target)|
  {
    assert PassedOver(v.rows, v.locked, BATCH, v.picked, target);
    forall p | p in v.picked ensures p in Ahead(v.rows, target) {
      assert Claimable(v.rows, v.locked, p);
    }
    ClaimedLeaveQueue(v.rows, v.picked, v.now, target);
    SubsetSize(Ahead(ClaimAll(v.rows, v.picked, v.now), target), Ahead(v.rows, target) - v.picked);
  }

  lemma {:induction false} UnpickedQueueShrinks(polls: seq<PollView>, target: string, m: nat)
    requires Waits(polls, target) && m < |polls|
    requires forall i :: 0 <= i < m ==> target !in polls[i].picked
    ensures |Ahead(polls[m].rows, target)| + BATCH * m <= |Ahead(polls[0].rows, target)|
  {
    if m == 0 {
    } else {
      var v := polls[m - 1];
      UnpickedQueueShrinks(polls, target, m - 1);
      UnpickedLosesBatch(v, target);
      SubsetSize(Ahead(polls[m].rows, target), Ahead(ClaimAll(v.rows, v.picked, v.now), target));
    }
  }

  /** What recovery never takes back: an execution claimed at most 15 minutes ago. */
  lemma ClaimsOutliveRecovery(rows: map<string, Exec>, picked: set<string>, now: int, locked: set<string>, later: int, id: string)
    requires id in rows && id in picked && later <= now + 900
    ensures id in ClaimAll(rows, picked, now) && id in Recovered(ClaimAll(rows, picked, now), locked, later)
    ensures ClaimAll(rows, picked, now)[id].status == Running
    ensures Recovered(ClaimAll(rows, picked, now), locked, later)[id].status == Running
  {}

  /** An execution with k rows ahead of it is claimed by the (k / 5 + 1)-th committed poll at the latest. */
  lemma BoundedWait(polls: seq<PollView>, target: string, k: nat)
    requires Waits(polls, target) && k / 5 < |polls| && |Ahead(polls[0].rows, target)| == k
    ensures exists i :: 0 <= i <= k / 5 && target in polls[i].picked
  {
    var m := k / BATCH;
    if forall i :: 0 <= i <= m ==> target !in polls[i].picked {
      UnpickedQueueShrinks(polls, target, m);
      UnpickedLosesBatch(polls[m], target);
    }
  }
}
