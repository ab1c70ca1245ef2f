/** How long an execution waits for its claim, while transactions of any number of workers are open. */
module ClaimWait {
  import opened Common
  import opened Executions
  import opened Claims

  /** A full batch of rows that are no younger than the target, acquired without it. */
  ghost predicate Overtakes(s: Db, n: nat, target: string) {
    && n in s.txs && target in s.rows && target !in s.txs[n].seen && |s.txs[n].seen.Keys| == BATCH
    && (forall id {:trigger id in s.txs[n].seen} :: id in s.txs[n].seen ==> NoYounger(s.txs[n].seen[id], s.rows[target]))
  }

  predicate NoYounger(row: Exec, target: Exec) {
    row.status == Pending && row.createdAt <= target.createdAt
  }

  predicate EndsTx(a: Action, n: nat) {
    (a.Commit? || a.Abort?) && a.tx == n
  }

  /** A batch acquired while the target is claimable takes it, or overtakes it with a full batch. */
  lemma AcquireTakesOrOvertakes(s: Db, n: nat, picked: set<string>, target: string)
    requires Enabled(s, AcquireBatch(n, picked)) && Claimable(s.rows, Locked(s.txs), target) && target !in picked
    ensures Overtakes(Do(s, AcquireBatch(n, picked)), n, target)
  {
    assert PassedOver(s.rows, Locked(s.txs), BATCH, picked, target);
    forall p | p in picked ensures p in s.rows && NoYounger(s.rows[p], s.rows[target]) {
      assert Claimable(s.rows, Locked(s.txs), p);
    }
    assert Restrict(s.rows, picked).Keys == picked;
  }

  lemma CreationStays(s: Db, a: Action, id: string)
    requires Inv(s) && Enabled(s, a) && id in s.rows
    ensures id in Do(s, a).rows && Do(s, a).rows[id].createdAt == s.rows[id].createdAt
  {
    if a.Commit? {
      assert TxOk(s, a.tx);
      assert id in s.txs[a.tx].marked ==> TxRowOk(s, a.tx, id);
    }
  }

  lemma TxRemains(s: Db, a: Action, n: nat)
    requires Enabled(s, a) && n in s.txs && !EndsTx(a, n)
    ensures n in Do(s, a).txs && Do(s, a).txs[n].seen == s.txs[n].seen
  {}

  lemma OvertakesStays(s: Db, a: Action, n: nat, target: string)
    requires Inv(s) && Enabled(s, a) && Overtakes(s, n, target) && !EndsTx(a, n)
    ensures Overtakes(Do(s, a), n, target)
  {
    CreationStays(s, a, target);
    TxRemains(s, a, n);
  }

  /** When such a batch commits, its rows leave the queue ahead of the target. */
  lemma CommitShortensQueue(s: Db, n: nat, acked: bool, target: string)
    requires Inv(s) && Enabled(s, Commit(n, acked)) && Overtakes(s, n, target)
    requires target in Do(s, Commit(n, acked)).rows
    requires Ahead(Do(s, Commit(n, acked)).rows, target) <= Ahead(s.rows, target)
    ensures |Ahead(Do(s, Commit(n, acked)).rows, target)| + BATCH <= |Ahead(s.rows, target)|
  {
    var t, batch := Do(s, Commit(n, acked)), s.txs[n].seen.Keys;
    assert TxOk(s, n);
    forall id | id in batch ensures id in Ahead(s.rows, target) && id !in Ahead(t.rows, target) {
      assert TxRowOk(s, n, id) && id in s.txs[n].seen;
      assert t.rows[id] == s.txs[n].marked[id];
    }
    SubsetSize(Ahead(t.rows, target), Ahead(s.rows, target) - batch);
  }

  // ---- Over whole runs -------------------------------------------------------------------------

  /** From state `from` on, no row joins those ahead of the target. */
  ghost predicate NoneJoins(states: seq<Db>, target: string, from: nat) {
    && from < |states|
    && (forall i {:trigger JoinsAt(states, target, i)} :: from <= i < |states| - 1 ==> !JoinsAt(states, target, i))
  }

  predicate JoinsAt(states: seq<Db>, target: string, i: nat)
    requires i < |states| - 1
  {
    target in states[i].rows && target in states[i + 1].rows && !(Ahead(states[i + 1].rows, target) <= Ahead(states[i].rows, target))
  }

  lemma TargetStays(states: seq<Db>, acts: seq<Action>, i: nat, j: nat, target: string)
    requires Run(states, acts) && i <= j < |states| && target in states[i].rows
    ensures target in states[j].rows
  {
    VersionNeverFalls(states, acts, i, j, target);
  }

  lemma {:induction false} QueueNeverGrows(states: seq<Db>, acts: seq<Action>, from: nat, i: nat, j: nat, target: string)
    requires Run(states, acts) && NoneJoins(states, target, from) && from <= i <= j < |states| && target in states[i].rows
    ensures target in states[j].rows && Ahead(states[j].rows, target) <= Ahead(states[i].rows, target)
  {
    if i == j {
    } else {
      QueueNeverGrows(states, acts, from, i, j - 1, target);
      TargetStays(states, acts, i, j, target);
      assert !JoinsAt(states, target, j - 1);
    }
  }

  /** One committed poll: a batch acquired at `acquired`, while the target was claimable, and committed at `committed`. */
  datatype PollOf = PollOf(acquired: nat, committed: nat)

  predicate IsPoll(states: seq<Db>, acts: seq<Action>, target: string, p: PollOf) {
    && p.acquired < p.committed < |acts| && |states| == |acts| + 1
    && acts[p.acquired].AcquireBatch? && acts[p.committed].Commit? && acts[p.committed].tx == acts[p.acquired].tx
    && (forall k :: p.acquired < k < p.committed ==> !EndsTx(acts[k], acts[p.acquired].tx))
    && Claimable(states[p.acquired].rows, Locked(states[p.acquired].txs), target)
  }

  lemma {:induction false} StillOvertakes(states: seq<Db>, acts: seq<Action>, n: nat, i: nat, j: nat, target: string)
    requires Run(states, acts) && i <= j < |states| && Overtakes(states[i], n, target)
    requires forall k :: i <= k < j ==> !EndsTx(acts[k], n)
    ensures Overtakes(states[j], n, target)
  {
    if i == j {
    } else {
      StillOvertakes(states, acts, n, i, j - 1, target);
      InvAlways(states, acts, j - 1);
      assert StepAt(states, acts, j - 1);
      OvertakesStays(states[j - 1], acts[j - 1], n, target);
    }
  }

  lemma PollOvertakes(states: seq<Db>, acts: seq<Action>, target: string, p: PollOf)
    requires Run(states, acts) && IsPoll(states, acts, target, p) && target !in acts[p.acquired].picked
    ensures Overtakes(states[p.committed], acts[p.acquired].tx, target)
  {
    var a, n := p.acquired, acts[p.acquired].tx;
    assert StepAt(states, acts, a);
    AcquireTakesOrOvertakes(states[a], n, acts[a].picked, target);
    StillOvertakes(states, acts, n, a + 1, p.committed, target);
  }

  /** A poll that does not take the target shortens the queue ahead of it by a full batch. */
  lemma PollShortensQueue(states: seq<Db>, acts: seq<Action>, from: nat, target: string, p: PollOf)
    requires Run(states, acts) && NoneJoins(states, target, from) && from <= p.acquired && IsPoll(states, acts, target, p)
    requires target !in acts[p.acquired].picked
    ensures target in states[p.committed].rows && target in states[p.committed + 1].rows
    ensures |Ahead(states[p.committed + 1].rows, target)| + BATCH <= |Ahead(states[p.committed].rows, target)|
  {
    var j := p.committed;
    PollOvertakes(states, acts, target, p);
    InvAlways(states, acts, j);
    QueueNeverGrows(states, acts, from, j, j + 1, target);
    assert StepAt(states, acts, j);
    CommitShortensQueue(states[j], acts[j].tx, acts[j].acked, target);
  }

  /** The polls, in the order in which they commit. */
  ghost predicate ArePolls(states: seq<Db>, acts: seq<Action>, from: nat, target: string, polls: seq<PollOf>) {
    && (forall i {:trigger polls[i]} :: 0 <= i < |polls| ==> from <= polls[i].acquired && IsPoll(states, acts, target, polls[i]))
    && (forall i, j :: 0 <= i < j < |polls| ==> polls[i].committed < polls[j].committed)
  }

  lemma {:induction false} MissedPollsShorten(
    states: seq<Db>, acts: seq<Action>, from: nat, target: string, polls: seq<PollOf>, m: nat)
    requires Run(states, acts) && NoneJoins(states, target, from) && target in states[from].rows
    requires ArePolls(states, acts, from, target, polls) && 0 < m <= |polls|
    requires forall i :: 0 <= i < m ==> target !in acts[polls[i].acquired].picked
    ensures target in states[polls[m - 1].committed + 1].rows
    ensures |Ahead(states[polls[m - 1].committed + 1].rows, target)| + BATCH * m <= |Ahead(states[from].rows, target)|
  {
    var p := polls[m - 1];
    PollShortensQueue(states, acts, from, target, p);
    if m == 1 {
      QueueNeverGrows(states, acts, from, from, p.committed, target);
      SubsetSize(Ahead(states[p.committed].rows, target), Ahead(states[from].rows, target));
    } else {
      var q := polls[m - 2];
      MissedPollsShorten(states, acts, from, target, polls, m - 1);
      QueueNeverGrows(states, acts, from, q.committed + 1, p.committed, target);
      SubsetSize(Ahead(states[p.committed].rows, target), Ahead(states[q.committed + 1].rows, target));
    }
  }

  /**
   * An execution that has k rows ahead of it, and that no further row overtakes, is taken by the (k / 5 + 1)-th
   * committed poll at the latest that could take it, whatever other transactions are open meanwhile.
   */
  lemma BoundedWaitOfRun(states: seq<Db>, acts: seq<Action>, from: nat, target: string, polls: seq<PollOf>)
    requires Run(states, acts) && NoneJoins(states, target, from) && target in states[from].rows
    requires ArePolls(states, acts, from, target, polls) && |Ahead(states[from].rows, target)| / 5 < |polls|
    ensures exists i :: 0 <= i <= |Ahead(states[from].rows, target)| / 5 && target in acts[polls[i].acquired].picked
  {
    var m := |Ahead(states[from].rows, target)| / BATCH + 1;
    if forall i :: 0 <= i < m ==> target !in acts[polls[i].acquired].picked {
      MissedPollsShorten(states, acts, from, target, polls, m);
    }
  }
}
