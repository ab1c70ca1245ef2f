/** What the writes of holders, cancels and recovery do to a claimed execution. */
module ClaimRecovery {
  import opened Common
  import opened Executions
  import opened Claims

  // ---- One write -------------------------------------------------------------------------------

  /** A holder's write sets the status and the next version exactly if the row is at the version it names. */
  lemma HolderWriteSays(s: Db, k: (string, int), status: ExecStatus, now: int)
    requires Inv(s) && Enabled(s, HolderWrite(k, status, now))
    ensures
      var id, rows := k.0, Do(s, HolderWrite(k, status, now)).rows;
      && id in s.rows && id in rows && (forall x :: x in s.rows && x != id ==> x in rows && rows[x] == s.rows[x])
      && rows[id] == if s.rows[id].version == s.holders[k]
                     then Exec(status, s.holders[k] + 1, s.rows[id].createdAt, now) else s.rows[id]
  {
    assert HolderOk(s.rows, k, s.holders[k]);
  }

  /** So does the write of a cancel or a resume, for the version it has read. */
  lemma VisitWriteSays(s: Db, w: nat, now: int)
    requires Enabled(s, VisitWrite(w, now)) && s.visits[w].id in s.rows
    ensures
      var v, rows := s.visits[w], Do(s, VisitWrite(w, now)).rows;
      && v.id in rows && (forall x :: x in s.rows && x != v.id ==> x in rows && rows[x] == s.rows[x])
      && rows[v.id] == if s.rows[v.id].version == v.seen.version
                       then Exec(v.status, v.seen.version + 1, s.rows[v.id].createdAt, now) else s.rows[v.id]
  {}

  /** A cancel reads a RUNNING row, and names the version it read. */
  lemma CancelReads(s: Db, w: nat, id: string)
    requires Enabled(s, VisitRead(w, id, Cancelled))
    ensures var t := Do(s, VisitRead(w, id, Cancelled));
      && t.rows == s.rows && w in t.visits && t.visits[w].id == id && t.visits[w].status == Cancelled
      && t.visits[w].seen == s.rows[id] && s.rows[id].status == Running
  {}

  /** Recovery returns exactly the unlocked RUNNING rows that have not been updated for 15 minutes. */
  lemma RecoverSays(s: Db, now: int, id: string)
    requires id in s.rows
    ensures
      var rows := Do(s, Recover(now)).rows;
      && id in rows
      && rows[id] == if s.rows[id].status == Running && s.rows[id].updatedAt < now - 900 && id !in Locked(s.txs)
                     then Exec(Pending, s.rows[id].version, s.rows[id].createdAt, now) else s.rows[id]
  {}

  // ---- A claim and the time it is given --------------------------------------------------------

  predicate Ends(a: Action, n: nat) {
    (a.Commit? || a.Abort?) && a.tx == n
  }

  lemma MarkWrites(s: Db, n: nat, id: string, now: int)
    requires Inv(s) && Enabled(s, Mark(n, id, now))
    ensures
      var t := Do(s, Mark(n, id, now));
      && id in s.rows && n in t.txs && id in t.txs[n].marked
      && t.txs[n].marked[id] == Exec(Running, s.rows[id].version + 1, s.rows[id].createdAt, now)
  {
    MarkNeverConflicts(s, n, id, now);
  }

  lemma {:induction false} MarkedStays(states: seq<Db>, acts: seq<Action>, i: nat, j: nat, n: nat, id: string)
    requires Run(states, acts) && i <= j < |states| && n in states[i].txs && id in states[i].txs[n].marked
    requires forall k :: i <= k < j ==> !Ends(acts[k], n)
    ensures n in states[j].txs && id in states[j].txs[n].marked
    ensures states[j].txs[n].marked[id] == states[i].txs[n].marked[id]
  {
    if i == j {
    } else {
      MarkedStays(states, acts, i, j - 1, n, id);
      assert StepAt(states, acts, j - 1);
    }
  }

  /** Execution `id` is marked at `i`, at time `now`, and its claim commits at `j`. */
  predicate ClaimedAt(acts: seq<Action>, i: nat, j: nat, n: nat, id: string, now: int) {
    && i < j < |acts| && acts[i] == Mark(n, id, now) && (acts[j] == Commit(n, true) || acts[j] == Commit(n, false))
    && forall k :: i < k < j ==> !Ends(acts[k], n)
  }

  lemma CommitWrites(s: Db, n: nat, acked: bool, id: string)
    requires Enabled(s, Commit(n, acked)) && id in s.txs[n].marked
    ensures id in Do(s, Commit(n, acked)).rows && Do(s, Commit(n, acked)).rows[id] == s.txs[n].marked[id]
  {}

  /** The commit makes the row RUNNING, as of the time of the mark. */
  lemma ClaimedRow(states: seq<Db>, acts: seq<Action>, i: nat, j: nat, n: nat, id: string, now: int)
    requires Run(states, acts) && ClaimedAt(acts, i, j, n, id, now)
    ensures id in states[j + 1].rows && states[j + 1].rows[id].status == Running && states[j + 1].rows[id].updatedAt == now
  {
    MarkedNow(states, acts, i, n, id, now);
    MarkedStays(states, acts, i + 1, j, n, id);
    assert StepAt(states, acts, j);
    CommitWrites(states[j], n, acts[j].acked, id);
  }

  lemma MarkedNow(states: seq<Db>, acts: seq<Action>, i: nat, n: nat, id: string, now: int)
    requires Run(states, acts) && i < |acts| && acts[i] == Mark(n, id, now)
    ensures n in states[i + 1].txs && id in states[i + 1].txs[n].marked
    ensures states[i + 1].txs[n].marked[id].status == Running && states[i + 1].txs[n].marked[id].updatedAt == now
  {
    InvAlways(states, acts, i);
    assert StepAt(states, acts, i);
    MarkWrites(states[i], n, id, now);
  }

  predicate EarlyRecovery(a: Action, now: int) {
    a.Recover? ==> a.now <= now + 900
  }

  /** A step that does not raise the version of a claimed row, and is no late recovery, leaves the row alone. */
  lemma ClaimedRowStays(s: Db, a: Action, id: string, now: int)
    requires Inv(s) && Enabled(s, a) && id in s.rows && s.rows[id].status == Running && s.rows[id].updatedAt == now
    requires EarlyRecovery(a, now) && id in Do(s, a).rows && Do(s, a).rows[id].version == s.rows[id].version
    ensures Do(s, a).rows[id] == s.rows[id]
  {
    if a.Commit? {
      assert TxOk(s, a.tx);
      assert id in s.txs[a.tx].marked ==> TxRowOk(s, a.tx, id);
    }
  }

  /**
   * Until some update raises its version, a claimed execution stays RUNNING through every recovery that runs within
   * 15 minutes of its claim.
   */
  lemma {:induction false} ClaimSurvivesRecovery(
    states: seq<Db>, acts: seq<Action>, i: nat, j: nat, n: nat, id: string, now: int, r: nat)
    requires Run(states, acts) && ClaimedAt(acts, i, j, n, id, now) && j < r < |states|
    requires forall k :: j < k < r ==> EarlyRecovery(acts[k], now)
    requires id in states[j + 1].rows && UpdatesOf(states, id, j + 1, r) == 0
    ensures id in states[r].rows && states[r].rows[id] == states[j + 1].rows[id]
    ensures states[r].rows[id].status == Running && states[r].rows[id].updatedAt == now
  {
    ClaimedRow(states, acts, i, j, n, id, now);
    if r == j + 1 {
    } else {
      ClaimSurvivesRecovery(states, acts, i, j, n, id, now, r - 1);
      InvAlways(states, acts, r - 1);
      assert StepAt(states, acts, r - 1);
      VersionsRiseByOne(states[r - 1], acts[r - 1], id);
      ClaimedRowStays(states[r - 1], acts[r - 1], id, now);
    }
  }

  // ---- The current holder can write ------------------------------------------------------------

  lemma HolderStays(s: Db, a: Action, k: (string, int))
    requires Inv(s) && Enabled(s, a) && k in s.holders && k.0 in s.rows && !Updated(s, Do(s, a), k.0)
    ensures k in Do(s, a).holders && Do(s, a).holders[k] == s.holders[k]
  {
    if a.Commit? {
      CommitHolders(s, a.tx, a.acked, k);
      if k.0 in s.txs[a.tx].marked { CommitClaims(s, a.tx, a.acked, k.0); }
    }
  }

  lemma {:induction false} HolderWaits(states: seq<Db>, acts: seq<Action>, i: nat, j: nat, k: (string, int))
    requires Run(states, acts) && i <= j < |states| && k in states[i].holders && k.0 in states[i].rows
    requires UpdatesOf(states, k.0, i, j) == 0
    ensures k in states[j].holders && states[j].holders[k] == states[i].holders[k] && k.0 in states[j].rows
  {
    if i == j {
    } else {
      HolderWaits(states, acts, i, j - 1, k);
      InvAlways(states, acts, j - 1);
      assert StepAt(states, acts, j - 1);
      HolderStays(states[j - 1], acts[j - 1], k);
      RowsGrow(states[j - 1], acts[j - 1]);
    }
  }

  /** As long as nothing has updated the row since the claim, the holder's first write takes effect. */
  lemma CurrentHolderWrites(states: seq<Db>, acts: seq<Action>, i: nat, j: nat, k: (string, int))
    requires Run(states, acts) && i < j < |acts| && Handed(states[i], states[i + 1], k)
    requires acts[j].HolderWrite? && acts[j].claim == k
    requires k.0 in states[i + 1].rows && UpdatesOf(states, k.0, i + 1, j) == 0
    ensures k.0 in states[j + 1].rows && states[j + 1].rows[k.0].status == acts[j].status
    ensures states[j + 1].rows[k.0].version == k.1 + 1 && states[j + 1].rows[k.0].updatedAt == acts[j].now
  {
    HandedAt(states, acts, i, k);
    HandedNames(states, acts, i, k);
    HolderWaits(states, acts, i + 1, j, k);
    VersionsCountUpdates(states, acts, i + 1, j, k.0);
    InvAlways(states, acts, j);
    assert StepAt(states, acts, j);
    HolderWriteSays(states[j], k, acts[j].status, acts[j].now);
  }

  lemma HandedNames(states: seq<Db>, acts: seq<Action>, i: nat, k: (string, int))
    requires Run(states, acts) && i < |acts| && Handed(states[i], states[i + 1], k)
    ensures k in states[i + 1].holders && states[i + 1].holders[k] == k.1
  {
    InvAlways(states, acts, i);
    assert StepAt(states, acts, i);
    HandedIsPassage(states[i], acts[i], k);
    CommitHolders(states[i], acts[i].tx, acts[i].acked, k);
  }
}
