/**
 * The claim protocol as a transition system: any number of workers claim executions in transactions over both
 * channels, while recovery, cancellation, resumption and the holders of earlier claims write to the same rows.
 */
module Claims {
  import opened Common
  import opened Executions
  import VersionCounter

  /** An open claim transaction: the rows it has locked and read, and those it has updated so far. */
  datatype Tx = Tx(seen: map<string, Exec>, marked: map<string, Exec>)

  /** A cancel or resume request between its read and its write. */
  datatype Visit = Visit(id: string, seen: Exec, status: ExecStatus)

  /**
   * `holders` maps every claim handed to a worker, as execution and version, to the version that worker would name
   * in its next write of the row.
   */
  datatype Db = Db(rows: map<string, Exec>, txs: map<nat, Tx>, visits: map<nat, Visit>, holders: map<(string, int), int>)

  datatype Action =
    | Insert(id: string, row: Exec)
    | AcquireBatch(tx: nat, picked: set<string>)
    | AcquireOne(tx: nat, id: string)
    | Mark(tx: nat, id: string, now: int)
    | Commit(tx: nat, acked: bool)
    | Abort(tx: nat)
    | Recover(now: int)
    | VisitRead(who: nat, id: string, status: ExecStatus)
    | VisitWrite(who: nat, now: int)
    | HolderWrite(claim: (string, int), status: ExecStatus, now: int)
    | Stray(id: string, version: int, status: ExecStatus, now: int)

  function Locked(txs: map<nat, Tx>): set<string> {
    set n, id | n in txs && id in txs[n].seen :: id
  }

  function Restrict(rows: map<string, Exec>, ids: set<string>): map<string, Exec> {
    map id | id in rows && id in ids :: rows[id]
  }

  predicate Enabled(s: Db, a: Action) {
    match a
    case Insert(id, row) => id !in s.rows && row.status == Pending
    case AcquireBatch(n, picked) => n !in s.txs && OldestPending(s.rows, Locked(s.txs), BATCH, picked)
    case AcquireOne(n, id) => n !in s.txs && Claimable(s.rows, Locked(s.txs), id)
    case Mark(n, id, _) => n in s.txs && id in s.txs[n].seen && id !in s.txs[n].marked
    case Commit(n, _) => n in s.txs && s.txs[n].marked.Keys == s.txs[n].seen.Keys
    case Abort(n) => n in s.txs
    case Recover(_) => true
    case VisitRead(w, id, status) =>
      w !in s.visits && id in s.rows && (status == Pending || (status == Cancelled && s.rows[id].status == Running))
    case VisitWrite(w, _) => w in s.visits && s.visits[w].id !in Locked(s.txs)
    case HolderWrite(k, status, _) => k in s.holders && k.0 !in Locked(s.txs) && status != Running
    case Stray(id, _, status, _) => id !in Locked(s.txs) && status != Running
  }

  /** The versioned update of one row, outside any claim. */
  function Cas(rows: map<string, Exec>, id: string, version: int, status: ExecStatus, now: int): map<string, Exec> {
    if Matches(rows, id, version) then rows[id := Next(rows[id], status, now)] else rows
  }

  function HandedOut(marked: map<string, Exec>): map<(string, int), int> {
    map id | id in marked :: (id, marked[id].version) := marked[id].version
  }

  function Do(s: Db, a: Action): Db
    requires Enabled(s, a)
  {
    match a
    case Insert(id, row) => s.(rows := s.rows[id := row])
    case AcquireBatch(n, picked) => s.(txs := s.txs[n := Tx(Restrict(s.rows, picked), map[])])
    case AcquireOne(n, id) => s.(txs := s.txs[n := Tx(Restrict(s.rows, {id}), map[])])
    case Mark(n, id, now) =>
      var tx := s.txs[n];
      if Matches(s.rows, id, tx.seen[id].version)
      then s.(txs := s.txs[n := tx.(marked := tx.marked[id := Next(s.rows[id], Running, now)])])
      else s
    case Commit(n, acked) =>
      Db(s.rows + s.txs[n].marked, s.txs - {n}, s.visits,
         if acked then s.holders + HandedOut(s.txs[n].marked) else s.holders)
    case Abort(n) => s.(txs := s.txs - {n})
    case Recover(now) => s.(rows := Recovered(s.rows, Locked(s.txs), now))
    case VisitRead(w, id, status) => s.(visits := s.visits[w := Visit(id, s.rows[id], status)])
    case VisitWrite(w, now) =>
      var v := s.visits[w];
      s.(rows := Cas(s.rows, v.id, v.seen.version, v.status, now), visits := s.visits - {w})
    case HolderWrite(k, status, now) =>
      s.(rows := Cas(s.rows, k.0, s.holders[k], status, now),
         holders := if Matches(s.rows, k.0, s.holders[k]) then s.holders[k := s.holders[k] + 1] else s.holders)
    case Stray(id, version, status, now) => s.(rows := Cas(s.rows, id, version, status, now))
  }

  // ---- Invariant -------------------------------------------------------------------------------

  /** A locked row is still what its transaction read, and no other transaction holds it. */
  predicate TxRowOk(s: Db, n: nat, id: string)
    requires n in s.txs && id in s.txs[n].seen
  {
    && id in s.rows && s.rows[id] == s.txs[n].seen[id] && s.rows[id].status == Pending
    && (id in s.txs[n].marked ==>
          && s.txs[n].marked[id].status == Running && s.txs[n].marked[id].version == s.rows[id].version + 1
          && s.txs[n].marked[id].createdAt == s.rows[id].createdAt)
  }

  ghost predicate TxOk(s: Db, n: nat)
    requires n in s.txs
  {
    && s.txs[n].marked.Keys <= s.txs[n].seen.Keys
    && (forall id :: id in s.txs[n].seen ==> TxRowOk(s, n, id))
  }

  ghost predicate Exclusive(s: Db) {
    forall n, m, id :: Holds(s, n, id) && Holds(s, m, id) ==> n == m
  }

  predicate Holds(s: Db, n: nat, id: string) {
    n in s.txs && id in s.txs[n].seen
  }

  predicate HolderOk(rows: map<string, Exec>, k: (string, int), held: int) {
    k.0 in rows && k.1 <= held <= rows[k.0].version
  }

  ghost predicate Inv(s: Db) {
    && (forall n :: n in s.txs ==> TxOk(s, n))
    && Exclusive(s)
    && (forall w :: w in s.visits ==> s.visits[w].status != Running)
    && (forall k :: k in s.holders ==> HolderOk(s.rows, k, s.holders[k]))
  }

  /** Rows are never removed and their versions never fall. */
  ghost predicate Grows(was: map<string, Exec>, now: map<string, Exec>) {
    forall id :: id in was ==> id in now && was[id].version <= now[id].version
  }

  /** The update inside a claim transaction never conflicts. */
  lemma MarkNeverConflicts(s: Db, n: nat, id: string, now: int)
    requires Inv(s) && Enabled(s, Mark(n, id, now))
    ensures Matches(s.rows, id, s.txs[n].seen[id].version)
  {
    assert TxOk(s, n) && TxRowOk(s, n, id);
  }

  lemma LockedMember(s: Db, n: nat, id: string)
    requires Holds(s, n, id)
    ensures id in Locked(s.txs)
  {}

  lemma RowsGrow(s: Db, a: Action)
    requires Inv(s) && Enabled(s, a)
    ensures Grows(s.rows, Do(s, a).rows)
  {
    if a.Commit? {
      assert TxOk(s, a.tx);
      forall id | id in s.txs[a.tx].marked ensures id in s.rows && s.rows[id].version <= s.txs[a.tx].marked[id].version {
        assert TxRowOk(s, a.tx, id);
      }
    }
  }

  lemma OthersMarkElsewhere(s: Db, n: nat, m: nat, id: string)
    requires Inv(s) && Holds(s, n, id) && m in s.txs && m != n
    ensures id !in s.txs[m].marked
  {
    assert TxOk(s, m);
    assert !Holds(s, m, id);
  }

  /** No action but the commit that claims it changes a locked row. */
  lemma LockedRowStays(s: Db, a: Action, n: nat, id: string)
    requires Inv(s) && Enabled(s, a) && Holds(s, n, id) && id in s.rows && a != Commit(n, true) && a != Commit(n, false)
    ensures id in Do(s, a).rows && Do(s, a).rows[id] == s.rows[id]
  {
    LockedMember(s, n, id);
    if a.Commit? { OthersMarkElsewhere(s, n, a.tx, id); }
  }

  lemma NewTx(s: Db, a: Action, n: nat)
    requires Enabled(s, a) && n in Do(s, a).txs && n !in s.txs
    ensures (a.AcquireBatch? || a.AcquireOne?) && a.tx == n && Do(s, a).rows == s.rows && Do(s, a).txs[n].marked == map[]
    ensures forall id :: id in Do(s, a).txs[n].seen ==> Claimable(s.rows, Locked(s.txs), id) && Do(s, a).txs[n].seen[id] == s.rows[id]
  {}

  lemma OldTx(s: Db, a: Action, n: nat)
    requires Enabled(s, a) && n in Do(s, a).txs && n in s.txs
    ensures Do(s, a).txs[n].seen == s.txs[n].seen && a != Commit(n, true) && a != Commit(n, false)
    ensures Do(s, a).txs[n] == s.txs[n] || (a.Mark? && a.tx == n)
  {}

  lemma TxStaysOk(s: Db, a: Action, n: nat)
    requires Inv(s) && Enabled(s, a) && n in Do(s, a).txs
    ensures TxOk(Do(s, a), n)
  {
    var t := Do(s, a);
    if n in s.txs {
      OldTx(s, a, n);
      assert TxOk(s, n);
      forall id | id in t.txs[n].seen ensures TxRowOk(t, n, id) {
        assert TxRowOk(s, n, id) && Holds(s, n, id);
        LockedRowStays(s, a, n, id);
      }
    } else {
      NewTx(s, a, n);
    }
  }

  lemma StaysExclusive(s: Db, a: Action, n: nat, m: nat, id: string)
    requires Inv(s) && Enabled(s, a) && Holds(Do(s, a), n, id) && Holds(Do(s, a), m, id)
    ensures n == m
  {
    if n in s.txs { OldTx(s, a, n); assert Holds(s, n, id); LockedMember(s, n, id); } else { NewTx(s, a, n); }
    if m in s.txs { OldTx(s, a, m); assert Holds(s, m, id); LockedMember(s, m, id); } else { NewTx(s, a, m); }
  }

  lemma HolderStaysOk(s: Db, a: Action, k: (string, int))
    requires Inv(s) && Enabled(s, a) && k in Do(s, a).holders
    ensures HolderOk(Do(s, a).rows, k, Do(s, a).holders[k])
  {
    RowsGrow(s, a);
    if k in s.holders {
      assert HolderOk(s.rows, k, s.holders[k]);
    }
    if a.Commit? { CommitHolders(s, a.tx, a.acked, k); }
  }

  /** The holders after a commit are the earlier ones and those of the claims it makes. */
  lemma CommitHolders(s: Db, n: nat, acked: bool, k: (string, int))
    requires Enabled(s, Commit(n, acked)) && k in Do(s, Commit(n, acked)).holders
    ensures
      || (k in s.holders && Do(s, Commit(n, acked)).holders[k] == s.holders[k])
      || (k.0 in s.txs[n].marked && k.1 == s.txs[n].marked[k.0].version == Do(s, Commit(n, acked)).holders[k])
  {
    var claimed := HandedOut(s.txs[n].marked);
    assert k in s.holders || k in claimed;
  }

  lemma InvStays(s: Db, a: Action)
    requires Inv(s) && Enabled(s, a)
    ensures Inv(Do(s, a))
  {
    var t := Do(s, a);
    forall n | n in t.txs ensures TxOk(t, n) { TxStaysOk(s, a, n); }
    forall n, m, id | Holds(t, n, id) && Holds(t, m, id) ensures n == m { StaysExclusive(s, a, n, m, id); }
    forall k | k in t.holders ensures HolderOk(t.rows, k, t.holders[k]) { HolderStaysOk(s, a, k); }
  }

  // ---- Whole runs ------------------------------------------------------------------------------

  predicate Step(s: Db, a: Action, t: Db) {
    Enabled(s, a) && t == Do(s, a)
  }

  /** A run from the empty database: `states[i + 1]` follows `states[i]` by `acts[i]`. */
  ghost predicate Run(states: seq<Db>, acts: seq<Action>) {
    && |states| == |acts| + 1
    && states[0] == Db(map[], map[], map[], map[])
    && (forall i {:trigger StepAt(states, acts, i)} :: 0 <= i < |acts| ==> StepAt(states, acts, i))
  }

  predicate StepAt(states: seq<Db>, acts: seq<Action>, i: nat)
    requires |states| == |acts| + 1 && i < |acts|
  {
    Step(states[i], acts[i], states[i + 1])
  }

  /** An execution goes from PENDING to RUNNING. */
  predicate Passage(s: Db, t: Db, id: string) {
    id in s.rows && id in t.rows && s.rows[id].status == Pending && t.rows[id].status == Running
  }

  /** The claim `k` is handed to a worker. */
  predicate Handed(s: Db, t: Db, k: (string, int)) {
    k in t.holders && k !in s.holders
  }

  /** The worker learns the outcome of its commit. */
  predicate Heard(a: Action) {
    a.Commit? ==> a.acked
  }

  lemma {:induction false} InvAlways(states: seq<Db>, acts: seq<Action>, i: nat)
    requires Run(states, acts) && i < |states|
    ensures Inv(states[i])
  {
    if i == 0 {
    } else {
      InvAlways(states, acts, i - 1);
      assert StepAt(states, acts, i - 1);
      InvStays(states[i - 1], acts[i - 1]);
    }
  }

  lemma {:induction false} VersionNeverFalls(states: seq<Db>, acts: seq<Action>, i: nat, j: nat, id: string)
    requires Run(states, acts) && i <= j < |states| && id in states[i].rows
    ensures id in states[j].rows && states[i].rows[id].version <= states[j].rows[id].version
  {
    if i == j {
    } else {
      VersionNeverFalls(states, acts, i, j - 1, id);
      InvAlways(states, acts, j - 1);
      assert StepAt(states, acts, j - 1);
      RowsGrow(states[j - 1], acts[j - 1]);
    }
  }

  /** A claim that commits raises the version of each row by one, and no worker held that version before. */
  lemma CommitClaims(s: Db, n: nat, acked: bool, id: string)
    requires Inv(s) && Enabled(s, Commit(n, acked)) && id in s.txs[n].marked
    ensures var t := Do(s, Commit(n, acked));
      && Passage(s, t, id) && t.rows[id].version == s.rows[id].version + 1
      && (forall k :: k in s.holders && k.0 == id ==> k.1 < t.rows[id].version)
  {
    var t := Do(s, Commit(n, acked));
    assert TxOk(s, n) && TxRowOk(s, n, id);
    assert t.rows[id] == s.txs[n].marked[id];
    forall k | k in s.holders && k.0 == id ensures k.1 < t.rows[id].version {
      assert HolderOk(s.rows, k, s.holders[k]);
    }
  }

  /** Only the commit of a claim takes an execution from PENDING to RUNNING. */
  lemma PassageIsCommit(s: Db, a: Action, id: string)
    requires Inv(s) && Enabled(s, a) && Passage(s, Do(s, a), id)
    ensures a.Commit? && id in s.txs[a.tx].marked
  {}

  /** The claims handed out by a commit are those it marked, under the versions it wrote. */
  lemma HandedIsPassage(s: Db, a: Action, k: (string, int))
    requires Inv(s) && Enabled(s, a) && Handed(s, Do(s, a), k)
    ensures a.Commit? && a.acked && k.0 in s.txs[a.tx].marked
    ensures Passage(s, Do(s, a), k.0) && k.1 == Do(s, a).rows[k.0].version
  {
    if a.Commit? {
      CommitHolders(s, a.tx, a.acked, k);
      if k.0 in s.txs[a.tx].marked { CommitClaims(s, a.tx, a.acked, k.0); }
    }
  }

  /**
   * Each passage of an execution from PENDING to RUNNING is handed to exactly one worker, under the version the row
   * then has, unless the worker never hears that its commit succeeded; and nothing else is handed out.
   */
  lemma EachPassageHandedOnce(states: seq<Db>, acts: seq<Action>, i: nat, id: string, version: int)
    requires Run(states, acts) && i < |acts|
    ensures Handed(states[i], states[i + 1], (id, version))
      <==> Passage(states[i], states[i + 1], id) && states[i + 1].rows[id].version == version && Heard(acts[i])
  {
    var s, a, t, k := states[i], acts[i], states[i + 1], (id, version);
    InvAlways(states, acts, i);
    assert StepAt(states, acts, i);
    if Handed(s, t, k) {
      HandedIsPassage(s, a, k);
    }
    if Passage(s, t, id) && t.rows[id].version == version {
      PassageIsCommit(s, a, id);
      CommitClaims(s, a.tx, a.acked, id);
      assert a.acked ==> k in HandedOut(s.txs[a.tx].marked);
    }
  }

  lemma HandedAt(states: seq<Db>, acts: seq<Action>, i: nat, k: (string, int))
    requires Run(states, acts) && i < |acts| && Handed(states[i], states[i + 1], k)
    ensures k.0 in states[i].rows && k.0 in states[i + 1].rows
    ensures states[i].rows[k.0].version < k.1 == states[i + 1].rows[k.0].version
  {
    InvAlways(states, acts, i);
    assert StepAt(states, acts, i);
    HandedIsPassage(states[i], acts[i], k);
    CommitClaims(states[i], acts[i].tx, acts[i].acked, k.0);
  }

  /** The versions under which one execution is handed out strictly increase, so no claim is handed out twice. */
  lemma HandedVersionsIncrease(states: seq<Db>, acts: seq<Action>, i: nat, j: nat, id: string, v: int, w: int)
    requires Run(states, acts) && i < j < |acts|
    requires Handed(states[i], states[i + 1], (id, v)) && Handed(states[j], states[j + 1], (id, w))
    ensures v < w
  {
    HandedAt(states, acts, i, (id, v));
    HandedAt(states, acts, j, (id, w));
    VersionNeverFalls(states, acts, i + 1, j, id);
  }

  // ---- Fencing ---------------------------------------------------------------------------------

  predicate Updated(s: Db, t: Db, id: string) {
    id in s.rows && id in t.rows && s.rows[id].version != t.rows[id].version
  }

  /** Each version of an execution admits at most one successful update. */
  lemma OneUpdatePerVersion(states: seq<Db>, acts: seq<Action>, i: nat, j: nat, id: string)
    requires Run(states, acts) && i < j < |acts|
    requires Updated(states[i], states[i + 1], id) && Updated(states[j], states[j + 1], id)
    ensures states[i].rows[id].version < states[j].rows[id].version
  {
    VersionNeverFalls(states, acts, i, i + 1, id);
    VersionNeverFalls(states, acts, i + 1, j, id);
  }

  /** The row has moved past the version that the holder of a claim would name. */
  predicate Fenced(s: Db, k: (string, int)) {
    k in s.holders && k.0 in s.rows && s.holders[k] < s.rows[k.0].version
  }

  lemma FenceStays(s: Db, a: Action, k: (string, int))
    requires Inv(s) && Enabled(s, a) && Fenced(s, k)
    ensures Fenced(Do(s, a), k)
  {
    RowsGrow(s, a);
    if a.Commit? {
      CommitHolders(s, a.tx, a.acked, k);
      if k.0 in s.txs[a.tx].marked {
        CommitClaims(s, a.tx, a.acked, k.0);
        assert HolderOk(s.rows, k, s.holders[k]);
      }
    }
  }

  lemma {:induction false} FencedForever(states: seq<Db>, acts: seq<Action>, i: nat, j: nat, k: (string, int))
    requires Run(states, acts) && i <= j < |states| && Fenced(states[i], k)
    ensures Fenced(states[j], k)
  {
    if i == j {
    } else {
      FencedForever(states, acts, i, j - 1, k);
      InvAlways(states, acts, j - 1);
      assert StepAt(states, acts, j - 1);
      FenceStays(states[j - 1], acts[j - 1], k);
    }
  }

  /** What takes an execution away from the workers that hold it: a newer claim, or a cancel that succeeds. */
  predicate Supersedes(s: Db, a: Action, id: string)
    requires Enabled(s, a)
  {
    match a
    case Commit(n, _) => id in s.txs[n].marked
    case VisitWrite(w, _) => s.visits[w].id == id && Matches(s.rows, id, s.visits[w].seen.version)
    case _ => false
  }

  lemma SupersededIsFenced(s: Db, a: Action, k: (string, int))
    requires Inv(s) && Enabled(s, a) && k in s.holders && Supersedes(s, a, k.0)
    ensures Fenced(Do(s, a), k)
  {
    assert HolderOk(s.rows, k, s.holders[k]);
    if a.Commit? {
      CommitClaims(s, a.tx, a.acked, k.0);
      CommitHolders(s, a.tx, a.acked, k);
    }
  }

  /**
   * Once a newer claim or a cancel has committed, no later write of an earlier holder changes any row, provided the
   * holder names the versions that its own updates produced.
   */
  lemma EarlierHolderIsSilenced(states: seq<Db>, acts: seq<Action>, i: nat, j: nat, k: (string, int))
    requires Run(states, acts) && i < j < |acts|
    requires Enabled(states[i], acts[i]) && Supersedes(states[i], acts[i], k.0) && k in states[i].holders
    requires acts[j].HolderWrite? && acts[j].claim == k
    ensures states[j + 1].rows == states[j].rows
  {
    InvAlways(states, acts, i);
    assert StepAt(states, acts, i) && StepAt(states, acts, j);
    SupersededIsFenced(states[i], acts[i], k);
    FencedForever(states, acts, i + 1, j, k);
  }

  /** An action raises the version of a row by one, or leaves it. */
  lemma VersionsRiseByOne(s: Db, a: Action, id: string)
    requires Inv(s) && Enabled(s, a) && id in s.rows
    ensures id in Do(s, a).rows
    ensures Do(s, a).rows[id].version == s.rows[id].version + if Updated(s, Do(s, a), id) then 1 else 0
  {
    if a.Commit? {
      assert TxOk(s, a.tx);
      assert id in s.txs[a.tx].marked ==> TxRowOk(s, a.tx, id);
    }
  }

  /** How many of the actions `i`, …, `j - 1` update the row. */
  function UpdatesOf(states: seq<Db>, id: string, i: nat, j: nat): nat
    requires i <= j < |states|
  {
    if i == j then 0
    else UpdatesOf(states, id, i, j - 1) + if Updated(states[j - 1], states[j], id) then 1 else 0
  }

  lemma {:induction false} VersionsCountUpdates(states: seq<Db>, acts: seq<Action>, i: nat, j: nat, id: string)
    requires Run(states, acts) && i <= j < |states| && id in states[i].rows
    ensures id in states[j].rows && states[j].rows[id].version == states[i].rows[id].version + UpdatesOf(states, id, i, j)
  {
    if i == j {
    } else {
      VersionsCountUpdates(states, acts, i, j - 1, id);
      InvAlways(states, acts, j - 1);
      assert StepAt(states, acts, j - 1);
      VersionsRiseByOne(states[j - 1], acts[j - 1], id);
    }
  }

  /**
   * When a write lands that names the version `m` above a claim, as the engine's writes do: exactly when the row has
   * been updated `m` times since the claim was handed out, by whomever.
   */
  lemma StrayLandsIff(states: seq<Db>, acts: seq<Action>, i: nat, j: nat, k: (string, int), m: int)
    requires Run(states, acts) && i < j < |acts| && Handed(states[i], states[i + 1], k)
    requires acts[j].Stray? && acts[j].id == k.0 && acts[j].version == k.1 + m
    ensures states[j + 1].rows != states[j].rows <==> UpdatesOf(states, k.0, i + 1, j) == m
  {
    HandedAt(states, acts, i, k);
    VersionsCountUpdates(states, acts, i + 1, j, k.0);
    assert StepAt(states, acts, j);
    CasChanges(states[j].rows, k.0, acts[j].version, acts[j].status, acts[j].now);
  }

  /**
   * A write that names the version an engine's shared counter gives lands exactly when the row has been updated as
   * often since the claim as the last start's claim, plus the counter's steps since, exceeds the claim.
   */
  lemma EngineWriteLandsIff(
    states: seq<Db>, acts: seq<Action>, i: nat, j: nat, k: (string, int), log: seq<VersionCounter.Op>, s: nat)
    requires Run(states, acts) && i < j < |acts| && Handed(states[i], states[i + 1], k)
    requires acts[j].Stray? && acts[j].id == k.0 && acts[j].version == VersionCounter.CounterAfter(log)
    requires VersionCounter.IsLastStart(log, s)
    ensures states[j + 1].rows != states[j].rows
      <==> UpdatesOf(states, k.0, i + 1, j) == log[s].claimed + (|log| - 1 - s) - k.1
  {
    VersionCounter.CounterFromLastStart(log, s);
    StrayLandsIff(states, acts, i, j, k, VersionCounter.CounterAfter(log) - k.1);
  }

  lemma CasChanges(rows: map<string, Exec>, id: string, version: int, status: ExecStatus, now: int)
    ensures Cas(rows, id, version, status, now) != rows <==> Matches(rows, id, version)
  {
    if Matches(rows, id, version) {
      assert Cas(rows, id, version, status, now)[id].version != rows[id].version;
    }
  }

  /** The queue channel, when no one interferes: lock, mark and commit one execution. */
  lemma ClaimOne(s: Db, n: nat, id: string, now: int)
    requires n !in s.txs && Claimable(s.rows, Locked(s.txs), id)
    ensures Enabled(s, AcquireOne(n, id))
    ensures
      var acquired := Do(s, AcquireOne(n, id));
      && Enabled(acquired, Mark(n, id, now))
      && var marked := Do(acquired, Mark(n, id, now));
      && Enabled(marked, Commit(n, true))
      && Do(marked, Commit(n, true)) == Claimed(s, id, now)
  {
    var row := Next(s.rows[id], Running, now);
    var acquired := Do(s, AcquireOne(n, id));
    assert acquired.txs[n].seen == map[id := s.rows[id]];
    var marked := Do(acquired, Mark(n, id, now));
    assert marked.txs[n].marked == map[id := row];
    assert HandedOut(map[id := row]) == map[(id, row.version) := row.version];
    assert marked.txs - {n} == s.txs;
  }

  /** The database after one worker has claimed one execution. */
  function Claimed(s: Db, id: string, now: int): Db
    requires id in s.rows
  {
    var row := Next(s.rows[id], Running, now);
    s.(rows := s.rows + map[id := row], holders := s.holders + map[(id, row.version) := row.version])
  }

  /**
   * As written, the engine names the version after the one it was handed. That write misses while the claim is
   * current, and lands once the execution has been recovered and claimed again by the steps of `ClaimOne`.
   */
  lemma StaleWriteLandsAfterReclaim(s: Db, k: (string, int), now: int, status: ExecStatus)
    requires Inv(s) && k in s.holders && k.0 !in Locked(s.txs) && status != Running
    requires s.rows[k.0].version == k.1 && Stuck(s.rows[k.0], now)
    ensures Do(s, Stray(k.0, k.1 + 1, status, now)).rows == s.rows
    ensures
      var recovered := Do(s, Recover(now));
      && Claimable(recovered.rows, Locked(recovered.txs), k.0)
      && var claimed := Claimed(recovered, k.0, now);
      && (k.0, k.1 + 1) in claimed.holders && claimed.rows[k.0].status == Running
      && Do(claimed, Stray(k.0, k.1 + 1, status, now)).rows[k.0].status == status
  {
    assert HolderOk(s.rows, k, s.holders[k]);
    var recovered := Do(s, Recover(now));
    assert recovered.rows[k.0] == s.rows[k.0].(status := Pending, updatedAt := now);
  }
}
