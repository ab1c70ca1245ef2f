/** The version store of workflows: what a committed operation does to the table, and what every run keeps. */
module Versions {
  import opened WorkflowModel
  import opened Dag

  datatype Row = Row(tenant: string, name: string, version: int, current: bool, active: bool, steps: seq<StepDef>)

  type Table = map<string, Row>

  /**
   * The index of one current row per workflow is checked after each statement or only at commit; a rollback looks for
   * a target that is not current, or for one that is.
   */
  datatype Config = Config(checkAtCommit: bool, targetNotCurrent: bool)

  datatype Op =
    | Create(id: string, tenant: string, name: string, steps: seq<StepDef>)
    | Update(id: string, tenant: string, name: string, base: int, steps: seq<StepDef>)
    | Rollback(tenant: string, name: string, base: int, target: int)
    | Delete(tenant: string, name: string)

  predicate InFamily(row: Row, tenant: string, name: string) {
    row.tenant == tenant && row.name == name
  }

  predicate SameFamily(a: Row, b: Row) {
    InFamily(a, b.tenant, b.name)
  }

  /** The row that `GetForUpdate` locks. */
  predicate Finds(rows: Table, id: string, tenant: string, name: string, version: int, current: bool) {
    && id in rows && InFamily(rows[id], tenant, name) && rows[id].version == version
    && rows[id].current == current && rows[id].active
  }

  predicate Conflicts(rows: Table, id: string, row: Row) {
    id in rows && SameFamily(rows[id], row) && rows[id].version == row.version
  }

  predicate BothCurrent(rows: Table, i: string, j: string) {
    i in rows && j in rows && rows[i].current && rows[j].current && SameFamily(rows[i], rows[j])
  }

  ghost predicate OneCurrent(rows: Table) {
    forall i, j :: BothCurrent(rows, i, j) ==> i == j
  }

  function NewRow(tenant: string, name: string, version: int, steps: seq<StepDef>): Row {
    Row(tenant, name, version, true, true, steps)
  }

  /** An insert into a transaction's view of the table. */
  ghost predicate Inserts(cfg: Config, s: Table, id: string, row: Row, t: Table) {
    && id !in s && (forall i :: !Conflicts(s, i, row)) && t == s[id := row]
    && (!cfg.checkAtCommit ==> OneCurrent(t))
  }

  function SetCurrent(rows: Table, id: string, current: bool): Table {
    if id in rows then rows[id := rows[id].(current := current)] else rows
  }

  function Deactivated(rows: Table, tenant: string, name: string): Table {
    map id | id in rows :: if InFamily(rows[id], tenant, name) then rows[id].(active := false) else rows[id]
  }

  /** An update that locks the current row `locked` commits. */
  ghost predicate UpdatesFrom(cfg: Config, s: Table, op: Op, locked: string, t: Table)
    requires op.Update?
  {
    && Plannable(op.steps) && Finds(s, locked, op.tenant, op.name, op.base, true)
    && var row := NewRow(op.tenant, op.name, op.base + 1, op.steps);
    && Inserts(cfg, s, op.id, row, s[op.id := row]) && t == SetCurrent(s[op.id := row], locked, false) && OneCurrent(t)
  }

  ghost predicate RollsBack(cfg: Config, s: Table, op: Op, from: string, to: string, t: Table)
    requires op.Rollback?
  {
    && Finds(s, from, op.tenant, op.name, op.base, true)
    && Finds(s, to, op.tenant, op.name, op.target, !cfg.targetNotCurrent)
    && t == SetCurrent(SetCurrent(s, from, false), to, true) && OneCurrent(t)
  }

  /** The operation commits and takes the table from `s` to `t`. */
  ghost predicate Committed(cfg: Config, s: Table, op: Op, t: Table) {
    match op
    case Create(id, tenant, name, steps) =>
      Plannable(steps) && Inserts(cfg, s, id, NewRow(tenant, name, 1, steps), t) && OneCurrent(t)
    case Update(_, _, _, _, _) => exists locked :: UpdatesFrom(cfg, s, op, locked, t)
    case Rollback(_, _, _, _) => exists from, to :: RollsBack(cfg, s, op, from, to, t)
    case Delete(tenant, name) => (exists id :: id in s && InFamily(s[id], tenant, name)) && t == Deactivated(s, tenant, name)
  }

  // ---- What every run keeps --------------------------------------------------------------------

  /** A version below another one of the same workflow. */
  predicate Precedes(rows: Table, j: string, i: string) {
    i in rows && j in rows && SameFamily(rows[j], rows[i]) && rows[j].version == rows[i].version - 1
  }

  predicate CurrentFor(rows: Table, j: string, i: string) {
    i in rows && j in rows && SameFamily(rows[j], rows[i]) && rows[j].current
  }

  predicate SameVersion(rows: Table, i: string, j: string) {
    i in rows && j in rows && SameFamily(rows[i], rows[j]) && rows[i].version == rows[j].version
  }

  ghost predicate HasPredecessor(rows: Table, i: string)
    requires i in rows
  {
    rows[i].version >= 1 && (rows[i].version > 1 ==> exists j :: Precedes(rows, j, i))
  }

  ghost predicate HasCurrent(rows: Table, i: string) {
    exists j :: CurrentFor(rows, j, i)
  }

  ghost predicate HasPlan(rows: Table, i: string)
    requires i in rows
  {
    Plannable(rows[i].steps)
  }

  ghost predicate DistinctVersions(rows: Table) {
    forall i, j :: SameVersion(rows, i, j) ==> i == j
  }

  /** Versions of one workflow are distinct, start at 1 without gaps, exactly one is current, and all can be planned. */
  ghost predicate Ok(rows: Table) {
    && DistinctVersions(rows)
    && (forall i {:trigger HasPredecessor(rows, i)} :: i in rows ==> HasPredecessor(rows, i))
    && OneCurrent(rows)
    && (forall i {:trigger HasCurrent(rows, i)} :: i in rows ==> HasCurrent(rows, i))
    && (forall i {:trigger HasPlan(rows, i)} :: i in rows ==> HasPlan(rows, i))
  }

  /** The definition under an id. */
  predicate SameDefinition(s: Table, t: Table, i: string) {
    i in s && i in t && SameFamily(s[i], t[i]) && s[i].version == t[i].version && s[i].steps == t[i].steps
  }

  /** Rows are never removed, and no definition changes under its id. */
  lemma DefinitionsStay(cfg: Config, s: Table, op: Op, t: Table, i: string)
    requires Committed(cfg, s, op, t) && i in s
    ensures SameDefinition(s, t, i)
  {}

  /** The one row an operation adds. */
  predicate Adds(op: Op, id: string) {
    (op.Create? || op.Update?) && op.id == id
  }

  lemma OnlyNewRow(cfg: Config, s: Table, op: Op, t: Table, i: string)
    requires Committed(cfg, s, op, t) && i in t && i !in s
    ensures Adds(op, i) && Plannable(op.steps)
    ensures t[i] == NewRow(op.tenant, op.name, if op.Create? then 1 else op.base + 1, op.steps)
    ensures forall j :: !Conflicts(s, j, t[i])
  {}

  lemma NewVersionIsFree(cfg: Config, s: Table, op: Op, t: Table, i: string, j: string)
    requires Committed(cfg, s, op, t) && i in s && j in t && j !in s
    ensures !SameVersion(t, i, j) && !SameVersion(t, j, i)
  {
    DefinitionsStay(cfg, s, op, t, i);
    OnlyNewRow(cfg, s, op, t, j);
    assert !Conflicts(s, i, t[j]);
  }

  lemma VersionsStayDistinct(cfg: Config, s: Table, op: Op, t: Table, i: string, j: string)
    requires Ok(s) && Committed(cfg, s, op, t) && SameVersion(t, i, j)
    ensures i == j
  {
    if i in s && j in s {
      DefinitionsStay(cfg, s, op, t, i);
      DefinitionsStay(cfg, s, op, t, j);
      assert SameVersion(s, i, j);
    } else if i in s {
      NewVersionIsFree(cfg, s, op, t, i, j);
    } else if j in s {
      NewVersionIsFree(cfg, s, op, t, j, i);
    } else {
      OnlyNewRow(cfg, s, op, t, i);
      OnlyNewRow(cfg, s, op, t, j);
    }
  }

  lemma NoGapAppears(cfg: Config, s: Table, op: Op, t: Table, i: string)
    requires Ok(s) && Committed(cfg, s, op, t) && i in t
    ensures HasPredecessor(t, i)
  {
    if i in s {
      assert HasPredecessor(s, i);
      DefinitionsStay(cfg, s, op, t, i);
      if s[i].version > 1 {
        var j :| Precedes(s, j, i);
        DefinitionsStay(cfg, s, op, t, j);
        assert Precedes(t, j, i);
      }
    } else {
      OnlyNewRow(cfg, s, op, t, i);
      if op.Update? {
        var locked :| UpdatesFrom(cfg, s, op, locked, t);
        DefinitionsStay(cfg, s, op, t, locked);
        assert HasPredecessor(s, locked) && Precedes(t, locked, i);
      }
    }
  }

  lemma PlansStay(cfg: Config, s: Table, op: Op, t: Table, i: string)
    requires Ok(s) && Committed(cfg, s, op, t) && i in t
    ensures HasPlan(t, i)
  {
    assert i in s ==> HasPlan(s, i);
    if i in s { DefinitionsStay(cfg, s, op, t, i); } else { OnlyNewRow(cfg, s, op, t, i); }
  }

  lemma CurrentStays(cfg: Config, s: Table, op: Op, t: Table, i: string)
    requires Ok(s) && Committed(cfg, s, op, t) && i in t
    ensures HasCurrent(t, i)
  {
    if i !in s {
      OnlyNewRow(cfg, s, op, t, i);
      if op.Update? { UpdateMovesCurrent(cfg, s, op, t, i); } else { assert CurrentFor(t, i, i); }
    } else {
      assert HasCurrent(s, i);
      var j :| CurrentFor(s, j, i);
      SuccessorIsCurrent(cfg, s, op, t, i, j);
    }
  }

  /** If `j` was current, then after the operation `j` is, or the row that replaced it. */
  lemma SuccessorIsCurrent(cfg: Config, s: Table, op: Op, t: Table, i: string, j: string)
    requires Committed(cfg, s, op, t) && CurrentFor(s, j, i)
    ensures HasCurrent(t, i)
  {
    DefinitionsStay(cfg, s, op, t, i);
    DefinitionsStay(cfg, s, op, t, j);
    if t[j].current {
      assert CurrentFor(t, j, i);
    } else if op.Update? {
      UpdateMovesCurrent(cfg, s, op, t, op.id);
      assert CurrentFor(t, op.id, i);
    } else {
      RollbackMovesCurrent(cfg, s, op, t, i, j);
    }
  }

  lemma RollbackMovesCurrent(cfg: Config, s: Table, op: Op, t: Table, i: string, j: string)
    requires op.Rollback? && Committed(cfg, s, op, t) && CurrentFor(s, j, i) && j in t && !t[j].current
    ensures HasCurrent(t, i)
  {
    var from, to :| RollsBack(cfg, s, op, from, to, t);
    assert CurrentFor(t, to, i);
  }

  lemma UpdateMovesCurrent(cfg: Config, s: Table, op: Op, t: Table, i: string)
    requires op.Update? && Committed(cfg, s, op, t) && i == op.id
    ensures CurrentFor(t, i, i) && HasCurrent(t, i)
    ensures t[i] == NewRow(op.tenant, op.name, op.base + 1, op.steps)
  {
    assert CurrentFor(t, i, i);
  }

  lemma OneCurrentStays(cfg: Config, s: Table, op: Op, t: Table)
    requires OneCurrent(s) && Committed(cfg, s, op, t)
    ensures OneCurrent(t)
  {
    if op.Delete? {
      forall i, j | BothCurrent(t, i, j) ensures i == j { assert BothCurrent(s, i, j); }
    }
  }

  /** Every committed operation keeps versions exactly 1..n, one current row per workflow, and plannable definitions. */
  lemma OkStays(cfg: Config, s: Table, op: Op, t: Table)
    requires Ok(s) && Committed(cfg, s, op, t)
    ensures Ok(t)
  {
    forall i, j | SameVersion(t, i, j) ensures i == j { VersionsStayDistinct(cfg, s, op, t, i, j); }
    forall i | i in t ensures HasPredecessor(t, i) { NoGapAppears(cfg, s, op, t, i); }
    forall i | i in t ensures HasCurrent(t, i) { CurrentStays(cfg, s, op, t, i); }
    forall i | i in t ensures HasPlan(t, i) { PlansStay(cfg, s, op, t, i); }
    OneCurrentStays(cfg, s, op, t);
  }

  // ---- Versions are 1..n -----------------------------------------------------------------------

  function Family(rows: Table, tenant: string, name: string): set<string> {
    set id | id in rows && InFamily(rows[id], tenant, name)
  }

  function VersionSet(rows: Table, ids: set<string>): set<int>
    requires ids <= rows.Keys
  {
    set id | id in ids :: rows[id].version
  }

  /** Every version below a stored one is stored too. */
  lemma {:induction false} LowerVersion(rows: Table, i: string, v: int) returns (j: string)
    requires Ok(rows) && i in rows && 1 <= v <= rows[i].version
    ensures j in rows && SameFamily(rows[j], rows[i]) && rows[j].version == v
    decreases rows[i].version - v
  {
    if rows[i].version == v {
      j := i;
    } else {
      assert HasPredecessor(rows, i);
      var k :| Precedes(rows, k, i);
      j := LowerVersion(rows, k, v);
    }
  }

  lemma {:induction false} Newest(rows: Table, ids: set<string>) returns (top: string)
    requires ids <= rows.Keys && ids != {}
    ensures top in ids && forall i :: i in ids ==> rows[i].version <= rows[top].version
  {
    var i :| i in ids;
    if ids == {i} {
      top := i;
    } else {
      var rest := Newest(rows, ids - {i});
      top := if rows[i].version < rows[rest].version then rest else i;
    }
  }

  function OneTo(n: nat): (r: set<int>)
    ensures forall v :: v in r <==> 1 <= v <= n
    ensures |r| == n
  {
    if n == 0 then {} else OneTo(n - 1) + {n}
  }

  lemma {:induction false} AsManyVersions(rows: Table, ids: set<string>, tenant: string, name: string)
    requires DistinctVersions(rows) && ids <= Family(rows, tenant, name)
    ensures |VersionSet(rows, ids)| == |ids|
  {
    if ids == {} {
    } else {
      var i :| i in ids;
      AsManyVersions(rows, ids - {i}, tenant, name);
      VersionIsNew(rows, ids - {i}, i, tenant, name);
      assert VersionSet(rows, ids) == VersionSet(rows, ids - {i}) + {rows[i].version};
    }
  }

  lemma VersionIsNew(rows: Table, ids: set<string>, i: string, tenant: string, name: string)
    requires DistinctVersions(rows) && ids <= Family(rows, tenant, name) && i in Family(rows, tenant, name) && i !in ids
    ensures rows[i].version !in VersionSet(rows, ids)
  {
    if j :| j in ids && rows[j].version == rows[i].version {
      assert SameVersion(rows, j, i);
    }
  }

  lemma VersionsUpTo(rows: Table, tenant: string, name: string, top: string)
    requires Ok(rows) && top in Family(rows, tenant, name) && NothingNewer(rows, tenant, name, rows[top].version)
    ensures rows[top].version >= 0 && VersionSet(rows, Family(rows, tenant, name)) == OneTo(rows[top].version)
  {
    var ids, n := Family(rows, tenant, name), rows[top].version;
    assert HasPredecessor(rows, top);
    forall v | 1 <= v <= n ensures v in VersionSet(rows, ids) {
      var j := LowerVersion(rows, top, v);
      assert j in ids;
    }
    forall v | v in VersionSet(rows, ids) ensures 1 <= v <= n {
      var i :| i in ids && rows[i].version == v;
      assert HasPredecessor(rows, i);
    }
  }

  /** The stored versions of a workflow are exactly 1..n, one row each. */
  lemma VersionsAreOneToN(rows: Table, tenant: string, name: string)
    requires Ok(rows)
    ensures var ids := Family(rows, tenant, name); VersionSet(rows, ids) == OneTo(|ids|)
  {
    var ids := Family(rows, tenant, name);
    AsManyVersions(rows, ids, tenant, name);
    if ids != {} {
      var top := Newest(rows, ids);
      VersionsUpTo(rows, tenant, name, top);
    }
  }

  // ---- When operations commit ------------------------------------------------------------------

  ghost predicate IsBase(rows: Table, tenant: string, name: string, base: int) {
    exists id :: Finds(rows, id, tenant, name, base, true)
  }

  ghost predicate NothingNewer(rows: Table, tenant: string, name: string, base: int) {
    forall id :: id in rows && InFamily(rows[id], tenant, name) ==> rows[id].version <= base
  }

  /** Moving the current mark from the current row of a workflow to another of its rows. */
  lemma MarkMoves(s: Table, t: Table, from: string, to: string)
    requires OneCurrent(s) && from in s && s[from].current && from != to && to in t && SameFamily(t[to], s[from])
    requires from in t && !t[from].current
    requires forall i :: i in t && i != from && i != to ==> i in s && t[i] == s[i]
    ensures OneCurrent(t)
  {
    forall i, j | BothCurrent(t, i, j) ensures i == j {
      assert i != to && j != to ==> BothCurrent(s, i, j);
      assert i != to && j == to ==> BothCurrent(s, i, from);
      assert j != to && i == to ==> BothCurrent(s, from, j);
    }
  }

  lemma UpdateNeedsNewest(cfg: Config, s: Table, op: Op, locked: string, t: Table)
    requires Ok(s) && op.Update? && UpdatesFrom(cfg, s, op, locked, t)
    ensures NothingNewer(s, op.tenant, op.name, op.base)
  {
    assert HasPredecessor(s, locked);
    forall i | i in s && InFamily(s[i], op.tenant, op.name) ensures s[i].version <= op.base {
      if s[i].version > op.base {
        var j := LowerVersion(s, i, op.base + 1);
        assert Conflicts(s, j, NewRow(op.tenant, op.name, op.base + 1, op.steps));
      }
    }
  }

  lemma NewestUpdates(cfg: Config, s: Table, op: Op, locked: string)
    requires OneCurrent(s) && cfg.checkAtCommit && op.Update? && op.id !in s && Plannable(op.steps)
    requires Finds(s, locked, op.tenant, op.name, op.base, true) && NothingNewer(s, op.tenant, op.name, op.base)
    ensures UpdatesFrom(cfg, s, op, locked, SetCurrent(s[op.id := NewRow(op.tenant, op.name, op.base + 1, op.steps)], locked, false))
  {
    var row := NewRow(op.tenant, op.name, op.base + 1, op.steps);
    MarkMoves(s, SetCurrent(s[op.id := row], locked, false), locked, op.id);
  }

  /**
   * With the index checked at commit, an update commits exactly when its definition can be planned and its base is the
   * current, active and newest version.
   */
  lemma UpdateCommitsIff(cfg: Config, s: Table, op: Op)
    requires Ok(s) && cfg.checkAtCommit && op.Update? && op.id !in s
    ensures (exists t :: Committed(cfg, s, op, t)) <==> UpdateReady(s, op)
  {
    if t, locked :| UpdatesFrom(cfg, s, op, locked, t) {
      UpdateNeedsNewest(cfg, s, op, locked, t);
    }
    if UpdateReady(s, op) {
      var locked :| Finds(s, locked, op.tenant, op.name, op.base, true);
      NewestUpdates(cfg, s, op, locked);
      assert Committed(cfg, s, op, SetCurrent(s[op.id := NewRow(op.tenant, op.name, op.base + 1, op.steps)], locked, false));
    }
  }

  ghost predicate UpdateReady(s: Table, op: Op)
    requires op.Update?
  {
    && Plannable(op.steps) && IsBase(s, op.tenant, op.name, op.base) && NothingNewer(s, op.tenant, op.name, op.base)
  }

  /** With the index checked after each statement, as an ordinary unique index is, no update ever commits. */
  lemma ImmediateIndexBlocksUpdates(cfg: Config, s: Table, op: Op, t: Table)
    requires !cfg.checkAtCommit && op.Update?
    ensures !Committed(cfg, s, op, t)
  {
    if Committed(cfg, s, op, t) {
      var locked :| UpdatesFrom(cfg, s, op, locked, t);
      var row := NewRow(op.tenant, op.name, op.base + 1, op.steps);
      assert BothCurrent(s[op.id := row], locked, op.id);
    }
  }

  ghost predicate IsTarget(rows: Table, tenant: string, name: string, version: int) {
    exists id :: Finds(rows, id, tenant, name, version, false)
  }

  lemma CurrentTargetIsBase(cfg: Config, s: Table, op: Op, from: string, to: string, t: Table)
    requires OneCurrent(s) && !cfg.targetNotCurrent && op.Rollback? && RollsBack(cfg, s, op, from, to, t)
    ensures t == s && op.base == op.target
  {
    assert BothCurrent(s, from, to);
  }

  /** A rollback that asks for a current target can only name the version that is current, and changes nothing. */
  lemma RollbackToCurrentIsIdle(cfg: Config, s: Table, op: Op, t: Table)
    requires OneCurrent(s) && !cfg.targetNotCurrent && op.Rollback?
    ensures Committed(cfg, s, op, t) <==> t == s && op.base == op.target && IsBase(s, op.tenant, op.name, op.base)
  {
    if from, to :| RollsBack(cfg, s, op, from, to, t) {
      CurrentTargetIsBase(cfg, s, op, from, to, t);
    }
    if id :| t == s && op.base == op.target && Finds(s, id, op.tenant, op.name, op.base, true) {
      assert SetCurrent(SetCurrent(s, id, false), id, true) == s;
      assert RollsBack(cfg, s, op, id, id, t);
    }
  }

  lemma RollbackMoves(cfg: Config, s: Table, op: Op, from: string, to: string)
    requires OneCurrent(s) && cfg.targetNotCurrent && op.Rollback?
    requires Finds(s, from, op.tenant, op.name, op.base, true) && Finds(s, to, op.tenant, op.name, op.target, false)
    ensures RollsBack(cfg, s, op, from, to, SetCurrent(SetCurrent(s, from, false), to, true))
  {
    MarkMoves(s, SetCurrent(SetCurrent(s, from, false), to, true), from, to);
  }

  /** A rollback as meant commits exactly from the current version to an active one that is not current. */
  lemma RollbackCommitsIff(cfg: Config, s: Table, op: Op)
    requires OneCurrent(s) && cfg.targetNotCurrent && op.Rollback?
    ensures (exists t :: Committed(cfg, s, op, t))
      <==> IsBase(s, op.tenant, op.name, op.base) && IsTarget(s, op.tenant, op.name, op.target)
  {
    if from, to :| Finds(s, from, op.tenant, op.name, op.base, true) && Finds(s, to, op.tenant, op.name, op.target, false) {
      RollbackMoves(cfg, s, op, from, to);
      assert Committed(cfg, s, op, SetCurrent(SetCurrent(s, from, false), to, true));
    }
  }

  /** After it the target is the current version and the base is not, so the two may be exchanged back. */
  lemma RollbackExchanges(cfg: Config, s: Table, op: Op, t: Table)
    requires OneCurrent(s) && cfg.targetNotCurrent && op.Rollback? && Committed(cfg, s, op, t)
    ensures Committed(cfg, t, Rollback(op.tenant, op.name, op.target, op.base), s)
  {
    var from, to :| RollsBack(cfg, s, op, from, to, t);
    assert SetCurrent(SetCurrent(t, to, false), from, true) == s;
    assert RollsBack(cfg, t, Rollback(op.tenant, op.name, op.target, op.base), to, from, s);
  }

  /** After an update the base is no longer current, so a lookup by its id alone, which asks for current rows, misses it. */
  lemma UpdateHidesBase(cfg: Config, s: Table, op: Op, t: Table, id: string)
    requires OneCurrent(s) && op.Update? && Committed(cfg, s, op, t) && id in s && s[id].current && InFamily(s[id], op.tenant, op.name)
    ensures id in t && !t[id].current
  {
    var locked :| UpdatesFrom(cfg, s, op, locked, t);
    assert BothCurrent(s, id, locked);
  }

  // ---- Whole histories -------------------------------------------------------------------------

  /** Operations in the order in which they end; one that fails changes nothing. */
  ghost predicate History(cfg: Config, tables: seq<Table>, ops: seq<Op>) {
    && |tables| == |ops| + 1 && tables[0] == map[]
    && (forall i :: 0 <= i < |ops| ==> Ends(cfg, tables, ops, i))
  }

  ghost predicate Ends(cfg: Config, tables: seq<Table>, ops: seq<Op>, i: nat)
    requires |tables| == |ops| + 1 && i < |ops|
  {
    tables[i + 1] == tables[i] || Committed(cfg, tables[i], ops[i], tables[i + 1])
  }

  lemma {:induction false} OkAlways(cfg: Config, tables: seq<Table>, ops: seq<Op>, i: nat)
    requires History(cfg, tables, ops) && i < |tables|
    ensures Ok(tables[i])
  {
    if i == 0 {
    } else {
      OkAlways(cfg, tables, ops, i - 1);
      assert Ends(cfg, tables, ops, i - 1);
      if tables[i] != tables[i - 1] {
        OkStays(cfg, tables[i - 1], ops[i - 1], tables[i]);
      }
    }
  }

  lemma EndsKeeps(cfg: Config, tables: seq<Table>, ops: seq<Op>, i: nat, id: string)
    requires |tables| == |ops| + 1 && i < |ops| && Ends(cfg, tables, ops, i) && id in tables[i]
    ensures SameDefinition(tables[i], tables[i + 1], id)
  {
    if tables[i] != tables[i + 1] {
      DefinitionsStay(cfg, tables[i], ops[i], tables[i + 1], id);
    }
  }

  /** What is stored under an id never changes. */
  lemma {:induction false} DefinitionsAreForever(cfg: Config, tables: seq<Table>, ops: seq<Op>, i: nat, j: nat, id: string)
    requires History(cfg, tables, ops) && i <= j < |tables| && id in tables[i]
    ensures SameDefinition(tables[i], tables[j], id)
  {
    if i == j {
    } else {
      DefinitionsAreForever(cfg, tables, ops, i, j - 1, id);
      EndsKeeps(cfg, tables, ops, j - 1, id);
    }
  }

  /** Of the updates that name the same base version of a workflow, at most one ever commits. */
  lemma OneUpdatePerBase(cfg: Config, tables: seq<Table>, ops: seq<Op>, i: nat, j: nat)
    requires History(cfg, tables, ops) && i < j < |ops| && ops[i].Update? && ops[j].Update?
    requires ops[i].tenant == ops[j].tenant && ops[i].name == ops[j].name && ops[i].base == ops[j].base
    requires Committed(cfg, tables[i], ops[i], tables[i + 1])
    ensures !Committed(cfg, tables[j], ops[j], tables[j + 1])
  {
    UpdateMovesCurrent(cfg, tables[i], ops[i], tables[i + 1], ops[i].id);
    DefinitionsAreForever(cfg, tables, ops, i + 1, j, ops[i].id);
    assert Conflicts(tables[j], ops[i].id, NewRow(ops[j].tenant, ops[j].name, ops[j].base + 1, ops[j].steps));
  }
}
