/** Create, Update, Rollback, Delete, CreateFromText and Trigger over the workflow, execution and step tables. */
module WorkflowService {
  import opened Common
  import opened WorkflowModel
  import opened Dag
  import opened Planner
  import opened Versions
  import opened VersionEffects

  datatype ServiceError =
    | InvalidPlan(plan: PlanError)
    | InvalidStep
    | Conflicting
    | NotFound
    | NotConfigured
    | NotGenerated
    | Database
    | NotEnqueued

  /** A pending execution, and the records of its steps. */
  datatype Execution = Execution(workflow: string, tenant: string, version: int)

  datatype StepRecord = StepRecord(execution: string, step: string, action: string, version: int, retryCount: int)

  /** The records of a run, one per step definition, in order. */
  function RecordsFor(execution: string, steps: seq<StepDef>): (r: seq<StepRecord>)
    ensures |r| == |steps|
    ensures forall i :: 0 <= i < |steps| ==> r[i] == StepRecord(execution, steps[i].id, steps[i].action, 1, 0)
  {
    if steps == [] then [] else RecordsFor(execution, steps[..|steps| - 1]) + [StepRecord(execution, steps[|steps| - 1].id, steps[|steps| - 1].action, 1, 0)]
  }

  /** What `validateDAG` asks for besides a plan. */
  predicate Named(steps: seq<StepDef>) {
    forall i :: 0 <= i < |steps| ==> steps[i].id != "" && steps[i].action != ""
  }

  class Transaction {
    var rows: Table
    const cfg: Config

    constructor (cfg: Config, rows: Table)
      ensures this.cfg == cfg && this.rows == rows
    {
      this.cfg := cfg;
      this.rows := rows;
    }

    /** An insert is refused for a version that is taken and, unless the index waits for the commit, a second current row. */
    method Insert(id: string, row: Row) returns (ok: bool)
      requires id !in rows
      modifies this`rows
      ensures ok <==> Inserts(cfg, old(rows), id, row, old(rows)[id := row])
      ensures rows == if ok then old(rows)[id := row] else old(rows)
    {
      var free := forall i | i in rows :: !Conflicts(rows, i, row);
      if !free {
        return false;
      }
      if !cfg.checkAtCommit {
        var single := CheckIndex(rows[id := row]);
        if !single {
          return false;
        }
      }
      rows := rows[id := row];
      ok := true;
    }

    method CheckIndex(table: Table) returns (single: bool)
      ensures single <==> OneCurrent(table)
    {
      single := forall i, j | i in table && j in table :: BothCurrent(table, i, j) ==> i == j;
      assert OneCurrent(table) <==> forall i, j | i in table && j in table :: BothCurrent(table, i, j) ==> i == j;
    }

    method GetForUpdate(tenant: string, name: string, version: int, current: bool) returns (found: Option<string>)
      ensures found.Some? ==> Finds(rows, found.value, tenant, name, version, current)
      ensures found.None? ==> forall id :: !Finds(rows, id, tenant, name, version, current)
    {
      var matching := set id | id in rows && Finds(rows, id, tenant, name, version, current);
      if matching == {} {
        assert forall id :: Finds(rows, id, tenant, name, version, current) ==> id in matching;
        return None;
      }
      var id :| id in matching;
      found := Some(id);
    }

    method Mark(id: string, current: bool)
      modifies this`rows
      ensures rows == SetCurrent(old(rows), id, current)
    {
      if id in rows {
        rows := rows[id := rows[id].(current := current)];
      }
    }
  }

  // ---- Step records ----------------------------------------------------------------------------

  /** The records of one execution, in the order in which they were written. */
  function RecordsOf(records: seq<StepRecord>, execution: string): seq<StepRecord> {
    if records == [] then []
    else
      var last := records[|records| - 1];
      RecordsOf(records[..|records| - 1], execution) + if last.execution == execution then [last] else []
  }

  lemma {:induction false} RecordsAppend(a: seq<StepRecord>, b: seq<StepRecord>, execution: string)
    ensures RecordsOf(a + b, execution) == RecordsOf(a, execution) + RecordsOf(b, execution)
  {
    if b == [] {
      assert a + b == a;
    } else {
      assert (a + b)[..|a + b| - 1] == a + b[..|b| - 1];
      RecordsAppend(a, b[..|b| - 1], execution);
    }
  }

  lemma {:induction false} AllOf(records: seq<StepRecord>, execution: string)
    requires forall i :: 0 <= i < |records| ==> records[i].execution == execution
    ensures RecordsOf(records, execution) == records
  {
    if records == [] {
    } else {
      AllOf(records[..|records| - 1], execution);
      assert records == records[..|records| - 1] + [records[|records| - 1]];
    }
  }

  lemma {:induction false} NoneOf(records: seq<StepRecord>, execution: string)
    requires forall i :: 0 <= i < |records| ==> records[i].execution != execution
    ensures RecordsOf(records, execution) == []
  {
    if records == [] {
    } else {
      NoneOf(records[..|records| - 1], execution);
    }
  }

  predicate IsRecordOf(records: seq<StepRecord>, k: nat, execution: string, step: string) {
    k < |records| && records[k].execution == execution && records[k].step == step
  }

  /** What `Trigger` writes names each step definition in exactly one record. */
  lemma OneRecordPerStep(steps: seq<StepDef>, execution: string, s: StepDef)
    requires Plannable(steps) && s in steps
    ensures exists k :: IsRecordOf(RecordsFor(execution, steps), k, execution, s.id)
    ensures var r := RecordsFor(execution, steps);
      forall j, k :: IsRecordOf(r, j, execution, s.id) && IsRecordOf(r, k, execution, s.id) ==> j == k
  {
    var i :| 0 <= i < |steps| && steps[i] == s;
    assert IsRecordOf(RecordsFor(execution, steps), i, execution, s.id);
  }

  /** An execution belongs to a stored workflow and has exactly its step records. */
  predicate ExecutionOk(rows: Table, executions: map<string, Execution>, records: seq<StepRecord>, e: string)
    requires e in executions
  {
    && executions[e].workflow in rows
    && RecordsOf(records, e) == RecordsFor(e, rows[executions[e].workflow].steps)
  }

  predicate ExecutionsOk(rows: Table, executions: map<string, Execution>, records: seq<StepRecord>) {
    && (forall e {:trigger ExecutionOk(rows, executions, records, e)} ::
          e in executions ==> ExecutionOk(rows, executions, records, e))
    && (forall k :: 0 <= k < |records| ==> records[k].execution in executions)
  }

  lemma ExecutionsKept(rows: Table, after: Table, executions: map<string, Execution>, records: seq<StepRecord>)
    requires ExecutionsOk(rows, executions, records) && forall i :: i in rows ==> SameDefinition(rows, after, i)
    ensures ExecutionsOk(after, executions, records)
  {
    forall e | e in executions ensures ExecutionOk(after, executions, records, e) {
      assert ExecutionOk(rows, executions, records, e);
      assert SameDefinition(rows, after, executions[e].workflow);
    }
  }

  /** A new execution and its records leave those of the others alone. */
  lemma ExecutionAdded(rows: Table, executions: map<string, Execution>, records: seq<StepRecord>, e: string, x: Execution)
    requires ExecutionsOk(rows, executions, records) && e !in executions && x.workflow in rows
    ensures ExecutionsOk(rows, executions[e := x], records + RecordsFor(e, rows[x.workflow].steps))
  {
    var added := RecordsFor(e, rows[x.workflow].steps);
    var more := executions[e := x];
    forall d | d in more ensures ExecutionOk(rows, more, records + added, d) {
      RecordsAppend(records, added, d);
      if d == e {
        NoneOf(records, e);
        AllOf(added, e);
      } else {
        assert ExecutionOk(rows, executions, records, d);
        NoneOf(added, d);
      }
    }
  }

  // ---- The service -----------------------------------------------------------------------------

  /** A generated step list that is accepted. */
  ghost predicate Usable(answer: Option<seq<StepDef>>) {
    answer.Some? && Named(answer.value) && Plannable(answer.value)
  }

  ghost predicate FirstUsable(answers: seq<Option<seq<StepDef>>>, k: nat) {
    k < |answers| && Usable(answers[k]) && forall j :: 0 <= j < k ==> !Usable(answers[j])
  }

  /** No answer, one without a plan, or one with a step that has no id or no action. */
  ghost predicate Rejected(answer: Option<seq<StepDef>>) {
    answer.Some? ==> !Plannable(answer.value) || exists s :: s in answer.value && (s.id == "" || s.action == "")
  }

  lemma RejectedIff(answer: Option<seq<StepDef>>)
    ensures Rejected(answer) <==> !Usable(answer)
  {
    if answer.Some? {
      var steps := answer.value;
      assert Named(steps) <==> forall s :: s in steps ==> s.id != "" && s.action != "";
    }
  }

  lemma OneFirstUsable(answers: seq<Option<seq<StepDef>>>, j: nat, k: nat)
    requires FirstUsable(answers, j) && FirstUsable(answers, k)
    ensures j == k
  {}

  /** The workflow can be triggered: it is stored, current, and of the tenant. */
  predicate Triggerable(rows: Table, workflow: string, tenant: string) {
    workflow in rows && rows[workflow].current && rows[workflow].tenant == tenant
  }

  /** The database fails one of the calls that write the execution and `n` step records, or their commit. */
  predicate DbRefuses(n: nat, failAt: Option<nat>, commitFails: bool) {
    commitFails || (failAt.Some? && failAt.value <= n)
  }

  ghost predicate CreatedFrom(
    cfg: Config, before: Table, id: string, tenant: string, name: string, answer: Option<seq<StepDef>>, after: Table)
  {
    answer.Some? && Committed(cfg, before, Op.Create(id, tenant, name, answer.value), after)
  }

  const ATTEMPTS := 3

  class Workflows {
    const cfg: Config
    var rows: Table
    var executions: map<string, Execution>
    var records: seq<StepRecord>
    var queue: seq<string>

    ghost predicate Valid()
      reads this
    {
      Ok(rows) && ExecutionsOk(rows, executions, records)
    }

    constructor (cfg: Config)
      ensures Valid() && this.cfg == cfg && rows == map[] && executions == map[] && records == [] && queue == []
    {
      this.cfg := cfg;
      rows, executions, records, queue := map[], map[], [], [];
    }

    /** Takes over what a transaction has done, unless the database or the index of current rows refuses. */
    method Commit(tx: Transaction, dbFails: bool) returns (ok: bool)
      modifies this`rows
      ensures ok <==> !dbFails && OneCurrent(tx.rows)
      ensures rows == if ok then tx.rows else old(rows)
    {
      var single := tx.CheckIndex(tx.rows);
      if dbFails || !single {
        return false;
      }
      rows := tx.rows;
      ok := true;
    }

    /** What a committed operation on the workflow table preserves. */
    ghost method Preserve(op: Op, before: Table)
      requires Ok(before) && ExecutionsOk(before, executions, records) && Committed(cfg, before, op, rows)
      ensures Valid()
    {
      OkStays(cfg, before, op, rows);
      forall i | i in before ensures SameDefinition(before, rows, i) { DefinitionsStay(cfg, before, op, rows, i); }
      ExecutionsKept(before, rows, executions, records);
    }

    method Create(id: string, tenant: string, name: string, steps: seq<StepDef>, dbFails: bool)
      returns (r: Result<string, ServiceError>)
      requires Valid() && id !in rows
      modifies this`rows
      ensures Valid()
      ensures r.Success? ==> r.value == id && Committed(cfg, old(rows), Op.Create(id, tenant, name, steps), rows)
      ensures r.Success? ==> rows == old(rows)[id := Row(tenant, name, 1, true, true, steps)]
      ensures r.Failure? ==> rows == old(rows)
      ensures r.Failure? && !dbFails ==> forall t :: !Committed(cfg, old(rows), Op.Create(id, tenant, name, steps), t)
      ensures !Plannable(steps) ==> r.Failure? && r.error.InvalidPlan? && IsPlanError(steps, r.error.plan)
    {
      var plan := BuildExecutionPlan(steps);
      if plan.Failure? {
        return Failure(InvalidPlan(plan.error));
      }
      ghost var before := rows;
      var ok := InsertOne(id, tenant, name, steps, dbFails);
      if !ok {
        return Failure(if dbFails then Database else Conflicting);
      }
      Preserve(Op.Create(id, tenant, name, steps), before);
      CreateSays(cfg, before, Op.Create(id, tenant, name, steps), rows);
      assert rows == before[id := Row(tenant, name, 1, true, true, steps)];
      r := Success(id);
    }

    /** The insert of a first version, outside any larger transaction. */
    method InsertOne(id: string, tenant: string, name: string, steps: seq<StepDef>, dbFails: bool) returns (ok: bool)
      requires id !in rows && Plannable(steps)
      modifies this`rows
      ensures ok ==> Committed(cfg, old(rows), Op.Create(id, tenant, name, steps), rows)
      ensures !ok ==> rows == old(rows)
      ensures !ok && !dbFails ==> forall t :: !Committed(cfg, old(rows), Op.Create(id, tenant, name, steps), t)
    {
      var tx := new Transaction(cfg, rows);
      ok := tx.Insert(id, NewRow(tenant, name, 1, steps));
      if ok {
        ok := Commit(tx, dbFails);
      }
    }
  
    method Update(id: string, tenant: string, name: string, base: int, steps: seq<StepDef>, dbFails: bool)
      returns (r: Result<(), ServiceError>)
      requires Valid() && id !in rows
      modifies this`rows
      ensures Valid()
      ensures r.Success? ==> Committed(cfg, old(rows), Op.Update(id, tenant, name, base, steps), rows)
      ensures r.Success? ==> rows.Keys == old(rows).Keys + {id} && rows[id] == Row(tenant, name, base + 1, true, true, steps)
      ensures r.Success? ==> forall i :: i in old(rows) ==>
        rows[i] == if Is(old(rows)[i], tenant, name, base) then Marked(old(rows)[i], false, old(rows)[i].active) else old(rows)[i]
      ensures r.Failure? ==> rows == old(rows)
      ensures r.Failure? && !dbFails ==> forall t :: !Committed(cfg, old(rows), Op.Update(id, tenant, name, base, steps), t)
      ensures !Plannable(steps) ==> r.Failure? && r.error.InvalidPlan? && IsPlanError(steps, r.error.plan)
    {
      var plan := BuildExecutionPlan(steps);
      if plan.Failure? {
        return Failure(InvalidPlan(plan.error));
      }
      ghost var before := rows;
      var ok := Replace(id, tenant, name, base, steps, dbFails);
      if !ok {
        return Failure(if dbFails then Database else Conflicting);
      }
      Preserve(Op.Update(id, tenant, name, base, steps), before);
      UpdateSays(cfg, before, Op.Update(id, tenant, name, base, steps), rows);
      r := Success(());
    }

    /** The transaction of an update: lock the base, insert its successor, clear the base's mark. */
    method Replace(id: string, tenant: string, name: string, base: int, steps: seq<StepDef>, dbFails: bool)
      returns (ok: bool)
      requires id !in rows && OneCurrent(rows) && Plannable(steps)
      modifies this`rows
      ensures ok ==> Committed(cfg, old(rows), Op.Update(id, tenant, name, base, steps), rows)
      ensures !ok ==> rows == old(rows)
      ensures !ok && !dbFails ==> forall t :: !Committed(cfg, old(rows), Op.Update(id, tenant, name, base, steps), t)
    {
      var tx := new Transaction(cfg, rows);
      var locked := tx.GetForUpdate(tenant, name, base, true);
      if locked.None? {
        return false;
      }
      ok := tx.Insert(id, NewRow(tenant, name, base + 1, steps));
      if ok {
        tx.Mark(locked.value, false);
        ok := Commit(tx, dbFails);
      }
      ghost var op := Op.Update(id, tenant, name, base, steps);
      assert ok ==> UpdatesFrom(cfg, old(rows), op, locked.value, rows);
      forall t, l | UpdatesFrom(cfg, old(rows), op, l, t) ensures l == locked.value {
        assert BothCurrent(old(rows), l, locked.value);
      }
    }

    method Rollback(tenant: string, name: string, base: int, target: int, dbFails: bool)
      returns (r: Result<(), ServiceError>)
      requires Valid()
      modifies this`rows
      ensures Valid()
      ensures r.Success? ==> Committed(cfg, old(rows), Op.Rollback(tenant, name, base, target), rows)
      ensures rows.Keys == old(rows).Keys && (!cfg.targetNotCurrent ==> rows == old(rows))
      ensures r.Success? && cfg.targetNotCurrent ==> forall i :: i in rows && Is(old(rows)[i], tenant, name, base) ==>
        rows[i] == Marked(old(rows)[i], false, old(rows)[i].active)
      ensures r.Success? && cfg.targetNotCurrent ==> forall i :: i in rows && Is(old(rows)[i], tenant, name, target) ==>
        rows[i] == Marked(old(rows)[i], true, old(rows)[i].active)
      ensures forall i :: i in rows && !Is(old(rows)[i], tenant, name, base) && !Is(old(rows)[i], tenant, name, target) ==>
        rows[i] == old(rows)[i]
      ensures r.Failure? ==> rows == old(rows)
      ensures r.Failure? && !dbFails ==> forall t :: !Committed(cfg, old(rows), Op.Rollback(tenant, name, base, target), t)
    {
      ghost var before := rows;
      var ok := Exchange(tenant, name, base, target, dbFails);
      if !ok {
        return Failure(if dbFails then Database else Conflicting);
      }
      Preserve(Op.Rollback(tenant, name, base, target), before);
      if cfg.targetNotCurrent {
        RollbackSays(cfg, before, Op.Rollback(tenant, name, base, target), rows);
      } else {
        RollbackToCurrentIsIdle(cfg, before, Op.Rollback(tenant, name, base, target), rows);
      }
      r := Success(());
    }

    /** The transaction of a rollback: lock both rows, clear one mark and set the other. */
    method Exchange(tenant: string, name: string, base: int, target: int, dbFails: bool) returns (ok: bool)
      requires OneCurrent(rows) && DistinctVersions(rows)
      modifies this`rows
      ensures ok ==> Committed(cfg, old(rows), Op.Rollback(tenant, name, base, target), rows)
      ensures !ok ==> rows == old(rows)
      ensures !ok && !dbFails ==> forall t :: !Committed(cfg, old(rows), Op.Rollback(tenant, name, base, target), t)
    {
      var tx := new Transaction(cfg, rows);
      var from := tx.GetForUpdate(tenant, name, base, true);
      if from.None? {
        return false;
      }
      var to := tx.GetForUpdate(tenant, name, target, !cfg.targetNotCurrent);
      if to.None? {
        return false;
      }
      tx.Mark(from.value, false);
      tx.Mark(to.value, true);
      ok := Commit(tx, dbFails);
      ghost var op := Op.Rollback(tenant, name, base, target);
      assert ok ==> RollsBack(cfg, old(rows), op, from.value, to.value, rows);
      forall t, f, l | RollsBack(cfg, old(rows), op, f, l, t) ensures f == from.value && l == to.value {
        assert SameVersion(old(rows), f, from.value) && SameVersion(old(rows), l, to.value);
      }
    }

    /** Deleting only deactivates: the rows, and so the versions they take, stay. */
    method Delete(tenant: string, name: string, dbFails: bool) returns (r: Result<(), ServiceError>)
      requires Valid()
      modifies this`rows
      ensures Valid()
      ensures r.Success? ==> Committed(cfg, old(rows), Op.Delete(tenant, name), rows)
      ensures rows.Keys == old(rows).Keys
      ensures r.Success? ==> forall i :: i in rows && old(rows)[i].tenant == tenant && old(rows)[i].name == name ==>
        rows[i] == Marked(old(rows)[i], old(rows)[i].current, false)
      ensures forall i :: i in rows && !(old(rows)[i].tenant == tenant && old(rows)[i].name == name) ==> rows[i] == old(rows)[i]
      ensures r.Success? <==> !dbFails && exists i :: i in old(rows) && old(rows)[i].tenant == tenant && old(rows)[i].name == name
      ensures r.Failure? ==> rows == old(rows)
      ensures r.Failure? && !dbFails ==> forall t :: !Committed(cfg, old(rows), Op.Delete(tenant, name), t)
    {
      if dbFails {
        return Failure(Database);
      }
      ghost var before := rows;
      var ok := Deactivate(tenant, name);
      if !ok {
        return Failure(NotFound);
      }
      Preserve(Op.Delete(tenant, name), before);
      DeleteSays(cfg, before, Op.Delete(tenant, name), rows);
      r := Success(());
    }

    method Deactivate(tenant: string, name: string) returns (ok: bool)
      modifies this`rows
      ensures ok <==> exists id :: id in old(rows) && InFamily(old(rows)[id], tenant, name)
      ensures rows == if ok then Deactivated(old(rows), tenant, name) else old(rows)
    {
      var family := set id | id in rows && InFamily(rows[id], tenant, name);
      ok := family != {};
      if ok {
        ghost var id :| id in family;
        rows := map id | id in rows :: if id in family then rows[id].(active := false) else rows[id];
      } else {
        assert forall id :: id in rows && InFamily(rows[id], tenant, name) ==> id in family;
      }
    }

    /** `validateDAG` also scans the later steps for each dependency; that scan decides nothing, so it is not modelled. */
    method ValidateDag(steps: seq<StepDef>) returns (ok: bool)
      ensures ok <==> Named(steps) && Plannable(steps)
      ensures ok ==> forall i :: 0 <= i < |steps| ==> steps[i].id != "" && steps[i].action != ""
    {
      var ids: set<string> := {};
      for i := 0 to |steps|
        invariant ids == Ids(steps[..i]) && DistinctIds(steps[..i])
        invariant forall j :: 0 <= j < i ==> steps[j].id != "" && steps[j].action != ""
      {
        if steps[i].id == "" || steps[i].action == "" {
          return false;
        }
        if steps[i].id in ids {
          RepeatedId(steps, i);
          return false;
        }
        OneMoreId(steps, i);
        ids := ids + {steps[i].id};
      }
      var plan := BuildExecutionPlan(steps);
      ok := plan.Success?;
    }

    /** The answers stand for what the generator returns on each attempt. */
    method CreateFromText(
      id: string, tenant: string, name: string, configured: bool, answers: seq<Option<seq<StepDef>>>, dbFails: bool)
      returns (r: Result<string, ServiceError>)
      requires Valid() && id !in rows && |answers| == 3
      modifies this`rows
      ensures Valid()
      ensures r.Success? ==> id in rows && rows == old(rows)[id := Row(tenant, name, 1, true, true, rows[id].steps)]
      ensures r.Success? ==> forall i :: 0 <= i < |rows[id].steps| ==> rows[id].steps[i].id != "" && rows[id].steps[i].action != ""
      ensures r.Success? ==> configured && r.value == id
      ensures r.Success? ==> exists k :: 0 <= k < 3 && answers[k] == Some(rows[id].steps) && forall j :: 0 <= j < k ==> Rejected(answers[j])
      ensures r.Success? ==> exists k: nat :: FirstUsable(answers, k) && CreatedFrom(cfg, old(rows), id, tenant, name, answers[k], rows)
      ensures r.Failure? ==> rows == old(rows)
      ensures configured && r.Failure? && !dbFails ==> forall k: nat, t ::
        FirstUsable(answers, k) ==> !CreatedFrom(cfg, old(rows), id, tenant, name, answers[k], t)
      ensures r == Failure(NotConfigured) <==> !configured
      ensures configured ==> (r == Failure(NotGenerated) <==> forall j :: 0 <= j < ATTEMPTS ==> !Usable(answers[j]))
      ensures configured ==> (r == Failure(NotGenerated) <==> forall j :: 0 <= j < 3 ==> Rejected(answers[j]))
    {
      if !configured {
        return Failure(NotConfigured);
      }
      forall j | 0 <= j < |answers| ensures Rejected(answers[j]) <==> !Usable(answers[j]) { RejectedIff(answers[j]); }
      for k := 0 to ATTEMPTS
        invariant rows == old(rows)
        invariant forall j :: 0 <= j < k ==> !Usable(answers[j])
      {
        if answers[k].Some? {
          var steps := answers[k].value;
          var ok := ValidateDag(steps);
          if ok {
            assert FirstUsable(answers, k);
            ok := InsertOne(id, tenant, name, steps, dbFails);
            if !ok {
              forall j: nat | FirstUsable(answers, j) ensures j == k { OneFirstUsable(answers, j, k); }
              return Failure(if dbFails then Database else Conflicting);
            }
            assert CreatedFrom(cfg, old(rows), id, tenant, name, answers[k], rows);
            Preserve(Op.Create(id, tenant, name, steps), old(rows));
            CreateSays(cfg, old(rows), Op.Create(id, tenant, name, steps), rows);
            assert rows == old(rows)[id := Row(tenant, name, 1, true, true, steps)];
            assert answers[k] == Some(rows[id].steps);
            return Success(id);
          }
        }
      }
      r := Failure(NotGenerated);
    }

    /** Lookup by id; the repository adds that the row must be current, and does not ask whether it is active. */
    method Get(id: string, tenant: Option<string>) returns (found: Option<Row>)
      requires Valid()
      ensures found == if id in rows && rows[id].current && (tenant.Some? ==> rows[id].tenant == tenant.value)
                       then Some(rows[id]) else None
      ensures found.Some? ==> Plannable(found.value.steps)
    {
      assert id in rows ==> HasPlan(rows, id);
      found := if id in rows && rows[id].current && (tenant == None || rows[id].tenant == tenant.value)
               then Some(rows[id]) else None;
    }

    /** Loading a workflow to run it: whatever is found can be planned, so the engine never refuses it. */
    method LoadAndPlan(id: string) returns (plan: Option<Plan>)
      requires Valid()
      ensures plan.Some? <==> id in rows && rows[id].current
      ensures plan.Some? ==> IsPlan(rows[id].steps, plan.value)
    {
      var found := Get(id, None);
      if found.None? {
        return None;
      }
      var built := BuildExecutionPlan(found.value.steps);
      assert built.Success?;
      plan := Some(built.value);
    }

    /**
     * An execution appears together with one record per step definition, or not at all; when only the queue fails,
     * it stays although the caller is told of an error.
     */
    method Trigger(tenant: string, workflow: string, execution: string, failAt: Option<nat>, commitFails: bool, pushFails: bool)
      returns (r: Result<Execution, ServiceError>)
      requires Valid() && execution !in executions
      modifies this`executions, this`records, this`queue
      ensures Valid()
      ensures r.Success? <==> Triggerable(rows, workflow, tenant) && !DbRefuses(|rows[workflow].steps|, failAt, commitFails) && !pushFails
      ensures r.Success? <==>
        && workflow in rows && rows[workflow].current && rows[workflow].tenant == tenant
        && !commitFails && !pushFails && (failAt.Some? ==> failAt.value > |rows[workflow].steps|)
      ensures r.Failure? ==> r.error == if !Triggerable(rows, workflow, tenant) then NotFound
                                        else if DbRefuses(|rows[workflow].steps|, failAt, commitFails) then Database
                                        else NotEnqueued
      ensures r.Success? || r == Failure(NotEnqueued) ==> Started(old(executions), old(records), workflow, execution)
      ensures r.Success? || r == Failure(NotEnqueued) || (executions == old(executions) && records == old(records))
      ensures r.Success? || r == Failure(NotEnqueued) ==>
        executions == old(executions)[execution := Execution(workflow, tenant, rows[workflow].version)]
      ensures r.Success? || r == Failure(NotEnqueued) ==> |records| == |old(records)| + |rows[workflow].steps|
      ensures r.Success? || r == Failure(NotEnqueued) ==> forall i :: 0 <= i < |rows[workflow].steps| ==>
        records[|old(records)| + i] == StepRecord(execution, rows[workflow].steps[i].id, rows[workflow].steps[i].action, 1, 0)
      ensures queue == if r.Success? then old(queue) + [execution] else old(queue)
      ensures r.Success? ==> r.value == executions[execution] && r.value.tenant == tenant
    {
      var found := Get(workflow, Some(tenant));
      if found.None? {
        return Failure(NotFound);
      }
      var ok := Start(workflow, execution, failAt, commitFails);
      if !ok {
        return Failure(Database);
      }
      if pushFails {
        return Failure(NotEnqueued);
      }
      queue := queue + [execution];
      r := Success(executions[execution]);
    }

    /** The execution and its records are new, and everything else is as it was. */
    predicate Started(executionsBefore: map<string, Execution>, recordsBefore: seq<StepRecord>, workflow: string, execution: string)
      reads this
    {
      && workflow in rows
      && executions == executionsBefore[execution := Execution(workflow, rows[workflow].tenant, rows[workflow].version)]
      && records == recordsBefore + RecordsFor(execution, rows[workflow].steps)
    }

    /** The transaction of a trigger; call `failAt` of the database fails, if any. */
    method Start(workflow: string, execution: string, failAt: Option<nat>, commitFails: bool) returns (ok: bool)
      requires Valid() && execution !in executions && workflow in rows
      modifies this`executions, this`records
      ensures Valid()
      ensures ok <==> !DbRefuses(|rows[workflow].steps|, failAt, commitFails)
      ensures ok ==> Started(old(executions), old(records), workflow, execution)
      ensures !ok ==> executions == old(executions) && records == old(records)
    {
      var row := rows[workflow];
      var added := WriteRecords(execution, row.steps, failAt);
      if added.None? || commitFails {
        return false;
      }
      var exe := Execution(workflow, row.tenant, row.version);
      ExecutionAdded(rows, executions, records, execution, exe);
      executions, records := executions[execution := exe], records + added.value;
      ok := true;
    }

    method WriteRecords(execution: string, steps: seq<StepDef>, failAt: Option<nat>) returns (added: Option<seq<StepRecord>>)
      ensures added == if failAt.Some? && failAt.value <= |steps| then None else Some(RecordsFor(execution, steps))
    {
      if failAt == Some(0) {
        return None;
      }
      var written: seq<StepRecord> := [];
      for i := 0 to |steps|
        invariant written == RecordsFor(execution, steps[..i])
        invariant failAt.Some? ==> failAt.value > i
      {
        if failAt == Some(i + 1) {
          return None;
        }
        assert steps[..i + 1][..i] == steps[..i];
        written := written + [StepRecord(execution, steps[i].id, steps[i].action, 1, 0)];
      }
      assert steps[..|steps|] == steps;
      added := Some(written);
    }
  }

  lemma RepeatedId(steps: seq<StepDef>, i: nat)
    requires i < |steps| && steps[i].id in Ids(steps[..i])
    ensures !DistinctIds(steps)
  {
    var s :| s in steps[..i] && s.id == steps[i].id;
    var j :| 0 <= j < i && steps[..i][j] == s;
  }

  lemma OneMoreId(steps: seq<StepDef>, i: nat)
    requires i < |steps| && steps[i].id !in Ids(steps[..i]) && DistinctIds(steps[..i])
    ensures DistinctIds(steps[..i + 1]) && Ids(steps[..i + 1]) == Ids(steps[..i]) + {steps[i].id}
  {
    assert steps[..i + 1] == steps[..i] + [steps[i]];
    forall j | 0 <= j < i ensures steps[j].id != steps[i].id {
      assert steps[..i][j] in steps[..i];
    }
  }
}
