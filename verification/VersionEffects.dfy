/** What committed operations on the workflow table do to its rows, and what stays possible afterwards. */
module VersionEffects {
  import opened WorkflowModel
  import opened Dag
  import opened Versions

  // ---- Row by row ------------------------------------------------------------------------------

  predicate Is(row: Row, tenant: string, name: string, version: int) {
    row.tenant == tenant && row.name == name && row.version == version
  }

  /** The row, with its two marks set. */
  function Marked(row: Row, current: bool, active: bool): Row {
    Row(row.tenant, row.name, row.version, current, active, row.steps)
  }

  /** A create adds one row, current and active, with version 1, and changes no other. */
  lemma CreateSays(cfg: Config, s: Table, op: Op, t: Table)
    requires op.Create? && Committed(cfg, s, op, t)
    ensures op.id !in s && t.Keys == s.Keys + {op.id} && t[op.id] == Row(op.tenant, op.name, 1, true, true, op.steps)
    ensures forall i :: i in s ==> t[i] == s[i]
    ensures forall i :: i in s ==> !Is(s[i], op.tenant, op.name, 1)
  {
    forall i | i in s ensures !Is(s[i], op.tenant, op.name, 1) {
      assert !Conflicts(s, i, NewRow(op.tenant, op.name, 1, op.steps));
    }
  }

  /** An update adds the next version, current and active; its base, which was so, is no longer current. */
  lemma UpdateSays(cfg: Config, s: Table, op: Op, t: Table)
    requires op.Update? && Committed(cfg, s, op, t) && DistinctVersions(s)
    ensures op.id !in s && t.Keys == s.Keys + {op.id}
    ensures t[op.id] == Row(op.tenant, op.name, op.base + 1, true, true, op.steps)
    ensures exists i :: i in s && Is(s[i], op.tenant, op.name, op.base) && s[i].current && s[i].active
    ensures forall i :: i in s ==>
      t[i] == if Is(s[i], op.tenant, op.name, op.base) then Marked(s[i], false, s[i].active) else s[i]
  {
    var locked :| UpdatesFrom(cfg, s, op, locked, t);
    forall i | i in s && Is(s[i], op.tenant, op.name, op.base) ensures i == locked {
      assert SameVersion(s, i, locked);
    }
  }

  /** A rollback as meant exchanges the marks of the base and the target, and changes nothing else. */
  lemma RollbackSays(cfg: Config, s: Table, op: Op, t: Table)
    requires op.Rollback? && Committed(cfg, s, op, t) && DistinctVersions(s) && cfg.targetNotCurrent
    ensures t.Keys == s.Keys && op.base != op.target
    ensures forall i :: i in s && Is(s[i], op.tenant, op.name, op.base) ==> t[i] == Marked(s[i], false, s[i].active)
    ensures forall i :: i in s && Is(s[i], op.tenant, op.name, op.target) ==> t[i] == Marked(s[i], true, s[i].active)
    ensures forall i :: i in s && !Is(s[i], op.tenant, op.name, op.base) && !Is(s[i], op.tenant, op.name, op.target) ==> t[i] == s[i]
    ensures exists i :: i in s && Is(s[i], op.tenant, op.name, op.base) && s[i].current && s[i].active
    ensures exists i :: i in s && Is(s[i], op.tenant, op.name, op.target) && !s[i].current && s[i].active
  {
    var from, to :| RollsBack(cfg, s, op, from, to, t);
    assert from != to;
    forall i | i in s && Is(s[i], op.tenant, op.name, op.base) ensures i == from { assert SameVersion(s, i, from); }
    forall i | i in s && Is(s[i], op.tenant, op.name, op.target) ensures i == to { assert SameVersion(s, i, to); }
  }

  /** A delete deactivates every row of the workflow, and changes nothing else. */
  lemma DeleteSays(cfg: Config, s: Table, op: Op, t: Table)
    requires op.Delete? && Committed(cfg, s, op, t)
    ensures t.Keys == s.Keys && exists i :: i in s && s[i].tenant == op.tenant && s[i].name == op.name
    ensures forall i :: i in s && s[i].tenant == op.tenant && s[i].name == op.name ==> t[i] == Marked(s[i], s[i].current, false)
    ensures forall i :: i in s && !(s[i].tenant == op.tenant && s[i].name == op.name) ==> t[i] == s[i]
  {}

  // ---- After a delete --------------------------------------------------------------------------

  /** The workflow exists, and no row of it is active. */
  ghost predicate Deleted(rows: Table, tenant: string, name: string) {
    && (exists i :: i in rows && rows[i].tenant == tenant && rows[i].name == name)
    && (forall i {:trigger rows[i].active} :: i in rows && rows[i].tenant == tenant && rows[i].name == name ==> !rows[i].active)
  }

  predicate Of(op: Op, tenant: string, name: string) {
    op.tenant == tenant && op.name == name
  }

  lemma DeleteDeletes(cfg: Config, s: Table, op: Op, t: Table)
    requires op.Delete? && Committed(cfg, s, op, t)
    ensures Deleted(t, op.tenant, op.name)
  {
    DeleteSays(cfg, s, op, t);
    var i :| i in s && s[i].tenant == op.tenant && s[i].name == op.name;
    assert t[i].tenant == op.tenant && t[i].name == op.name;
  }

  lemma RollbackNeedsActive(cfg: Config, s: Table, op: Op, t: Table)
    requires op.Rollback? && Committed(cfg, s, op, t)
    ensures exists i :: i in s && Is(s[i], op.tenant, op.name, op.base) && s[i].active
  {
    var from, to :| RollsBack(cfg, s, op, from, to, t);
  }

  /** On a deleted workflow only a further delete commits. */
  lemma DeletedRefuses(cfg: Config, s: Table, op: Op, t: Table)
    requires Ok(s) && Deleted(s, op.tenant, op.name) && !op.Delete?
    ensures !Committed(cfg, s, op, t)
  {
    if Committed(cfg, s, op, t) {
      match op {
        case Create(_, _, _, _) =>
          CreateSays(cfg, s, op, t);
          FirstVersionStored(s, op.tenant, op.name);
        case Update(_, _, _, _, _) =>
          UpdateSays(cfg, s, op, t);
        case Rollback(_, _, _, _) =>
          RollbackNeedsActive(cfg, s, op, t);
        case Delete(_, _) =>
      }
    }
  }

  lemma FirstVersionStored(s: Table, tenant: string, name: string)
    requires Ok(s) && exists i :: i in s && s[i].tenant == tenant && s[i].name == name
    ensures exists i :: i in s && Is(s[i], tenant, name, 1)
  {
    var i :| i in s && s[i].tenant == tenant && s[i].name == name;
    assert HasPredecessor(s, i);
    var j := LowerVersion(s, i, 1);
    assert Is(s[j], tenant, name, 1);
  }

  lemma DeletedStays(cfg: Config, s: Table, op: Op, t: Table, tenant: string, name: string)
    requires Ok(s) && Deleted(s, tenant, name) && Committed(cfg, s, op, t)
    ensures Deleted(t, tenant, name)
  {
    var d :| d in s && s[d].tenant == tenant && s[d].name == name;
    DefinitionsStay(cfg, s, op, t, d);
    if Of(op, tenant, name) {
      if op.Delete? { DeleteDeletes(cfg, s, op, t); } else { DeletedRefuses(cfg, s, op, t); }
    } else {
      forall i | i in t && t[i].tenant == tenant && t[i].name == name ensures !t[i].active {
        OtherRowsStay(cfg, s, op, t, i);
      }
    }
  }

  /** An operation leaves the rows of other workflows alone. */
  lemma OtherRowsStay(cfg: Config, s: Table, op: Op, t: Table, i: string)
    requires Committed(cfg, s, op, t) && i in t && !Of(op, t[i].tenant, t[i].name)
    ensures i in s && t[i] == s[i]
  {
    if i in s { DefinitionsStay(cfg, s, op, t, i); } else { OnlyNewRow(cfg, s, op, t, i); }
  }

  lemma {:induction false} DeletedForever(cfg: Config, tables: seq<Table>, ops: seq<Op>, i: nat, j: nat, tenant: string, name: string)
    requires History(cfg, tables, ops) && i <= j < |tables| && Deleted(tables[i], tenant, name)
    ensures Deleted(tables[j], tenant, name)
  {
    if i == j {
    } else {
      DeletedForever(cfg, tables, ops, i, j - 1, tenant, name);
      OkAlways(cfg, tables, ops, j - 1);
      assert Ends(cfg, tables, ops, j - 1);
      if tables[j] != tables[j - 1] {
        DeletedStays(cfg, tables[j - 1], ops[j - 1], tables[j], tenant, name);
      }
    }
  }

  /** After a committed delete no Create, Update or Rollback of the workflow ever commits: its name stays taken. */
  lemma NothingCommitsAfterDelete(cfg: Config, tables: seq<Table>, ops: seq<Op>, i: nat, j: nat)
    requires History(cfg, tables, ops) && i < j < |ops|
    requires ops[i].Delete? && Committed(cfg, tables[i], ops[i], tables[i + 1])
    requires !ops[j].Delete? && ops[j].tenant == ops[i].tenant && ops[j].name == ops[i].name
    ensures !Committed(cfg, tables[j], ops[j], tables[j + 1])
  {
    DeleteDeletes(cfg, tables[i], ops[i], tables[i + 1]);
    DeletedForever(cfg, tables, ops, i + 1, j, ops[i].tenant, ops[i].name);
    OkAlways(cfg, tables, ops, j);
    DeletedRefuses(cfg, tables[j], ops[j], tables[j + 1]);
  }

  // ---- After a create or an update -------------------------------------------------------------

  ghost predicate CanCommit(cfg: Config, s: Table, op: Op) {
    exists t :: Committed(cfg, s, op, t)
  }

  /** The version that a create or an update has stored can be updated next. */
  lemma StoredCanBeUpdated(cfg: Config, s: Table, op: Op, t: Table, id: string, steps: seq<StepDef>)
    requires Ok(s) && cfg.checkAtCommit && (op.Create? || op.Update?) && Committed(cfg, s, op, t)
    requires id !in t && Plannable(steps)
    ensures CanCommit(cfg, t, Update(id, op.tenant, op.name, if op.Create? then 1 else op.base + 1, steps))
  {
    var base := if op.Create? then 1 else op.base + 1;
    var next := Update(id, op.tenant, op.name, base, steps);
    OkStays(cfg, s, op, t);
    StoredIsNewest(cfg, s, op, t);
    UpdateCommitsIff(cfg, t, next);
  }

  lemma StoredIsNewest(cfg: Config, s: Table, op: Op, t: Table)
    requires Ok(s) && (op.Create? || op.Update?) && Committed(cfg, s, op, t)
    ensures var base := if op.Create? then 1 else op.base + 1;
      IsBase(t, op.tenant, op.name, base) && NothingNewer(t, op.tenant, op.name, base)
  {
    var base := if op.Create? then 1 else op.base + 1;
    if op.Create? { CreateSays(cfg, s, op, t); } else { UpdateSays(cfg, s, op, t); }
    assert Finds(t, op.id, op.tenant, op.name, base, true);
    forall i | i in t && InFamily(t[i], op.tenant, op.name) ensures t[i].version <= base {
      if i != op.id {
        DefinitionsStay(cfg, s, op, t, i);
        OlderIsBelow(cfg, s, op, t, i);
      }
    }
  }

  lemma OlderIsBelow(cfg: Config, s: Table, op: Op, t: Table, i: string)
    requires Ok(s) && (op.Create? || op.Update?) && Committed(cfg, s, op, t) && i in s && InFamily(s[i], op.tenant, op.name)
    ensures s[i].version <= if op.Create? then 1 else op.base + 1
  {
    if op.Update? {
      var locked :| UpdatesFrom(cfg, s, op, locked, t);
      UpdateNeedsNewest(cfg, s, op, locked, t);
    } else {
      CreateSays(cfg, s, op, t);
      FirstVersionStored(s, op.tenant, op.name);
    }
  }
}
