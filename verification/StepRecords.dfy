/** Step records and their versioned compare-and-set. */
module StepRecords {
  import opened Common

  datatype Status = Pending | Running | Success | Failed | Suspended

  datatype Row = Row(status: Status, version: int, retryCount: int)

  /** The columns an update sets besides the version. */
  datatype Patch = SetStatus(status: Status) | SetRetryCount(retryCount: int)

  function Patched(row: Row, patch: Patch): Row {
    match patch
    case SetStatus(status) => row.(status := status, version := row.version + 1)
    case SetRetryCount(n) => row.(retryCount := n, version := row.version + 1)
  }

  /** Whether an update that names `version` finds the record. */
  predicate Matches(rows: map<string, Row>, id: string, version: int) {
    id in rows && rows[id].version == version
  }

  class StepStore {
    var rows: map<string, Row>

    constructor (rows: map<string, Row>)
      ensures this.rows == rows
    {
      this.rows := rows;
    }

    method Get(id: string) returns (row: Option<Row>)
      ensures row == if id in rows then Some(rows[id]) else None
    {
      row := if id in rows then Some(rows[id]) else None;
    }

    /** Sets the columns and the next version, provided the record still has the version the caller read. */
    method Update(id: string, currentVersion: int, patch: Patch) returns (ok: bool)
      modifies this
      ensures ok <==> Matches(old(rows), id, currentVersion)
      ensures rows == if ok then old(rows)[id := Patched(old(rows)[id], patch)] else old(rows)
      ensures ok ==> rows[id].version == old(rows)[id].version + 1
      ensures ok && patch.SetStatus? ==> rows[id].status == patch.status && rows[id].retryCount == old(rows)[id].retryCount
      ensures ok && patch.SetRetryCount? ==> rows[id].retryCount == patch.retryCount && rows[id].status == old(rows)[id].status
      ensures forall x :: x in old(rows) && x != id ==> x in rows && rows[x] == old(rows)[x]
    {
      ok := false;
      if id in rows && rows[id].version == currentVersion {
        var row := rows[id].(version := currentVersion + 1);
        match patch {
          case SetStatus(status) => row := row.(status := status);
          case SetRetryCount(n) => row := row.(retryCount := n);
        }
        rows := rows[id := row];
        ok := true;
      }
    }
  }
}
