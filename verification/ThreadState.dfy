/** The thread-state table: one row per thread, holding the saved poll cursor. */
module ThreadState {
  import opened Text

  // The newest sequence ID passed in a thread and its message's timestamp.
  datatype CursorPos = CursorPos(seqID: string, ts: int)

  datatype Row = Row(conversation: string, isOneToOne: bool, name: string, cursor: CursorPos)

  type Rows = map<string, Row>

  // INSERT ... ON CONFLICT DO UPDATE: a conflict keeps the stored cursor.
  function Upserted(rows: Rows, threadID: string, row: Row): Rows {
    rows[threadID := if threadID in rows then row.(cursor := rows[threadID].cursor) else row]
  }

  // UPDATE ... WHERE thread_id: no row, no change.
  function CursorUpdated(rows: Rows, threadID: string, pos: CursorPos): Rows {
    if threadID in rows then rows[threadID := rows[threadID].(cursor := pos)] else rows
  }

  // ----- over a sequence of writes -----

  datatype Write = Upserting(threadID: string, row: Row) | Updating(threadID: string, pos: CursorPos)

  function Written(rows: Rows, writes: seq<Write>): Rows {
    if writes == [] then rows
    else
      var before := Written(rows, writes[..|writes| - 1]);
      match writes[|writes| - 1]
      case Upserting(threadID, row) => Upserted(before, threadID, row)
      case Updating(threadID, pos) => CursorUpdated(before, threadID, pos)
  }

  // The cursor the last update of a thread wrote, if there was one.
  function LastUpdate(writes: seq<Write>, threadID: string): Option<CursorPos> {
    if writes == [] then None
    else
      var last := writes[|writes| - 1];
      if last.Updating? && last.threadID == threadID then Some(last.pos) else LastUpdate(writes[..|writes| - 1], threadID)
  }

  // Whatever discovery upserts in between, a thread's row stays and its cursor
  // is the one last written to it, or the one it had.
  lemma {:induction false} CursorIsLastWritten(rows: Rows, writes: seq<Write>, threadID: string)
    requires threadID in rows
    ensures threadID in Written(rows, writes)
    ensures Written(rows, writes)[threadID].cursor ==
            if LastUpdate(writes, threadID).Some? then LastUpdate(writes, threadID).value else rows[threadID].cursor
  {
    if writes != [] {
      CursorIsLastWritten(rows, writes[..|writes| - 1], threadID);
    }
  }

  // What the last upsert of a thread wrote, if there was one.
  function LastUpsert(writes: seq<Write>, threadID: string): Option<Row> {
    if writes == [] then None
    else
      var last := writes[|writes| - 1];
      if last.Upserting? && last.threadID == threadID then Some(last.row) else LastUpsert(writes[..|writes| - 1], threadID)
  }

  // And its other columns are those last upserted, whatever cursors are saved.
  lemma {:induction false} ColumnsAreLastUpserted(rows: Rows, writes: seq<Write>, threadID: string)
    ensures threadID in Written(rows, writes) <==> threadID in rows || LastUpsert(writes, threadID).Some?
    ensures threadID in Written(rows, writes) ==>
              var row := Written(rows, writes)[threadID];
              var last := if LastUpsert(writes, threadID).Some? then LastUpsert(writes, threadID).value else rows[threadID];
              row.conversation == last.conversation && row.isOneToOne == last.isOneToOne && row.name == last.name
  {
    if writes != [] {
      ColumnsAreLastUpserted(rows, writes[..|writes| - 1], threadID);
    }
  }

  class ThreadStateTable {
    var rows: Rows

    // written is whether the database took the statement, here and below.
    method Upsert(threadID: string, row: Row, written: bool) returns (ok: bool)
      modifies this
      ensures ok <==> TrimSpace(threadID) != "" && TrimSpace(row.conversation) != "" && written
      ensures rows == if ok then Upserted(old(rows), TrimSpace(threadID), row.(conversation := TrimSpace(row.conversation)))
                      else old(rows)
    {
      var id, conversation := TrimSpace(threadID), TrimSpace(row.conversation);
      if id == "" || conversation == "" || !written {
        return false;
      }
      var stored := row.(conversation := conversation);
      if id in rows {
        stored := stored.(cursor := rows[id].cursor);
      }
      rows := rows[id := stored];
      return true;
    }

    method UpdateCursor(threadID: string, pos: CursorPos, written: bool) returns (ok: bool)
      modifies this
      ensures ok <==> TrimSpace(threadID) != "" && written
      ensures rows == if ok then CursorUpdated(old(rows), TrimSpace(threadID), pos) else old(rows)
    {
      var id := TrimSpace(threadID);
      if id == "" || !written {
        return false;
      }
      if id in rows {
        rows := rows[id := rows[id].(cursor := pos)];
      }
      return true;
    }
  }
}
