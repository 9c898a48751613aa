/** The embedded store as the program has it: objects of several processes over one
    database, each with its own cache. */
module Sqlite {
  import opened Entries
  import opened ThreadLogs
  import opened Convergence
  import opened RowStore
  import InsertionSort

  /** The entries table; rows are only ever added. */
  class Database {
    var rows: Rows

    constructor ()
      ensures rows == []
    {
      rows := [];
    }
  }

  class SQLite {
    const db: Database
    var logs: Cache

    constructor (db: Database)
      ensures this.db == db && logs == map[]
    {
      this.db := db;
      logs := map[];
    }

    /** The cached log when its row id is still the thread's largest, else a replay. */
    method ThreadLog(t: string) returns (l: Option<Log>)
      modifies this
      ensures logs == Refresh(db.rows, old(logs), t)
      ensures l == ThreadLogOf(db.rows, old(logs), t)
    {
      var dbMax := MaxRid(db.rows, t);
      if t in logs && logs[t].maxRid == dbMax {
        return Some(logs[t].log);
      }
      var raw := InsertionSort.Sort(RowsOf(db.rows, t), RowOrder());
      var rebuilt := EmptyLog(t);
      for i := 0 to |raw|
        invariant Deliver(rebuilt, raw[i..]) == Replay(db.rows, t)
      {
        assert raw[i..][0] == raw[i] && raw[i..][1..] == raw[i + 1..];
        match Append(rebuilt, raw[i])
        case Refused(_) => return None;
        case Admitted(r) => rebuilt := r;
      }
      logs := logs[t := Cached(rebuilt, dbMax)];
      return Some(rebuilt);
    }

    /** A thread that holds no entry is not found. */
    method Thread(t: string) returns (l: Option<Log>)
      modifies this
      ensures logs == Refresh(db.rows, old(logs), t)
      ensures var found := ThreadLogOf(db.rows, old(logs), t);
        l == if found.Some? && found.value.entries != [] then found else None
    {
      l := ThreadLog(t);
      if l.Some? && |l.value.entries| == 0 {
        return None;
      }
    }

    method AppendEntries(es: seq<Entry>) returns (ok: bool)
      modifies this, db
      ensures Saved(db.rows, logs, ok) == SaveAll(old(db.rows), old(logs), es)
    {
      for i := 0 to |es|
        invariant SaveAll(db.rows, logs, es[i..]) == SaveAll(old(db.rows), old(logs), es)
      {
        assert es[i..][0] == es[i] && es[i..][1..] == es[i + 1..];
        var saved := AppendEntry(es[i]);
        if !saved {
          return false;
        }
      }
      return true;
    }

    /** One turn of the loop. */
    method AppendEntry(e: Entry) returns (ok: bool)
      modifies this, db
      ensures Saved(db.rows, logs, ok) == SaveOne(old(db.rows), old(logs), e)
    {
      var l := ThreadLog(e.thread);
      if l.None? {
        return false;
      }
      match Append(l.value, e)
      case Refused(_) => return false;
      case Admitted(r) =>
        logs := logs[e.thread := Cached(r, logs[e.thread].maxRid)];
        if IdTaken(db.rows, e) {
          return true;
        }
        if SlotTaken(db.rows, e) {
          return false;
        }
        db.rows := db.rows + [e];
        var rid := |db.rows|;
        if rid > logs[e.thread].maxRid {
          logs := logs[e.thread := Cached(r, rid)];
        }
        return true;
    }
  }
}
