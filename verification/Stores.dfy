/** The store contract the sync layer works against: one log per thread, batches appended
    entry by entry. */
module Stores {
  import opened Entries
  import opened ThreadLogs
  import opened Convergence

  type Logs = map<string, Log>

  /** A thread the store has never seen holds nothing. */
  function LogOf(s: Logs, t: string): Log {
    if t in s then s[t] else EmptyLog(t)
  }

  ghost predicate StoreInv(s: Logs) {
    forall t :: t in s ==> Inv(s[t]) && s[t].thread == t
  }

  datatype Stored = Stored(logs: Logs, error: Option<AppendError>)

  /** Entries go to the log of the thread they name; the first refusal ends the batch and
      what was admitted before it stays. */
  function AppendAll(s: Logs, es: seq<Entry>): Stored
    decreases |es|
  {
    if es == [] then Stored(s, None)
    else
      match Append(LogOf(s, es[0].thread), es[0])
      case Refused(err) => Stored(s, Some(err))
      case Admitted(r) => AppendAll(s[es[0].thread := r], es[1..])
  }

  lemma LogOfInv(s: Logs, t: string)
    requires StoreInv(s)
    ensures Inv(LogOf(s, t)) && LogOf(s, t).thread == t
  {
    EmptyLogInv(t);
  }

  lemma {:induction false} AppendAllKeepsInv(s: Logs, es: seq<Entry>)
    requires StoreInv(s)
    ensures StoreInv(AppendAll(s, es).logs)
    decreases |es|
  {
    hide Inv, Append;
    if es != [] {
      var l := LogOf(s, es[0].thread);
      LogOfInv(s, es[0].thread);
      AppendKeepsInv(l, es[0]);
      if Append(l, es[0]).Admitted? {
        AppendAllKeepsInv(s[es[0].thread := Append(l, es[0]).log], es[1..]);
      }
    }
  }

  /** A batch of one thread is a delivery to that thread's log and touches no other. */
  lemma {:induction false} AppendOneThread(s: Logs, t: string, es: seq<Entry>)
    requires forall e :: e in es ==> e.thread == t
    ensures var r, d := AppendAll(s, es), Deliver(LogOf(s, t), es);
      && LogOf(r.logs, t) == d.log && r.error == d.error
      && (forall u :: u != t ==> LogOf(r.logs, u) == LogOf(s, u))
    decreases |es|
  {
    hide Append;
    if es != [] && Append(LogOf(s, t), es[0]).Admitted? {
      AppendOneThread(s[t := Append(LogOf(s, t), es[0]).log], t, es[1..]);
    }
  }

  class Store {
    var logs: Logs

    constructor ()
      ensures logs == map[]
    {
      logs := map[];
    }

    /** The thread's log, or nothing for a thread that holds no entry. */
    method Thread(t: string) returns (l: Option<Log>)
      ensures l == if LogOf(logs, t).entries == [] then None else Some(LogOf(logs, t))
    {
      var found := LogOf(logs, t);
      return if found.entries == [] then None else Some(found);
    }

    method AppendEntries(es: seq<Entry>) returns (err: Option<AppendError>)
      modifies this
      ensures Stored(logs, err) == AppendAll(old(logs), es)
    {
      for i := 0 to |es|
        invariant AppendAll(logs, es[i..]) == AppendAll(old(logs), es)
      {
        var e := es[i];
        assert es[i..][0] == e && es[i..][1..] == es[i + 1..];
        match Append(LogOf(logs, e.thread), e)
        case Refused(x) => return Some(x);
        case Admitted(r) => logs := logs[e.thread := r];
      }
      return None;
    }
  }
}
