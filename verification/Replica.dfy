/** The mutable log and its author, as the program has them. */
module Replica {
  import opened Entries
  import opened ThreadLogs
  import opened Authors
  import opened Sequences
  import InsertionSort

  class ThreadLog {
    const thread: string
    var heads: map<ChainKey, ChainHead>
    var byId: map<string, Entry>
    var entries: seq<Entry>
    var lamport: u64

    ghost function View(): Log
      reads this
    {
      Log(thread, heads, byId, entries, lamport)
    }

    ghost predicate Valid()
      reads this
    {
      Inv(View())
    }

    constructor (thread: string)
      ensures Valid() && View() == EmptyLog(thread)
    {
      this.thread := thread;
      heads, byId, entries, lamport := map[], map[], [], 0;
      new;
      EmptyLogInv(thread);
    }

    /** `sort.Search` for the first entry that is not less than `e`. */
    method Search(e: Entry) returns (lo: nat)
      requires InOrder(entries)
      ensures lo == Position(entries, e)
    {
      var hi := |entries|;
      lo := 0;
      while lo < hi
        invariant 0 <= lo <= hi <= |entries|
        invariant forall j :: 0 <= j < lo ==> Less(entries[j], e)
        invariant forall j :: hi <= j < |entries| ==> !Less(entries[j], e)
      {
        var mid := (lo + hi) / 2;
        if Less(entries[mid], e) {
          forall j | 0 <= j < mid ensures Less(entries[j], e) {
            LessTransitive(entries[j], entries[mid], e);
          }
          lo := mid + 1;
        } else {
          forall j | mid < j < |entries| ensures !Less(entries[j], e) {
            if Less(entries[j], e) {
              LessTransitive(entries[mid], entries[j], e);
            }
          }
          hi := mid;
        }
      }
      PositionUnique(entries, e, lo);
    }

    /** The state change of an accepted append. */
    method Admit(e: Entry)
      requires InOrder(entries)
      modifies this
      ensures View() == Insert(old(View()), e)
    {
      var i := Search(e);
      heads := heads[KeyOf(e) := ChainHead(e.seqNo, HashOf(e))];
      byId := byId[e.id := e];
      entries := entries[..i] + [e] + entries[i..];
      if e.lamport > lamport {
        lamport := e.lamport;
      }
    }

    method Append(e: Entry) returns (err: Option<AppendError>)
      requires Valid()
      modifies this
      ensures Valid()
      ensures match ThreadLogs.Append(old(View()), e)
        case Admitted(l) => err == None && View() == l
        case Refused(x) => err == Some(x) && View() == old(View())
    {
      AppendKeepsInv(View(), e);
      if e.thread != thread {
        return Some(WrongThread);
      }
      if !Validate(e) {
        return Some(InvalidEntry);
      }
      if e.id in byId {
        var prior := byId[e.id];
        return if HashOf(prior) == HashOf(e) then None else Some(IdCollision);
      }
      var key := KeyOf(e);
      if key !in heads && e.seqNo != 1 {
        return Some(FirstSeqNotOne);
      } else if key !in heads && e.prev != GenesisPrev {
        return Some(FirstPrevNotGenesis);
      } else if key in heads && e.seqNo != Succ(heads[key].seqNo) {
        return Some(SeqGap);
      } else if key in heads && e.prev != heads[key].hash {
        return Some(PrevMismatch);
      }
      Admit(e);
      return None;
    }

    /** The version vector: the head position of every chain. */
    method Heads() returns (vv: map<ChainKey, u64>)
      ensures vv.Keys == heads.Keys
      ensures forall k :: k in vv ==> vv[k] == heads[k].seqNo
    {
      vv := map[];
      var todo := heads.Keys;
      while todo != {}
        invariant vv.Keys + todo == heads.Keys && vv.Keys !! todo
        invariant forall k :: k in vv ==> vv[k] == heads[k].seqNo
        decreases |todo|
      {
        var k :| k in todo;
        vv := vv[k := heads[k].seqNo];
        todo := todo - {k};
      }
    }

    /** For each chain the remote holds further than we do, the position we hold. */
    method Missing(remote: map<ChainKey, u64>) returns (need: map<ChainKey, u64>)
      ensures forall k :: k in need <==>
                (k in remote && remote[k] > (if k in heads then heads[k].seqNo else 0))
      ensures forall k :: k in need ==> need[k] == if k in heads then heads[k].seqNo else 0
    {
      need := map[];
      var todo := remote.Keys;
      while todo != {}
        invariant todo <= remote.Keys
        invariant forall k :: k in need <==>
                      (k in remote && k !in todo && remote[k] > (if k in heads then heads[k].seqNo else 0))
        invariant forall k :: k in need ==> need[k] == if k in heads then heads[k].seqNo else 0
        decreases |todo|
      {
        var k :| k in todo;
        var have := if k in heads then heads[k].seqNo else 0;
        if remote[k] > have {
          need := need[k := have];
        }
        todo := todo - {k};
      }
    }

    /** The entries of one chain past `since`, ascending. */
    method After(k: ChainKey, since: u64) returns (out: seq<Entry>)
      ensures out == ChainAfter(entries, k, since)
    {
      out := [];
      for i := 0 to |entries|
        invariant out == Filter(entries[..i], InChainAfter(k, since))
      {
        var e := entries[i];
        assert entries[..i + 1][..i] == entries[..i];
        if e.thread == k.thread && e.author == k.author && e.lane == k.lane && e.seqNo > since {
          out := out + [e];
        }
      }
      assert entries[..|entries|] == entries;
      var a := new Entry[|out|](i requires 0 <= i < |out| => out[i]);
      assert a[..] == out;
      InsertionSort.SortInPlace(a, BySeqNo());
      out := a[..];
    }
  }

  /** Writes entries for one principal into one log. */
  class Author {
    const log: ThreadLog
    const pid: string

    constructor (log: ThreadLog, pid: string)
      ensures this.log == log && this.pid == pid
    {
      this.log := log;
      this.pid := pid;
    }

    method Append(d: Draft, id: string, ts: Option<int>) returns (w: Writing)
      requires log.Valid()
      modifies log
      ensures log.Valid()
      ensures w == AuthorAppend(old(log.View()), pid, d, id, ts)
      ensures log.View() == if w.Written? then w.log else old(log.View())
    {
      ghost var was := log.View();
      if d.body.None? {
        return BodyRequired;
      }
      var key := ChainKey(log.thread, pid, d.lane);
      var headSeq: u64 := if key in log.heads then log.heads[key].seqNo else 0;
      var prev := GenesisPrev;
      if headSeq > 0 {
        prev := log.heads[key].hash;
      }
      var e := Entry(ENVELOPE_VERSION, id, log.thread, d.kind, d.lane, pid, d.onBehalfOf,
                     Succ(headSeq), Succ(log.lamport), prev, ts, d.body.value, Some(pid), d.rest);
      assert e == NextEntry(was, pid, d, id, ts);
      var err := log.Append(e);
      if err.Some? {
        return NotAdmitted(err.value);
      }
      w := Written(Log(log.thread, log.heads, log.byId, log.entries, log.lamport), e);
    }
  }

  method NewThreadLogWith(pid: string, title: string, discoverable: bool, id: string, ts: Option<int>)
    returns (log: ThreadLog, err: Option<AppendError>)
    ensures fresh(log) && log.Valid()
    ensures match NewThreadWith(pid, title, discoverable, id, ts)
      case Admitted(l) => err == None && log.View() == l
      case Refused(x) => err == Some(x)
  {
    log := new ThreadLog(id);
    err := log.Append(GenesisEntry(pid, title, discoverable, id, ts));
  }
}
