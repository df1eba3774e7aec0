/**
  The consumer loop, the router and the two handlers in the form of the source.
  Every round of the loop is one step of the consumer machine, so what holds of
  its runs holds of the loop.
*/
module CdcConsumer {
  import opened Options
  import opened Cdc
  import CdcTheorems

  /**
    The search cluster: a call may fail before or after it took effect.  `faults`
    counts the calls that failed.
  */
  class Cluster {
    var index: Index
    ghost var faults: nat

    constructor ()
      ensures index == map[]
    {
      index, faults := map[], 0;
    }

    method Put(topic: Topic, doc: Document) returns (ok: bool, ghost stored: bool)
      modifies this
      ensures index == if stored then old(index)[Key(topic, doc.id) := doc] else old(index)
      ensures ok ==> stored && faults == old(faults)
      ensures !ok ==> faults > old(faults)
    {
      var effect: bool := *;
      ok := *;
      stored, ok := effect, effect && ok;
      if effect {
        index := index[Key(topic, doc.id) := doc];
      }
      if !ok { faults := faults + 1; }
    }

    /** Deleting an absent document succeeds. */
    method Remove(topic: Topic, id: string) returns (ok: bool, ghost stored: bool)
      modifies this
      ensures index == if stored then old(index) - {Key(topic, id)} else old(index)
      ensures ok ==> stored && faults == old(faults)
      ensures !ok ==> faults > old(faults)
    {
      var effect: bool := *;
      ok := *;
      stored, ok := effect, effect && ok;
      if effect {
        index := index - {Key(topic, id)};
      }
      if !ok { faults := faults + 1; }
    }
  }

  /** What a handler may do with a message: `stored` says that nothing asked of the index was left undone. */
  ghost predicate Outcomes(m: Message, index: Index, ok: bool, stored: bool, index': Index) {
    && index' == (if stored then Apply(index, m) else index)
    && (ok ==> Handled(m, stored))
    && (Decide(m).Nothing? ==> ok && stored)
    && (Decide(m).Refused? ==> !ok && stored)
  }

  /**
    The same from the message itself: which entry goes, which document comes, what
    is acknowledged without effect, and what is refused.  `fault` says that a call to
    the cluster failed.
  */
  ghost predicate Effects(topic: Topic, value: Value, index: Index, ok: bool, fault: bool, index': Index) {
    if !Known(topic) || value.Malformed? then !ok && !fault && index' == index
    else if value.op == "d" && value.before.Some? && value.before.value.Some? && value.before.value.value != "" then
      && ok == !fault && (ok ==> index' == index - {Key(topic, value.before.value.value)})
      && (index' == index || index' == index - {Key(topic, value.before.value.value)})
    else if IsUpsert(value.op) && value.after.Some? then
      var image := value.after.value;
      if !Maps(topic, image) then !ok && !fault && index' == index
      else if image.id == "" then ok && !fault && index' == index
      else
        var index1 := index[Key(topic, image.id) := Document(image.id, image.fields)];
        ok == !fault && (ok ==> index' == index1) && (index' == index || index' == index1)
    else ok && !fault && index' == index
  }

  class UserEventHandler {
    const indexer: Cluster

    constructor (indexer: Cluster)
      ensures this.indexer == indexer
    {
      this.indexer := indexer;
    }

    method Handle(value: Value) returns (ok: bool, ghost stored: bool)
      modifies indexer
      ensures Outcomes(Message(Users, value), old(indexer.index), ok, stored, indexer.index)
      ensures indexer.faults >= old(indexer.faults)
      ensures Effects(Users, value, old(indexer.index), ok, indexer.faults > old(indexer.faults), indexer.index)
    {
      if value.Malformed? { return false, true; }
      match value.op
      case "r" => ok, stored := HandleUpsert(value);
      case "c" => ok, stored := HandleUpsert(value);
      case "u" => ok, stored := HandleUpsert(value);
      case "d" => ok, stored := HandleDelete(value);
      case _ => return true, true;
    }

    method HandleUpsert(value: Value) returns (ok: bool, ghost stored: bool)
      requires value.Change? && IsUpsert(value.op)
      modifies indexer
      ensures Outcomes(Message(Users, value), old(indexer.index), ok, stored, indexer.index)
      ensures indexer.faults >= old(indexer.faults)
      ensures Effects(Users, value, old(indexer.index), ok, indexer.faults > old(indexer.faults), indexer.index)
    {
      if value.after.None? { return true, true; }
      var doc := UserDocument(value.after.value);
      if doc.None? { return false, true; }
      if doc.value.id == "" { return true, true; }
      ok, stored := indexer.Put(Users, doc.value);
    }

    method HandleDelete(value: Value) returns (ok: bool, ghost stored: bool)
      requires value.Change? && value.op == "d"
      modifies indexer
      ensures Outcomes(Message(Users, value), old(indexer.index), ok, stored, indexer.index)
      ensures indexer.faults >= old(indexer.faults)
      ensures Effects(Users, value, old(indexer.index), ok, indexer.faults > old(indexer.faults), indexer.index)
    {
      if value.before.None? { return true, true; }
      var id := value.before.value;
      if id.None? || id.value == "" { return true, true; }
      ok, stored := indexer.Remove(Users, id.value);
    }
  }

  class AuditLogEventHandler {
    const indexer: Cluster

    constructor (indexer: Cluster)
      ensures this.indexer == indexer
    {
      this.indexer := indexer;
    }

    method Handle(value: Value) returns (ok: bool, ghost stored: bool)
      modifies indexer
      ensures Outcomes(Message(AuditLogs, value), old(indexer.index), ok, stored, indexer.index)
      ensures indexer.faults >= old(indexer.faults)
      ensures Effects(AuditLogs, value, old(indexer.index), ok, indexer.faults > old(indexer.faults), indexer.index)
    {
      if value.Malformed? { return false, true; }
      match value.op
      case "r" => ok, stored := HandleUpsert(value);
      case "c" => ok, stored := HandleUpsert(value);
      case "u" => ok, stored := HandleUpsert(value);
      case "d" => ok, stored := HandleDelete(value);
      case _ => return true, true;
    }

    method HandleUpsert(value: Value) returns (ok: bool, ghost stored: bool)
      requires value.Change? && IsUpsert(value.op)
      modifies indexer
      ensures Outcomes(Message(AuditLogs, value), old(indexer.index), ok, stored, indexer.index)
      ensures indexer.faults >= old(indexer.faults)
      ensures Effects(AuditLogs, value, old(indexer.index), ok, indexer.faults > old(indexer.faults), indexer.index)
    {
      if value.after.None? { return true, true; }
      var doc := AuditDocument(value.after.value);
      if doc.id == "" { return true, true; }
      ok, stored := indexer.Put(AuditLogs, doc);
    }

    method HandleDelete(value: Value) returns (ok: bool, ghost stored: bool)
      requires value.Change? && value.op == "d"
      modifies indexer
      ensures Outcomes(Message(AuditLogs, value), old(indexer.index), ok, stored, indexer.index)
      ensures indexer.faults >= old(indexer.faults)
      ensures Effects(AuditLogs, value, old(indexer.index), ok, indexer.faults > old(indexer.faults), indexer.index)
    {
      if value.before.None? { return true, true; }
      var id := value.before.value;
      if id.None? || id.value == "" { return true, true; }
      ok, stored := indexer.Remove(AuditLogs, id.value);
    }
  }

  class Router {
    const cluster: Cluster
    const users: UserEventHandler
    const audits: AuditLogEventHandler

    ghost predicate Valid() {
      users.indexer == cluster && audits.indexer == cluster
    }

    constructor (cluster: Cluster)
      ensures Valid() && this.cluster == cluster
    {
      this.cluster := cluster;
      users := new UserEventHandler(cluster);
      audits := new AuditLogEventHandler(cluster);
    }

    method Handle(topic: Topic, value: Value) returns (ok: bool, ghost stored: bool)
      requires Valid()
      modifies cluster
      ensures Outcomes(Message(topic, value), old(cluster.index), ok, stored, cluster.index)
      ensures cluster.faults >= old(cluster.faults)
      ensures Effects(topic, value, old(cluster.index), ok, cluster.faults > old(cluster.faults), cluster.index)
    {
      match topic
      case Users => ok, stored := users.Handle(value);
      case AuditLogs => ok, stored := audits.Handle(value);
      case Other => return false, true;
    }
  }

  /** The broker's side: the logs, and where the consumer group stands in each. */
  class Reader {
    var logs: map<Partition, seq<Message>>
    var cursors: map<Partition, Cursor>
    ghost var faults: nat

    constructor (logs: map<Partition, seq<Message>>)
      ensures this.logs == logs && cursors.Keys == logs.Keys
      ensures forall p :: p in cursors ==> cursors[p] == Cursor(0, 0, 0)
    {
      this.logs := logs;
      cursors := map p | p in logs :: Cursor(0, 0, 0);
      faults := 0;
    }

    /** The next message of some partition, or an error. */
    method FetchMessage() returns (r: Result<Partition>)
      modifies this`cursors, this`faults
      ensures faults >= old(faults) && (r.Ok? ==> faults == old(faults))
      ensures r.Err? ==> cursors == old(cursors)
      ensures r.Err? && faults == old(faults) ==>
                forall p :: p in logs && p in cursors ==> cursors[p].next >= |logs[p]|
      ensures r.Ok? ==> var p := r.value;
                p in logs && p in old(cursors) && old(cursors)[p].next < |logs[p]|
                && cursors == old(cursors)[p := Cursor(old(cursors)[p].next + 1, old(cursors)[p].committed,
                                                       Max(old(cursors)[p].reached, old(cursors)[p].next + 1))]
    {
      var ready := set p | p in logs && p in cursors && cursors[p].next < |logs[p]|;
      var failed: bool := *;
      if failed {
        faults := faults + 1;
        return Err(Fault);
      }
      if ready == {} {
        assert forall p :: p in logs && p in cursors && cursors[p].next < |logs[p]| ==> p in ready;
        return Err(NotFound);
      }
      var p :| p in ready;
      var c := cursors[p];
      cursors := cursors[p := Cursor(c.next + 1, c.committed, Max(c.reached, c.next + 1))];
      r := Ok(p);
    }

    method CommitMessages(p: Partition, offset: nat) returns (ok: bool)
      requires p in cursors
      modifies this`cursors, this`faults
      ensures if ok then faults == old(faults) else faults > old(faults)
      ensures cursors == if ok then old(cursors)[p := old(cursors)[p].(committed := offset + 1)] else old(cursors)
    {
      ok := *;
      if ok {
        cursors := cursors[p := cursors[p].(committed := offset + 1)];
      } else {
        faults := faults + 1;
      }
    }
  }

  lemma AllConverge(s: State, evs: seq<Event>, home: Key -> Partition)
    requires Init(s) && Keyed(s.logs, home) && ValidRun(s, evs) && KeyedRun(evs, home)
    ensures var t := Cdc.Run(s, evs);
      forall key :: CdcTheorems.CaughtUp(t, home(key)) ==>
        (Get(t.index, key) == Get(ApplyAll(map[], t.logs[home(key)]), key) <==> key !in Missed(s, evs, {}))
  {
    forall key | CdcTheorems.CaughtUp(Cdc.Run(s, evs), home(key))
      ensures Get(Cdc.Run(s, evs).index, key) == Get(ApplyAll(map[], Cdc.Run(s, evs).logs[home(key)]), key)
              <==> key !in Missed(s, evs, {})
    {
      CdcTheorems.Converges(s, evs, home, key);
    }
  }

  // ----- What the loop gets done -----

  ghost function Deliveries(evs: seq<Event>): nat {
    if evs == [] then 0 else (if evs[0].Deliver? then 1 else 0) + Deliveries(evs[1..])
  }

  lemma {:induction false} DeliveriesAdd(a: seq<Event>, b: seq<Event>)
    ensures Deliveries(a + b) == Deliveries(a) + Deliveries(b)
    decreases |a|
  {
    if a == [] {
      assert a + b == b;
    } else {
      assert (a + b)[0] == a[0] && (a + b)[1..] == a[1..] + b;
      DeliveriesAdd(a[1..], b);
    }
  }

  lemma {:induction false} NoDeliveries(evs: seq<Event>)
    requires forall e :: e in evs ==> !e.Deliver?
    ensures Deliveries(evs) == 0
    decreases |evs|
  {
    if evs != [] {
      NoDeliveries(evs[1..]);
    }
  }

  /** Every partition is read to its end. */
  ghost predicate NothingLeft(s: State) {
    forall p :: p in s.logs && p in s.cursors ==> s.cursors[p].next >= |s.logs[p]|
  }

  /** At some point of the run there was nothing left to deliver. */
  ghost predicate WasIdle(s: State, evs: seq<Event>) {
    exists k :: 0 <= k <= |evs| && ValidRun(s, evs[..k]) && NothingLeft(Cdc.Run(s, evs[..k]))
  }

  lemma IdleStays(s: State, evs: seq<Event>, more: seq<Event>)
    requires WasIdle(s, evs)
    ensures WasIdle(s, evs + more)
  {
    var k :| 0 <= k <= |evs| && ValidRun(s, evs[..k]) && NothingLeft(Cdc.Run(s, evs[..k]));
    assert (evs + more)[..k] == evs[..k];
  }

  /** The message cannot be handled: a foreign topic, undecodable bytes, or a row that its mapper refuses. */
  predicate Refuses(m: Message) {
    || !Known(m.topic) || m.value.Malformed?
    || (IsUpsert(m.value.op) && m.value.after.Some? && !Maps(m.topic, m.value.after.value))
  }

  class Consumer {
    const reader: Reader
    const router: Router

    constructor (reader: Reader, router: Router)
      requires router.Valid()
      ensures this.reader == reader && this.router == router
    {
      this.reader, this.router := reader, router;
    }

    ghost function St(): State
      reads reader, router.cluster
    {
      State(reader.logs, reader.cursors, router.cluster.index)
    }

    /** Restarts and new changes; the caller sees only this contract. */
    method Interfere(ghost home: Key -> Partition) returns (ghost evs: seq<Event>)
      modifies reader
      ensures ValidRun(old(St()), evs) && Cdc.Run(old(St()), evs) == St() && KeyedRun(evs, home)
      ensures (forall e :: e in evs ==> !e.Deliver?) && reader.faults == old(reader.faults)
    {
      evs := [];
    }

    /** One round of the loop after its fetch succeeded: handle, and commit unless that failed. */
    method Consume(p: Partition, ghost before: State) returns (ghost e: Event)
      requires router.Valid() && p in reader.logs && p in before.cursors && p in reader.cursors
      requires before.logs == reader.logs && before.index == router.cluster.index
      requires before.cursors[p].next < |reader.logs[p]|
      requires reader.cursors == before.cursors[p := Cursor(before.cursors[p].next + 1, before.cursors[p].committed,
                                                            Max(before.cursors[p].reached, before.cursors[p].next + 1))]
      modifies reader`cursors, reader`faults, router.cluster
      ensures e.Deliver? && e.p == p && Enabled(before, e) && St() == Next(before, e)
      ensures reader.faults >= old(reader.faults) && router.cluster.faults >= old(router.cluster.faults)
      ensures reader.faults == old(reader.faults) && router.cluster.faults == old(router.cluster.faults) ==>
                e.stored && (e.committed <==> !Refuses(reader.logs[p][before.cursors[p].next]))
    {
      var offset := reader.cursors[p].next - 1;
      var m := reader.logs[p][offset];
      var ok, stored := router.Handle(m.topic, m.value);
      assert Message(m.topic, m.value) == m;
      if !ok {
        e := Deliver(p, stored, false);
        return;
      }
      var committed := reader.CommitMessages(p, offset);
      e := Deliver(p, stored, committed);
    }

    /**
      The endless loop, until the context is cancelled after some number of
      rounds: it is a run of the machine, and where it has read a partition to its
      end the index has converged on exactly the keys that were not missed.
      Without failing calls no key is missed, and every round delivers a message
      unless at some point there was none left.
    */
    method Run(rounds: nat, ghost home: Key -> Partition) returns (ghost evs: seq<Event>)
      requires router.Valid()
      modifies reader, router.cluster
      ensures ValidRun(old(St()), evs) && Cdc.Run(old(St()), evs) == St() && KeyedRun(evs, home)
      ensures Init(old(St())) && Keyed(old(reader.logs), home) ==>
                forall key :: CdcTheorems.CaughtUp(St(), home(key)) ==>
                  (Get(router.cluster.index, key) == Get(ApplyAll(map[], reader.logs[home(key)]), key)
                   <==> key !in Missed(old(St()), evs, {}))
      ensures reader.faults == old(reader.faults) && router.cluster.faults == old(router.cluster.faults) ==>
                CdcTheorems.AllStored(evs) && (Deliveries(evs) == rounds || WasIdle(old(St()), evs))
    {
      hide Init, Next, Missed;
      evs := [];
      ghost var s0 := St();
      ghost var idle := false;
      for k := 0 to rounds
        invariant ValidRun(s0, evs) && Cdc.Run(s0, evs) == St() && KeyedRun(evs, home)
        invariant reader.faults >= old(reader.faults) && router.cluster.faults >= old(router.cluster.faults)
        invariant idle ==> WasIdle(s0, evs)
        invariant reader.faults == old(reader.faults) && router.cluster.faults == old(router.cluster.faults) ==>
                    CdcTheorems.AllStored(evs) && (Deliveries(evs) == k || idle)
      {
        ghost var others := Interfere(home);
        RunConcat(s0, evs, others);
        DeliveriesAdd(evs, others);
        NoDeliveries(others);
        if idle { IdleStays(s0, evs, others); }
        evs := evs + others;
        ghost var before := St();
        var r := reader.FetchMessage();
        if r.Ok? {
          ghost var e := Consume(r.value, before);
          DeliveriesAdd(evs, [e]);
          ghost var longer := Extend(s0, evs, e);
          if idle { IdleStays(s0, evs, [e]); }
          evs := longer;
        } else if reader.faults == old(reader.faults) {
          idle := true;
          assert evs[..|evs|] == evs;
          assert NothingLeft(Cdc.Run(s0, evs[..|evs|]));
        }
      }
      if Init(s0) && Keyed(s0.logs, home) { AllConverge(s0, evs, home); }
    }
  }
}
