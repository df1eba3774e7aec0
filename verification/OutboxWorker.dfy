/**
  The outbox worker in the form of the source.  Other workers and the producers
  may run between any two of its steps; each of its steps is one of the outbox
  machine.
*/
module OutboxWorker {
  import opened Options
  import opened OutboxTable
  import opened OutboxProtocol
  import opened OutboxInvariants
  import opened OutboxRounds
  import opened OutboxTheorems
  import Backoff

  // ----- Traces -----

  /** The events from `s` to `s'`, in which worker `w` only publishes and settles; it does not crash. */
  ghost predicate Trace(w: WorkerId, s: State, evs: seq<Event>, s': State) {
    ValidRun(s, evs) && Run(s, evs) == s' && AllWork(evs, w)
  }

  lemma TraceSelf(w: WorkerId, s: State)
    ensures Trace(w, s, [], s)
  {
    assert ValidRun(s, []) && Run(s, []) == s;
  }

  lemma TraceStep(w: WorkerId, s0: State, evs: seq<Event>, s: State, e: Event)
    requires Trace(w, s0, evs, s) && Enabled(s, e) && Works(e, w)
    ensures Trace(w, s0, evs + [e], Next(s, e))
  {
    var evs' := Extend(s0, evs, e);
  }

  lemma TraceConcat(w: WorkerId, a: State, p: seq<Event>, b: State, q: seq<Event>, c: State)
    requires Trace(w, a, p, b) && Trace(w, b, q, c)
    ensures Trace(w, a, p + q, c)
  {
    RunConcat(a, p, q);
  }

  lemma {:induction false} OthersKeep(me: WorkerId, s: State, evs: seq<Event>)
    requires ValidRun(s, evs) && ByOthers(evs, me)
    ensures me in s.workers <==> me in Run(s, evs).workers
    ensures me in s.workers ==> Run(s, evs).workers[me] == s.workers[me]
    decreases |evs|
  {
    if evs != [] {
      assert evs[0] in evs;
      OthersKeepStep(me, s, evs[0]);
      OthersKeep(me, Next(s, evs[0]), evs[1..]);
    }
  }

  lemma ClockKept(s: State, e: Event)
    requires Enabled(s, e) && !e.Tick?
    ensures Next(s, e).clock == s.clock && Next(s, e).cfg == s.cfg
  {
  }

  /** The head of a batch is a row that this worker has claimed. */
  lemma HeadHeld(s: State, w: WorkerId)
    requires Inv(s) && w in s.workers
    ensures s.workers[w].Items() != [] && Held(s, w, s.workers[w].Items()[0])
  {
    assert PhaseSound(s, w, s.workers[w]);
  }

  lemma {:induction false} OldestExists(rows: Rows, ids: set<Id>)
    requires ids != {} && ids <= rows.Keys
    ensures exists x :: x in ids && forall y :: y in ids ==> rows[x].createdAt <= rows[y].createdAt
    decreases ids
  {
    var x :| x in ids;
    if ids != {x} {
      OldestExists(rows, ids - {x});
      var z :| z in ids - {x} && forall y :: y in ids - {x} ==> rows[z].createdAt <= rows[y].createdAt;
      var o := if rows[x].createdAt <= rows[z].createdAt then x else z;
      assert forall y :: y in ids ==> rows[o].createdAt <= rows[y].createdAt;
    }
  }

  /** `ids` are the oldest rows of `pool`, in order, and `rest` are the others. */
  ghost predicate Picked(rows: Rows, pool: set<Id>, ids: seq<Id>, rest: set<Id>) {
    && pool <= rows.Keys && rest <= pool && Distinct(ids)
    && (forall id :: id in pool <==> id in ids || id in rest)
    && (forall i :: 0 <= i < |ids| ==> ids[i] in pool && ids[i] !in rest)
    && (forall i, j :: 0 <= i < j < |ids| ==> rows[ids[i]].createdAt <= rows[ids[j]].createdAt)
    && (forall i, id :: 0 <= i < |ids| && id in rest ==> rows[ids[i]].createdAt <= rows[id].createdAt)
  }

  lemma PickNext(rows: Rows, pool: set<Id>, ids: seq<Id>, rest: set<Id>, x: Id)
    requires Picked(rows, pool, ids, rest) && x in rest
    requires forall y :: y in rest ==> rows[x].createdAt <= rows[y].createdAt
    ensures Picked(rows, pool, ids + [x], rest - {x})
  {
    var ids', rest' := ids + [x], rest - {x};
    forall id
      ensures id in pool <==> id in ids' || id in rest'
    {
      assert id in ids' <==> id in ids || id == x;
    }
  }

  /** Every settling statement of the worker went through. */
  ghost predicate AllSettled(evs: seq<Event>, w: WorkerId) {
    forall e :: e in evs && e.Settle? && e.w == w ==> e.ok
  }

  /** The first events were offered to the broker, each once and in order. */
  ghost predicate Offered(tried: seq<Attempt>, events: seq<Item>) {
    |tried| <= |events| && forall i :: 0 <= i < |tried| ==> tried[i].message == events[i].row.message
  }

  /** Puts a round together from its claim and the trace after it. */
  lemma RoundHappened(w: WorkerId, s: State, r: Round, s1: State, s': State)
    requires w !in s.workers && w !in s'.workers && ByOthers(r.first, w) && Claims(s, w, r)
    requires AfterClaim(s, w, r) == s1 && Trace(w, s1, r.rest, s')
    ensures Happens(s, w, r, s')
  {
  }

  /** What the answer of the broker changes: the worker's phase, and for a refusal the counter of failures. */
  lemma AnswerEffect(s: State, e: Event)
    requires Enabled(s, e) && (e.PublishOk? || e.PublishErr?)
    ensures Next(s, e).rows == s.rows
    ensures Next(s, e).metrics == if e.PublishOk? then s.metrics else s.metrics.(failed := s.metrics.failed + 1)
    ensures e.w in Next(s, e).workers
    ensures var b := s.workers[e.w].batch;
      Next(s, e).workers[e.w] == if e.PublishOk? then Acked(b[0], b[1..]) else Nacked(b[0], e.error, b[1..])
  {
  }

  lemma NothingHappened(w: WorkerId, s: State, r: Round, s': State)
    requires w !in s.workers && w !in s'.workers && ValidRun(s, r.first) && ByOthers(r.first, w)
    requires r.claim.None? && r.rest == [] && Run(s, r.first) == s'
    ensures Happens(s, w, r, s') && !Calm(r, w) && Attempts(r.rest, w) == []
  {
  }

  lemma FailureIsNotCalm(r: Round, w: WorkerId)
    requires Settle(w, false, 0) in r.rest
    ensures !Calm(r, w)
  {
    assert Actor(Settle(w, false, 0)) == Some(w);
  }

  lemma IdleAfter(w: WorkerId, s: State, r: Round, s': State)
    requires Happens(s, w, r, s')
    ensures w !in s'.workers
  {
  }

  class Store {
    var clock: Time
    var rows: Rows
    var metrics: Metrics
    ghost var faults: nat  // failed statements of the calls made through this object
    ghost var workers: map<WorkerId, Phase>
    ghost var calls: map<Id, nat>
    ghost var acks: map<Id, nat>
    ghost var abandoned: nat
    const cfg: Config

    ghost function St(): State
      reads this
    {
      State(clock, cfg, rows, workers, metrics, calls, acks, abandoned)
    }

    constructor (cfg: Config, now: Time)
      ensures Init(St()) && Inv(St()) && this.cfg == cfg
    {
      clock, rows, metrics, faults := now, map[], Metrics(0, 0, 0, 0, 0), 0;
      workers, calls, acks, abandoned := map[], map[], map[], 0;
      this.cfg := cfg;
      new;
      InitInv(St());
    }

    /** Any run of the other workers, the producers and the clock; the caller sees only this contract. */
    method Interfere(ghost me: WorkerId) returns (ghost evs: seq<Event>)
      modifies this
      ensures ValidRun(old(St()), evs) && Run(old(St()), evs) == St() && ByOthers(evs, me) && faults == old(faults)
    {
      evs := [];
    }

    method Yield(ghost me: WorkerId) returns (ghost evs: seq<Event>)
      requires Inv(St())
      modifies this
      ensures ValidRun(old(St()), evs) && Run(old(St()), evs) == St() && ByOthers(evs, me)
      ensures Inv(St()) && Trace(me, old(St()), evs, St()) && faults == old(faults)
      ensures me in old(workers) <==> me in workers
      ensures me in old(workers) ==> workers[me] == old(workers)[me]
    {
      hide Inv;
      evs := Interfere(me);
      InvRun(old(St()), evs);
      OthersKeep(me, old(St()), evs);
    }

    /** Accounts for an atomic step that took `before` to the current table and counters. */
    ghost method Took(before: State, e: Event)
      requires Inv(before) && Enabled(before, e)
      requires !e.Tick? && St() == before.(rows := Next(before, e).rows, metrics := Next(before, e).metrics)
      modifies this`workers, this`calls, this`acks, this`abandoned
      ensures St() == Next(before, e) && Inv(St())
    {
      hide Next, Enabled, Inv;
      ClockKept(before, e);
      var after := Next(before, e);
      workers, calls, acks, abandoned := after.workers, after.calls, after.acks, after.abandoned;
      InvStep(before, e);
    }

    // ----- Repository -----

    /** Oldest first; `locked` are the rows that concurrent transactions hold. */
    method ListPendingForUpdate(limit: int, locked: set<Id>) returns (r: Result<seq<Id>>)
      modifies this`faults
      ensures if r.Ok? then faults == old(faults) else faults > old(faults)
      ensures r.Ok? ==> Lists(rows, clock, limit, locked, r.value)
    {
      var fault: bool := *;
      if fault {
        faults := faults + 1;
        return Err(Fault);
      }
      ghost var pool := set id | id in rows && rows[id].Eligible(clock) && id !in locked;
      var rest := set id | id in rows && rows[id].Eligible(clock) && id !in locked;
      var ids: seq<Id> := [];
      while rest != {} && (limit < 0 || |ids| < limit)
        invariant faults == old(faults)
        invariant Picked(rows, pool, ids, rest) && (limit >= 0 ==> |ids| <= limit)
        decreases rest
      {
        OldestExists(rows, rest);
        var x :| x in rest && forall y :: y in rest ==> rows[x].createdAt <= rows[y].createdAt;
        PickNext(rows, pool, ids, rest, x);
        ids := ids + [x];
        rest := rest - {x};
      }
      r := Ok(ids);
    }

    /** Afterwards none of the ids is waiting; only waiting rows among them change, and they become this worker's. */
    method MarkPublishingRows(ids: seq<Id>, w: WorkerId) returns (err: Option<Error>)
      modifies this`rows, this`faults
      ensures if err.None? then faults == old(faults) else faults > old(faults)
      ensures rows.Keys == old(rows).Keys
      ensures err.None? ==> forall id :: id in ids && id in rows ==> !rows[id].Waiting()
      ensures err.None? ==> forall id :: id in rows && rows[id] != old(rows)[id] ==>
                && id in ids && old(rows)[id].Waiting()
                && rows[id] == old(rows)[id].(status := Publishing, claimedAt := Some(clock), claimedBy := Some(w))
      ensures err.None? ==> rows == MarkPublishing(old(rows), ids, w, clock)
      ensures err.Some? ==> rows == old(rows)
    {
      if ids == [] {
        assert rows == MarkPublishing(rows, ids, w, clock);
        return None;
      }
      var fault: bool := *;
      if fault {
        faults := faults + 1;
        return Some(Fault);
      }
      rows := MarkPublishing(rows, ids, w, clock);
      err := None;
    }

    method MarkPublishedRow(id: Id) returns (err: Option<Error>)
      modifies this`rows, this`faults
      ensures if err.None? then faults == old(faults) else faults > old(faults)
      ensures err.None? ==> rows == MarkPublished(old(rows), id, clock)
      ensures err.Some? ==> rows == old(rows)
    {
      var fault: bool := *;
      if fault {
        faults := faults + 1;
        return Some(Fault);
      }
      if id in rows && rows[id].status == Publishing {
        rows := rows[id := rows[id].(status := Published, publishedAt := Some(clock), lastError := None,
                                     nextRetryAt := None, claimedAt := None, claimedBy := None)];
      }
      err := None;
    }

    method MarkRetryScheduledRow(id: Id, retryCount: int, lastError: string, nextAt: Time) returns (err: Option<Error>)
      modifies this`rows, this`faults
      ensures if err.None? then faults == old(faults) else faults > old(faults)
      ensures err.None? ==> rows == MarkRetryScheduled(old(rows), id, retryCount, lastError, nextAt)
      ensures err.Some? ==> rows == old(rows)
    {
      var fault: bool := *;
      if fault {
        faults := faults + 1;
        return Some(Fault);
      }
      if id in rows && rows[id].status == Publishing {
        rows := rows[id := rows[id].(status := RetryScheduled, retryCount := retryCount, lastError := Some(lastError),
                                     nextRetryAt := Some(nextAt), claimedAt := None, claimedBy := None)];
      }
      err := None;
    }

    method MarkDeadLetterRow(id: Id, lastError: string) returns (err: Option<Error>)
      modifies this`rows, this`faults
      ensures if err == Some(Fault) then faults > old(faults) else faults == old(faults)
      ensures err.None? ==>
                && id in old(rows) && old(rows)[id].status == Publishing
                && rows == MarkDeadLetter(old(rows), id, lastError)
      ensures err.Some? ==> rows == old(rows)
      ensures err == Some(NotFound) ==> !(id in rows && rows[id].status == Publishing)
    {
      var fault: bool := *;
      if fault {
        faults := faults + 1;
        return Some(Fault);
      }
      if id !in rows || rows[id].status != Publishing { return Some(NotFound); }
      rows := rows[id := rows[id].(status := DeadLetter, lastError := Some(lastError),
                                   nextRetryAt := None, claimedAt := None, claimedBy := None)];
      err := None;
    }
  }

  /** The worker's way to the broker, with the history of its calls. */
  class Publisher {
    ghost var attempts: seq<Attempt>

    constructor ()
      ensures attempts == []
    {
      attempts := [];
    }

    /** The broker takes the message or refuses it with an error text. */
    method Publish(topic: string, key: string, payload: string) returns (refused: Option<string>)
      modifies this
      ensures topic == "" || key == "" ==> refused.Some?
      ensures attempts == old(attempts) + [Attempt(Message(topic, key, payload), refused)]
    {
      if topic == "" {
        refused := Some("kafka topic is required");
      } else if key == "" {
        refused := Some("kafka message key is required");
      } else {
        var text: string := *;
        var delivered: bool := *;
        refused := if delivered then None else Some(text);
      }
      attempts := attempts + [Attempt(Message(topic, key, payload), refused)];
    }
  }

  class Worker {
    const store: Store
    const publisher: Publisher
    const id: WorkerId
    const backoff: Backoff.Config

    constructor (store: Store, publisher: Publisher, id: WorkerId, backoff: Backoff.Config)
      ensures this.store == store && this.publisher == publisher && this.id == id && this.backoff == backoff
    {
      this.store, this.publisher, this.id, this.backoff := store, publisher, id, backoff;
    }

    /** The claim transaction: list, mark, and keep the copies as they were listed. */
    method ClaimPendingEvents() returns (r: Result<seq<Item>>, ghost ids: seq<Id>, ghost locked: set<Id>)
      modifies store`rows, store`faults
      ensures if r.Ok? then store.faults == old(store.faults) else store.faults > old(store.faults)
      ensures r.Ok? ==>
                && Lists(old(store.rows), store.clock, store.cfg.batchSize, locked, ids)
                && store.rows == MarkPublishing(old(store.rows), ids, id, store.clock)
                && r.value == ItemsOf(old(store.rows), ids)
      ensures r.Err? ==> store.rows == old(store.rows)
    {
      var begun := store.rows;
      var skipped: set<Id> := *;
      locked, ids := skipped, [];
      var pending := store.ListPendingForUpdate(store.cfg.batchSize, skipped);
      if pending.Err? { r := Err(Fault); return; }
      ids := pending.value;
      if |pending.value| == 0 {
        assert store.rows == MarkPublishing(begun, ids, id, store.clock);
        r := Ok([]);
        return;
      }
      var err := store.MarkPublishingRows(pending.value, id);
      if err.Some? {
        store.rows := begun;
        r := Err(Fault);
        return;
      }
      r := Ok(ItemsOf(begun, pending.value));
    }

    /** Accounts for a publishing or settling step at the end of a trace. */
    ghost method Advance(s0: State, evs: seq<Event>, before: State, e: Event)
      requires Inv(before) && Trace(id, s0, evs, before) && Enabled(before, e)
      requires e.PublishOk? || e.PublishErr? || e.Settle?
      requires store.St() == before.(rows := Next(before, e).rows, metrics := Next(before, e).metrics)
      modifies store`workers, store`calls, store`acks, store`abandoned
      ensures store.St() == Next(before, e) && Inv(store.St()) && Trace(id, s0, evs + [e], store.St())
    {
      hide Trace, Next, Enabled, Inv;
      store.Took(before, e);
      TraceStep(id, s0, evs, before, e);
    }

    /** Others run during a pass. */
    method Pause(ghost s0: State, ghost evs: seq<Event>) returns (ghost evs': seq<Event>)
      requires Inv(store.St()) && Trace(id, s0, evs, store.St())
      modifies store
      ensures Inv(store.St()) && Trace(id, s0, evs', store.St()) && evs <= evs' && store.faults == old(store.faults)
      ensures Attempts(evs', id) == Attempts(evs, id)
      ensures forall e :: e in evs' && Actor(e) == Some(id) ==> e in evs
      ensures id in old(store.workers) <==> id in store.workers
      ensures id in old(store.workers) ==> store.workers[id] == old(store.workers)[id]
    {
      hide Trace, Inv;
      ghost var others := store.Yield(id);
      TraceConcat(id, s0, evs, old(store.St()), others, store.St());
      OthersAttemptNothing(others, id);
      AttemptsAdd(evs, others, id);
      evs' := evs + others;
    }

    /**
      Settles a failed event: dead letter once the bound is reached, otherwise
      another try after the backoff.  A failing statement is only logged.
    */
    method HandlePublishFailed(item: Item, error: string, ghost rest: seq<Item>) returns (ghost evs: seq<Event>)
      requires Inv(store.St()) && id in store.workers && store.workers[id] == Nacked(item, error, rest)
      modifies store
      ensures Inv(store.St()) && Trace(id, old(store.St()), evs, store.St()) && store.clock == old(store.clock)
      ensures Attempts(evs, id) == [] && store.faults >= old(store.faults)
      ensures store.faults == old(store.faults) ==> AllSettled(evs, id)
      ensures if rest == [] then id !in store.workers else id in store.workers && store.workers[id] == Busy(rest)
      ensures item.id in old(store.rows) && item.id in store.rows
      ensures var before, after := old(store.rows)[item.id], store.rows[item.id];
        var last := item.row.retryCount + 1 >= item.row.MaxRetry(store.cfg.maxRetry);
        || (after == before && store.faults > old(store.faults))
        || (last && after.status == DeadLetter && after.retryCount == before.retryCount
            && after.lastError == Some(error) && after.nextRetryAt.None?)
        || (!last && after.status == RetryScheduled && after.retryCount == before.retryCount + 1
            && after.lastError == Some(error)
            && exists rand: real :: 0.0 <= rand < 1.0 && after.nextRetryAt == Some(store.clock + Backoff.ApplyJitter(
                 Backoff.Doubled(backoff.Initial(), Backoff.Steps(after.retryCount), backoff.Max()),
                 backoff.ratio, rand)))
    {
      hide Inv, Trace;
      HeadHeld(store.St(), id);
      ghost var before := store.St();
      TraceSelf(id, before);
      assert before.workers[id].Items()[0] == item;
      var retryCount := item.row.retryCount + 1;
      var maxRetry := item.row.maxRetry;
      if maxRetry <= 0 {
        maxRetry := store.cfg.maxRetry;
      }
      if retryCount >= maxRetry {
        var err := store.MarkDeadLetterRow(item.id, error);
        assert err.Some? ==> err.value != NotFound && err.value == Fault;
        if err.None? {
          store.metrics := store.metrics.(deadLettered := store.metrics.deadLettered + 1);
        }
        Advance(before, [], before, Settle(id, err.None?, 0));
        AttemptsOne(Settle(id, err.None?, 0), id);
        evs := [] + [Settle(id, err.None?, 0)];
        return;
      }
      var rand: real := *;
      if !(0.0 <= rand < 1.0) { rand := 0.0; }
      var nextAt := Backoff.NextRetryAt(retryCount, backoff, store.clock, rand);
      var err := store.MarkRetryScheduledRow(item.id, retryCount, error, nextAt);
      if err.None? {
        store.metrics := store.metrics.(retried := store.metrics.retried + 1);
      }
      Advance(before, [], before, Settle(id, err.None?, nextAt));
      AttemptsOne(Settle(id, err.None?, nextAt), id);
      evs := [] + [Settle(id, err.None?, nextAt)];
    }

    /**
      One tick of the worker.  Without a failing statement it claims, and settles
      all it claimed; the broker was asked exactly what the round says.
    */
    method PublishPending() returns (err: Option<Error>, ghost round: Round)
      requires Inv(store.St()) && id !in store.workers
      modifies store, publisher
      ensures Inv(store.St()) && Happens(old(store.St()), id, round, store.St())
      ensures publisher.attempts == old(publisher.attempts) + Attempts(round.rest, id)
      ensures store.faults >= old(store.faults)
      ensures store.faults == old(store.faults) ==> err.None? && Faultless(round, id)
      ensures err.Some? ==> !Calm(round, id)
    {
      hide Inv, Trace, Happens, Calm, Offered, Attempts;
      ghost var first := store.Yield(id);
      ghost var mid := store.St();
      round := Round(first, None, []);
      var claimed, ids, locked := ClaimPendingEvents();
      if claimed.Err? {
        NothingHappened(id, old(store.St()), round, store.St());
        err := Some(claimed.error);
        return;
      }
      var events := claimed.value;
      store.metrics := store.metrics.(claimed := store.metrics.claimed + |events|);
      store.Took(mid, Claim(id, ids, locked));
      ghost var s1, rest := store.St(), [];
      err, rest := PublishClaimed(events);
      round := Round(first, Some(Taken(ids, locked)), rest);
      RoundHappened(id, old(store.St()), round, s1, store.St());
      if err.Some? { FailureIsNotCalm(round, id); }
    }

    /**
      The loop over the claimed events, each offered to the broker once and in
      order; it stops early when MarkPublished fails.
    */
    method PublishClaimed(events: seq<Item>) returns (err: Option<Error>, ghost evs: seq<Event>)
      requires Inv(store.St())
      requires if events == [] then id !in store.workers else id in store.workers && store.workers[id] == Busy(events)
      modifies store, publisher
      ensures Inv(store.St()) && Trace(id, old(store.St()), evs, store.St()) && id !in store.workers
      ensures publisher.attempts == old(publisher.attempts) + Attempts(evs, id)
      ensures Offered(Attempts(evs, id), events) && (err.None? ==> |Attempts(evs, id)| == |events|)
      ensures store.faults >= old(store.faults)
      ensures store.faults == old(store.faults) ==> err.None? && AllSettled(evs, id)
      ensures err.Some? ==> Settle(id, false, 0) in evs
    {
      hide Inv, Trace;
      ghost var s0 := store.St();
      TraceSelf(id, s0);
      evs := [];
      for i := 0 to |events|
        invariant Inv(store.St()) && Trace(id, s0, evs, store.St())
        invariant if events[i..] == [] then id !in store.workers
                  else id in store.workers && store.workers[id] == Busy(events[i..])
        invariant publisher.attempts == old(publisher.attempts) + Attempts(evs, id)
        invariant Offered(Attempts(evs, id), events) && |Attempts(evs, id)| == i
        invariant store.faults >= old(store.faults)
        invariant store.faults == old(store.faults) ==> AllSettled(evs, id)
      {
        assert events[i..][0] == events[i] && events[i..][1..] == events[i + 1..];
        ghost var before, more, answer := store.St(), [], None;
        err, more, answer := PublishOne(events[i], events[i + 1..]);
        TraceConcat(id, s0, evs, before, more, store.St());
        AttemptsAdd(evs, more, id);
        evs := evs + more;
        if err.Some? { return; }
      }
      err := None;
    }

    /**
      Offers the event to the broker.  A message that was taken has its row published
      unless MarkPublished failed; a refused one is counted as failed, and its row is
      dead-lettered or scheduled again unless that statement failed.
    */
    method PublishOne(event: Item, ghost rest: seq<Item>)
      returns (err: Option<Error>, ghost evs: seq<Event>, ghost answer: Option<string>)
      requires Inv(store.St()) && id in store.workers && store.workers[id] == Busy([event] + rest)
      modifies store, publisher
      ensures Inv(store.St()) && Trace(id, old(store.St()), evs, store.St())
      ensures Attempts(evs, id) == [Attempt(event.row.message, answer)]
      ensures publisher.attempts == old(publisher.attempts) + [Attempt(event.row.message, answer)]
      ensures event.id in store.rows
      ensures answer.None? && err.None? ==> store.rows[event.id].status == Published
      ensures answer.Some? ==> err.None? && store.rows[event.id].status != Published
      ensures answer.Some? && store.faults == old(store.faults) ==>
                store.rows[event.id].status == RetryScheduled || store.rows[event.id].status == DeadLetter
      ensures store.faults >= old(store.faults)
      ensures store.faults == old(store.faults) ==> err.None? && AllSettled(evs, id)
      ensures err.Some? ==> id !in store.workers && Settle(id, false, 0) in evs
      ensures err.None? ==>
                if rest == [] then id !in store.workers else id in store.workers && store.workers[id] == Busy(rest)
    {
      hide Inv, Trace, Next;
      ghost var s0 := store.St();
      TraceSelf(id, s0);
      assert ([event] + rest)[1..] == rest;
      evs := Pause(s0, []);
      var m := event.row.message;
      var refused := publisher.Publish(m.topic, m.key, m.payload);
      answer := refused;
      ghost var before := store.St();
      if refused.Some? {
        store.metrics := store.metrics.(failed := store.metrics.failed + 1);
        ghost var e := PublishErr(id, Message(m.topic, m.key, m.payload), refused.value);
        AnswerEffect(before, e);
        Advance(s0, evs, before, e);
        AttemptsAdd(evs, [e], id);
        AttemptsOne(e, id);
        evs := evs + [e];
        evs := FailOne(event, refused.value, rest, s0, evs);
        err := None;
      } else {
        ghost var e := PublishOk(id, Message(m.topic, m.key, m.payload));
        AnswerEffect(before, e);
        Advance(s0, evs, before, e);
        AttemptsAdd(evs, [e], id);
        AttemptsOne(e, id);
        evs := evs + [e];
        err, evs := SettleAcked(event, rest, s0, evs);
      }
    }

    /** Others may run between the refusal and its record. */
    method FailOne(item: Item, error: string, ghost rest: seq<Item>, ghost s0: State, ghost sofar: seq<Event>)
      returns (ghost evs: seq<Event>)
      requires Inv(store.St()) && id in store.workers && store.workers[id] == Nacked(item, error, rest)
      requires Trace(id, s0, sofar, store.St())
      modifies store
      ensures Inv(store.St()) && Trace(id, s0, evs, store.St())
      ensures Attempts(evs, id) == Attempts(sofar, id)
      ensures if rest == [] then id !in store.workers else id in store.workers && store.workers[id] == Busy(rest)
      ensures item.id in store.rows && store.rows[item.id].status != Published
      ensures store.faults >= old(store.faults)
      ensures store.faults == old(store.faults) ==>
                store.rows[item.id].status == RetryScheduled || store.rows[item.id].status == DeadLetter
      ensures store.faults == old(store.faults) && AllSettled(sofar, id) ==> AllSettled(evs, id)
    {
      hide Inv, Trace;
      evs := Pause(s0, sofar);
      ghost var before := store.St();
      HeadHeld(before, id);
      assert before.workers[id].Items()[0] == item;
      ghost var more := HandlePublishFailed(item, error, rest);
      TraceConcat(id, s0, evs, before, more, store.St());
      AttemptsAdd(evs, more, id);
      evs := evs + more;
    }

    method SettleAcked(event: Item, ghost rest: seq<Item>, ghost s0: State, ghost sofar: seq<Event>)
      returns (err: Option<Error>, ghost evs: seq<Event>)
      requires Inv(store.St()) && id in store.workers && store.workers[id] == Acked(event, rest)
      requires Trace(id, s0, sofar, store.St())
      modifies store
      ensures Inv(store.St()) && Trace(id, s0, evs, store.St())
      ensures Attempts(evs, id) == Attempts(sofar, id)
      ensures err.Some? ==> id !in store.workers && Settle(id, false, 0) in evs && store.faults > old(store.faults)
      ensures err.None? ==>
                if rest == [] then id !in store.workers else id in store.workers && store.workers[id] == Busy(rest)
      ensures event.id in store.rows && (err.None? ==> store.rows[event.id].status == Published)
      ensures err.None? ==>
                store.rows[event.id].publishedAt == Some(store.clock) && store.rows[event.id].lastError.None?
      ensures err.None? ==> store.faults == old(store.faults) && (AllSettled(sofar, id) ==> AllSettled(evs, id))
    {
      hide Inv, Trace;
      evs := Pause(s0, sofar);
      ghost var before := store.St();
      HeadHeld(before, id);
      assert before.workers[id].Items()[0] == event;
      err := store.MarkPublishedRow(event.id);
      if err.None? {
        store.metrics := store.metrics.(published := store.metrics.published + 1);
      }
      ghost var e := Settle(id, err.None?, 0);
      Advance(s0, evs, before, e);
      AttemptsAdd(evs, [e], id);
      AttemptsOne(e, id);
      evs := evs + [e];
    }

    /**
      The ticker loop, until the context is cancelled after some number of ticks.
      A lone worker whose rounds are calm and never idle settles every event.
    */
    method Run(ticks: nat) returns (ghost rounds: seq<Round>)
      requires Inv(store.St()) && id !in store.workers
      modifies store, publisher
      ensures Inv(store.St()) && id !in store.workers
      ensures |rounds| == ticks && HappenAll(old(store.St()), id, rounds, store.St())
      ensures store.faults >= old(store.faults)
      ensures store.faults == old(store.faults) ==> forall r :: r in rounds ==> Faultless(r, id)
      ensures Alone(old(store.St()), id) && store.cfg.batchSize != 0 && ticks >= Work(old(store.St()))
              && (forall r :: r in rounds ==> Calm(r, id)) && NeverIdle(old(store.St()), id, rounds, store.St())
              ==> Settled(store.rows)
    {
      hide Inv, Happens, Calm, NeverIdle, Alone, Work, Settled, Faultless;
      ghost var s0 := store.St();
      rounds := [];
      for k := 0 to ticks
        invariant Inv(store.St()) && id !in store.workers
        invariant |rounds| == k && HappenAll(s0, id, rounds, store.St())
        invariant store.faults >= old(store.faults)
        invariant store.faults == old(store.faults) ==> forall r :: r in rounds ==> Faultless(r, id)
      {
        ghost var before := store.St();
        ghost var round;
        var err;
        err, round := PublishPending();
        IdleAfter(id, before, round, store.St());
        HappenSnoc(s0, id, rounds, before, round, store.St());
        rounds := rounds + [round];
      }
      if Alone(s0, id) && store.cfg.batchSize != 0 && ticks >= Work(s0)
        && (forall r :: r in rounds ==> Calm(r, id)) && NeverIdle(s0, id, rounds, store.St()) {
        LoopDrains(s0, id, rounds, store.St());
      }
    }
  }
}
