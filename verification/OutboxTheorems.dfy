/** What the outbox machine guarantees over whole runs. */
module OutboxTheorems {
  import opened Options
  import opened OutboxTable
  import opened OutboxProtocol
  import opened OutboxInvariants
  import opened Sums

  // ----- Exclusive ownership -----

  /**
    In every reachable state an event sits in at most one place of at most one
    worker's batch, and its row is claimed by exactly that worker.
  */
  lemma ExclusiveOwnership(s: State, evs: seq<Event>, v: WorkerId, i: nat, w: WorkerId, j: nat)
    requires Init(s) && ValidRun(s, evs)
    requires var t := Run(s, evs);
      && v in t.workers && i < |t.workers[v].Items()| && w in t.workers && j < |t.workers[w].Items()|
      && t.workers[v].Items()[i].id == t.workers[w].Items()[j].id
    ensures var t := Run(s, evs);
      && v == w && i == j
      && var id := t.workers[v].Items()[i].id;
         id in t.rows && t.rows[id].status == Publishing && t.rows[id].claimedBy == Some(v)
    ensures ClaimFields(Run(s, evs).rows)
  {
    InitInv(s);
    InvRun(s, evs);
    var t := Run(s, evs);
    assert PhaseSound(t, v, t.workers[v]) && PhaseSound(t, w, t.workers[w]);
    assert Held(t, v, t.workers[v].Items()[i]) && Held(t, w, t.workers[w].Items()[j]);
  }

  // ----- Publish calls, counted on the run itself -----

  /** The event hands row `id` to the publisher. */
  ghost predicate Publishes(s: State, e: Event, id: Id)
    requires Enabled(s, e)
  {
    (e.PublishOk? || e.PublishErr?) && s.workers[e.w].batch[0].id == id
  }

  /** The publisher is given the stored message of a row that this worker has claimed. */
  lemma PublishesStoredMessage(s: State, e: Event, id: Id)
    requires Inv(s) && Enabled(s, e) && Publishes(s, e, id)
    ensures id in s.rows && e.sent == s.rows[id].message
    ensures s.rows[id].status == Publishing && s.rows[id].claimedBy == Some(e.w)
  {
    assert PhaseSound(s, e.w, s.workers[e.w]) && Held(s, e.w, s.workers[e.w].Items()[0]);
  }

  ghost function PublishCalls(s: State, evs: seq<Event>, id: Id): nat
    requires ValidRun(s, evs)
    decreases |evs|
  {
    if evs == [] then 0
    else (if Publishes(s, evs[0], id) then 1 else 0) + PublishCalls(Next(s, evs[0]), evs[1..], id)
  }

  ghost function Successes(s: State, evs: seq<Event>, id: Id): nat
    requires ValidRun(s, evs)
    decreases |evs|
  {
    if evs == [] then 0
    else (if Publishes(s, evs[0], id) && evs[0].PublishOk? then 1 else 0) + Successes(Next(s, evs[0]), evs[1..], id)
  }

  lemma CountStep(s: State, e: Event, id: Id)
    requires Inv(s) && Enabled(s, e)
    ensures Count(Next(s, e).calls, id) == Count(s.calls, id) + (if Publishes(s, e, id) then 1 else 0)
    ensures Count(Next(s, e).acks, id) == Count(s.acks, id) + (if Publishes(s, e, id) && e.PublishOk? then 1 else 0)
  {
    if !Touches(s, e, id) {
      Untouched(s, e, id);
    }
  }

  lemma {:induction false} CountRun(s: State, evs: seq<Event>, id: Id)
    requires Inv(s) && ValidRun(s, evs)
    ensures Count(Run(s, evs).calls, id) == Count(s.calls, id) + PublishCalls(s, evs, id)
    ensures Count(Run(s, evs).acks, id) == Count(s.acks, id) + Successes(s, evs, id)
    decreases |evs|
  {
    if evs != [] {
      CountStep(s, evs[0], id);
      InvStep(s, evs[0]);
      CountRun(Next(s, evs[0]), evs[1..], id);
    }
  }

  /**
    Over any run, with any failures and crashes, an event is published
    successfully at most once and handed to the publisher at most
    `max(1, M)` times; the stored retry count is the number of failures that
    were recorded, and a dead letter failed exactly `max(1, M)` times.
  */
  lemma PublishBounds(s: State, evs: seq<Event>, id: Id)
    requires Init(s) && ValidRun(s, evs) && id in Run(s, evs).rows
    ensures var row := Run(s, evs).rows[id];
      var bound := row.Attempts(s.cfg.maxRetry);
      var calls, good := PublishCalls(s, evs, id), Successes(s, evs, id);
      && good <= 1 && calls <= bound
      && (row.Waiting() ==> good == 0 && calls == row.retryCount)
      && (row.status == Publishing ==> row.retryCount + good <= calls <= row.retryCount + 1)
      && (row.status == Published ==> good == 1 && calls - good == row.retryCount)
      && (row.status == DeadLetter ==> good == 0 && calls == bound && row.retryCount == bound - 1)
  {
    InitInv(s);
    InvRun(s, evs);
    CountRun(s, evs, id);
    CfgKept(s, evs);
    var t := Run(s, evs);
    assert Tallied(t.cfg, t.rows[id], Count(t.calls, id), Count(t.acks, id));
  }

  lemma {:induction false} CfgKept(s: State, evs: seq<Event>)
    requires ValidRun(s, evs)
    ensures Run(s, evs).cfg == s.cfg
    decreases |evs|
  {
    if evs != [] {
      assert Next(s, evs[0]).cfg == s.cfg;
      CfgKept(Next(s, evs[0]), evs[1..]);
    }
  }

  // ----- Terminal statuses -----

  lemma TerminalStep(s: State, e: Event, id: Id)
    requires Inv(s) && Enabled(s, e) && id in s.rows && s.rows[id].Terminal()
    ensures id in Next(s, e).rows && Next(s, e).rows[id] == s.rows[id]
  {
    if e.Settle? {
      assert PhaseSound(s, e.w, s.workers[e.w]) && Held(s, e.w, s.workers[e.w].Items()[0]);
      Untouched(s, e, id);
    }
  }

  /** A published or dead-lettered row never changes again. */
  lemma {:induction false} TerminalIsFinal(s: State, evs: seq<Event>, id: Id)
    requires Inv(s) && ValidRun(s, evs) && id in s.rows && s.rows[id].Terminal()
    ensures id in Run(s, evs).rows && Run(s, evs).rows[id] == s.rows[id]
    decreases |evs|
  {
    if evs != [] {
      TerminalStep(s, evs[0], id);
      InvStep(s, evs[0]);
      TerminalIsFinal(Next(s, evs[0]), evs[1..], id);
    }
  }

  // ----- Counters -----

  /** No crash, and no settling statement fails. */
  ghost predicate Untroubled(e: Event) {
    !e.Crash? && (e.Settle? ==> e.ok)
  }

  /**
    The published and dead-letter counters equal the numbers of such rows in
    every reachable state.  Without crashes and failing statements, every claimed
    event has been published, has failed, or is still in a batch.
  */
  lemma CountersAgree(s: State, evs: seq<Event>)
    requires Init(s) && ValidRun(s, evs)
    ensures var t := Run(s, evs);
      && t.metrics.published == |WithStatus(t.rows, Published)|
      && t.metrics.deadLettered == |WithStatus(t.rows, DeadLetter)|
      && t.metrics.claimed >= t.metrics.published + t.metrics.failed + Remaining(t)
      && ((forall e :: e in evs ==> Untroubled(e)) ==>
            t.metrics.claimed == t.metrics.published + t.metrics.failed + Remaining(t))
  {
    InitInv(s);
    InvRun(s, evs);
    if forall e :: e in evs ==> Untroubled(e) {
      NothingAbandoned(s, evs);
    }
  }

  lemma {:induction false} NothingAbandoned(s: State, evs: seq<Event>)
    requires ValidRun(s, evs) && forall e :: e in evs ==> Untroubled(e)
    ensures Run(s, evs).abandoned == s.abandoned
    decreases |evs|
  {
    if evs != [] {
      assert Untroubled(evs[0]);
      assert Next(s, evs[0]).abandoned == s.abandoned;
      NothingAbandoned(Next(s, evs[0]), evs[1..]);
    }
  }

  // ----- Draining -----

  /** Publish calls that a row may still see. */
  ghost function Weight(cfg: Config, row: Row): nat {
    if row.Terminal() || row.retryCount >= row.Attempts(cfg.maxRetry) then 0
    else if row.retryCount < 0 then row.Attempts(cfg.maxRetry)
    else row.Attempts(cfg.maxRetry) - row.retryCount
  }

  ghost function Weights(cfg: Config, rows: Rows): map<Id, nat> {
    map id | id in rows :: Weight(cfg, rows[id])
  }

  ghost function Work(s: State): nat {
    Sum(Weights(s.cfg, s.rows))
  }

  ghost predicate Settled(rows: Rows) {
    forall id :: id in rows ==> rows[id].Terminal()
  }

  ghost function InHand(s: State, w: WorkerId): nat {
    if w in s.workers then |s.workers[w].Items()| else 0
  }

  /** Worker `w` is alone: whatever is claimed is in its batch. */
  ghost predicate Alone(s: State, w: WorkerId) {
    && (forall v :: v in s.workers ==> v == w)
    && (forall id :: id in s.rows && s.rows[id].status == Publishing ==>
          w in s.workers && exists i :: 0 <= i < |s.workers[w].Items()| && s.workers[w].Items()[i].id == id)
  }

  /** The steps of `w` after its claim while nothing but Publish can fail. */
  ghost predicate Quiet(e: Event, w: WorkerId) {
    e.Tick? || ((e.PublishOk? || e.PublishErr? || (e.Settle? && e.ok)) && e.w == w)
  }

  lemma WorkOfClaim(s: State, e: Event)
    requires Enabled(s, e) && e.Claim?
    ensures Work(Next(s, e)) == Work(s)
  {
    var rows' := Next(s, e).rows;
    assert rows' == MarkPublishing(s.rows, e.ids, e.w, s.clock);
    forall id | id in s.rows
      ensures Weight(s.cfg, rows'[id]) == Weight(s.cfg, s.rows[id])
    {
    }
    assert Weights(s.cfg, Next(s, e).rows) == Weights(s.cfg, s.rows);
  }

  /** Settling spends at least one of the calls the row had left. */
  lemma WorkOfSettle(s: State, e: Event)
    requires Inv(s) && Enabled(s, e) && e.Settle? && e.ok
    ensures Work(Next(s, e)) + 1 <= Work(s)
  {
    hide Tallies, Counters, ClaimFields, PhaseSound, Weight, Next;
    var id := s.workers[e.w].item.id;
    var s' := Next(s, e);
    SettleRow(s, e);
    SettleSpends(s, e);
    assert Weights(s.cfg, s'.rows) == Weights(s.cfg, s.rows)[id := Weight(s.cfg, s'.rows[id])];
    SumUpdate(Weights(s.cfg, s.rows), id, Weight(s.cfg, s'.rows[id]));
  }

  lemma SettleSpends(s: State, e: Event)
    requires Inv(s) && Enabled(s, e) && e.Settle? && e.ok
    ensures var id := s.workers[e.w].item.id;
      id in s.rows && id in Next(s, e).rows && Weight(s.cfg, Next(s, e).rows[id]) + 1 <= Weight(s.cfg, s.rows[id])
  {
    hide Counters, ClaimFields;
    var p := s.workers[e.w];
    assert PhaseSound(s, e.w, p) && Held(s, e.w, p.Items()[0]);
    assert Tallied(s.cfg, s.rows[p.item.id], Count(s.calls, p.item.id), Count(s.acks, p.item.id));
  }

  lemma QuietStep(s: State, e: Event, w: WorkerId)
    requires Inv(s) && Enabled(s, e) && Quiet(e, w)
    ensures Work(Next(s, e)) + InHand(s, w) <= Work(s) + InHand(Next(s, e), w)
  {
    if e.Settle? {
      WorkOfSettle(s, e);
    } else {
      assert Next(s, e).rows == s.rows;
    }
  }

  lemma AloneStep(s: State, e: Event, w: WorkerId)
    requires Inv(s) && Alone(s, w) && Enabled(s, e) && (Quiet(e, w) || (e.Claim? && e.w == w))
    ensures Alone(Next(s, e), w)
  {
    hide WorkersSound, Tallies, Counters, ClaimFields;
    var s' := Next(s, e);
    if e.Claim? {
      forall id | id in s'.rows && s'.rows[id].status == Publishing
        ensures w in s'.workers && exists i :: 0 <= i < |s'.workers[w].Items()| && s'.workers[w].Items()[i].id == id
      {
        assert id in e.ids;
        var i :| 0 <= i < |e.ids| && e.ids[i] == id;
        assert s'.workers[w].Items() == ItemsOf(s.rows, e.ids) && s'.workers[w].Items()[i].id == id;
      }
    } else if e.Settle? {
      AloneAfterSettle(s, e, w);
    } else if !e.Tick? {
      assert s'.workers[w].Items() == s.workers[w].Items();
    }
  }

  /** After settling, the rest of the batch is what the worker holds, and its head is no longer claimed. */
  lemma SettledHead(s: State, e: Event)
    requires WorkersSound(s) && Enabled(s, e) && e.Settle? && e.ok
    ensures var p := s.workers[e.w];
      && p.item.id in Next(s, e).rows && Next(s, e).rows[p.item.id].status != Publishing
      && Next(s, e).workers == if p.rest == [] then s.workers - {e.w} else s.workers[e.w := Busy(p.rest)]
  {
    var p := s.workers[e.w];
    assert PhaseSound(s, e.w, p) && Held(s, e.w, p.Items()[0]);
  }

  lemma AloneAfterSettle(s: State, e: Event, w: WorkerId)
    requires Inv(s) && Alone(s, w) && Enabled(s, e) && e.Settle? && e.ok && e.w == w
    ensures Alone(Next(s, e), w)
  {
    hide PhaseSound, Tallies, Counters, ClaimFields, Next;
    var s' := Next(s, e);
    var p := s.workers[w];
    SettleRow(s, e);
    SettledHead(s, e);
    forall id | id in s'.rows && s'.rows[id].status == Publishing
      ensures w in s'.workers && exists i :: 0 <= i < |s'.workers[w].Items()| && s'.workers[w].Items()[i].id == id
    {
      assert s.rows[id].status == Publishing;
      var i :| 0 <= i < |p.Items()| && p.Items()[i].id == id;
      assert i > 0 && p.rest[i - 1].id == id;
      assert s'.workers[w] == Busy(p.rest);
      assert s'.workers[w].Items()[i - 1].id == id;
    }
  }

  lemma {:induction false} QuietRun(s: State, evs: seq<Event>, w: WorkerId)
    requires Inv(s) && Alone(s, w) && ValidRun(s, evs) && forall e :: e in evs ==> Quiet(e, w)
    ensures Inv(Run(s, evs)) && Alone(Run(s, evs), w)
    ensures Work(Run(s, evs)) + InHand(s, w) <= Work(s) + InHand(Run(s, evs), w)
    decreases |evs|
  {
    if evs != [] {
      assert evs[0] in evs;
      QuietStep(s, evs[0], w);
      AloneStep(s, evs[0], w);
      InvStep(s, evs[0]);
      QuietRun(Next(s, evs[0]), evs[1..], w);
    }
  }

  /** A tick of the worker: the instant of its claim, what it claims, and its steps up to the next tick. */
  datatype Turn = Turn(now: Time, ids: seq<Id>, evs: seq<Event>)

  ghost predicate AnyEligible(rows: Rows, now: Time) {
    exists id :: id in rows && rows[id].Eligible(now)
  }

  ghost function Claimed(s: State, w: WorkerId, turn: Turn): State
    requires s.clock <= turn.now && Enabled(Next(s, Tick(turn.now)), Claim(w, turn.ids, {}))
  {
    Next(Next(s, Tick(turn.now)), Claim(w, turn.ids, {}))
  }

  /** The only worker claims, publishes with whatever outcomes, and settles all it claimed. */
  ghost predicate Takes(s: State, w: WorkerId, turn: Turn) {
    && w !in s.workers && s.clock <= turn.now
    && Enabled(Next(s, Tick(turn.now)), Claim(w, turn.ids, {}))
    && ValidRun(Claimed(s, w, turn), turn.evs) && (forall e :: e in turn.evs ==> Quiet(e, w))
    && w !in Run(Claimed(s, w, turn), turn.evs).workers
  }

  ghost function After(s: State, w: WorkerId, turn: Turn): State
    requires Takes(s, w, turn)
  {
    Run(Claimed(s, w, turn), turn.evs)
  }

  /** The claim is empty only when no row is eligible. */
  lemma ClaimsSomething(s: State, w: WorkerId, ids: seq<Id>)
    requires s.cfg.batchSize != 0 && Enabled(s, Claim(w, ids, {})) && AnyEligible(s.rows, s.clock)
    ensures ids != []
  {
    var id :| id in s.rows && s.rows[id].Eligible(s.clock);
  }

  /** A tick never adds work, and takes some away whenever it finds an eligible row. */
  lemma TurnSpends(s: State, w: WorkerId, turn: Turn)
    requires Inv(s) && Alone(s, w) && s.cfg.batchSize != 0 && Takes(s, w, turn)
    ensures var s' := After(s, w, turn);
      && Inv(s') && Alone(s', w) && s'.cfg == s.cfg
      && Work(s') <= Work(s) && (AnyEligible(s.rows, turn.now) ==> Work(s') < Work(s))
  {
    hide Inv;
    var t := Next(s, Tick(turn.now));
    var u := Next(t, Claim(w, turn.ids, {}));
    InvStep(s, Tick(turn.now));
    InvStep(t, Claim(w, turn.ids, {}));
    AloneStep(s, Tick(turn.now), w);
    AloneStep(t, Claim(w, turn.ids, {}), w);
    WorkOfClaim(t, Claim(w, turn.ids, {}));
    QuietRun(u, turn.evs, w);
    CfgKept(u, turn.evs);
    assert InHand(u, w) == |turn.ids|;
    if AnyEligible(s.rows, turn.now) {
      ClaimsSomething(t, w, turn.ids);
    }
  }

  /** An unsettled row of a lone idle worker becomes eligible with time, and stays so until it is claimed. */
  lemma DueInTime(s: State, w: WorkerId) returns (due: Time)
    requires Alone(s, w) && w !in s.workers && !Settled(s.rows)
    ensures forall now :: due <= now ==> AnyEligible(s.rows, now)
  {
    var id :| id in s.rows && !s.rows[id].Terminal();
    assert s.rows[id].status != Publishing;
    due := if s.rows[id].nextRetryAt.Some? then s.rows[id].nextRetryAt.value else 0;
    forall now | due <= now
      ensures AnyEligible(s.rows, now)
    {
      assert s.rows[id].Eligible(now);
    }
  }

  /** No work left means that every row is published or dead-lettered. */
  lemma NoWorkIsSettled(s: State)
    requires Tallies(s) && Work(s) == 0
    ensures Settled(s.rows)
  {
    forall id | id in s.rows
      ensures s.rows[id].Terminal()
    {
      assert Tallied(s.cfg, s.rows[id], Count(s.calls, id), Count(s.acks, id));
      SumAtLeast(Weights(s.cfg, s.rows), id);
    }
  }

  lemma {:induction false} SumOfZeros<K>(m: map<K, nat>)
    requires forall k :: k in m ==> m[k] == 0
    ensures Sum(m) == 0
    decreases |m|
  {
    if m != map[] {
      var k :| k in m;
      SumWithout(m, k);
      SumOfZeros(m - {k});
    }
  }

  lemma SettledIsNoWork(s: State)
    requires Settled(s.rows)
    ensures Work(s) == 0
  {
    SumOfZeros(Weights(s.cfg, s.rows));
  }

  // ----- Many ticks -----

  ghost predicate TakesAll(s: State, w: WorkerId, turns: seq<Turn>)
    decreases |turns|
  {
    turns == [] || (Takes(s, w, turns[0]) && TakesAll(After(s, w, turns[0]), w, turns[1..]))
  }

  ghost function AfterAll(s: State, w: WorkerId, turns: seq<Turn>): State
    requires TakesAll(s, w, turns)
    decreases |turns|
  {
    if turns == [] then s else AfterAll(After(s, w, turns[0]), w, turns[1..])
  }

  /** How many of the ticks found an eligible row. */
  ghost function Fruitful(s: State, w: WorkerId, turns: seq<Turn>): nat
    requires TakesAll(s, w, turns)
    decreases |turns|
  {
    if turns == [] then 0
    else (if AnyEligible(s.rows, turns[0].now) then 1 else 0) + Fruitful(After(s, w, turns[0]), w, turns[1..])
  }

  /** Every tick with an eligible row takes at least one call off the work, and no tick adds any. */
  lemma {:induction false} WorkDrains(s: State, w: WorkerId, turns: seq<Turn>)
    requires Inv(s) && Alone(s, w) && s.cfg.batchSize != 0 && TakesAll(s, w, turns)
    ensures Inv(AfterAll(s, w, turns)) && Work(AfterAll(s, w, turns)) + Fruitful(s, w, turns) <= Work(s)
    decreases |turns|
  {
    if turns != [] {
      TurnSpends(s, w, turns[0]);
      WorkDrains(After(s, w, turns[0]), w, turns[1..]);
    }
  }

  /**
    Whatever the publisher answers, and however many other ticks lie between:
    after as many ticks with an eligible row as there were calls left, every
    event is published or dead-lettered.
  */
  lemma Drains(s: State, w: WorkerId, turns: seq<Turn>)
    requires Inv(s) && Alone(s, w) && s.cfg.batchSize != 0 && TakesAll(s, w, turns)
    requires Fruitful(s, w, turns) >= Work(s)
    ensures Settled(AfterAll(s, w, turns).rows)
  {
    WorkDrains(s, w, turns);
    NoWorkIsSettled(AfterAll(s, w, turns));
  }

  /** Every tick finds an eligible row, or has nothing left to do. */
  ghost predicate NoIdleTurn(s: State, w: WorkerId, turns: seq<Turn>)
    requires TakesAll(s, w, turns)
    decreases |turns|
  {
    turns == []
    || ((AnyEligible(s.rows, turns[0].now) || Settled(s.rows)) && NoIdleTurn(After(s, w, turns[0]), w, turns[1..]))
  }

  /** Without idle ticks the number of ticks is bounded by the calls left at the start. */
  lemma {:induction false} DrainsWithoutIdling(s: State, w: WorkerId, turns: seq<Turn>)
    requires Inv(s) && Alone(s, w) && s.cfg.batchSize != 0 && TakesAll(s, w, turns) && NoIdleTurn(s, w, turns)
    requires |turns| >= Work(s)
    ensures Settled(AfterAll(s, w, turns).rows)
    decreases |turns|
  {
    if turns == [] {
      NoWorkIsSettled(s);
    } else {
      TurnSpends(s, w, turns[0]);
      if !AnyEligible(s.rows, turns[0].now) {
        SettledIsNoWork(s);
      }
      DrainsWithoutIdling(After(s, w, turns[0]), w, turns[1..]);
    }
  }
}
