/** The inductive invariant of the outbox machine and its preservation by every step. */
module OutboxInvariants {
  import opened Options
  import opened OutboxTable
  import opened OutboxProtocol
  import opened Sums

  /** The row is claimed by this worker, and its copy is still accurate. */
  ghost predicate Held(s: State, w: WorkerId, item: Item) {
    && item.id in s.rows
    && var row := s.rows[item.id];
       && row.status == Publishing && row.claimedBy == Some(w)
       && row.retryCount == item.row.retryCount && row.maxRetry == item.row.maxRetry && row.message == item.row.message
  }

  ghost predicate DistinctItems(items: seq<Item>) {
    forall i, j :: 0 <= i < j < |items| ==> items[i].id != items[j].id
  }

  /** Publish has not been called since the claim. */
  ghost predicate Unpublished(s: State, item: Item) {
    Count(s.calls, item.id) == item.row.retryCount && Count(s.acks, item.id) == 0
  }

  ghost predicate PhaseSound(s: State, w: WorkerId, p: Phase) {
    && (forall i :: 0 <= i < |p.Items()| ==> Held(s, w, p.Items()[i]))
    && DistinctItems(p.Items())
    && match p
       case Busy(batch) => batch != [] && forall i :: 0 <= i < |batch| ==> Unpublished(s, batch[i])
       case Acked(item, rest) =>
         && Count(s.calls, item.id) == item.row.retryCount + 1 && Count(s.acks, item.id) == 1
         && forall i :: 0 <= i < |rest| ==> Unpublished(s, rest[i])
       case Nacked(item, _, rest) =>
         && Count(s.calls, item.id) == item.row.retryCount + 1 && Count(s.acks, item.id) == 0
         && forall i :: 0 <= i < |rest| ==> Unpublished(s, rest[i])
  }

  ghost predicate WorkersSound(s: State) {
    forall w :: w in s.workers ==> PhaseSound(s, w, s.workers[w])
  }

  /** Exactly the rows in `publishing` carry the claim fields. */
  ghost predicate ClaimFields(rows: Rows) {
    forall id :: id in rows ==>
      && (rows[id].status == Publishing <==> rows[id].claimedBy.Some?)
      && (rows[id].status == Publishing <==> rows[id].claimedAt.Some?)
  }

  /** How the Publish calls on a row relate to its status and its retry count. */
  ghost predicate Tallied(cfg: Config, row: Row, calls: nat, acks: nat) {
    && 0 <= row.retryCount < row.Attempts(cfg.maxRetry)
    && match row.status
       case Pending => calls == row.retryCount && acks == 0
       case RetryScheduled => calls == row.retryCount && acks == 0
       case Publishing => row.retryCount + acks <= calls <= row.retryCount + 1
       case Published => calls == row.retryCount + 1 && acks == 1
       case DeadLetter => calls == row.retryCount + 1 == row.Attempts(cfg.maxRetry) && acks == 0
  }

  ghost predicate Tallies(s: State) {
    && s.calls.Keys == s.rows.Keys && s.acks.Keys == s.rows.Keys
    && forall id :: id in s.rows ==> Tallied(s.cfg, s.rows[id], Count(s.calls, id), Count(s.acks, id))
  }

  ghost function WithStatus(rows: Rows, st: Status): set<Id> {
    set id | id in rows && rows[id].status == st
  }

  ghost function RemainingBy(workers: map<WorkerId, Phase>): map<WorkerId, nat> {
    map w | w in workers :: workers[w].Remaining()
  }

  ghost function Remaining(s: State): nat {
    Sum(RemainingBy(s.workers))
  }

  ghost predicate Counters(s: State) {
    && s.metrics.published == |WithStatus(s.rows, Published)|
    && s.metrics.deadLettered == |WithStatus(s.rows, DeadLetter)|
    && Balanced(s)
  }

  /** Every claimed event has been counted as published or failed, is still in hand, or was abandoned. */
  ghost predicate Balanced(s: State) {
    s.metrics.claimed == s.metrics.published + s.metrics.failed + Remaining(s) + s.abandoned
  }

  ghost predicate Inv(s: State) {
    WorkersSound(s) && ClaimFields(s.rows) && Tallies(s) && Counters(s)
  }

  // ----- Frames -----

  /** The rows on which a step can act. */
  ghost predicate Touches(s: State, e: Event, id: Id)
    requires Enabled(s, e)
  {
    match e
    case Tick(_) => false
    case Insert(i, _, _) => id == i
    case Claim(_, ids, _) => id in ids
    case PublishOk(w, _) => id == s.workers[w].batch[0].id
    case PublishErr(w, _, _) => id == s.workers[w].batch[0].id
    case Settle(w, _, _) => id == s.workers[w].item.id
    case Crash(_) => false
  }

  lemma Untouched(s: State, e: Event, id: Id)
    requires Enabled(s, e) && !Touches(s, e, id)
    ensures id in s.rows <==> id in Next(s, e).rows
    ensures id in s.rows ==> Next(s, e).rows[id] == s.rows[id]
    ensures Count(Next(s, e).calls, id) == Count(s.calls, id) && Count(Next(s, e).acks, id) == Count(s.acks, id)
  {
  }

  /** No worker acts on an event that another worker holds. */
  lemma HeldByOtherIsUntouched(s: State, e: Event, w: WorkerId, item: Item)
    requires WorkersSound(s) && Enabled(s, e) && Actor(e) != Some(w) && Held(s, w, item)
    ensures !Touches(s, e, item.id)
  {
    match e
    case Tick(_) =>
    case Insert(_, _, _) =>
    case Claim(_, _, _) =>
    case PublishOk(v, _) => assert PhaseSound(s, v, s.workers[v]) && Held(s, v, s.workers[v].Items()[0]);
    case PublishErr(v, _, _) => assert PhaseSound(s, v, s.workers[v]) && Held(s, v, s.workers[v].Items()[0]);
    case Settle(v, _, _) => assert PhaseSound(s, v, s.workers[v]) && Held(s, v, s.workers[v].Items()[0]);
    case Crash(_) =>
  }

  lemma OthersKeepStep(me: WorkerId, s: State, e: Event)
    requires Enabled(s, e) && Actor(e) != Some(me)
    ensures me in s.workers <==> me in Next(s, e).workers
    ensures me in s.workers ==> Next(s, e).workers[me] == s.workers[me]
  {
  }

  lemma OtherWorkerKept(s: State, e: Event, w: WorkerId)
    requires WorkersSound(s) && Enabled(s, e) && Actor(e) != Some(w) && w in s.workers
    ensures w in Next(s, e).workers && Next(s, e).workers[w] == s.workers[w] && PhaseSound(Next(s, e), w, s.workers[w])
  {
    hide Touches, Next;
    OthersKeepStep(w, s, e);
    var p := s.workers[w];
    assert PhaseSound(s, w, p);
    forall i | 0 <= i < |p.Items()|
      ensures !Touches(s, e, p.Items()[i].id)
    {
      HeldByOtherIsUntouched(s, e, w, p.Items()[i]);
    }
    forall i | 0 <= i < |p.Items()|
      ensures Held(Next(s, e), w, p.Items()[i])
      ensures Unpublished(s, p.Items()[i]) ==> Unpublished(Next(s, e), p.Items()[i])
      ensures Count(Next(s, e).calls, p.Items()[i].id) == Count(s.calls, p.Items()[i].id)
      ensures Count(Next(s, e).acks, p.Items()[i].id) == Count(s.acks, p.Items()[i].id)
    {
      Untouched(s, e, p.Items()[i].id);
    }
    if !p.Busy? {
      assert p.Items()[0] == p.item;
      assert forall i :: 0 <= i < |p.rest| ==> p.rest[i] == p.Items()[i + 1];
    }
  }

  // ----- The acting worker -----

  lemma ClaimStep(s: State, e: Event)
    requires Tallies(s) && Enabled(s, e) && e.Claim? && e.w in Next(s, e).workers
    ensures PhaseSound(Next(s, e), e.w, Next(s, e).workers[e.w])
  {
    var s' := Next(s, e);
    var batch := ItemsOf(s.rows, e.ids);
    assert s'.workers[e.w] == Busy(batch);
    forall i | 0 <= i < |batch|
      ensures Held(s', e.w, batch[i]) && Unpublished(s', batch[i])
    {
      assert e.ids[i] in s.rows && s.rows[e.ids[i]].Waiting();
      assert Tallied(s.cfg, s.rows[e.ids[i]], Count(s.calls, e.ids[i]), Count(s.acks, e.ids[i]));
    }
  }

  /** Publishing the head leaves the claim on all of the batch and the tally of the rest. */
  lemma PublishAt(s: State, e: Event, i: nat)
    requires WorkersSound(s) && Enabled(s, e) && (e.PublishOk? || e.PublishErr?) && i < |s.workers[e.w].batch|
    ensures Held(Next(s, e), e.w, s.workers[e.w].batch[i])
    ensures i > 0 ==> Unpublished(Next(s, e), s.workers[e.w].batch[i])
  {
    var p := s.workers[e.w];
    assert PhaseSound(s, e.w, p) && p.Items() == p.batch;
    assert Held(s, e.w, p.batch[i]);
    if i > 0 {
      assert Unpublished(s, p.batch[i]) && p.batch[0].id != p.batch[i].id;
    }
  }

  lemma PublishedPhase(s: State, e: Event)
    requires WorkersSound(s) && Enabled(s, e) && (e.PublishOk? || e.PublishErr?)
    ensures var b, id := s.workers[e.w].batch, s.workers[e.w].batch[0].id;
      && e.w in Next(s, e).workers
      && Next(s, e).workers[e.w] == (if e.PublishOk? then Acked(b[0], b[1..]) else Nacked(b[0], e.error, b[1..]))
      && Count(Next(s, e).calls, id) == b[0].row.retryCount + 1
      && Count(Next(s, e).acks, id) == (if e.PublishOk? then 1 else 0)
  {
    assert PhaseSound(s, e.w, s.workers[e.w]) && Unpublished(s, s.workers[e.w].batch[0]);
  }

  lemma PublishStep(s: State, e: Event)
    requires WorkersSound(s) && Enabled(s, e) && (e.PublishOk? || e.PublishErr?)
    ensures e.w in Next(s, e).workers && PhaseSound(Next(s, e), e.w, Next(s, e).workers[e.w])
  {
    var b := s.workers[e.w].batch;
    PublishedPhase(s, e);
    hide Next, Held, Unpublished;
    assert Next(s, e).workers[e.w].Items() == b;
    assert DistinctItems(b) by {
      assert PhaseSound(s, e.w, s.workers[e.w]) && s.workers[e.w].Items() == b;
    }
    forall i: nat | i < |b|
      ensures Held(Next(s, e), e.w, b[i])
      ensures i > 0 ==> Unpublished(Next(s, e), b[i])
    {
      PublishAt(s, e, i);
    }
  }

  lemma Resumed(s: State, e: Event)
    requires Enabled(s, e) && e.Settle? && e.w in Next(s, e).workers
    ensures s.workers[e.w].rest != [] && Next(s, e).workers[e.w] == Busy(s.workers[e.w].rest)
  {
  }

  /** Settling the head leaves the rest of the batch as it was. */
  lemma SettleAt(s: State, e: Event, i: nat)
    requires WorkersSound(s) && Enabled(s, e) && e.Settle? && i < |s.workers[e.w].rest|
    ensures Held(Next(s, e), e.w, s.workers[e.w].rest[i]) && Unpublished(Next(s, e), s.workers[e.w].rest[i])
  {
    hide Next;
    var p := s.workers[e.w];
    assert PhaseSound(s, e.w, p);
    assert p.Items()[i + 1] == p.rest[i] && p.Items()[0] == p.item;
    assert Held(s, e.w, p.rest[i]) && Unpublished(s, p.rest[i]);
    Untouched(s, e, p.rest[i].id);
  }

  lemma SettleStep(s: State, e: Event)
    requires WorkersSound(s) && Enabled(s, e) && e.Settle? && e.w in Next(s, e).workers
    ensures PhaseSound(Next(s, e), e.w, Next(s, e).workers[e.w])
  {
    var p := s.workers[e.w];
    Resumed(s, e);
    hide Next, Held, Unpublished;
    forall i: nat | i < |p.rest|
      ensures Held(Next(s, e), e.w, p.rest[i]) && Unpublished(Next(s, e), p.rest[i])
    {
      SettleAt(s, e, i);
    }
    forall i, j | 0 <= i < j < |p.rest|
      ensures p.rest[i].id != p.rest[j].id
    {
      assert PhaseSound(s, e.w, p);
      assert p.Items()[i + 1].id != p.Items()[j + 1].id;
    }
  }

  lemma WorkersSoundStep(s: State, e: Event)
    requires WorkersSound(s) && Tallies(s) && Enabled(s, e)
    ensures WorkersSound(Next(s, e))
  {
    var s' := Next(s, e);
    forall w | w in s'.workers
      ensures PhaseSound(s', w, s'.workers[w])
    {
      if Actor(e) != Some(w) {
        OthersKeepStep(w, s, e);
        OtherWorkerKept(s, e, w);
      } else if e.Claim? {
        ClaimStep(s, e);
      } else if e.Settle? {
        SettleStep(s, e);
      } else {
        PublishStep(s, e);
      }
    }
  }

  lemma ClaimFieldsStep(s: State, e: Event)
    requires ClaimFields(s.rows) && Enabled(s, e)
    ensures ClaimFields(Next(s, e).rows)
  {
    var rows, rows' := s.rows, Next(s, e).rows;
    forall id | id in rows'
      ensures rows'[id].status == Publishing <==> rows'[id].claimedBy.Some?
      ensures rows'[id].status == Publishing <==> rows'[id].claimedAt.Some?
    {
      if !Touches(s, e, id) {
        Untouched(s, e, id);
      } else if e.Claim? {
        assert rows' == MarkPublishing(rows, e.ids, e.w, s.clock);
      }
    }
  }

  // ----- Tallies -----

  lemma TallyOfHead(s: State, e: Event)
    requires WorkersSound(s) && Tallies(s) && Enabled(s, e) && (e.PublishOk? || e.PublishErr? || e.Settle?)
    ensures var id := s.workers[e.w].Items()[0].id;
      id in Next(s, e).rows && Tallied(s.cfg, Next(s, e).rows[id], Count(Next(s, e).calls, id),
                                       Count(Next(s, e).acks, id))
  {
    var p := s.workers[e.w];
    assert PhaseSound(s, e.w, p) && Held(s, e.w, p.Items()[0]);
    assert Tallied(s.cfg, s.rows[p.Items()[0].id], Count(s.calls, p.Items()[0].id), Count(s.acks, p.Items()[0].id));
    if p.Busy? {
      assert Unpublished(s, p.batch[0]);
    }
  }

  lemma TallyOfClaimed(s: State, e: Event, id: Id)
    requires Tallies(s) && Enabled(s, e) && e.Claim? && id in e.ids
    ensures id in Next(s, e).rows && Tallied(s.cfg, Next(s, e).rows[id], Count(s.calls, id), Count(s.acks, id))
  {
    assert Tallied(s.cfg, s.rows[id], Count(s.calls, id), Count(s.acks, id));
  }

  lemma KeysStep(s: State, e: Event)
    requires WorkersSound(s) && s.calls.Keys == s.rows.Keys && s.acks.Keys == s.rows.Keys && Enabled(s, e)
    ensures Next(s, e).calls.Keys == Next(s, e).rows.Keys && Next(s, e).acks.Keys == Next(s, e).rows.Keys
    ensures Next(s, e).cfg == s.cfg
  {
    if e.PublishOk? || e.PublishErr? || e.Settle? {
      assert PhaseSound(s, e.w, s.workers[e.w]) && Held(s, e.w, s.workers[e.w].Items()[0]);
    }
  }

  lemma TalliesStep(s: State, e: Event)
    requires WorkersSound(s) && Tallies(s) && Enabled(s, e)
    ensures Tallies(Next(s, e))
  {
    var s' := Next(s, e);
    KeysStep(s, e);
    forall id | id in s'.rows
      ensures Tallied(s'.cfg, s'.rows[id], Count(s'.calls, id), Count(s'.acks, id))
    {
      if !Touches(s, e, id) {
        Untouched(s, e, id);
      } else if e.Claim? {
        TallyOfClaimed(s, e, id);
      } else if e.Insert? {
        assert s'.rows[id].Attempts(s.cfg.maxRetry) >= 1;
      } else {
        TallyOfHead(s, e);
      }
    }
  }

  // ----- Counters -----

  /** A row whose status moves from `publishing` to `st` joins that status and leaves no other terminal one. */
  lemma StatusMoves(rows: Rows, id: Id, row: Row, st: Status)
    requires id in rows && rows[id].status == Publishing && st != Publishing
    ensures |WithStatus(rows[id := row], st)| == |WithStatus(rows, st)| + (if row.status == st then 1 else 0)
  {
    var before, after := WithStatus(rows, st), WithStatus(rows[id := row], st);
    assert id !in before;
    if row.status == st {
      assert after == before + {id};
    } else {
      assert after == before;
    }
  }

  /** A worker that is set aside or gets a new phase changes the remaining work by just that. */
  lemma RemainingMoves(workers: map<WorkerId, Phase>, w: WorkerId, p: Phase)
    ensures Sum(RemainingBy(workers[w := p])) + (if w in workers then workers[w].Remaining() else 0)
            == Sum(RemainingBy(workers)) + p.Remaining()
    ensures Sum(RemainingBy(workers - {w})) + (if w in workers then workers[w].Remaining() else 0)
            == Sum(RemainingBy(workers))
  {
    var m := RemainingBy(workers);
    assert RemainingBy(workers[w := p]) == m[w := p.Remaining()];
    SumUpdate(m, w, p.Remaining());
    assert RemainingBy(workers - {w}) == m - {w};
    if w in workers {
      SumWithout(m, w);
    } else {
      assert m - {w} == m;
    }
  }

  lemma ResumeRemaining(s: State, w: WorkerId, rest: seq<Item>)
    ensures Remaining(Resume(s, w, rest)) + (if w in s.workers then s.workers[w].Remaining() else 0)
            == Remaining(s) + |rest|
  {
    RemainingMoves(s.workers, w, Busy(rest));
  }

  lemma MetricsKept(s: State, e: Event)
    requires Enabled(s, e) && !(e.Settle? && e.ok)
    ensures Next(s, e).metrics.published == s.metrics.published
            && Next(s, e).metrics.deadLettered == s.metrics.deadLettered
  {
  }

  lemma RowStatusKept(s: State, e: Event, id: Id, st: Status)
    requires Enabled(s, e) && !(e.Settle? && e.ok) && (st == Published || st == DeadLetter)
    ensures id in s.rows && s.rows[id].status == st <==> id in Next(s, e).rows && Next(s, e).rows[id].status == st
  {
  }

  lemma StatusKept(s: State, e: Event, st: Status)
    requires Enabled(s, e) && !(e.Settle? && e.ok) && (st == Published || st == DeadLetter)
    ensures WithStatus(Next(s, e).rows, st) == WithStatus(s.rows, st)
  {
    hide Next;
    forall id
      ensures id in s.rows && s.rows[id].status == st <==> id in Next(s, e).rows && Next(s, e).rows[id].status == st
    {
      RowStatusKept(s, e, id, st);
    }
    assert forall id :: id in WithStatus(Next(s, e).rows, st) <==> id in WithStatus(s.rows, st);
  }

  /** Only a settling statement moves a row into or out of a terminal status. */
  lemma TerminalsKept(s: State, e: Event)
    requires Enabled(s, e) && !(e.Settle? && e.ok)
    ensures WithStatus(Next(s, e).rows, Published) == WithStatus(s.rows, Published)
    ensures WithStatus(Next(s, e).rows, DeadLetter) == WithStatus(s.rows, DeadLetter)
    ensures Next(s, e).metrics.published == s.metrics.published
    ensures Next(s, e).metrics.deadLettered == s.metrics.deadLettered
  {
    MetricsKept(s, e);
    hide Next;
    StatusKept(s, e, Published);
    StatusKept(s, e, DeadLetter);
  }

  lemma BalanceKept(s: State, e: Event)
    requires Balanced(s) && Enabled(s, e) && !(e.Settle? && e.ok)
    ensures Balanced(Next(s, e))
  {
    match e
    case Tick(_) =>
    case Insert(_, _, _) =>
    case Claim(w, ids, _) => ResumeRemaining(s, w, ItemsOf(s.rows, ids));
    case PublishOk(w, _) => RemainingMoves(s.workers, w, Next(s, e).workers[w]);
    case PublishErr(w, _, _) => RemainingMoves(s.workers, w, Next(s, e).workers[w]);
    case Settle(w, _, _) =>
      ResumeRemaining(s, w, s.workers[w].rest);
      RemainingMoves(s.workers, w, Busy([]));
    case Crash(w) => RemainingMoves(s.workers, w, Busy([]));
  }

  lemma CountersStep(s: State, e: Event)
    requires WorkersSound(s) && Counters(s) && Enabled(s, e)
    ensures Counters(Next(s, e))
  {
    if e.Settle? && e.ok {
      SettleCounters(s, e);
    } else {
      TerminalsKept(s, e);
      BalanceKept(s, e);
    }
  }

  /** A settling statement rewrites one claimed row, and the counters follow its new status. */
  lemma SettleRow(s: State, e: Event)
    requires WorkersSound(s) && Enabled(s, e) && e.Settle? && e.ok
    ensures var id := s.workers[e.w].item.id;
      var s' := Next(s, e);
      && id in s.rows && s.rows[id].status == Publishing && s'.cfg == s.cfg
      && id in s'.rows && s'.rows == s.rows[id := s'.rows[id]]
      && s'.metrics.published == s.metrics.published + (if s'.rows[id].status == Published then 1 else 0)
      && s'.metrics.deadLettered == s.metrics.deadLettered + (if s'.rows[id].status == DeadLetter then 1 else 0)
  {
    var p := s.workers[e.w];
    assert PhaseSound(s, e.w, p) && Held(s, e.w, p.Items()[0]);
  }

  lemma SettleBalance(s: State, e: Event)
    requires Balanced(s) && Enabled(s, e) && e.Settle? && e.ok
    ensures Balanced(Next(s, e))
  {
    ResumeRemaining(s, e.w, s.workers[e.w].rest);
  }

  lemma SettleCounters(s: State, e: Event)
    requires WorkersSound(s) && Counters(s) && Enabled(s, e) && e.Settle? && e.ok
    ensures Counters(Next(s, e))
  {
    var id := s.workers[e.w].item.id;
    SettleRow(s, e);
    SettleBalance(s, e);
    StatusMoves(s.rows, id, Next(s, e).rows[id], Published);
    StatusMoves(s.rows, id, Next(s, e).rows[id], DeadLetter);
  }

  lemma InitInv(s: State)
    requires Init(s)
    ensures Inv(s)
  {
    assert WithStatus(s.rows, Published) == {} && WithStatus(s.rows, DeadLetter) == {};
    assert RemainingBy(s.workers) == map[];
  }

  /** Every step keeps the invariant. */
  lemma InvStep(s: State, e: Event)
    requires Inv(s) && Enabled(s, e)
    ensures Inv(Next(s, e))
  {
    WorkersSoundStep(s, e);
    ClaimFieldsStep(s, e);
    TalliesStep(s, e);
    CountersStep(s, e);
  }

  lemma {:induction false} InvRun(s: State, evs: seq<Event>)
    requires Inv(s) && ValidRun(s, evs)
    ensures Inv(Run(s, evs))
    decreases |evs|
  {
    if evs != [] {
      InvStep(s, evs[0]);
      InvRun(Next(s, evs[0]), evs[1..]);
    }
  }
}
