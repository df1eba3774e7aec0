/**
  Any number of outbox workers over one table, as a state machine.  A step is
  one committed transaction, one Publish call or one settling statement; a
  worker may crash after any of them.
*/
module OutboxProtocol {
  import opened Options
  import opened OutboxTable

  /** The copy of an event that a worker got from its claim. */
  datatype Item = Item(id: Id, row: Row)

  /** What a worker holds between two steps; a worker without an entry is idle. */
  datatype Phase =
    | Busy(batch: seq<Item>)                 // next to publish is the head
    | Acked(item: Item, rest: seq<Item>)     // Publish succeeded, not yet settled
    | Nacked(item: Item, error: string, rest: seq<Item>)  // Publish failed, not yet settled
  {
    function Items(): seq<Item> {
      match this
      case Busy(batch) => batch
      case Acked(item, rest) => [item] + rest
      case Nacked(item, _, rest) => [item] + rest
    }

    /** Events whose outcome no counter has seen. */
    function Remaining(): nat {
      if Nacked? then |rest| else |Items()|
    }
  }

  datatype Metrics = Metrics(claimed: nat, published: nat, failed: nat, retried: nat, deadLettered: nat)

  datatype Config = Config(batchSize: int, maxRetry: int)

  /**
    `calls` and `acks` count the Publish calls on an event and those that
    succeeded; `abandoned` counts claimed events that a worker dropped when
    MarkPublished failed or when it crashed.
  */
  datatype State = State(
    clock: Time, cfg: Config, rows: Rows, workers: map<WorkerId, Phase>, metrics: Metrics,
    calls: map<Id, nat>, acks: map<Id, nat>, abandoned: nat)

  datatype Event =
    | Tick(now: Time)
    | Insert(id: Id, message: Message, maxRetry: int)
    | Claim(w: WorkerId, ids: seq<Id>, locked: set<Id>)
    | PublishOk(w: WorkerId, sent: Message)         // `sent` is what the publisher was given
    | PublishErr(w: WorkerId, sent: Message, error: string)
    | Settle(w: WorkerId, ok: bool, nextAt: Time)   // `ok` is false when the statement fails
    | Crash(w: WorkerId)

  function Actor(e: Event): Option<WorkerId> {
    if e.Tick? || e.Insert? then None else Some(e.w)
  }

  function ItemsOf(rows: Rows, ids: seq<Id>): (items: seq<Item>)
    requires forall i :: 0 <= i < |ids| ==> ids[i] in rows
    ensures |items| == |ids|
    ensures forall i :: 0 <= i < |ids| ==> items[i] == Item(ids[i], rows[ids[i]])
  {
    seq(|ids|, i requires 0 <= i < |ids| => Item(ids[i], rows[ids[i]]))
  }

  /** The worker goes on with `rest`, or is idle when nothing is left. */
  function Resume(s: State, w: WorkerId, rest: seq<Item>): State {
    if rest == [] then s.(workers := s.workers - {w}) else s.(workers := s.workers[w := Busy(rest)])
  }

  ghost predicate Enabled(s: State, e: Event) {
    match e
    case Tick(now) => s.clock <= now
    case Insert(id, _, _) => id !in s.rows
    case Claim(w, ids, locked) => w !in s.workers && Lists(s.rows, s.clock, s.cfg.batchSize, locked, ids)
    case PublishOk(w, m) =>
      w in s.workers && s.workers[w].Busy? && s.workers[w].batch != [] && m == s.workers[w].batch[0].row.message
    case PublishErr(w, m, _) =>
      w in s.workers && s.workers[w].Busy? && s.workers[w].batch != [] && m == s.workers[w].batch[0].row.message
    case Settle(w, _, _) => w in s.workers && !s.workers[w].Busy?
    case Crash(w) => w in s.workers
  }

  function Count(m: map<Id, nat>, id: Id): nat {
    if id in m then m[id] else 0
  }

  /** `handlePublishFailed` on the table: dead letter at the bound, else another try later. */
  function Fail(s: State, item: Item, error: string, nextAt: Time): Rows {
    var retryCount := item.row.retryCount + 1;
    if retryCount >= item.row.MaxRetry(s.cfg.maxRetry)
    then MarkDeadLetter(s.rows, item.id, error)
    else MarkRetryScheduled(s.rows, item.id, retryCount, error, nextAt)
  }

  /** Its counters: MarkDeadLetter reports zero rows as an error, MarkRetryScheduled does not. */
  function FailMetrics(s: State, item: Item): Metrics {
    var retryCount := item.row.retryCount + 1;
    if retryCount >= item.row.MaxRetry(s.cfg.maxRetry)
    then
      if item.id in s.rows && s.rows[item.id].status == Publishing
      then s.metrics.(deadLettered := s.metrics.deadLettered + 1) else s.metrics
    else s.metrics.(retried := s.metrics.retried + 1)
  }

  ghost function Next(s: State, e: Event): State
    requires Enabled(s, e)
  {
    match e
    case Tick(now) => s.(clock := now)
    case Insert(id, m, maxRetry) =>
      s.(rows := s.rows[id := NewRow(m, maxRetry, s.clock)], calls := s.calls[id := 0], acks := s.acks[id := 0])
    case Claim(w, ids, _) =>
      Resume(s.(rows := MarkPublishing(s.rows, ids, w, s.clock),
                metrics := s.metrics.(claimed := s.metrics.claimed + |ids|)), w, ItemsOf(s.rows, ids))
    case PublishOk(w, _) =>
      var b := s.workers[w].batch;
      s.(workers := s.workers[w := Acked(b[0], b[1..])],
         calls := s.calls[b[0].id := Count(s.calls, b[0].id) + 1],
         acks := s.acks[b[0].id := Count(s.acks, b[0].id) + 1])
    case PublishErr(w, _, error) =>
      var b := s.workers[w].batch;
      s.(workers := s.workers[w := Nacked(b[0], error, b[1..])],
         calls := s.calls[b[0].id := Count(s.calls, b[0].id) + 1],
         metrics := s.metrics.(failed := s.metrics.failed + 1))
    case Settle(w, ok, nextAt) =>
      var p := s.workers[w];
      if p.Acked? then
        if ok then
          Resume(s.(rows := MarkPublished(s.rows, p.item.id, s.clock),
                    metrics := s.metrics.(published := s.metrics.published + 1)), w, p.rest)
        else s.(workers := s.workers - {w}, abandoned := s.abandoned + p.Remaining())
      else
        if ok then Resume(s.(rows := Fail(s, p.item, p.error, nextAt), metrics := FailMetrics(s, p.item)), w, p.rest)
        else Resume(s, w, p.rest)
    case Crash(w) =>
      s.(workers := s.workers - {w}, abandoned := s.abandoned + s.workers[w].Remaining())
  }

  // ----- Runs -----

  ghost predicate Init(s: State) {
    && s.rows == map[] && s.workers == map[] && s.metrics == Metrics(0, 0, 0, 0, 0)
    && s.calls == map[] && s.acks == map[] && s.abandoned == 0
  }

  ghost predicate ValidRun(s: State, evs: seq<Event>)
    decreases |evs|
  {
    evs == [] || (Enabled(s, evs[0]) && ValidRun(Next(s, evs[0]), evs[1..]))
  }

  ghost function Run(s: State, evs: seq<Event>): State
    requires ValidRun(s, evs)
    decreases |evs|
  {
    if evs == [] then s else Run(Next(s, evs[0]), evs[1..])
  }

  lemma {:induction false} RunConcat(s: State, a: seq<Event>, b: seq<Event>)
    requires ValidRun(s, a) && ValidRun(Run(s, a), b)
    ensures ValidRun(s, a + b) && Run(s, a + b) == Run(Run(s, a), b)
    decreases |a|
  {
    if a == [] {
      assert a + b == b;
    } else {
      RunConcat(Next(s, a[0]), a[1..], b);
      assert (a + b)[0] == a[0] && (a + b)[1..] == a[1..] + b;
    }
  }

  /** One more step at the end of a run. */
  lemma Extend(s: State, evs: seq<Event>, e: Event) returns (evs': seq<Event>)
    requires ValidRun(s, evs) && Enabled(Run(s, evs), e)
    ensures evs' == evs + [e] && ValidRun(s, evs') && Run(s, evs') == Next(Run(s, evs), e)
  {
    evs' := evs + [e];
    var t := Run(s, evs);
    assert [e][1..] == [];
    assert ValidRun(Next(t, e), []) && Run(Next(t, e), []) == Next(t, e);
    assert ValidRun(t, [e]) && Run(t, [e]) == Next(t, e);
    RunConcat(s, evs, [e]);
  }

  ghost predicate Reaches(s: State, s': State) {
    exists evs :: ValidRun(s, evs) && Run(s, evs) == s'
  }
}
