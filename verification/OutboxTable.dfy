/** The outbox table: its rows, and the statements of the outbox repository. */
module OutboxTable {
  import opened Options

  type Id = nat
  type Time = int
  type WorkerId = nat

  datatype Status = Pending | Publishing | RetryScheduled | Published | DeadLetter

  datatype Message = Message(topic: string, key: string, payload: string)

  datatype Row = Row(
    message: Message, status: Status, retryCount: int, maxRetry: int, createdAt: Time,
    lastError: Option<string>, nextRetryAt: Option<Time>,
    claimedAt: Option<Time>, claimedBy: Option<WorkerId>, publishedAt: Option<Time>)
  {
    predicate Waiting() {
      status == Pending || status == RetryScheduled
    }

    predicate Terminal() {
      status == Published || status == DeadLetter
    }

    predicate Eligible(now: Time) {
      Waiting() && (nextRetryAt.None? || nextRetryAt.value <= now)
    }

    /** The event's own bound, or the worker's when the event has none. */
    function MaxRetry(default: int): int {
      if maxRetry <= 0 then default else maxRetry
    }

    /** Publish calls an event can see: at least one, however small the bound. */
    function Attempts(default: int): nat {
      if MaxRetry(default) < 1 then 1 else MaxRetry(default)
    }
  }

  type Rows = map<Id, Row>

  /** What the producers insert. */
  function NewRow(m: Message, maxRetry: int, now: Time): Row {
    Row(m, Pending, 0, maxRetry, now, None, None, None, None, None)
  }

  function MarkPublishing(rows: Rows, ids: seq<Id>, w: WorkerId, now: Time): Rows {
    map id | id in rows ::
      if id in ids && rows[id].Waiting()
      then rows[id].(status := Publishing, claimedAt := Some(now), claimedBy := Some(w))
      else rows[id]
  }

  function MarkPublished(rows: Rows, id: Id, now: Time): Rows {
    if id in rows && rows[id].status == Publishing
    then rows[id := rows[id].(status := Published, publishedAt := Some(now), lastError := None,
                              nextRetryAt := None, claimedAt := None, claimedBy := None)]
    else rows
  }

  function MarkRetryScheduled(rows: Rows, id: Id, retryCount: int, error: string, nextAt: Time): Rows {
    if id in rows && rows[id].status == Publishing
    then rows[id := rows[id].(status := RetryScheduled, retryCount := retryCount, lastError := Some(error),
                              nextRetryAt := Some(nextAt), claimedAt := None, claimedBy := None)]
    else rows
  }

  function MarkDeadLetter(rows: Rows, id: Id, error: string): Rows {
    if id in rows && rows[id].status == Publishing
    then rows[id := rows[id].(status := DeadLetter, lastError := Some(error),
                              nextRetryAt := None, claimedAt := None, claimedBy := None)]
    else rows
  }

  predicate Distinct(ids: seq<Id>) {
    forall i, j :: 0 <= i < j < |ids| ==> ids[i] != ids[j]
  }

  /**
    `SELECT ... WHERE eligible ORDER BY created_at LIMIT n FOR UPDATE SKIP LOCKED`
    returned `ids`: the oldest eligible rows that nobody has locked, no more than
    the limit, and fewer only when there are no others.  A negative limit is none.
  */
  ghost predicate Lists(rows: Rows, now: Time, limit: int, locked: set<Id>, ids: seq<Id>) {
    && Distinct(ids)
    && (forall i :: 0 <= i < |ids| ==> ids[i] in rows && rows[ids[i]].Eligible(now) && ids[i] !in locked)
    && (forall i, j :: 0 <= i < j < |ids| ==> rows[ids[i]].createdAt <= rows[ids[j]].createdAt)
    && (limit >= 0 ==> |ids| <= limit)
    && (forall id :: id in rows && rows[id].Eligible(now) && id !in locked && id !in ids ==>
          limit >= 0 && |ids| == limit && forall i :: 0 <= i < |ids| ==> rows[ids[i]].createdAt <= rows[id].createdAt)
  }
}
