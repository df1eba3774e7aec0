/**
  What one pass of the worker's loop does, event by event, and when such a pass is
  a tick of the drain theorems: no statement of it failed, nobody else held a lock,
  and nobody else acted but the clock.
*/
module OutboxRounds {
  import opened Options
  import opened OutboxTable
  import opened OutboxProtocol
  import opened OutboxInvariants
  import opened OutboxTheorems

  /** The claim of a pass. */
  datatype Taken = Taken(ids: seq<Id>, locked: set<Id>)

  /** What others did before the claim, the claim unless it failed, and everything up to the end of the pass. */
  datatype Round = Round(first: seq<Event>, claim: Option<Taken>, rest: seq<Event>)

  /** Between its claim and the end of the pass a worker publishes and settles. */
  predicate Works(e: Event, w: WorkerId) {
    Actor(e) == Some(w) ==> e.PublishOk? || e.PublishErr? || e.Settle?
  }

  ghost predicate AllWork(evs: seq<Event>, w: WorkerId) {
    forall e :: e in evs ==> Works(e, w)
  }

  ghost predicate ByOthers(evs: seq<Event>, w: WorkerId) {
    forall e :: e in evs ==> Actor(e) != Some(w)
  }

  ghost predicate Claims(s: State, w: WorkerId, r: Round) {
    && ValidRun(s, r.first) && r.claim.Some?
    && Enabled(Run(s, r.first), Claim(w, r.claim.value.ids, r.claim.value.locked))
  }

  /** The state after the claim of a round. */
  ghost function AfterClaim(s: State, w: WorkerId, r: Round): State
    requires Claims(s, w, r)
  {
    Next(Run(s, r.first), Claim(w, r.claim.value.ids, r.claim.value.locked))
  }

  /** The round is what happened from `s` to `s'`, and the worker is idle at both ends. */
  ghost predicate Happens(s: State, w: WorkerId, r: Round, s': State) {
    && w !in s.workers && w !in s'.workers
    && ValidRun(s, r.first) && ByOthers(r.first, w)
    && match r.claim
       case None => r.rest == [] && Run(s, r.first) == s'
       case Some(_) =>
         && Claims(s, w, r) && ValidRun(AfterClaim(s, w, r), r.rest) && AllWork(r.rest, w)
         && Run(AfterClaim(s, w, r), r.rest) == s'
  }

  ghost predicate HappenAll(s: State, w: WorkerId, rs: seq<Round>, s': State)
    decreases |rs|
  {
    if rs == [] then s == s'
    else exists mid :: Happens(s, w, rs[0], mid) && HappenAll(mid, w, rs[1..], s')
  }

  lemma {:induction false} HappenSnoc(s: State, w: WorkerId, rs: seq<Round>, mid: State, r: Round, s': State)
    requires HappenAll(s, w, rs, mid) && Happens(mid, w, r, s')
    ensures HappenAll(s, w, rs + [r], s')
    decreases |rs|
  {
    if rs == [] {
      assert [r][1..] == [] && rs + [r] == [r];
      assert HappenAll(s', w, [], s');
    } else {
      var t :| Happens(s, w, rs[0], t) && HappenAll(t, w, rs[1..], mid);
      assert (rs + [r])[0] == rs[0] && (rs + [r])[1..] == rs[1..] + [r];
      HappenSnoc(t, w, rs[1..], mid, r, s');
    }
  }

  // ----- What the broker was asked -----

  /** A call of Publish with the broker's answer: no error text means that it took the message. */
  datatype Attempt = Attempt(message: Message, refused: Option<string>)

  function AttemptOf(e: Event, w: WorkerId): seq<Attempt> {
    if e.PublishOk? && e.w == w then [Attempt(e.sent, None)]
    else if e.PublishErr? && e.w == w then [Attempt(e.sent, Some(e.error))]
    else []
  }

  /** The calls that worker `w` makes along the events, in order. */
  ghost function Attempts(evs: seq<Event>, w: WorkerId): seq<Attempt> {
    if evs == [] then [] else AttemptOf(evs[0], w) + Attempts(evs[1..], w)
  }

  lemma {:induction false} AttemptsAdd(a: seq<Event>, b: seq<Event>, w: WorkerId)
    ensures Attempts(a + b, w) == Attempts(a, w) + Attempts(b, w)
    decreases |a|
  {
    if a == [] {
      assert a + b == b;
    } else {
      assert (a + b)[0] == a[0] && (a + b)[1..] == a[1..] + b;
      AttemptsAdd(a[1..], b, w);
    }
  }

  lemma AttemptsOne(e: Event, w: WorkerId)
    ensures Attempts([e], w) == AttemptOf(e, w)
  {
    assert [e][1..] == [] && Attempts([], w) == [];
  }

  lemma {:induction false} OthersAttemptNothing(evs: seq<Event>, w: WorkerId)
    requires ByOthers(evs, w)
    ensures Attempts(evs, w) == []
    decreases |evs|
  {
    if evs != [] {
      assert evs[0] in evs;
      OthersAttemptNothing(evs[1..], w);
    }
  }

  lemma AckedStep(s: State, e: Event, w: WorkerId)
    requires Enabled(s, e) && w in Next(s, e).workers && Next(s, e).workers[w].Acked?
    ensures var item := Next(s, e).workers[w].item;
      || AttemptOf(e, w) == [Attempt(item.row.message, None)]
      || (w in s.workers && s.workers[w].Acked? && s.workers[w].item == item)
  {
  }

  /** A worker is about to mark an event published only after the broker took its message. */
  lemma {:induction false} AckedWasAccepted(s: State, evs: seq<Event>, w: WorkerId)
    requires ValidRun(s, evs) && w in Run(s, evs).workers && Run(s, evs).workers[w].Acked?
    ensures var item := Run(s, evs).workers[w].item;
      || Attempt(item.row.message, None) in Attempts(evs, w)
      || (w in s.workers && s.workers[w].Acked? && s.workers[w].item == item)
    decreases |evs|
  {
    if evs != [] {
      AckedWasAccepted(Next(s, evs[0]), evs[1..], w);
      var s1, item := Next(s, evs[0]), Run(s, evs).workers[w].item;
      if w in s1.workers && s1.workers[w].Acked? && s1.workers[w].item == item {
        AckedStep(s, evs[0], w);
      }
    }
  }

  /**
    Along any run that worker `w` starts idle, every row that a statement of `w`
    marks published has had its message taken by the broker before.
  */
  lemma PublishedWasAccepted(s: State, evs: seq<Event>, w: WorkerId, nextAt: Time)
    requires Inv(s) && w !in s.workers && ValidRun(s, evs) && Enabled(Run(s, evs), Settle(w, true, nextAt))
    ensures var t := Run(s, evs);
      var t' := Next(t, Settle(w, true, nextAt));
      forall id ::
        && id in t.rows && t.rows[id].status != Published
        && id in t'.rows && t'.rows[id].status == Published
        ==> Attempt(t.rows[id].message, None) in Attempts(evs, w)
  {
    hide Inv, ValidRun, Run;
    InvRun(s, evs);
    var t := Run(s, evs);
    var t' := Next(t, Settle(w, true, nextAt));
    forall id | id in t.rows && t.rows[id].status != Published && id in t'.rows && t'.rows[id].status == Published
      ensures Attempt(t.rows[id].message, None) in Attempts(evs, w)
    {
      SettlePublishes(t, w, nextAt, id);
      HeadIsHeld(t, w);
      AckedWasAccepted(s, evs, w);
    }
  }

  lemma HeadIsHeld(t: State, w: WorkerId)
    requires Inv(t) && w in t.workers && t.workers[w].Acked?
    ensures Held(t, w, t.workers[w].item)
  {
    assert PhaseSound(t, w, t.workers[w]) && t.workers[w].Items()[0] == t.workers[w].item;
  }

  lemma SettlePublishes(t: State, w: WorkerId, nextAt: Time, id: Id)
    requires Enabled(t, Settle(w, true, nextAt)) && id in t.rows && t.rows[id].status != Published
    requires var t' := Next(t, Settle(w, true, nextAt)); id in t'.rows && t'.rows[id].status == Published
    ensures t.workers[w].Acked? && t.workers[w].item.id == id
  {
  }

  // ----- Calm rounds -----

  /** The claim and every settling statement succeeded, no row was locked, and only the clock moved besides. */
  ghost predicate Calm(r: Round, w: WorkerId) {
    && r.claim.Some? && r.claim.value.locked == {}
    && (forall e :: e in r.first ==> e.Tick?)
    && (forall e :: e in r.rest ==> if Actor(e) == Some(w) then e.Settle? ==> e.ok else e.Tick?)
  }

  /** Ticks add up to one. */
  lemma {:induction false} TicksAreOne(s: State, evs: seq<Event>)
    requires ValidRun(s, evs) && forall e :: e in evs ==> e.Tick?
    ensures s.clock <= Run(s, evs).clock && Run(s, evs) == Next(s, Tick(Run(s, evs).clock))
    decreases |evs|
  {
    if evs != [] {
      assert evs[0] in evs;
      TicksAreOne(Next(s, evs[0]), evs[1..]);
    }
  }

  ghost function TurnOf(s: State, r: Round): Turn
    requires ValidRun(s, r.first)
  {
    Turn(Run(s, r.first).clock, if r.claim.Some? then r.claim.value.ids else [], r.rest)
  }

  /** The claim went through, and so did every settling statement of the worker. */
  ghost predicate Faultless(r: Round, w: WorkerId) {
    r.claim.Some? && forall e :: e in r.rest && e.Settle? && e.w == w ==> e.ok
  }

  /** A calm pass of the loop is a tick of the drain theorems. */
  lemma CalmIsTurn(s: State, w: WorkerId, r: Round, s': State)
    requires Happens(s, w, r, s') && Calm(r, w)
    ensures Takes(s, w, TurnOf(s, r)) && After(s, w, TurnOf(s, r)) == s'
  {
    hide Run, ValidRun, Next, Enabled;
    TicksAreOne(s, r.first);
    TickEnabled(s, Run(s, r.first).clock);
    forall e | e in r.rest
      ensures Quiet(e, w)
    {
      assert Works(e, w);
    }
  }

  lemma TickEnabled(s: State, now: Time)
    ensures Enabled(s, Tick(now)) <==> s.clock <= now
  {
  }

  /** The ticks that calm passes amount to. */
  lemma {:induction false} CalmAreTurns(s: State, w: WorkerId, rs: seq<Round>, s': State) returns (turns: seq<Turn>)
    requires HappenAll(s, w, rs, s') && forall r :: r in rs ==> Calm(r, w)
    ensures |turns| == |rs| && TakesAll(s, w, turns) && AfterAll(s, w, turns) == s'
    decreases |rs|
  {
    if rs == [] {
      turns := [];
    } else {
      var mid :| Happens(s, w, rs[0], mid) && HappenAll(mid, w, rs[1..], s');
      CalmIsTurn(s, w, rs[0], mid);
      var more := CalmAreTurns(mid, w, rs[1..], s');
      turns := [TurnOf(s, rs[0])] + more;
      assert turns[1..] == more;
    }
  }

  /** How many of the passes found an eligible row. */
  ghost predicate FindsWork(s: State, r: Round)
    requires ValidRun(s, r.first)
  {
    AnyEligible(Run(s, r.first).rows, Run(s, r.first).clock)
  }

  /** Every pass finds an eligible row, or everything is settled already. */
  ghost predicate NeverIdle(s: State, w: WorkerId, rs: seq<Round>, s': State)
    requires HappenAll(s, w, rs, s')
    decreases |rs|
  {
    rs == []
    || ((FindsWork(s, rs[0]) || Settled(s.rows))
        && forall mid :: Happens(s, w, rs[0], mid) && HappenAll(mid, w, rs[1..], s') ==> NeverIdle(mid, w, rs[1..], s'))
  }

  /**
    The loop drains the table: a lone worker whose passes are calm and never idle
    has published or dead-lettered every event after as many passes as Publish
    calls were left.
  */
  lemma {:induction false} LoopDrains(s: State, w: WorkerId, rs: seq<Round>, s': State)
    requires Inv(s) && Alone(s, w) && s.cfg.batchSize != 0
    requires HappenAll(s, w, rs, s') && (forall r :: r in rs ==> Calm(r, w)) && NeverIdle(s, w, rs, s')
    requires |rs| >= Work(s)
    ensures Settled(s'.rows)
    decreases |rs|
  {
    if rs == [] {
      NoWorkIsSettled(s);
    } else {
      var mid :| Happens(s, w, rs[0], mid) && HappenAll(mid, w, rs[1..], s');
      CalmIsTurn(s, w, rs[0], mid);
      TurnSpends(s, w, TurnOf(s, rs[0]));
      TicksAreOne(s, rs[0].first);
      if !FindsWork(s, rs[0]) {
        SettledIsNoWork(s);
      }
      LoopDrains(mid, w, rs[1..], s');
    }
  }
}
