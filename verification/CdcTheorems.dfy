/**
  What every run of the consumer keeps, and that the index converges to the
  projection of the logs whatever is redelivered.
*/
module CdcTheorems {
  import opened Options
  import opened Cdc

  // ----- The invariant -----

  ghost predicate CursorsSound(s: State) {
    && s.cursors.Keys == s.logs.Keys
    && forall p :: p in s.cursors ==>
         s.cursors[p].committed <= s.cursors[p].next <= s.cursors[p].reached <= |s.logs[p]|
  }

  /**
    What the index holds under a key, once the redelivered part still ahead does
    not write it: the projection of the part handled so far, unless the key was
    missed.  A key that is still to be redelivered will be overwritten on the way.
  */
  ghost predicate Current(s: State, key: Key, p: Partition, missed: bool)
    requires CursorsSound(s) && p in s.logs
  {
    var c := s.cursors[p];
    Untouched(s.logs[p], c.next, c.reached, key) ==>
      (Get(s.index, key) == Projection(s.logs[p][..c.reached], key) <==> !missed)
  }

  ghost predicate Homed(s: State, home: Key -> Partition) {
    Keyed(s.logs, home) && forall key :: key in s.index ==> home(key) in s.logs
  }

  ghost predicate Inv(s: State, home: Key -> Partition, missed: set<Key>) {
    && CursorsSound(s) && Homed(s, home)
    && (forall key :: home(key) in s.logs ==> Current(s, key, home(key), key in missed))
  }

  lemma InitInv(s: State, home: Key -> Partition)
    requires Init(s) && Keyed(s.logs, home)
    ensures Inv(s, home, {})
  {
  }

  lemma CursorsStep(s: State, e: Event)
    requires CursorsSound(s) && Enabled(s, e)
    ensures CursorsSound(Next(s, e))
  {
  }

  lemma HomedStep(s: State, e: Event, home: Key -> Partition)
    requires CursorsSound(s) && Homed(s, home) && Enabled(s, e) && KeyedEvent(e, home)
    ensures Homed(Next(s, e), home)
  {
    var t := Next(s, e);
    if e.Append? {
      forall p, i, key | p in t.logs && 0 <= i < |t.logs[p]| && Writes(t.logs[p][i], key)
        ensures home(key) == p
      {
        assert t.logs[p][i] == e.m || t.logs[p][i] == s.logs[p][i];
      }
    } else if e.Deliver? {
      forall key | key in t.index
        ensures home(key) in t.logs
      {
        ApplyAt(s.index, s.logs[e.p][s.cursors[e.p].next], key);
      }
    }
  }

  /** A stored delivery makes the key it writes current; the other keys of its partition stay as they are. */
  lemma DeliverCurrent(s: State, e: Event, key: Key, missed: bool)
    requires CursorsSound(s) && Enabled(s, e) && e.Deliver?
    requires !Writes(s.logs[e.p][s.cursors[e.p].next], key) ==> Current(s, key, e.p, missed)
    ensures CursorsSound(Next(s, e))
    ensures var m := s.logs[e.p][s.cursors[e.p].next];
      Current(Next(s, e), key, e.p,
              if Writes(m, key) then !e.stored && Get(s.index, key) != Outcome(m) else missed)
  {
    CursorsStep(s, e);
    var log, c, c' := s.logs[e.p], s.cursors[e.p], Next(s, e).cursors[e.p];
    var m := log[c.next];
    ApplyAt(s.index, m, key);
    assert log[..c.next + 1][..c.next] == log[..c.next];
    if Untouched(log, c'.next, c'.reached, key) {
      ProjectionSkips(log, c'.next, c'.reached, key);
      if !Writes(m, key) {
        assert Untouched(log, c.next, c.reached, key);
        ProjectionSkips(log, c.next, c.reached, key);
      }
    }
  }

  lemma ElsewhereCurrent(s: State, e: Event, home: Key -> Partition, key: Key, missed: bool)
    requires CursorsSound(s) && Homed(s, home) && Enabled(s, e) && home(key) in s.logs
    requires !e.Deliver? || e.p != home(key)
    requires Current(s, key, home(key), missed)
    ensures CursorsSound(Next(s, e)) && Current(Next(s, e), key, home(key), missed)
  {
    CursorsStep(s, e);
    var p, t := home(key), Next(s, e);
    match e
    case Deliver(q, _, _) =>
      ApplyAt(s.index, s.logs[q][s.cursors[q].next], key);
    case Restart(q) =>
    case Append(q, m) =>
      var c := s.cursors[p];
      assert t.logs[p][..c.reached] == s.logs[p][..c.reached];
      assert forall i :: 0 <= i < |s.logs[p]| ==> t.logs[p][i] == s.logs[p][i];
  }

  lemma InvStep(s: State, e: Event, home: Key -> Partition, missed: set<Key>)
    requires Inv(s, home, missed) && Enabled(s, e) && KeyedEvent(e, home)
    ensures Inv(Next(s, e), home, MissedBy(s, e, missed))
  {
    CursorsStep(s, e);
    HomedStep(s, e, home);
    forall key | home(key) in s.logs
      ensures Current(Next(s, e), key, home(key), key in MissedBy(s, e, missed))
    {
      if e.Deliver? && e.p == home(key) {
        DeliverCurrent(s, e, key, key in missed);
      } else {
        assert e.Deliver? ==> !Writes(s.logs[e.p][s.cursors[e.p].next], key);
        ElsewhereCurrent(s, e, home, key, key in missed);
      }
    }
  }

  lemma {:induction false} InvRun(s: State, evs: seq<Event>, home: Key -> Partition, missed: set<Key>)
    requires Inv(s, home, missed) && ValidRun(s, evs) && KeyedRun(evs, home)
    ensures Inv(Run(s, evs), home, Missed(s, evs, missed))
    decreases |evs|
  {
    if evs != [] {
      InvStep(s, evs[0], home, missed);
      InvRun(Next(s, evs[0]), evs[1..], home, MissedBy(s, evs[0], missed));
    }
  }

  // ----- Convergence -----

  ghost predicate CaughtUp(s: State, p: Partition) {
    p in s.logs && p in s.cursors && s.cursors[p].next == |s.logs[p]|
  }

  lemma CaughtUpIsProjection(t: State, home: Key -> Partition, missed: set<Key>, key: Key)
    requires Inv(t, home, missed) && CaughtUp(t, home(key))
    ensures Get(t.index, key) == Projection(t.logs[home(key)], key) <==> key !in missed
  {
    var log := t.logs[home(key)];
    assert Current(t, key, home(key), key in missed);
    assert log[..|log|] == log;
  }

  /**
    Whatever was redelivered, and whatever failed on the way: once a partition
    is read to its end, a key of it holds what applying the log once, without
    any failure, would have left there, exactly when it was not missed.
  */
  lemma Converges(s: State, evs: seq<Event>, home: Key -> Partition, key: Key)
    requires Init(s) && Keyed(s.logs, home) && ValidRun(s, evs) && KeyedRun(evs, home)
    requires CaughtUp(Run(s, evs), home(key))
    ensures Get(Run(s, evs).index, key) == Get(ApplyAll(map[], Run(s, evs).logs[home(key)]), key)
            <==> key !in Missed(s, evs, {})
  {
    hide Inv;
    InitInv(s, home);
    InvRun(s, evs, home, {});
    CaughtUpIsProjection(Run(s, evs), home, Missed(s, evs, {}), key);
    ApplyAllIsProjection(Run(s, evs).logs[home(key)], key);
  }

  /** The index always holds the outcome of the last delivery that was stored. */
  lemma {:induction false} HoldsLastStored(s: State, evs: seq<Event>, key: Key)
    requires ValidRun(s, evs)
    ensures Get(Run(s, evs).index, key) == LastStored(s, evs, key, Get(s.index, key))
    decreases |evs|
  {
    if evs != [] {
      if evs[0].Deliver? {
        ApplyAt(s.index, s.logs[evs[0].p][s.cursors[evs[0].p].next], key);
      }
      HoldsLastStored(Next(s, evs[0]), evs[1..], key);
    }
  }

  /** So a key is not missed exactly when its last stored delivery left what its last change demands. */
  lemma ConvergesOnLastStored(s: State, evs: seq<Event>, home: Key -> Partition, key: Key)
    requires Init(s) && Keyed(s.logs, home) && ValidRun(s, evs) && KeyedRun(evs, home)
    requires CaughtUp(Run(s, evs), home(key))
    ensures LastStored(s, evs, key, None) == Projection(Run(s, evs).logs[home(key)], key)
            <==> key !in Missed(s, evs, {})
  {
    HoldsLastStored(s, evs, key);
    Converges(s, evs, home, key);
    ApplyAllIsProjection(Run(s, evs).logs[home(key)], key);
  }

  ghost predicate AllStored(evs: seq<Event>) {
    forall e :: e in evs && e.Deliver? ==> e.stored
  }

  lemma {:induction false} NothingMissed(s: State, evs: seq<Event>)
    requires ValidRun(s, evs) && AllStored(evs)
    ensures Missed(s, evs, {}) == {}
    decreases |evs|
  {
    if evs != [] {
      assert evs[0] in evs;
      assert MissedBy(s, evs[0], {}) == {};
      NothingMissed(Next(s, evs[0]), evs[1..]);
    }
  }

  /**
    When the indexer never fails, two consumers that have read the same logs to
    their ends hold the same index, however often either was restarted.
  */
  lemma SameLogsSameIndex(s0: State, evs0: seq<Event>, s1: State, evs1: seq<Event>, home: Key -> Partition)
    requires Init(s0) && Keyed(s0.logs, home) && ValidRun(s0, evs0) && KeyedRun(evs0, home) && AllStored(evs0)
    requires Init(s1) && Keyed(s1.logs, home) && ValidRun(s1, evs1) && KeyedRun(evs1, home) && AllStored(evs1)
    requires Run(s0, evs0).logs == Run(s1, evs1).logs
    requires forall p :: p in Run(s0, evs0).logs ==> CaughtUp(Run(s0, evs0), p) && CaughtUp(Run(s1, evs1), p)
    ensures Run(s0, evs0).index == Run(s1, evs1).index
  {
    var a, b := Run(s0, evs0), Run(s1, evs1);
    NothingMissed(s0, evs0);
    NothingMissed(s1, evs1);
    InitInv(s0, home);
    InitInv(s1, home);
    InvRun(s0, evs0, home, {});
    InvRun(s1, evs1, home, {});
    forall key
      ensures Get(a.index, key) == Get(b.index, key)
    {
      if home(key) in a.logs {
        Converges(s0, evs0, home, key);
        Converges(s1, evs1, home, key);
      }
    }
    SameContents(a.index, b.index);
  }

  lemma SameContents(a: Index, b: Index)
    requires forall key :: Get(a, key) == Get(b, key)
    ensures a == b
  {
    forall key
      ensures key in a <==> key in b
      ensures key in a ==> a[key] == b[key]
    {
      assert Get(a, key) == Get(b, key);
    }
  }

  // ----- What a failure costs -----

  /** The key's changes all lie below the commit, so no restart brings one back. */
  ghost predicate Settled(s: State, key: Key) {
    CursorsSound(s) && forall p :: p in s.logs ==> Untouched(s.logs[p], s.cursors[p].committed, |s.logs[p]|, key)
  }

  lemma SettledStep(s: State, e: Event, key: Key)
    requires Settled(s, key) && Enabled(s, e) && (e.Append? ==> !Writes(e.m, key))
    ensures Settled(Next(s, e), key) && Get(Next(s, e).index, key) == Get(s.index, key)
  {
    CursorsStep(s, e);
    match e
    case Deliver(p, _, _) =>
      assert Untouched(s.logs[p], s.cursors[p].committed, |s.logs[p]|, key);
      ApplyAt(s.index, s.logs[p][s.cursors[p].next], key);
    case Restart(p) =>
    case Append(p, m) =>
      forall q | q in Next(s, e).logs
        ensures Untouched(Next(s, e).logs[q], s.cursors[q].committed, |Next(s, e).logs[q]|, key)
      {
        assert Untouched(s.logs[q], s.cursors[q].committed, |s.logs[q]|, key);
      }
  }

  /** Only a new change of the same row alters such a key again. */
  lemma {:induction false} NeverRetried(s: State, evs: seq<Event>, key: Key)
    requires Settled(s, key) && ValidRun(s, evs)
    requires forall e :: e in evs && e.Append? ==> !Writes(e.m, key)
    ensures Get(Run(s, evs).index, key) == Get(s.index, key)
    decreases |evs|
  {
    if evs != [] {
      SettledStep(s, evs[0], key);
      NeverRetried(Next(s, evs[0]), evs[1..], key);
    }
  }

  /** The last change of the key is at most at offset `n` of partition `p`. */
  ghost predicate ChangesEnd(s: State, key: Key, p: Partition, n: nat) {
    forall q, i :: q in s.logs && 0 <= i < |s.logs[q]| && Writes(s.logs[q][i], key) ==> q == p && i <= n
  }

  /** No delivery of the key is stored during the run, and no new change of it arrives. */
  ghost predicate Neglects(s: State, evs: seq<Event>, key: Key)
    requires ValidRun(s, evs)
    decreases |evs|
  {
    evs == []
    || (!Stores(s, evs[0], key) && (evs[0].Append? ==> !Writes(evs[0].m, key))
        && Neglects(Next(s, evs[0]), evs[1..], key))
  }

  lemma {:induction false} NeglectKeeps(s: State, evs: seq<Event>, key: Key, p: Partition, n: nat)
    requires CursorsSound(s) && ChangesEnd(s, key, p, n) && ValidRun(s, evs) && Neglects(s, evs, key)
    ensures CursorsSound(Run(s, evs)) && ChangesEnd(Run(s, evs), key, p, n)
    ensures Get(Run(s, evs).index, key) == Get(s.index, key)
    decreases |evs|
  {
    if evs != [] {
      var s' := Next(s, evs[0]);
      CursorsStep(s, evs[0]);
      if evs[0].Deliver? {
        ApplyAt(s.index, s.logs[evs[0].p][s.cursors[evs[0].p].next], key);
      }
      forall q, i | q in s'.logs && 0 <= i < |s'.logs[q]| && Writes(s'.logs[q][i], key)
        ensures q == p && i <= n
      {
        assert i < |s.logs[q]| ==> s'.logs[q][i] == s.logs[q][i];
      }
      NeglectKeeps(s', evs[1..], key, p, n);
    }
  }

  /**
    The loop fetches on after a failure, and any later commit of the partition
    covers the failed offset `n`.  If that happens before a redelivery is stored,
    the key keeps its old contents until its row changes again, whatever is
    restarted or redelivered afterwards.
  */
  lemma FailedChangeIsLost(s: State, p: Partition, key: Key, mid: seq<Event>, rest: seq<Event>)
    requires CursorsSound(s) && p in s.logs
    requires s.cursors[p].next < |s.logs[p]| && Writes(s.logs[p][s.cursors[p].next], key)
    requires ChangesEnd(s, key, p, s.cursors[p].next)
    requires ValidRun(Next(s, Deliver(p, false, true)), mid) && Neglects(Next(s, Deliver(p, false, true)), mid, key)
    requires var t := Run(Next(s, Deliver(p, false, true)), mid);
      p in t.cursors && t.cursors[p].committed > s.cursors[p].next
    requires ValidRun(Run(Next(s, Deliver(p, false, true)), mid), rest)
    requires forall e :: e in rest && e.Append? ==> !Writes(e.m, key)
    ensures Get(Run(Run(Next(s, Deliver(p, false, true)), mid), rest).index, key) == Get(s.index, key)
  {
    var s1, n := Next(s, Deliver(p, false, true)), s.cursors[p].next;
    CursorsStep(s, Deliver(p, false, true));
    assert ChangesEnd(s1, key, p, n);
    NeglectKeeps(s1, mid, key, p, n);
    var t := Run(s1, mid);
    assert Settled(t, key);
    NeverRetried(t, rest, key);
  }

  /** A concrete log on which one failed delivery leaves the index wrong with everything committed. */
  lemma FailureExample()
    ensures exists s, evs :: ValidRun(s, evs) && Init(s) && Keyed(s.logs, (key: Key) => 0)
              && CaughtUp(Run(s, evs), 0) && 0 in s.logs && Run(s, evs).cursors[0].committed == |s.logs[0]|
              && Run(s, evs).index != ApplyAll(map[], s.logs[0])
  {
    var a := Message(Users, Change("c", None, Some(Image("a", true, ""))));
    var b := Message(Users, Change("c", None, Some(Image("b", true, ""))));
    var log := [a, b];
    var s := State(map[0 := log], map[0 := Cursor(0, 0, 0)], map[]);
    var e0, e1 := Deliver(0, false, true), Deliver(0, true, true);
    var evs := [e0, e1];
    var s1 := Next(s, e0);
    var s2 := Next(s1, e1);
    assert [e0, e1][1..] == [e1] && [e1][1..] == [];
    assert Run(s2, []) == s2 && Run(s1, [e1]) == s2 && Run(s, evs) == s2;
    var key := Key(Users, "a");
    assert Get(s2.index, key) == None;
    assert Projection(log, key) == Some(Document("a", "")) by {
      assert log[..1] == [a] && Writes(a, key) && !Writes(b, key);
    }
    ApplyAllIsProjection(log, key);
    assert ValidRun(s, evs) && Init(s);
  }
}
