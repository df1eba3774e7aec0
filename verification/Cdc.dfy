/**
  The change-data-capture consumer: partitioned logs of row changes, delivered
  at least once, applied to search indexes.  Commit offsets lag behind, so a
  restart redelivers a suffix of every partition.
*/
module Cdc {
  import opened Options

  type Partition = nat

  /** The two topics that the router knows; any other topic is refused. */
  datatype Topic = Users | AuditLogs | Other

  /** The `after` image of a row; `dobOk` says whether the user mapper accepts its date of birth. */
  datatype Image = Image(id: string, dobOk: bool, fields: string)

  /** The search document that the mappers produce from an image. */
  datatype Document = Document(id: string, fields: string)

  /** A message value: undecodable bytes, such as a tombstone, or a Debezium event. */
  datatype Value =
    | Malformed
    | Change(op: string, before: Option<Option<string>>, after: Option<Image>)

  datatype Message = Message(topic: Topic, value: Value)

  /** A document's place: which index, and its id there. */
  datatype Key = Key(topic: Topic, id: string)

  type Index = map<Key, Document>

  /** What a message asks of the indexer. */
  datatype Action =
    | Nothing                       // acknowledged without touching an index
    | Refused                       // Handle returns an error before any index is touched
    | Upsert(key: Key, doc: Document)
    | Delete(key: Key)

  function UserDocument(after: Image): Option<Document> {
    if after.dobOk then Some(Document(after.id, after.fields)) else None
  }

  function AuditDocument(after: Image): Document {
    Document(after.id, after.fields)
  }

  function DeleteAction(topic: Topic, before: Option<Option<string>>): Action {
    if before.None? || before.value.None? || before.value.value == "" then Nothing
    else Delete(Key(topic, before.value.value))
  }

  /** The router and the two handlers, up to the indexer call. */
  function Decide(m: Message): Action {
    if m.topic == Other then Refused
    else if m.value.Malformed? then Refused
    else if m.value.op == "r" || m.value.op == "c" || m.value.op == "u" then
      if m.value.after.None? then Nothing
      else if m.topic == Users then
        match UserDocument(m.value.after.value)
        case None => Refused
        case Some(doc) => if doc.id == "" then Nothing else Upsert(Key(Users, doc.id), doc)
      else
        var doc := AuditDocument(m.value.after.value);
        if doc.id == "" then Nothing else Upsert(Key(AuditLogs, doc.id), doc)
    else if m.value.op == "d" then DeleteAction(m.topic, m.value.before)
    else Nothing
  }

  function Apply(index: Index, m: Message): Index {
    match Decide(m)
    case Nothing => index
    case Refused => index
    case Upsert(key, doc) => index[key := doc]
    case Delete(key) => index - {key}
  }

  function ApplyAll(index: Index, log: seq<Message>): Index {
    if log == [] then index else Apply(ApplyAll(index, log[..|log| - 1]), log[|log| - 1])
  }

  /** The keys whose contents the message decides. */
  function Touches(m: Message): set<Key> {
    match Decide(m)
    case Upsert(key, _) => {key}
    case Delete(key) => {key}
    case _ => {}
  }

  predicate Writes(m: Message, key: Key) {
    key in Touches(m)
  }

  /** What the message leaves under a key it writes. */
  function Outcome(m: Message): Option<Document> {
    match Decide(m)
    case Upsert(_, doc) => Some(doc)
    case _ => None
  }

  function Get(index: Index, key: Key): Option<Document> {
    if key in index then Some(index[key]) else None
  }

  lemma ApplyAt(index: Index, m: Message, key: Key)
    ensures Get(Apply(index, m), key) == if Writes(m, key) then Outcome(m) else Get(index, key)
  {
  }

  // ----- What the log says about a key -----

  /** The last message of the log that writes the key decides; without one the key is absent. */
  function Projection(log: seq<Message>, key: Key): Option<Document> {
    if log == [] then None
    else if Writes(log[|log| - 1], key) then Outcome(log[|log| - 1])
    else Projection(log[..|log| - 1], key)
  }

  /** Applying a log once yields its projection: last upsert wins, last delete leaves nothing. */
  lemma {:induction false} ApplyAllIsProjection(log: seq<Message>, key: Key)
    ensures Get(ApplyAll(map[], log), key) == Projection(log, key)
    decreases |log|
  {
    if log != [] {
      ApplyAllIsProjection(log[..|log| - 1], key);
      ApplyAt(ApplyAll(map[], log[..|log| - 1]), log[|log| - 1], key);
    }
  }

  // ----- What the last change of a row leaves in the index -----

  predicate Known(topic: Topic) {
    topic == Users || topic == AuditLogs
  }

  predicate IsUpsert(op: string) {
    op == "r" || op == "c" || op == "u"
  }

  /** The mapper of the topic produces a document from the row image. */
  predicate Maps(topic: Topic, image: Image) {
    topic == Users ==> image.dobOk
  }

  /** A row whose last change was a delete is absent, whatever the image after it says. */
  lemma LastDeleteLeavesNothing(topic: Topic, log: seq<Message>, id: string, after: Option<Image>)
    requires Known(topic) && id != ""
    ensures Key(topic, id) !in ApplyAll(map[], log + [Message(topic, Change("d", Some(Some(id)), after))])
  {
    var m := Message(topic, Change("d", Some(Some(id)), after));
    assert (log + [m])[..|log|] == log;
  }

  /** A row whose last change was an upsert has the document of that change. */
  lemma LastUpsertLeavesDocument(
    topic: Topic, log: seq<Message>, op: string, before: Option<Option<string>>, image: Image)
    requires Known(topic) && IsUpsert(op) && image.id != "" && Maps(topic, image)
    ensures var index := ApplyAll(map[], log + [Message(topic, Change(op, before, Some(image)))]);
      Key(topic, image.id) in index && index[Key(topic, image.id)] == Document(image.id, image.fields)
  {
    var m := Message(topic, Change(op, before, Some(image)));
    assert (log + [m])[..|log|] == log;
  }

  /** Messages about other rows, unknown operations, unmappable rows and foreign topics leave a row's entry alone. */
  lemma OtherMessagesLeaveEntry(log: seq<Message>, m: Message, key: Key)
    requires
      || !Known(m.topic) || m.topic != key.topic || m.value.Malformed?
      || (!IsUpsert(m.value.op) && m.value.op != "d")
      || (m.value.op == "d" && m.value.before != Some(Some(key.id)))
      || (IsUpsert(m.value.op)
          && (m.value.after.None? || m.value.after.value.id != key.id || !Maps(m.topic, m.value.after.value)))
    ensures Get(ApplyAll(map[], log + [m]), key) == Get(ApplyAll(map[], log), key)
  {
    assert (log + [m])[..|log|] == log;
  }

  predicate Untouched(log: seq<Message>, lo: nat, hi: nat, key: Key)
    requires hi <= |log|
  {
    forall i :: lo <= i < hi ==> !Writes(log[i], key)
  }

  lemma {:induction false} ProjectionSkips(log: seq<Message>, lo: nat, hi: nat, key: Key)
    requires lo <= hi <= |log| && Untouched(log, lo, hi, key)
    ensures Projection(log[..hi], key) == Projection(log[..lo], key)
    decreases hi
  {
    if lo < hi {
      assert log[..hi][..hi - 1] == log[..hi - 1];
      ProjectionSkips(log, lo, hi - 1, key);
    }
  }

  // ----- The consumer as a state machine -----

  /**
    Per partition: the next offset to fetch, the offset a restart resumes from,
    and the furthest offset ever handled.
  */
  datatype Cursor = Cursor(next: nat, committed: nat, reached: nat)

  datatype State = State(logs: map<Partition, seq<Message>>, cursors: map<Partition, Cursor>, index: Index)

  datatype Event =
    | Deliver(p: Partition, stored: bool, committed: bool)  // fetch, handle, and commit unless Handle failed
    | Restart(p: Partition)                                 // crash or rebalance: resume from the commit
    | Append(p: Partition, m: Message)                      // the connector publishes a change

  /** Changes of one row always go to one partition. */
  ghost predicate Keyed(logs: map<Partition, seq<Message>>, home: Key -> Partition) {
    forall p, i, key :: p in logs && 0 <= i < |logs[p]| && Writes(logs[p][i], key) ==> home(key) == p
  }

  predicate Enabled(s: State, e: Event) {
    match e
    case Deliver(p, _, _) => p in s.logs && p in s.cursors && s.cursors[p].next < |s.logs[p]|
    case Restart(p) => p in s.logs && p in s.cursors
    case Append(p, _) => p in s.logs && p in s.cursors
  }

  /** Handle succeeds: nothing to refuse, and the indexer, if asked, stored the change. */
  predicate Handled(m: Message, stored: bool) {
    !Decide(m).Refused? && (Decide(m).Nothing? || stored)
  }

  function Max(a: nat, b: nat): nat {
    if a < b then b else a
  }

  function Next(s: State, e: Event): State
    requires Enabled(s, e)
  {
    match e
    case Deliver(p, stored, committed) =>
      var c := s.cursors[p];
      var m := s.logs[p][c.next];
      var offset := if Handled(m, stored) && committed then c.next + 1 else c.committed;
      s.(cursors := s.cursors[p := Cursor(c.next + 1, offset, Max(c.reached, c.next + 1))],
         index := if stored then Apply(s.index, m) else s.index)
    case Restart(p) => s.(cursors := s.cursors[p := s.cursors[p].(next := s.cursors[p].committed)])
    case Append(p, m) => s.(logs := s.logs[p := s.logs[p] + [m]])
  }

  ghost predicate ValidRun(s: State, evs: seq<Event>)
    decreases |evs|
  {
    evs == [] || (Enabled(s, evs[0]) && ValidRun(Next(s, evs[0]), evs[1..]))
  }

  ghost function Run(s: State, evs: seq<Event>): State
    requires ValidRun(s, evs)
    decreases |evs|
  {
    if evs == [] then s else Run(Next(s, evs[0]), evs[1..])
  }

  lemma {:induction false} RunConcat(s: State, evs: seq<Event>, more: seq<Event>)
    requires ValidRun(s, evs) && ValidRun(Run(s, evs), more)
    ensures ValidRun(s, evs + more) && Run(s, evs + more) == Run(Run(s, evs), more)
    decreases |evs|
  {
    if evs == [] {
      assert [] + more == more;
    } else {
      assert (evs + more)[1..] == evs[1..] + more;
      RunConcat(Next(s, evs[0]), evs[1..], more);
    }
  }

  /** One more step at the end of a run. */
  lemma Extend(s: State, evs: seq<Event>, e: Event) returns (evs': seq<Event>)
    requires ValidRun(s, evs) && Enabled(Run(s, evs), e)
    ensures evs' == evs + [e] && ValidRun(s, evs') && Run(s, evs') == Next(Run(s, evs), e)
  {
    evs' := evs + [e];
    var t := Run(s, evs);
    assert [e][1..] == [];
    assert ValidRun(Next(t, e), []) && Run(Next(t, e), []) == Next(t, e);
    assert ValidRun(t, [e]) && Run(t, [e]) == Next(t, e);
    RunConcat(s, evs, [e]);
  }

  ghost predicate Init(s: State) {
    && s.index == map[] && s.cursors.Keys == s.logs.Keys
    && forall p :: p in s.cursors ==> s.cursors[p] == Cursor(0, 0, 0)
  }

  // ----- Failures -----

  /**
    The keys whose latest delivery failed at the indexer while the index held
    something else than that delivery would have left.
  */
  function MissedBy(s: State, e: Event, missed: set<Key>): set<Key>
    requires Enabled(s, e)
  {
    match e
    case Deliver(p, stored, _) =>
      var m := s.logs[p][s.cursors[p].next];
      missed - Touches(m) + if stored then {} else set key | key in Touches(m) && Get(s.index, key) != Outcome(m)
    case _ => missed
  }

  ghost function Missed(s: State, evs: seq<Event>, missed: set<Key>): set<Key>
    requires ValidRun(s, evs)
    decreases |evs|
  {
    if evs == [] then missed else Missed(Next(s, evs[0]), evs[1..], MissedBy(s, evs[0], missed))
  }

  /** The event delivers a change of the key, and the index stores it. */
  predicate Stores(s: State, e: Event, key: Key)
    requires Enabled(s, e)
  {
    e.Deliver? && e.stored && Writes(s.logs[e.p][s.cursors[e.p].next], key)
  }

  /** The outcome of the last delivery of the key that was stored, or `before` when there was none. */
  ghost function LastStored(s: State, evs: seq<Event>, key: Key, before: Option<Document>): Option<Document>
    requires ValidRun(s, evs)
    decreases |evs|
  {
    if evs == [] then before
    else
      LastStored(Next(s, evs[0]), evs[1..], key,
                 if Stores(s, evs[0], key) then Outcome(s.logs[evs[0].p][s.cursors[evs[0].p].next]) else before)
  }

  ghost predicate KeyedEvent(e: Event, home: Key -> Partition) {
    e.Append? ==> forall key :: Writes(e.m, key) ==> home(key) == e.p
  }

  ghost predicate KeyedRun(evs: seq<Event>, home: Key -> Partition) {
    forall e :: e in evs ==> KeyedEvent(e, home)
  }
}
