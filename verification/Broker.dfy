/** The pub/sub broker of crates/actant-subscribe/src/broker.rs: publishers and subscribers
    interleaved statement by statement, with the broadcast rings and their overflow. */
module Broker {
  import opened Common

  datatype Key = Key(workspace: string, topic: string)

  /** Ids are ULIDs from one monotonic generator; only their order matters. */
  datatype Envelope = Envelope(id: nat, key: Key, payload: string)

  type PublisherId = nat
  type SubscriberId = nat

  const BACKFILL_LIMIT := 10_000

  /** What one receiver can still read of a broadcast channel, and what was overwritten
      before it was read. */
  datatype Ring = Ring(queue: seq<Envelope>, lost: seq<Envelope>)

  const EMPTY := Ring([], [])

  function Push(r: Ring, e: Envelope, capacity: nat): Ring {
    if |r.queue| < capacity || r.queue == [] then r.(queue := r.queue + [e])
    else Ring(r.queue[1..] + [e], r.lost + [r.queue[0]])
  }

  function PushAll(r: Ring, es: seq<Envelope>, capacity: nat): Ring {
    if es == [] then r else Push(PushAll(r, es[..|es| - 1], capacity), es[|es| - 1], capacity)
  }

  function Pop(r: Ring): Ring
    requires r.queue != []
  {
    r.(queue := r.queue[1..])
  }

  /** A publish in flight: its id is taken, and then its row is stored. */
  datatype Publish = Numbered(envelope: Envelope) | Stored(envelope: Envelope)

  /** A subscription. `tail` is everything sent to its live receiver so far, `backfill` the
      rows its query returned and `cut` the rows the LIMIT left out. */
  datatype Subscriber =
    | Opened(key: Key, since: Option<nat>)
    | Attached(key: Key, since: Option<nat>, live: Ring, tail: seq<Envelope>)
    | Direct(key: Key, live: Ring, tail: seq<Envelope>, received: seq<Envelope>)
    | Bridged(key: Key, cursor: nat, live: Ring, tail: seq<Envelope>, received: seq<Envelope>,
              bridge: Ring, backfill: seq<Envelope>, cut: seq<Envelope>)

  datatype State = State(
    nextId: nat, rows: seq<Envelope>, publishing: map<PublisherId, Publish>,
    completed: set<Envelope>, channels: set<Key>, subscribers: map<SubscriberId, Subscriber>)

  const INITIAL := State(0, [], map[], {}, {}, map[])

  datatype Step =
    | TakeId(publisher: PublisherId, key: Key, payload: string)
    | Insert(publisher: PublisherId)
    | InsertFails(publisher: PublisherId)
    | FanOut(publisher: PublisherId)
    | OpenChannel(subscriber: SubscriberId, key: Key, since: Option<nat>)
    | Attach(subscriber: SubscriberId)
    | Backfill(subscriber: SubscriberId)
    | Forward(subscriber: SubscriberId)
    | Receive(subscriber: SubscriberId)

  // ---------------------------------------------------- backfill query

  function Select(rows: seq<Envelope>, key: Key, cursor: nat): seq<Envelope> {
    if rows == [] then []
    else
      var last := rows[|rows| - 1];
      Select(rows[..|rows| - 1], key, cursor) + (if Matches(last, key, cursor) then [last] else [])
  }

  predicate Matches(e: Envelope, key: Key, cursor: nat) {
    e.key == key && e.id > cursor
  }

  function InsertById(es: seq<Envelope>, e: Envelope): seq<Envelope> {
    if es == [] || e.id < es[0].id then [e] + es else [es[0]] + InsertById(es[1..], e)
  }

  function SortById(es: seq<Envelope>): seq<Envelope> {
    if es == [] then [] else InsertById(SortById(es[..|es| - 1]), es[|es| - 1])
  }

  /** WHERE key AND id > cursor ORDER BY id, before the LIMIT. */
  function Query(rows: seq<Envelope>, key: Key, cursor: nat): seq<Envelope> {
    SortById(Select(rows, key, cursor))
  }

  function Limited(es: seq<Envelope>): nat {
    if |es| <= BACKFILL_LIMIT then |es| else BACKFILL_LIMIT
  }

  // --------------------------------------------------------------- steps

  function Sent(sub: Subscriber, e: Envelope, capacity: nat): Subscriber {
    if sub.Opened? || sub.key != e.key then sub
    else sub.(live := Push(sub.live, e, capacity), tail := sub.tail + [e])
  }

  function StartStream(sub: Subscriber, rows: seq<Envelope>, capacity: nat): Subscriber
    requires sub.Attached?
  {
    match sub.since
    case None => Direct(sub.key, sub.live, sub.tail, [])
    case Some(c) =>
      var found := Query(rows, sub.key, c);
      var n := Limited(found);
      Bridged(sub.key, c, sub.live, sub.tail, [], PushAll(EMPTY, found[..n], capacity), found[..n], found[n..])
  }

  function Forwarded(sub: Subscriber, capacity: nat): Subscriber
    requires sub.Bridged? && sub.live.queue != []
  {
    sub.(live := Pop(sub.live), bridge := Push(sub.bridge, sub.live.queue[0], capacity))
  }

  function Received(sub: Subscriber): Subscriber
    requires sub.Direct? || sub.Bridged?
  {
    match sub
    case Direct(key, live, tail, received) =>
      if live.queue == [] then sub else Direct(key, Pop(live), tail, received + [live.queue[0]])
    case Bridged(_, _, _, _, _, bridge, _, _) =>
      if bridge.queue == [] then sub else sub.(bridge := Pop(bridge), received := sub.received + [bridge.queue[0]])
  }

  /** A step that is not possible in `s` leaves `s` as it is. */
  function Apply(s: State, step: Step, capacity: nat): State {
    match step
    case TakeId(p, key, payload) =>
      if p in s.publishing || key.topic == "" then s
      else s.(nextId := s.nextId + 1, publishing := s.publishing[p := Numbered(Envelope(s.nextId, key, payload))])
    case Insert(p) =>
      if p !in s.publishing || !s.publishing[p].Numbered? then s
      else
        var e := s.publishing[p].envelope;
        s.(rows := s.rows + [e], publishing := s.publishing[p := Stored(e)])
    case InsertFails(p) =>
      if p !in s.publishing || !s.publishing[p].Numbered? then s
      else s.(publishing := s.publishing - {p})
    case FanOut(p) =>
      if p !in s.publishing || !s.publishing[p].Stored? then s
      else
        var e := s.publishing[p].envelope;
        s.(publishing := s.publishing - {p}, completed := s.completed + {e},
           subscribers :=
             if e.key !in s.channels then s.subscribers
             else map i | i in s.subscribers :: Sent(s.subscribers[i], e, capacity))
    case OpenChannel(i, key, since) =>
      if i in s.subscribers || key.topic == "" then s
      else s.(channels := s.channels + {key}, subscribers := s.subscribers[i := Opened(key, since)])
    case Attach(i) =>
      if i !in s.subscribers || !s.subscribers[i].Opened? then s
      else s.(subscribers := s.subscribers[i := Attached(s.subscribers[i].key, s.subscribers[i].since, EMPTY, [])])
    case Backfill(i) =>
      if i !in s.subscribers || !s.subscribers[i].Attached? then s
      else s.(subscribers := s.subscribers[i := StartStream(s.subscribers[i], s.rows, capacity)])
    case Forward(i) =>
      if i !in s.subscribers || !s.subscribers[i].Bridged? || s.subscribers[i].live.queue == [] then s
      else s.(subscribers := s.subscribers[i := Forwarded(s.subscribers[i], capacity)])
    case Receive(i) =>
      if i !in s.subscribers || s.subscribers[i].Opened? || s.subscribers[i].Attached? then s
      else s.(subscribers := s.subscribers[i := Received(s.subscribers[i])])
  }

  function Run(steps: seq<Step>, capacity: nat): State {
    if steps == [] then INITIAL else Apply(Run(steps[..|steps| - 1], capacity), steps[|steps| - 1], capacity)
  }

  // ---------------------------------------------------- rings and sorting

  /** How often `e` occurs. */
  function Times(es: seq<Envelope>, e: Envelope): nat {
    multiset(es)[e]
  }

  function One(b: bool): nat {
    if b then 1 else 0
  }

  function Held(r: Ring, e: Envelope): nat {
    Times(r.queue, e) + Times(r.lost, e)
  }

  lemma AppendCounts(es: seq<Envelope>, x: Envelope, e: Envelope)
    ensures Times(es + [x], e) == Times(es, e) + One(x == e)
  {
  }

  lemma HeadCounts(es: seq<Envelope>, e: Envelope)
    requires es != []
    ensures Times(es, e) == One(es[0] == e) + Times(es[1..], e)
  {
    assert es == [es[0]] + es[1..];
  }

  lemma LastCounts(es: seq<Envelope>, e: Envelope)
    requires es != []
    ensures Times(es, e) == Times(es[..|es| - 1], e) + One(es[|es| - 1] == e)
  {
    assert es == es[..|es| - 1] + [es[|es| - 1]];
  }

  lemma PushCounts(r: Ring, x: Envelope, capacity: nat, e: Envelope)
    ensures Held(Push(r, x, capacity), e) == Held(r, e) + One(x == e)
  {
    if |r.queue| < capacity || r.queue == [] {
      AppendCounts(r.queue, x, e);
    } else {
      HeadCounts(r.queue, e);
      AppendCounts(r.queue[1..], x, e);
      AppendCounts(r.lost, r.queue[0], e);
    }
  }

  /** A ring that has taken `es`: the newest `capacity` are held, the older ones lost. */
  function Newest(es: seq<Envelope>, capacity: nat): Ring {
    var cut := if |es| <= capacity then 0 else |es| - capacity;
    Ring(es[cut..], es[..cut])
  }

  lemma {:induction false} PushKeepsNewest(es: seq<Envelope>, x: Envelope, capacity: nat)
    requires capacity > 0
    ensures Push(Newest(es, capacity), x, capacity) == Newest(es + [x], capacity)
  {
    if |es| < capacity {
      assert es[0..] == es && es[..0] == [];
      assert (es + [x])[0..] == es + [x] && (es + [x])[..0] == [];
    } else {
      var m := |es| - capacity;
      assert (es + [x])[m + 1..] == es[m..][1..] + [x];
      assert (es + [x])[..m + 1] == es[..m] + [es[m..][0]];
    }
  }

  /** Filling an empty ring keeps the newest `capacity` envelopes and loses the older ones. */
  lemma {:induction false} PushAllKeepsNewest(es: seq<Envelope>, capacity: nat)
    requires capacity > 0
    ensures PushAll(EMPTY, es, capacity) == Newest(es, capacity)
  {
    if es != [] {
      var init, last := es[..|es| - 1], es[|es| - 1];
      PushAllKeepsNewest(init, capacity);
      PushKeepsNewest(init, last, capacity);
      assert es == init + [last];
    }
  }

  lemma {:induction false} PushAllCounts(es: seq<Envelope>, capacity: nat, e: Envelope)
    ensures Held(PushAll(EMPTY, es, capacity), e) == Times(es, e)
  {
    if es != [] {
      var init, last := es[..|es| - 1], es[|es| - 1];
      var before := PushAll(EMPTY, init, capacity);
      PushAllCounts(init, capacity, e);
      assert PushAll(EMPTY, es, capacity) == Push(before, last, capacity);
      PushCounts(before, last, capacity, e);
      LastCounts(es, e);
    }
  }

  predicate AscendingIds(es: seq<Envelope>) {
    forall i, j :: 0 <= i < j < |es| ==> es[i].id < es[j].id
  }

  predicate DistinctIds(es: seq<Envelope>) {
    forall i, j :: 0 <= i < j < |es| ==> es[i].id != es[j].id
  }

  lemma {:induction false} SelectIsFilter(rows: seq<Envelope>, key: Key, cursor: nat)
    ensures forall e :: e in Select(rows, key, cursor) <==> e in rows && Matches(e, key, cursor)
    ensures DistinctIds(rows) ==> DistinctIds(Select(rows, key, cursor))
    ensures AscendingIds(rows) ==> AscendingIds(Select(rows, key, cursor))
  {
    if rows != [] {
      var init, last := rows[..|rows| - 1], rows[|rows| - 1];
      SelectIsFilter(init, key, cursor);
      assert rows == init + [last];
      var s := Select(init, key, cursor);
      forall i | 0 <= i < |s|
        ensures DistinctIds(rows) ==> s[i].id != last.id
        ensures AscendingIds(rows) ==> s[i].id < last.id
      {
        assert s[i] in s && s[i] in init;
        var k :| 0 <= k < |init| && init[k] == s[i];
        assert rows[k] == s[i] && rows[|rows| - 1] == last;
      }
    }
  }

  lemma {:induction false} InsertByIdAscends(es: seq<Envelope>, e: Envelope)
    requires AscendingIds(es) && forall x :: x in es ==> x.id != e.id
    ensures AscendingIds(InsertById(es, e))
    ensures forall x :: x in InsertById(es, e) <==> x in es || x == e
  {
    if es != [] {
      assert es[0] in es && es == [es[0]] + es[1..];
      if e.id > es[0].id {
        InsertByIdAscends(es[1..], e);
        var rest := InsertById(es[1..], e);
        forall k | 0 <= k < |rest| ensures es[0].id < rest[k].id {
          assert rest[k] in rest;
          if rest[k] != e { var m :| 0 <= m < |es[1..]| && es[1..][m] == rest[k]; }
        }
      }
    }
  }

  lemma {:induction false} SortByIdAscends(es: seq<Envelope>)
    requires DistinctIds(es)
    ensures AscendingIds(SortById(es))
    ensures forall x :: x in SortById(es) <==> x in es
  {
    if es != [] {
      var init, last := es[..|es| - 1], es[|es| - 1];
      assert es == init + [last];
      SortByIdAscends(init);
      forall x | x in SortById(init) ensures x.id != last.id {
        var k :| 0 <= k < |init| && init[k] == x;
        assert es[k] == x;
      }
      InsertByIdAscends(SortById(init), last);
    }
  }

  lemma QueryIsExact(rows: seq<Envelope>, key: Key, cursor: nat)
    requires DistinctIds(rows)
    ensures AscendingIds(Query(rows, key, cursor))
    ensures forall e :: e in Query(rows, key, cursor) <==> e in rows && Matches(e, key, cursor)
  {
    SelectIsFilter(rows, key, cursor);
    SortByIdAscends(Select(rows, key, cursor));
  }

  lemma {:induction false} OnceWhenDistinct(es: seq<Envelope>, e: Envelope)
    requires DistinctIds(es)
    ensures multiset(es)[e] == if e in es then 1 else 0
  {
    if es != [] {
      var init, last := es[..|es| - 1], es[|es| - 1];
      assert es == init + [last];
      OnceWhenDistinct(init, e);
      if e in init { var k :| 0 <= k < |init| && init[k] == e; assert es[k] == e; }
    }
  }

  // ---------------------------------------------------------- invariant

  /** Publishers hold distinct ids below the next one; a row exists exactly once stored. */
  ghost predicate PublishersInv(s: State) {
    && (forall e :: e in s.rows ==> e.id < s.nextId)
    && DistinctIds(s.rows)
    && (forall p :: p in s.publishing ==> s.publishing[p].envelope.id < s.nextId)
    && (forall p, q :: p in s.publishing && q in s.publishing && p != q
          ==> s.publishing[p].envelope.id != s.publishing[q].envelope.id)
    && (forall p :: p in s.publishing && s.publishing[p].Numbered?
          ==> forall e :: e in s.rows ==> e.id != s.publishing[p].envelope.id)
    && (forall p :: p in s.publishing && s.publishing[p].Stored? ==> s.publishing[p].envelope in s.rows)
    && (forall e :: e in s.rows <==> e in s.completed || InFlight(s, e))
    && (forall e :: e in s.completed ==> !InFlight(s, e))
  }

  /** Its row is stored and its fan-out is still to come. */
  ghost predicate InFlight(s: State, e: Envelope) {
    exists p :: p in s.publishing && s.publishing[p] == Stored(e)
  }

  /** Every envelope sent to or queried by a subscriber is accounted for, as often as it came. */
  ghost predicate Conserved(sub: Subscriber) {
    forall e :: Incoming(sub, e) == Outgoing(sub, e)
  }

  function Incoming(sub: Subscriber, e: Envelope): nat {
    match sub
    case Opened(_, _) => 0
    case Attached(_, _, _, tail) => Times(tail, e)
    case Direct(_, _, tail, _) => Times(tail, e)
    case Bridged(_, _, _, tail, _, _, backfill, _) => Times(backfill, e) + Times(tail, e)
  }

  function Outgoing(sub: Subscriber, e: Envelope): nat {
    match sub
    case Opened(_, _) => 0
    case Attached(_, _, live, _) => Held(live, e)
    case Direct(_, live, _, received) => Times(received, e) + Held(live, e)
    case Bridged(_, _, live, _, received, bridge, _, _) => Times(received, e) + Held(bridge, e) + Held(live, e)
  }

  /** The tail holds distinct completed envelopes of the subscriber's own key. */
  ghost predicate TailInv(s: State, sub: Subscriber) {
    !sub.Opened? ==>
      && sub.key in s.channels
      && DistinctIds(sub.tail)
      && (forall e :: e in sub.tail ==> e in s.completed && e.key == sub.key)
  }

  /** No row newer than the cursor is unknown to a subscriber whose query has run. */
  ghost predicate NoGap(s: State, sub: Subscriber) {
    sub.Bridged? ==>
      && AscendingIds(sub.backfill + sub.cut)
      && (sub.cut != [] ==> |sub.backfill| == BACKFILL_LIMIT)
      && (forall e :: e in sub.backfill || e in sub.cut ==> e in s.rows && Matches(e, sub.key, sub.cursor))
      && (forall e :: e in s.rows && Matches(e, sub.key, sub.cursor) ==>
            e in sub.backfill || e in sub.cut || e in sub.tail || InFlight(s, e))
  }

  ghost predicate SubscriberInv(s: State, sub: Subscriber) {
    && (sub.Opened? ==> sub.key in s.channels)
    && Conserved(sub) && TailInv(s, sub) && NoGap(s, sub)
  }

  ghost predicate Inv(s: State) {
    PublishersInv(s) && forall i :: i in s.subscribers ==> SubscriberInv(s, s.subscribers[i])
  }

  lemma TakeIdKeepsInv(s: State, p: PublisherId, key: Key, payload: string, capacity: nat)
    requires Inv(s)
    ensures Inv(Apply(s, TakeId(p, key, payload), capacity))
  {
    var s' := Apply(s, TakeId(p, key, payload), capacity);
    if s' != s {
      forall e ensures InFlight(s', e) <==> InFlight(s, e) {
        if q :| q in s.publishing && s.publishing[q] == Stored(e) { assert s'.publishing[q] == Stored(e); }
      }
      forall i | i in s'.subscribers ensures SubscriberInv(s', s'.subscribers[i]) {
        assert SubscriberInv(s, s.subscribers[i]);
      }
    }
  }

  lemma InsertKeepsInv(s: State, p: PublisherId, capacity: nat)
    requires Inv(s)
    ensures Inv(Apply(s, Insert(p), capacity))
  {
    var s' := Apply(s, Insert(p), capacity);
    if s' != s {
      var e := s.publishing[p].envelope;
      assert s'.publishing[p] == Stored(e);
      forall x ensures InFlight(s', x) <==> InFlight(s, x) || x == e {
        if q :| q in s.publishing && s.publishing[q] == Stored(x) { assert s'.publishing[q] == Stored(x); }
      }
      forall x ensures x in s'.rows <==> x in s.rows || x == e {}
      forall i | i in s'.subscribers ensures SubscriberInv(s', s'.subscribers[i]) {
        assert SubscriberInv(s, s.subscribers[i]);
      }
    }
  }

  lemma InsertFailsKeepsInv(s: State, p: PublisherId, capacity: nat)
    requires Inv(s)
    ensures Inv(Apply(s, InsertFails(p), capacity))
  {
    var s' := Apply(s, InsertFails(p), capacity);
    if s' != s {
      forall x ensures InFlight(s', x) <==> InFlight(s, x) {
        if q :| q in s.publishing && s.publishing[q] == Stored(x) { assert s'.publishing[q] == Stored(x); }
      }
      forall i | i in s'.subscribers ensures SubscriberInv(s', s'.subscribers[i]) {
        assert SubscriberInv(s, s.subscribers[i]);
      }
    }
  }

  lemma FanOutKeepsPublishers(s: State, p: PublisherId, capacity: nat)
    requires Inv(s) && p in s.publishing && s.publishing[p].Stored?
    ensures var s', e := Apply(s, FanOut(p), capacity), s.publishing[p].envelope;
            && PublishersInv(s')
            && (forall x :: InFlight(s', x) <==> InFlight(s, x) && x != e)
  {
    var s', e := Apply(s, FanOut(p), capacity), s.publishing[p].envelope;
    forall x ensures InFlight(s', x) <==> InFlight(s, x) && x != e {
      if q :| q in s.publishing && s.publishing[q] == Stored(x) {
        if x != e { assert s'.publishing[q] == Stored(x); }
      }
    }
    assert InFlight(s, e);
  }

  lemma SentConserves(sub: Subscriber, x: Envelope, capacity: nat)
    requires Conserved(sub)
    ensures Conserved(Sent(sub, x, capacity))
  {
    if !sub.Opened? && sub.key == x.key {
      forall e ensures Incoming(Sent(sub, x, capacity), e) == Outgoing(Sent(sub, x, capacity), e) {
        assert Incoming(sub, e) == Outgoing(sub, e);
        PushCounts(sub.live, x, capacity, e);
        AppendCounts(sub.tail, x, e);
      }
    }
  }

  lemma ForwardedConserves(sub: Subscriber, capacity: nat)
    requires sub.Bridged? && sub.live.queue != [] && Conserved(sub)
    ensures Conserved(Forwarded(sub, capacity))
  {
    forall e ensures Incoming(Forwarded(sub, capacity), e) == Outgoing(Forwarded(sub, capacity), e) {
      assert Incoming(sub, e) == Outgoing(sub, e);
      HeadCounts(sub.live.queue, e);
      PushCounts(sub.bridge, sub.live.queue[0], capacity, e);
    }
  }

  lemma ReceivedConserves(sub: Subscriber)
    requires (sub.Bridged? || sub.Direct?) && Conserved(sub)
    ensures Conserved(Received(sub))
  {
    var r := if sub.Direct? then sub.live else sub.bridge;
    if r.queue != [] {
      forall e ensures Incoming(Received(sub), e) == Outgoing(Received(sub), e) {
        assert Incoming(sub, e) == Outgoing(sub, e);
        HeadCounts(r.queue, e);
        AppendCounts(sub.received, r.queue[0], e);
      }
    }
  }

  lemma FanOutKeepsSubscriber(s: State, p: PublisherId, capacity: nat, sub: Subscriber)
    requires Inv(s) && p in s.publishing && s.publishing[p].Stored? && SubscriberInv(s, sub)
    ensures var s', e := Apply(s, FanOut(p), capacity), s.publishing[p].envelope;
            SubscriberInv(s', if e.key in s.channels then Sent(sub, e, capacity) else sub)
  {
    var s', e := Apply(s, FanOut(p), capacity), s.publishing[p].envelope;
    var sub' := if e.key in s.channels then Sent(sub, e, capacity) else sub;
    FanOutKeepsPublishers(s, p, capacity);
    assert InFlight(s, e);
    if !sub.Opened? && sub.key == e.key {
      SentConserves(sub, e, capacity);
      assert e !in s.completed && e in s.rows;
      forall x | x in sub.tail ensures x.id != e.id { SameIdSameRow(s.rows, x, e); }
      assert sub'.tail == sub.tail + [e];
    }
  }

  lemma SameIdSameRow(rows: seq<Envelope>, a: Envelope, b: Envelope)
    requires DistinctIds(rows) && a in rows && b in rows
    ensures a.id == b.id ==> a == b
  {
    var i :| 0 <= i < |rows| && rows[i] == a;
    var j :| 0 <= j < |rows| && rows[j] == b;
  }

  lemma FanOutKeepsInv(s: State, p: PublisherId, capacity: nat)
    requires Inv(s)
    ensures Inv(Apply(s, FanOut(p), capacity))
  {
    if p in s.publishing && s.publishing[p].Stored? {
      FanOutKeepsPublishers(s, p, capacity);
      forall i | i in s.subscribers ensures SubscriberInv(Apply(s, FanOut(p), capacity), Apply(s, FanOut(p), capacity).subscribers[i]) {
        FanOutKeepsSubscriber(s, p, capacity, s.subscribers[i]);
      }
    }
  }

  /** The state after one subscriber moved by itself. */
  lemma OwnStepKeepsInv(s: State, i: SubscriberId, sub: Subscriber, channels: set<Key>)
    requires Inv(s) && s.channels <= channels
    requires SubscriberInv(s.(channels := channels), sub)
    ensures Inv(s.(channels := channels, subscribers := s.subscribers[i := sub]))
  {
    var s' := s.(channels := channels, subscribers := s.subscribers[i := sub]);
    forall x ensures InFlight(s', x) <==> InFlight(s, x) {}
    forall x ensures InFlight(s.(channels := channels), x) <==> InFlight(s, x) {}
    forall k | k in s'.subscribers ensures SubscriberInv(s', s'.subscribers[k]) {
      if k != i { assert SubscriberInv(s, s.subscribers[k]); }
    }
  }

  lemma StartStreamKeepsInv(s: State, sub: Subscriber, capacity: nat)
    requires Inv(s) && sub.Attached? && SubscriberInv(s, sub)
    ensures SubscriberInv(s, StartStream(sub, s.rows, capacity))
  {
    var sub' := StartStream(sub, s.rows, capacity);
    if sub.since.Some? {
      var found := Query(s.rows, sub.key, sub.since.value);
      QueryIsExact(s.rows, sub.key, sub.since.value);
      assert found == sub'.backfill + sub'.cut;
    }
    forall e ensures Incoming(sub', e) == Outgoing(sub', e) {
      assert Incoming(sub, e) == Outgoing(sub, e);
      if sub.since.Some? { PushAllCounts(sub'.backfill, capacity, e); }
    }
  }

  lemma StreamStepKeepsInv(s: State, sub: Subscriber, capacity: nat)
    requires SubscriberInv(s, sub)
    ensures sub.Bridged? && sub.live.queue != [] ==> SubscriberInv(s, Forwarded(sub, capacity))
    ensures sub.Bridged? || sub.Direct? ==> SubscriberInv(s, Received(sub))
  {
    if sub.Bridged? && sub.live.queue != [] { ForwardedConserves(sub, capacity); }
    if sub.Bridged? || sub.Direct? { ReceivedConserves(sub); }
  }

  lemma StepKeepsInv(s: State, step: Step, capacity: nat)
    requires Inv(s)
    ensures Inv(Apply(s, step, capacity))
  {
    match step
    case TakeId(p, key, payload) => TakeIdKeepsInv(s, p, key, payload, capacity);
    case Insert(p) => InsertKeepsInv(s, p, capacity);
    case InsertFails(p) => InsertFailsKeepsInv(s, p, capacity);
    case FanOut(p) => FanOutKeepsInv(s, p, capacity);
    case OpenChannel(i, key, since) =>
      OwnStepKeepsInv(s, i, Opened(key, since), s.channels + {key});
    case Attach(i) =>
      if i in s.subscribers && s.subscribers[i].Opened? {
        OwnStepKeepsInv(s, i, Attached(s.subscribers[i].key, s.subscribers[i].since, EMPTY, []), s.channels);
      }
    case Backfill(i) =>
      if i in s.subscribers && s.subscribers[i].Attached? {
        StartStreamKeepsInv(s, s.subscribers[i], capacity);
        OwnStepKeepsInv(s, i, StartStream(s.subscribers[i], s.rows, capacity), s.channels);
      }
    case Forward(i) =>
      if i in s.subscribers && s.subscribers[i].Bridged? && s.subscribers[i].live.queue != [] {
        StreamStepKeepsInv(s, s.subscribers[i], capacity);
        OwnStepKeepsInv(s, i, Forwarded(s.subscribers[i], capacity), s.channels);
      }
    case Receive(i) =>
      if i in s.subscribers && (s.subscribers[i].Bridged? || s.subscribers[i].Direct?) {
        StreamStepKeepsInv(s, s.subscribers[i], capacity);
        OwnStepKeepsInv(s, i, Received(s.subscribers[i]), s.channels);
      }
  }

  lemma {:induction false} RunKeepsInv(steps: seq<Step>, capacity: nat)
    ensures Inv(Run(steps, capacity))
  {
    if steps != [] {
      RunKeepsInv(steps[..|steps| - 1], capacity);
      StepKeepsInv(Run(steps[..|steps| - 1], capacity), steps[|steps| - 1], capacity);
    }
  }

  // -------------------------------------------------------- main results

  /** Nothing is read, forwarded or waiting any more. */
  predicate Drained(sub: Subscriber) {
    sub.Bridged? && sub.live.queue == [] && sub.bridge.queue == []
  }

  /** No ring overflowed and the query stayed within its LIMIT. */
  predicate NothingDropped(sub: Subscriber) {
    sub.Bridged? && sub.live.lost == [] && sub.bridge.lost == [] && sub.cut == []
  }

  /** Exact accounting for any interleaving: a completed envelope newer than the cursor came in
      through the backfill, the live tail, or both, unless the LIMIT cut it off; and it was
      received that often, less the times a ring dropped it. */
  lemma DeliveryIsAccounted(steps: seq<Step>, capacity: nat, i: SubscriberId, e: Envelope)
    requires var s := Run(steps, capacity);
             && i in s.subscribers && Drained(s.subscribers[i])
             && e in s.completed && Matches(e, s.subscribers[i].key, s.subscribers[i].cursor)
    ensures var sub := Run(steps, capacity).subscribers[i];
            && (e in sub.backfill || e in sub.tail || e in sub.cut)
            && (sub.cut != [] ==> |sub.backfill| == BACKFILL_LIMIT)
            && Times(sub.received, e) + Times(sub.bridge.lost, e) + Times(sub.live.lost, e)
               == One(e in sub.backfill) + One(e in sub.tail)
  {
    RunKeepsInv(steps, capacity);
    var s := Run(steps, capacity);
    var sub := s.subscribers[i];
    assert SubscriberInv(s, sub) && Incoming(sub, e) == Outgoing(sub, e);
    assert e in s.rows && !InFlight(s, e);
    BackfillIsDistinct(sub.backfill, sub.cut);
    OnceWhenDistinct(sub.backfill, e);
    OnceWhenDistinct(sub.tail, e);
  }

  lemma BackfillIsDistinct(backfill: seq<Envelope>, cut: seq<Envelope>)
    requires AscendingIds(backfill + cut)
    ensures DistinctIds(backfill) && AscendingIds(backfill)
  {
    forall i, j | 0 <= i < j < |backfill| ensures backfill[i].id < backfill[j].id {
      assert (backfill + cut)[i].id < (backfill + cut)[j].id;
    }
  }

  /** No gap: without overflow and within the LIMIT, every completed envelope newer than the
      cursor is received at least once and at most twice. */
  lemma EveryEnvelopeArrives(steps: seq<Step>, capacity: nat, i: SubscriberId, e: Envelope)
    requires var s := Run(steps, capacity);
             && i in s.subscribers && Drained(s.subscribers[i]) && NothingDropped(s.subscribers[i])
             && e in s.completed && Matches(e, s.subscribers[i].key, s.subscribers[i].cursor)
    ensures 1 <= Times(Run(steps, capacity).subscribers[i].received, e) <= 2
  {
    DeliveryIsAccounted(steps, capacity, i, e);
  }

  predicate Reaches(steps: seq<Step>, s: State, capacity: nat) {
    Run(steps, capacity) == s
  }

  lemma {:induction false} Then(steps: seq<Step>, s: State, step: Step, capacity: nat) returns (t: seq<Step>)
    requires Reaches(steps, s, capacity)
    ensures Reaches(t, Apply(s, step, capacity), capacity)
  {
    t := steps + [step];
    assert t[..|steps|] == steps;
  }

  /** Where the race of `TwiceHappens` stands once the row is stored and the receiver attached. */
  function Racing(key: Key, e: Envelope): State {
    State(2, [e], map[0 := Stored(e)], {}, {key}, map[0 := Attached(key, Some(0), EMPTY, [])])
  }

  lemma {:induction false} RacingHappens(key: Key, e: Envelope, capacity: nat) returns (t: seq<Step>)
    requires key.topic != "" && e == Envelope(1, key, "")
    ensures Reaches(t, Racing(key, e), capacity)
  {
    var none: map<PublisherId, Publish> := map[];
    t := [];
    t := Then(t, INITIAL, TakeId(0, key, ""), capacity);
    var s := State(1, [], map[0 := Numbered(Envelope(0, key, ""))], {}, {}, map[]);
    t := Then(t, s, InsertFails(0), capacity);
    assert s.publishing - {0} == none;
    s := State(1, [], none, {}, {}, map[]);
    t := Then(t, s, TakeId(0, key, ""), capacity);
    s := State(2, [], map[0 := Numbered(e)], {}, {}, map[]);
    t := Then(t, s, Insert(0), capacity);
    s := State(2, [e], map[0 := Stored(e)], {}, {}, map[]);
    t := Then(t, s, OpenChannel(0, key, Some(0)), capacity);
    s := State(2, [e], map[0 := Stored(e)], {}, {key}, map[0 := Opened(key, Some(0))]);
    t := Then(t, s, Attach(0), capacity);
  }

  /** The one subscriber, when the row has come both ways and `n` copies of it have been read. */
  function BothWays(key: Key, e: Envelope, live: seq<Envelope>, received: seq<Envelope>, bridge: seq<Envelope>): State {
    State(2, [e], map[], {e}, {key},
          map[0 := Bridged(key, 0, Ring(live, []), [e], received, Ring(bridge, []), [e], [])])
  }

  lemma {:induction false} OneRowBackfill(key: Key, e: Envelope, capacity: nat)
    requires e == Envelope(1, key, "")
    ensures StartStream(Attached(key, Some(0), Ring([e], []), [e]), [e], capacity) ==
              Bridged(key, 0, Ring([e], []), [e], [], Ring([e], []), [e], [])
  {
    assert [e][..0] == [] && [e][..1] == [e] && [e][1..] == [];
    assert Select([e], key, 0) == Select([], key, 0) + [e] == [e];
    assert SortById([e]) == InsertById(SortById([]), e) == [e] + [];
    assert PushAll(EMPTY, [e], capacity) == Push(EMPTY, e, capacity) == Ring([] + [e], []);
  }

  lemma {:induction false} BothWaysHappens(key: Key, e: Envelope, capacity: nat) returns (t: seq<Step>)
    requires key.topic != "" && e == Envelope(1, key, "")
    ensures Reaches(t, BothWays(key, e, [e], [], [e]), capacity)
  {
    t := RacingHappens(key, e, capacity);
    var s := Racing(key, e);
    t := Then(t, s, FanOut(0), capacity);
    var sub := Attached(key, Some(0), Ring([e], []), [e]);
    var none: map<PublisherId, Publish> := map[];
    assert s.publishing - {0} == none;
    assert Sent(s.subscribers[0], e, capacity) == sub by { assert [] + [e] == [e]; }
    assert Apply(s, FanOut(0), capacity).subscribers == map[0 := sub];
    s := State(2, [e], none, {e}, {key}, map[0 := sub]);
    t := Then(t, s, Backfill(0), capacity);
    OneRowBackfill(key, e, capacity);
  }

  lemma {:induction false} BothWaysForward(key: Key, e: Envelope, live: seq<Envelope>, received: seq<Envelope>,
                                           bridge: seq<Envelope>, capacity: nat)
    requires live != [] && |bridge| < capacity
    ensures Apply(BothWays(key, e, live, received, bridge), Forward(0), capacity)
         == BothWays(key, e, live[1..], received, bridge + [live[0]])
  {
  }

  lemma {:induction false} BothWaysReceive(key: Key, e: Envelope, live: seq<Envelope>, received: seq<Envelope>,
                                           bridge: seq<Envelope>, capacity: nat)
    requires bridge != []
    ensures Apply(BothWays(key, e, live, received, bridge), Receive(0), capacity)
         == BothWays(key, e, live, received + [bridge[0]], bridge[1..])
  {
  }

  /** Twice does happen: a row stored before the query and fanned out after the attachment comes
      both ways, with nothing dropped. */
  lemma {:induction false} TwiceHappens(key: Key, capacity: nat)
    requires key.topic != "" && capacity >= 2
    ensures exists t, e :: var s := Run(t, capacity);
              && 0 in s.subscribers && Drained(s.subscribers[0]) && NothingDropped(s.subscribers[0])
              && e in s.completed && Matches(e, s.subscribers[0].key, s.subscribers[0].cursor)
              && Times(s.subscribers[0].received, e) == 2
  {
    var e := Envelope(1, key, "");
    var t := BothWaysHappens(key, e, capacity);
    BothWaysForward(key, e, [e], [], [e], capacity);
    t := Then(t, BothWays(key, e, [e], [], [e]), Forward(0), capacity);
    assert [e][1..] == [] && [e] + [e] == [e, e] && [e, e][1..] == [e] && [] + [e] == [e];
    BothWaysReceive(key, e, [], [], [e, e], capacity);
    t := Then(t, BothWays(key, e, [], [], [e, e]), Receive(0), capacity);
    BothWaysReceive(key, e, [], [e], [e], capacity);
    t := Then(t, BothWays(key, e, [], [e], [e]), Receive(0), capacity);
    assert Reaches(t, BothWays(key, e, [], [e, e], []), capacity);
  }

  /** Whatever a subscriber receives is a stored row of its own workspace and topic; if it is
      not newer than the cursor it came over the live tail. */
  lemma OnlyOwnRowsArrive(steps: seq<Step>, capacity: nat, i: SubscriberId, e: Envelope)
    requires var s := Run(steps, capacity);
             && i in s.subscribers
             && (s.subscribers[i].Bridged? || s.subscribers[i].Direct?)
             && e in s.subscribers[i].received
    ensures var s := Run(steps, capacity);
            var sub := s.subscribers[i];
            && e in s.rows && e.key == sub.key
            && (e in sub.tail || (sub.Bridged? && Matches(e, sub.key, sub.cursor)))
  {
    RunKeepsInv(steps, capacity);
    var s := Run(steps, capacity);
    var sub := s.subscribers[i];
    assert SubscriberInv(s, sub) && Incoming(sub, e) == Outgoing(sub, e);
    assert Times(sub.received, e) > 0;
  }

  /** The backfill of a new subscription survives in its ring exactly when it fits: otherwise
      the consumer has lost the oldest rows before its first read. */
  lemma BacklogMustFitTheRing(s: State, i: SubscriberId, capacity: nat)
    requires capacity > 0 && i in s.subscribers
    requires s.subscribers[i].Attached? && s.subscribers[i].since.Some?
    ensures var sub := Apply(s, Backfill(i), capacity).subscribers[i];
            && (sub.bridge.lost == [] <==> |sub.backfill| <= capacity)
            && sub.bridge.lost + sub.bridge.queue == sub.backfill
  {
    PushAllKeepsNewest(Apply(s, Backfill(i), capacity).subscribers[i].backfill, capacity);
  }

  // ------------------------------------------------ the tail is the future

  /** One step adds to an attached subscriber's tail exactly what it completes for its key. */
  lemma StepExtendsTail(s: State, step: Step, capacity: nat, i: SubscriberId, e: Envelope)
    requires Inv(s) && i in s.subscribers && !s.subscribers[i].Opened?
    ensures var s', sub := Apply(s, step, capacity), s.subscribers[i];
            && i in s'.subscribers && !s'.subscribers[i].Opened? && s'.subscribers[i].key == sub.key
            && s.completed <= s'.completed
            && (e in s'.subscribers[i].tail <==>
                e in sub.tail || (e in s'.completed && e !in s.completed && e.key == sub.key))
  {
    assert SubscriberInv(s, s.subscribers[i]);
    if step.FanOut? && step.publisher in s.publishing && s.publishing[step.publisher].Stored? {
      assert InFlight(s, s.publishing[step.publisher].envelope);
    }
  }

  /** From its attachment on, a live receiver is sent exactly the envelopes of its key whose
      publish completes later, whatever happens in between. */
  lemma {:induction false} TailIsTheFuture(before: seq<Step>, after: seq<Step>, capacity: nat, i: SubscriberId, e: Envelope)
    requires var s := Run(before, capacity); i in s.subscribers && s.subscribers[i].Attached? && s.subscribers[i].tail == []
    ensures var s, s' := Run(before, capacity), Run(before + after, capacity);
            && i in s'.subscribers && !s'.subscribers[i].Opened? && s'.subscribers[i].key == s.subscribers[i].key
            && (e in s'.subscribers[i].tail <==> e in s'.completed && e !in s.completed && e.key == s.subscribers[i].key)
            && s.completed <= s'.completed
    decreases |after|
  {
    if after == [] {
      assert before + after == before;
    } else {
      var init, step := after[..|after| - 1], after[|after| - 1];
      assert (before + after)[..|before + after| - 1] == before + init;
      TailIsTheFuture(before, init, capacity, i, e);
      RunKeepsInv(before + init, capacity);
      StepExtendsTail(Run(before + init, capacity), step, capacity, i, e);
    }
  }

  // --------------------------------------------------- serialized publishes

  ghost predicate AtMostOnePublish(s: State) {
    forall p, q :: p in s.publishing && q in s.publishing ==> p == q
  }

  /** One publish at a time, through the whole run. */
  ghost predicate Serial(steps: seq<Step>, capacity: nat) {
    && AtMostOnePublish(Run(steps, capacity))
    && (steps != [] ==> Serial(steps[..|steps| - 1], capacity))
  }

  /** With one publish at a time, ids are stored and fanned out in order. */
  ghost predicate InOrder(s: State) {
    && AscendingIds(s.rows)
    && (forall p, e :: p in s.publishing && e in s.rows ==> e.id <= s.publishing[p].envelope.id)
    && (forall i :: i in s.subscribers ==> StreamInOrder(s, s.subscribers[i]))
  }

  ghost predicate StreamInOrder(s: State, sub: Subscriber) {
    && (!sub.Opened? ==> AscendingIds(sub.tail))
    && (sub.Bridged? ==> forall e, b :: Unqueried(s, sub, e) && b in sub.backfill ==> b.id < e.id)
    && (sub.Attached? && sub.live.lost == [] ==> sub.tail == sub.live.queue)
    && (NothingLost(sub) ==> sub.backfill + sub.tail == sub.received + sub.bridge.queue + sub.live.queue)
  }

  /** A matching row that was stored after the subscriber's query. */
  predicate Unqueried(s: State, sub: Subscriber, e: Envelope)
    requires sub.Bridged?
  {
    e in s.rows && Matches(e, sub.key, sub.cursor) && e !in sub.backfill && e !in sub.cut
  }

  predicate NothingLost(sub: Subscriber) {
    sub.Bridged? && sub.live.lost == [] && sub.bridge.lost == []
  }

  lemma AscendingExtends(es: seq<Envelope>, e: Envelope)
    requires AscendingIds(es) && forall x :: x in es ==> x.id < e.id
    ensures AscendingIds(es + [e])
  {
    assert forall i :: 0 <= i < |es| ==> es[i] in es;
  }

  lemma SentInOrder(s: State, sub: Subscriber, e: Envelope, capacity: nat)
    requires StreamInOrder(s, sub)
    requires forall x :: !sub.Opened? && x in sub.tail ==> x.id < e.id
    ensures StreamInOrder(s, Sent(sub, e, capacity))
  {
    if !sub.Opened? && sub.key == e.key {
      var sub' := Sent(sub, e, capacity);
      AscendingExtends(sub.tail, e);
      if NothingLost(sub') {
        assert sub'.live.queue == sub.live.queue + [e];
        assert sub.backfill + (sub.tail + [e]) == (sub.backfill + sub.tail) + [e];
      }
    }
  }

  lemma ForwardedInOrder(s: State, sub: Subscriber, capacity: nat)
    requires StreamInOrder(s, sub) && sub.Bridged? && sub.live.queue != []
    ensures StreamInOrder(s, Forwarded(sub, capacity))
  {
    var sub' := Forwarded(sub, capacity);
    if NothingLost(sub') {
      assert sub.live.queue == [sub.live.queue[0]] + sub'.live.queue;
      assert sub'.bridge.queue == sub.bridge.queue + [sub.live.queue[0]];
    }
  }

  lemma ReceivedInOrder(s: State, sub: Subscriber)
    requires StreamInOrder(s, sub) && (sub.Bridged? || sub.Direct?)
    ensures StreamInOrder(s, Received(sub))
  {
    if sub.Bridged? && sub.bridge.queue != [] {
      assert sub.bridge.queue == [sub.bridge.queue[0]] + Pop(sub.bridge).queue;
    }
  }

  lemma {:induction false} PushAllIsQueue(es: seq<Envelope>, capacity: nat)
    ensures PushAll(EMPTY, es, capacity).lost == [] ==> PushAll(EMPTY, es, capacity).queue == es
  {
    if es != [] {
      PushAllIsQueue(es[..|es| - 1], capacity);
    }
  }

  lemma StartStreamInOrder(s: State, sub: Subscriber, capacity: nat)
    requires DistinctIds(s.rows) && StreamInOrder(s, sub) && sub.Attached?
    ensures StreamInOrder(s, StartStream(sub, s.rows, capacity))
  {
    var sub' := StartStream(sub, s.rows, capacity);
    if sub'.Bridged? {
      var found := Query(s.rows, sub.key, sub.since.value);
      QueryIsExact(s.rows, sub.key, sub.since.value);
      assert found == sub'.backfill + sub'.cut;
      forall e ensures !Unqueried(s, sub', e) { assert e in found ==> e in sub'.backfill || e in sub'.cut; }
      PushAllIsQueue(sub'.backfill, capacity);
      if NothingLost(sub') { assert sub'.received + sub'.bridge.queue == sub'.backfill; }
    }
  }

  /** Steps other than the subscriber's own and an effective fan-out leave its stream as it was;
      only an insert can add rows, and then a newest one. */
  lemma OtherStepInOrder(s: State, s': State, sub: Subscriber)
    requires StreamInOrder(s, sub) && SubscriberInv(s, sub)
    requires s'.rows == s.rows || exists e :: s'.rows == s.rows + [e] && forall x :: x in s.rows ==> x.id < e.id
    ensures StreamInOrder(s', sub)
  {
    if sub.Bridged? {
      forall e, b | Unqueried(s', sub, e) && b in sub.backfill ensures b.id < e.id {
        if e in s.rows { assert Unqueried(s, sub, e); }
      }
    }
  }

  lemma FanOutInOrder(s: State, p: PublisherId, capacity: nat, sub: Subscriber)
    requires Inv(s) && InOrder(s) && p in s.publishing && s.publishing[p].Stored?
    requires StreamInOrder(s, sub) && SubscriberInv(s, sub)
    ensures StreamInOrder(s, Sent(sub, s.publishing[p].envelope, capacity))
  {
    var e := s.publishing[p].envelope;
    assert InFlight(s, e);
    forall x | !sub.Opened? && x in sub.tail ensures x.id < e.id {
      assert x in s.completed && x in s.rows;
      SameIdSameRow(s.rows, x, e);
    }
    SentInOrder(s, sub, e, capacity);
  }

  lemma {:induction false} InsertStepInOrder(s: State, p: PublisherId, capacity: nat, i: SubscriberId)
    requires Inv(s) && InOrder(s) && i in s.subscribers && p in s.publishing && s.publishing[p].Numbered?
    ensures StreamInOrder(Apply(s, Insert(p), capacity), s.subscribers[i])
  {
    InsertedIsNewest(s, p);
    OtherStepInOrder(s, Apply(s, Insert(p), capacity), s.subscribers[i]);
  }

  lemma {:induction false} FanOutStepInOrder(s: State, p: PublisherId, capacity: nat, i: SubscriberId)
    requires Inv(s) && InOrder(s) && i in s.subscribers && p in s.publishing && s.publishing[p].Stored?
    ensures var s' := Apply(s, FanOut(p), capacity); i in s'.subscribers && StreamInOrder(s', s'.subscribers[i])
  {
    var sub := s.subscribers[i];
    FanOutInOrder(s, p, capacity, sub);
    OtherStepInOrder(s, Apply(s, FanOut(p), capacity), sub);
  }

  lemma {:induction false} OwnStepInOrder(s: State, step: Step, capacity: nat, i: SubscriberId)
    requires Inv(s) && InOrder(s) && i in s.subscribers && !step.Insert? && !step.FanOut?
    requires i in Apply(s, step, capacity).subscribers && Apply(s, step, capacity).subscribers[i] != s.subscribers[i]
    ensures StreamInOrder(Apply(s, step, capacity), Apply(s, step, capacity).subscribers[i])
  {
    var sub, s' := s.subscribers[i], Apply(s, step, capacity);
    assert StreamInOrder(s, sub) && s'.rows == s.rows;
    match step
    case Backfill(_) => StartStreamInOrder(s, sub, capacity); SameRowsInOrder(s, s', s'.subscribers[i]);
    case Forward(_) => ForwardedInOrder(s, sub, capacity); SameRowsInOrder(s, s', s'.subscribers[i]);
    case Receive(_) => ReceivedInOrder(s, sub); SameRowsInOrder(s, s', s'.subscribers[i]);
    case _ =>
  }

  lemma SameRowsInOrder(s: State, s': State, sub: Subscriber)
    requires StreamInOrder(s, sub) && s'.rows == s.rows
    ensures StreamInOrder(s', sub)
  {
    if sub.Bridged? {
      forall e, b | Unqueried(s', sub, e) && b in sub.backfill ensures b.id < e.id { assert Unqueried(s, sub, e); }
    }
  }

  lemma {:induction false} StreamStepInOrder(s: State, step: Step, capacity: nat, i: SubscriberId)
    requires Inv(s) && InOrder(s) && AtMostOnePublish(s)
    requires i in Apply(s, step, capacity).subscribers
    ensures StreamInOrder(Apply(s, step, capacity), Apply(s, step, capacity).subscribers[i])
  {
    var s' := Apply(s, step, capacity);
    if i in s.subscribers && s' != s {
      var sub := s.subscribers[i];
      assert StreamInOrder(s, sub) && SubscriberInv(s, sub);
      if step.Insert? {
        InsertStepInOrder(s, step.publisher, capacity, i);
      } else if step.FanOut? {
        FanOutStepInOrder(s, step.publisher, capacity, i);
      } else if s'.subscribers[i] == sub {
        OtherStepInOrder(s, s', sub);
      } else {
        OwnStepInOrder(s, step, capacity, i);
      }
    }
  }

  lemma {:induction false} RowsStayInOrder(s: State, step: Step, capacity: nat)
    requires Inv(s) && InOrder(s) && AtMostOnePublish(s) && AtMostOnePublish(Apply(s, step, capacity))
    ensures var s' := Apply(s, step, capacity);
            && AscendingIds(s'.rows)
            && (forall p, e :: p in s'.publishing && e in s'.rows ==> e.id <= s'.publishing[p].envelope.id)
  {
    if step.Insert? && Apply(s, step, capacity) != s { InsertedIsNewest(s, step.publisher); }
  }

  lemma {:induction false} StepInOrder(s: State, step: Step, capacity: nat)
    requires Inv(s) && InOrder(s) && AtMostOnePublish(s) && AtMostOnePublish(Apply(s, step, capacity))
    ensures InOrder(Apply(s, step, capacity))
  {
    var s' := Apply(s, step, capacity);
    RowsStayInOrder(s, step, capacity);
    forall i | i in s'.subscribers ensures StreamInOrder(s', s'.subscribers[i]) {
      StreamStepInOrder(s, step, capacity, i);
    }
  }

  lemma InsertedIsNewest(s: State, p: PublisherId)
    requires Inv(s) && InOrder(s) && p in s.publishing && s.publishing[p].Numbered?
    ensures forall x :: x in s.rows ==> x.id < s.publishing[p].envelope.id
    ensures AscendingIds(s.rows + [s.publishing[p].envelope])
  {
    assert forall k :: 0 <= k < |s.rows| ==> s.rows[k] in s.rows;
  }

  lemma {:induction false} SerialInOrder(steps: seq<Step>, capacity: nat)
    requires Serial(steps, capacity)
    ensures InOrder(Run(steps, capacity))
  {
    if steps != [] {
      var init := steps[..|steps| - 1];
      SerialInOrder(init, capacity);
      RunKeepsInv(init, capacity);
      StepInOrder(Run(init, capacity), steps[|steps| - 1], capacity);
    }
  }

  /** A consumer that keeps its own cursor: it takes what is newer and skips repeats. */
  function NewOnly(stream: seq<Envelope>, cursor: nat): seq<Envelope> {
    if stream == [] then []
    else if stream[0].id > cursor then [stream[0]] + NewOnly(stream[1..], stream[0].id)
    else NewOnly(stream[1..], cursor)
  }

  lemma {:induction false} NewOnlyAscends(stream: seq<Envelope>, cursor: nat)
    ensures AscendingIds(NewOnly(stream, cursor))
    ensures forall e :: e in NewOnly(stream, cursor) ==> e in stream && e.id > cursor
  {
    if stream != [] {
      assert stream == [stream[0]] + stream[1..];
      NewOnlyAscends(stream[1..], if stream[0].id > cursor then stream[0].id else cursor);
      var rest := NewOnly(stream[1..], if stream[0].id > cursor then stream[0].id else cursor);
      assert forall k :: 0 <= k < |rest| ==> rest[k] in rest;
    }
  }

  lemma {:induction false} NewOnlyKeepsAscending(tail: seq<Envelope>, cursor: nat, e: Envelope)
    requires AscendingIds(tail) && e in tail && e.id > cursor
    ensures e in NewOnly(tail, cursor)
  {
    assert tail == [tail[0]] + tail[1..];
    if e != tail[0] {
      var k :| 0 <= k < |tail| && tail[k] == e;
      NewOnlyKeepsAscending(tail[1..], if tail[0].id > cursor then tail[0].id else cursor, e);
    }
  }

  /** After an ascending backfill, an ascending tail loses nothing newer than that backfill. */
  lemma {:induction false} NewOnlyKeeps(backfill: seq<Envelope>, tail: seq<Envelope>, cursor: nat, e: Envelope)
    requires AscendingIds(backfill) && AscendingIds(tail) && e.id > cursor
    requires e in backfill || (e in tail && forall b :: b in backfill ==> b.id < e.id)
    ensures e in NewOnly(backfill + tail, cursor)
    decreases |backfill|
  {
    if backfill == [] {
      assert backfill + tail == tail;
      NewOnlyKeepsAscending(tail, cursor, e);
    } else {
      var head, rest := backfill[0], backfill[1..];
      assert backfill == [head] + rest;
      assert (backfill + tail)[0] == head && (backfill + tail)[1..] == rest + tail;
      if e != head {
        if e in backfill { var k :| 0 <= k < |backfill| && backfill[k] == e; } else { assert head in backfill; }
        assert head.id < e.id;
        assert forall b :: b in rest ==> b in backfill;
        NewOnlyKeeps(rest, tail, if head.id > cursor then head.id else cursor, e);
      }
    }
  }

  lemma FirstIsOldest(a: seq<Envelope>, e: Envelope)
    requires AscendingIds(a) && e in a
    ensures a[0] == e || a[0].id < e.id
  {
    var k :| 0 <= k < |a| && a[k] == e;
  }

  lemma {:induction false} AscendingIdsUnique(a: seq<Envelope>, b: seq<Envelope>)
    requires AscendingIds(a) && AscendingIds(b)
    requires forall e :: e in a <==> e in b
    ensures a == b
    decreases |a|
  {
    if a != [] || b != [] {
      var first := if |a| > 0 then a[0] else b[|b| - 1];
      assert first in a && first in b;
      assert a[0] in a && b[0] in b;
      FirstIsOldest(a, b[0]);
      FirstIsOldest(b, a[0]);
      forall e ensures e in a[1..] <==> e in b[1..] {
        TailLacksHead(a, e);
        TailLacksHead(b, e);
      }
      AscendingIdsUnique(a[1..], b[1..]);
    }
  }

  lemma TailLacksHead(a: seq<Envelope>, e: Envelope)
    requires AscendingIds(a) && a != []
    ensures e in a[1..] <==> e in a && e != a[0]
  {
    assert a == [a[0]] + a[1..];
  }

  /** With publishes one at a time, no overflow and within the LIMIT, a drained consumer that
      skips repeats has seen exactly the rows newer than its cursor, in id order. */
  lemma SerialPublishesArriveInOrder(steps: seq<Step>, capacity: nat, i: SubscriberId)
    requires Serial(steps, capacity)
    requires var s := Run(steps, capacity);
             && s.publishing == map[] && i in s.subscribers
             && Drained(s.subscribers[i]) && NothingDropped(s.subscribers[i])
    ensures var s := Run(steps, capacity);
            var sub := s.subscribers[i];
            NewOnly(sub.received, sub.cursor) == Select(s.rows, sub.key, sub.cursor)
  {
    RunKeepsInv(steps, capacity);
    SerialInOrder(steps, capacity);
    var s := Run(steps, capacity);
    var sub := s.subscribers[i];
    assert SubscriberInv(s, sub) && StreamInOrder(s, sub);
    var seen, wanted := NewOnly(sub.received, sub.cursor), Select(s.rows, sub.key, sub.cursor);
    assert sub.received == sub.backfill + sub.tail;
    SelectIsFilter(s.rows, sub.key, sub.cursor);
    NewOnlyAscends(sub.received, sub.cursor);
    BackfillIsDistinct(sub.backfill, sub.cut);
    forall e ensures e in seen <==> e in wanted {
      if e in seen {
        assert e in sub.backfill || e in sub.tail;
      }
      if e in wanted {
        assert !InFlight(s, e);
        if e !in sub.backfill { assert Unqueried(s, sub, e); }
        NewOnlyKeeps(sub.backfill, sub.tail, sub.cursor, e);
      }
    }
    AscendingIdsUnique(seen, wanted);
  }
}
