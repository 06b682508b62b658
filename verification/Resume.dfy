/** What live-only and resuming subscribers of crates/actant-subscribe/src/broker.rs receive. */
module Resume {
  import opened Common
  import opened Broker

  // -------------------------------------------------------- live-only streams

  /** While nothing was overwritten, what was read and what is waiting are what was sent, in order. */
  ghost predicate LiveInOrder(sub: Subscriber) {
    && (sub.Attached? && sub.live.lost == [] ==> sub.live.queue == sub.tail)
    && (sub.Direct? && sub.live.lost == [] ==> sub.received + sub.live.queue == sub.tail)
  }

  lemma SentKeepsLive(sub: Subscriber, e: Envelope, capacity: nat)
    requires LiveInOrder(sub)
    ensures LiveInOrder(Sent(sub, e, capacity))
  {
    if sub.Direct? && Sent(sub, e, capacity).live.lost == [] {
      assert sub.received + (sub.live.queue + [e]) == (sub.received + sub.live.queue) + [e];
    }
  }

  lemma ReceivedKeepsLive(sub: Subscriber)
    requires LiveInOrder(sub) && (sub.Direct? || sub.Bridged?)
    ensures LiveInOrder(Received(sub))
  {
    if sub.Direct? && sub.live.queue != [] {
      assert sub.received + [sub.live.queue[0]] + sub.live.queue[1..] == sub.received + sub.live.queue;
    }
  }

  lemma {:induction false} StepKeepsLive(s: State, step: Step, capacity: nat, i: SubscriberId)
    requires i in s.subscribers ==> LiveInOrder(s.subscribers[i])
    requires i in Apply(s, step, capacity).subscribers
    ensures LiveInOrder(Apply(s, step, capacity).subscribers[i])
  {
    if i in s.subscribers {
      var sub := s.subscribers[i];
      if step.FanOut? && step.publisher in s.publishing {
        SentKeepsLive(sub, s.publishing[step.publisher].envelope, capacity);
      }
      if step.Receive? && (sub.Direct? || sub.Bridged?) { ReceivedKeepsLive(sub); }
    }
  }

  lemma {:induction false} RunKeepsLive(steps: seq<Step>, capacity: nat, i: SubscriberId)
    requires i in Run(steps, capacity).subscribers
    ensures LiveInOrder(Run(steps, capacity).subscribers[i])
  {
    if steps != [] {
      var s := Run(steps[..|steps| - 1], capacity);
      if i in s.subscribers { RunKeepsLive(steps[..|steps| - 1], capacity, i); }
      StepKeepsLive(s, steps[|steps| - 1], capacity, i);
    }
  }

  /** A subscriber without a cursor that has read everything waiting: each envelope of its key that
      completed after the attachment was received once or overwritten once, and no other ever came;
      with nothing overwritten, it received them in the order in which they were sent. */
  lemma {:induction false} DirectReceivesTheFuture(before: seq<Step>, after: seq<Step>, capacity: nat, i: SubscriberId,
                                                   e: Envelope)
    requires var s := Run(before, capacity); i in s.subscribers && s.subscribers[i].Attached? && s.subscribers[i].tail == []
    requires var s' := Run(before + after, capacity);
             i in s'.subscribers && s'.subscribers[i].Direct? && s'.subscribers[i].live.queue == []
    ensures var s, s' := Run(before, capacity), Run(before + after, capacity);
            var sub := s'.subscribers[i];
            && Times(sub.received, e) + Times(sub.live.lost, e) == One(e in s'.completed && e !in s.completed && e.key == sub.key)
            && (sub.live.lost == [] ==> sub.received == sub.tail)
  {
    TailIsTheFuture(before, after, capacity, i, e);
    RunKeepsInv(before + after, capacity);
    RunKeepsLive(before + after, capacity, i);
    var sub := Run(before + after, capacity).subscribers[i];
    assert SubscriberInv(Run(before + after, capacity), sub) && Incoming(sub, e) == Outgoing(sub, e);
    OnceWhenDistinct(sub.tail, e);
    assert sub.received + [] == sub.received;
  }

  // --------------------------------------------------------- subscriptions

  /** The terms of a subscription: what it listens to and from where. */
  predicate Keeps(sub: Subscriber, key: Key, since: Option<nat>) {
    match sub
    case Opened(k, c) => k == key && c == since
    case Attached(k, c, _, _) => k == key && c == since
    case Direct(k, _, _, _) => k == key && since == None
    case Bridged(k, c, _, _, _, _, _, _) => k == key && since == Some(c)
  }

  lemma {:induction false} StepKeepsTerms(s: State, step: Step, capacity: nat, i: SubscriberId, key: Key, since: Option<nat>)
    requires i in s.subscribers && Keeps(s.subscribers[i], key, since)
    ensures i in Apply(s, step, capacity).subscribers && Keeps(Apply(s, step, capacity).subscribers[i], key, since)
  {
  }

  /** A new subscription keeps its terms whatever happens: it stays with its workspace and topic, and
      queries from its cursor exactly when it was opened with one. */
  lemma {:induction false} SubscriptionsKeepTheirTerms(before: seq<Step>, after: seq<Step>, capacity: nat, i: SubscriberId,
                                                       key: Key, since: Option<nat>)
    requires i !in Run(before, capacity).subscribers && key.topic != ""
    ensures var s := Run(before + [OpenChannel(i, key, since)] + after, capacity);
            i in s.subscribers && Keeps(s.subscribers[i], key, since)
  {
    var open := before + [OpenChannel(i, key, since)];
    var steps := open + after;
    if after == [] {
      assert steps == open && open[..|open| - 1] == before;
    } else {
      assert steps[..|steps| - 1] == open + after[..|after| - 1];
      SubscriptionsKeepTheirTerms(before, after[..|after| - 1], capacity, i, key, since);
      StepKeepsTerms(Run(steps[..|steps| - 1], capacity), after[|after| - 1], capacity, i, key, since);
    }
  }

  /** No row and no subscription ever has an empty topic. */
  ghost predicate TopicsNamed(s: State) {
    && (forall e :: e in s.rows ==> e.key.topic != "")
    && (forall p :: p in s.publishing ==> s.publishing[p].envelope.key.topic != "")
    && (forall i :: i in s.subscribers ==> s.subscribers[i].key.topic != "")
  }

  lemma {:induction false} TopicsAreNamed(steps: seq<Step>, capacity: nat)
    ensures TopicsNamed(Run(steps, capacity))
  {
    if steps != [] {
      TopicsAreNamed(steps[..|steps| - 1], capacity);
      StepKeepsTopics(Run(steps[..|steps| - 1], capacity), steps[|steps| - 1], capacity);
    }
  }

  lemma {:induction false} StepKeepsTopics(s: State, step: Step, capacity: nat)
    requires TopicsNamed(s)
    ensures TopicsNamed(Apply(s, step, capacity))
  {
  }

  /** A new subscription is given the first ten thousand matching rows, and the others count as cut. */
  lemma {:induction false} BackfillIsLimited(s: State, i: SubscriberId, capacity: nat)
    requires i in s.subscribers && s.subscribers[i].Attached? && s.subscribers[i].since.Some?
    ensures var sub, sub' := s.subscribers[i], Apply(s, Backfill(i), capacity).subscribers[i];
            && sub'.Bridged? && sub'.backfill + sub'.cut == Query(s.rows, sub.key, sub.since.value)
            && |sub'.backfill| <= 10_000 && (sub'.cut != [] ==> |sub'.backfill| == 10_000)
  {
  }

  // ------------------------------------------------------------------ resuming

  /** A resumed subscriber misses a completed envelope of its key exactly when that is no newer than
      the cursor and was fanned out before the attachment, whether the consumer had seen it or not. */
  lemma {:induction false} ResumeMissesExactlyWhen(steps: seq<Step>, capacity: nat, i: SubscriberId, e: Envelope)
    requires var s := Run(steps, capacity);
             && i in s.subscribers && Drained(s.subscribers[i]) && NothingDropped(s.subscribers[i])
             && e in s.completed && e.key == s.subscribers[i].key
    ensures var sub := Run(steps, capacity).subscribers[i];
            e !in sub.received <==> e.id <= sub.cursor && e !in sub.tail
  {
    RunKeepsInv(steps, capacity);
    var s := Run(steps, capacity);
    var sub := s.subscribers[i];
    assert SubscriberInv(s, sub) && Incoming(sub, e) == Outgoing(sub, e);
    assert e in s.rows && !InFlight(s, e);
  }

  /** A prefix of an ascending backfill and an ascending tail is read from the oldest on. */
  lemma {:induction false} PrefixHoldsOlder(backfill: seq<Envelope>, tail: seq<Envelope>, read: seq<Envelope>,
                                            rest: seq<Envelope>, e: Envelope, x: Envelope)
    requires AscendingIds(backfill) && AscendingIds(tail) && backfill + tail == read + rest
    requires e in backfill || (e in tail && forall b :: b in backfill ==> b.id < e.id)
    requires x in read && e.id < x.id
    ensures e in read
  {
    var sent, n := backfill + tail, |backfill|;
    var k :| 0 <= k < |read| && read[k] == x;
    assert sent[k] == x && forall a :: 0 <= a <= k ==> sent[a] == read[a];
    if e in backfill {
      var a :| 0 <= a < n && backfill[a] == e;
      assert sent[a] == e;
    } else {
      var b :| 0 <= b < |tail| && tail[b] == e;
      assert forall a :: 0 <= a < n ==> sent[a] in backfill;
      assert tail[k - n] == x && sent[n + b] == e;
    }
  }

  lemma {:induction false} ReadFromTheOldest(s: State, sub: Subscriber, e: Envelope, x: Envelope)
    requires StreamInOrder(s, sub) && SubscriberInv(s, sub) && NothingDropped(sub)
    requires !InFlight(s, e) && e in s.rows && Matches(e, sub.key, sub.cursor)
    requires x in sub.received && e.id < x.id
    ensures e in sub.received
  {
    BackfillIsDistinct(sub.backfill, sub.cut);
    if e !in sub.backfill { assert Unqueried(s, sub, e); }
    var rest := sub.bridge.queue + sub.live.queue;
    assert sub.received + sub.bridge.queue + sub.live.queue == sub.received + rest;
    PrefixHoldsOlder(sub.backfill, sub.tail, sub.received, rest, e, x);
  }

  /** With publishes one at a time and nothing dropped, a consumer that stops anywhere and resumes
      from an id it has received misses nothing: each completed row newer than its first cursor came
      before it stopped or after it resumed. */
  lemma {:induction false} SerialResumeMissesNothing(steps: seq<Step>, capacity: nat, i: SubscriberId, j: SubscriberId,
                                                     x: Envelope, e: Envelope)
    requires Serial(steps, capacity)
    requires var s := Run(steps, capacity);
             && i in s.subscribers && NothingDropped(s.subscribers[i]) && x in s.subscribers[i].received
             && j in s.subscribers && Drained(s.subscribers[j]) && NothingDropped(s.subscribers[j])
             && s.subscribers[j].key == s.subscribers[i].key && s.subscribers[j].cursor == x.id
             && e in s.completed && Matches(e, s.subscribers[i].key, s.subscribers[i].cursor)
    ensures var s := Run(steps, capacity); e in s.subscribers[i].received || e in s.subscribers[j].received
  {
    RunKeepsInv(steps, capacity);
    SerialInOrder(steps, capacity);
    var s := Run(steps, capacity);
    var first := s.subscribers[i];
    assert SubscriberInv(s, first) && StreamInOrder(s, first);
    ResumeMissesExactlyWhen(steps, capacity, j, e);
    if e.id < x.id {
      ReadFromTheOldest(s, first, e, x);
    } else if e.id == x.id {
      OnlyOwnRowsArrive(steps, capacity, i, x);
      SameIdSameRow(s.rows, x, e);
    }
  }

  /** With overlapping publishes a resumed consumer can miss a row for good: here the row with the
      smaller id is stored after the other one was read, and is fanned out before the consumer,
      resuming from that one's id, attaches again. */
  lemma {:induction false} OverlapCanBeMissed(key: Key, capacity: nat)
    requires key.topic != ""
    ensures exists t, e, x :: var s := Run(t, capacity);
              && 0 in s.subscribers && Drained(s.subscribers[0]) && NothingDropped(s.subscribers[0])
              && e in s.completed && x in s.completed && e.key == x.key == s.subscribers[0].key
              && e.id < x.id && s.subscribers[0].cursor == x.id && e !in s.subscribers[0].received
  {
    var e, x := Envelope(0, key, ""), Envelope(1, key, "");
    var t: seq<Step> := [];
    t := Then(t, INITIAL, TakeId(0, key, ""), capacity);
    var s := State(1, [], map[0 := Numbered(e)], {}, {}, map[]);
    t := Then(t, s, TakeId(1, key, ""), capacity);
    s := State(2, [], map[0 := Numbered(e), 1 := Numbered(x)], {}, {}, map[]);
    t := Then(t, s, Insert(1), capacity);
    s := State(2, [x], map[0 := Numbered(e), 1 := Stored(x)], {}, {}, map[]);
    t := Then(t, s, FanOut(1), capacity);
    var one: map<PublisherId, Publish> := map[0 := Numbered(e)];
    assert s.publishing - {1} == one;
    s := State(2, [x], one, {x}, {}, map[]);
    t := Then(t, s, Insert(0), capacity);
    s := State(2, [x, e], map[0 := Stored(e)], {x}, {}, map[]);
    t := Then(t, s, FanOut(0), capacity);
    var none: map<PublisherId, Publish> := map[];
    assert s.publishing - {0} == none;
    s := State(2, [x, e], none, {x, e}, {}, map[]);
    t := ResumeFrom(t, s, key, x, e, capacity);
  }

  lemma {:induction false} ResumeFrom(t0: seq<Step>, s0: State, key: Key, x: Envelope, e: Envelope, capacity: nat)
    returns (t: seq<Step>)
    requires key.topic != "" && e == Envelope(0, key, "") && x == Envelope(1, key, "")
    requires s0 == State(2, [x, e], map[], {x, e}, {}, map[]) && Reaches(t0, s0, capacity)
    ensures Reaches(t, s0.(channels := {key}, subscribers := map[0 := Bridged(key, 1, EMPTY, [], [], EMPTY, [], [])]), capacity)
  {
    t := Then(t0, s0, OpenChannel(0, key, Some(1)), capacity);
    var s := s0.(channels := {key}, subscribers := map[0 := Opened(key, Some(1))]);
    t := Then(t, s, Attach(0), capacity);
    s := s0.(channels := {key}, subscribers := map[0 := Attached(key, Some(1), EMPTY, [])]);
    t := Then(t, s, Backfill(0), capacity);
    assert [x, e][..1] == [x] && [x][..0] == [];
    assert Select([x], key, 1) == Select([], key, 1) + [] == [];
    assert Select([x, e], key, 1) == Select([x], key, 1) + [] == [];
    assert Query([x, e], key, 1) == [];
  }
}
