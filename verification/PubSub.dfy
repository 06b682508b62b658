/** The broker object of crates/actant-subscribe/src/broker.rs: publish, subscribe and the
    forwarder task, each run without interference, are the steps that Broker interleaves. */
module PubSub {
  import opened Common
  import opened Broker

  datatype Outcome<T> = Done(value: T) | TopicRequired

  class PubSub {
    const capacity: nat
    var nextId: nat
    var rows: seq<Envelope>
    var channels: set<Key>
    var subscribers: map<SubscriberId, Subscriber>
    ghost var completed: set<Envelope>

    /** The broker's state, with no publish under way. */
    ghost function Contents(): State
      reads this
    {
      State(nextId, rows, map[], completed, channels, subscribers)
    }

    constructor WithCapacity(capacity: nat)
      ensures this.capacity == (if capacity < 1 then 1 else capacity) && Contents() == INITIAL
    {
      this.capacity := if capacity < 1 then 1 else capacity;
      nextId, rows, channels, subscribers, completed := 0, [], {}, map[], {};
    }

    /** Number, store, then fan out to every receiver of the channel, if there is one. */
    method Publish(key: Key, payload: string) returns (r: Outcome<Envelope>)
      modifies this
      ensures r.TopicRequired? <==> key.topic == ""
      ensures r.TopicRequired? ==> Contents() == old(Contents())
      ensures r.Done? ==> r.value == Envelope(old(nextId), key, payload)
      ensures r.Done? ==>
                Contents() == Apply(Apply(Apply(old(Contents()), TakeId(0, key, payload), capacity), Insert(0), capacity),
                                    FanOut(0), capacity)
    {
      if key.topic == "" { return TopicRequired; }
      var e := Envelope(nextId, key, payload);
      PublishIsItsSteps(Contents(), key, payload, capacity);
      nextId := nextId + 1;
      rows := rows + [e];
      completed := completed + {e};
      if key in channels {
        subscribers := map i | i in subscribers :: Sent(subscribers[i], e, capacity);
      }
      return Done(e);
    }

    /** Rows after the cursor, oldest first, at most ten thousand; `cut` is what the limit leaves out. */
    method ReplaySince(key: Key, cursor: nat) returns (out: seq<Envelope>, cut: seq<Envelope>)
      ensures var found := Query(rows, key, cursor); out == found[..Limited(found)] && cut == found[Limited(found)..]
    {
      var found: seq<Envelope> := [];
      assert rows[..0] == [];
      for i := 0 to |rows|
        invariant found == SortById(Select(rows[..i], key, cursor))
      {
        assert rows[..i + 1][..i] == rows[..i];
        if Matches(rows[i], key, cursor) {
          ghost var s := Select(rows[..i], key, cursor);
          assert (s + [rows[i]])[..|s|] == s;
          found := InsertById(found, rows[i]);
        } else {
          assert Select(rows[..i], key, cursor) + [] == Select(rows[..i], key, cursor);
        }
      }
      assert rows[..|rows|] == rows;
      out, cut := found[..Limited(found)], found[Limited(found)..];
    }

    /** The live receiver is attached before the query runs; the backfill goes into the bridge ring
        before anything is forwarded. */
    method Subscribe(i: SubscriberId, key: Key, since: Option<nat>) returns (r: Outcome<()>)
      requires i !in subscribers
      modifies this
      ensures r.TopicRequired? <==> key.topic == ""
      ensures r.TopicRequired? ==> Contents() == old(Contents())
      ensures r.Done? ==>
                Contents() == Apply(Apply(Apply(old(Contents()), OpenChannel(i, key, since), capacity), Attach(i), capacity),
                                    Backfill(i), capacity)
    {
      if key.topic == "" { return TopicRequired; }
      SubscribeIsItsSteps(Contents(), i, key, since, capacity);
      channels := channels + {key};
      if since.None? {
        subscribers := subscribers[i := Direct(key, EMPTY, [], [])];
        return Done(());
      }
      var backfill, cut := ReplaySince(key, since.value);
      var bridge := EMPTY;
      assert backfill[..0] == [];
      for k := 0 to |backfill|
        invariant bridge == PushAll(EMPTY, backfill[..k], capacity)
      {
        assert backfill[..k + 1][..k] == backfill[..k];
        bridge := Push(bridge, backfill[k], capacity);
      }
      assert backfill[..|backfill|] == backfill;
      subscribers := subscribers[i := Bridged(key, since.value, EMPTY, [], [], bridge, backfill, cut)];
      return Done(());
    }

    /** The forwarder task, until the live receiver is drained. */
    method ForwardAll(i: SubscriberId) returns (n: nat)
      requires i in subscribers && subscribers[i].Bridged?
      modifies this
      ensures i in subscribers && subscribers[i].Bridged? && subscribers[i].live.queue == []
      ensures n == |old(subscribers)[i].live.queue|
      ensures Contents() == Forwards(old(Contents()), i, n, capacity)
    {
      n := 0;
      while subscribers[i].live.queue != []
        invariant i in subscribers && subscribers[i].Bridged?
        invariant n + |subscribers[i].live.queue| == |old(subscribers)[i].live.queue|
        invariant Contents() == Forwards(old(Contents()), i, n, capacity)
        decreases |subscribers[i].live.queue|
      {
        var sub := subscribers[i];
        var e := sub.live.queue[0];
        subscribers := subscribers[i := sub.(live := Pop(sub.live), bridge := Push(sub.bridge, e, capacity))];
        n := n + 1;
      }
    }
  }

  function Forwards(s: State, i: SubscriberId, n: nat, capacity: nat): State {
    if n == 0 then s else Apply(Forwards(s, i, n - 1, capacity), Forward(i), capacity)
  }

  lemma PublishIsItsSteps(s: State, key: Key, payload: string, capacity: nat)
    requires s.publishing == map[] && key.topic != ""
    ensures var e := Envelope(s.nextId, key, payload);
            Apply(Apply(Apply(s, TakeId(0, key, payload), capacity), Insert(0), capacity), FanOut(0), capacity) ==
              State(s.nextId + 1, s.rows + [e], map[], s.completed + {e}, s.channels,
                    if key in s.channels then map i | i in s.subscribers :: Sent(s.subscribers[i], e, capacity)
                    else s.subscribers)
  {
    var e := Envelope(s.nextId, key, payload);
    var numbered: map<PublisherId, Publish> := map[0 := Numbered(e)];
    assert s.publishing[0 := Numbered(e)] == numbered;
    assert numbered[0 := Stored(e)] - {0} == map[];
  }

  lemma SubscribeIsItsSteps(s: State, i: SubscriberId, key: Key, since: Option<nat>, capacity: nat)
    requires i !in s.subscribers && key.topic != ""
    ensures Apply(Apply(Apply(s, OpenChannel(i, key, since), capacity), Attach(i), capacity), Backfill(i), capacity) ==
              s.(channels := s.channels + {key},
                 subscribers := s.subscribers[i := StartStream(Attached(key, since, EMPTY, []), s.rows, capacity)])
  {
    var listed := s.subscribers[i := Opened(key, since)];
    var attached := listed[i := Attached(key, since, EMPTY, [])];
    var started := StartStream(Attached(key, since, EMPTY, []), s.rows, capacity);
    assert attached[i := started] == s.subscribers[i := started];
  }
}
