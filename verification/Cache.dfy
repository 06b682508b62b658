/** The bounded LRU cache of crates/actant-contracts/src/cache.rs: a value map and a recency
    deque that must stay in step. */
module Cache {
  import opened Common
  import opened Text

  /** Keys in `lru` run from least to most recently used. */
  datatype State = State(values: map<string, string>, lru: seq<string>)

  const EMPTY := State(map[], [])

  datatype Op = Get(key: string) | Put(key: string, value: string)

  // ------------------------------------------------------ specification

  function Touched(s: State, key: string): State {
    s.(lru := Without(s.lru, key) + [key])
  }

  /** Pops the front until there is room; an empty deque clears the map. */
  function Evicted(s: State, capacity: nat): State
    decreases |s.lru|
  {
    if |s.values| < capacity then s
    else if s.lru == [] then State(map[], [])
    else Evicted(State(s.values - {s.lru[0]}, s.lru[1..]), capacity)
  }

  function AfterGet(s: State, key: string): State {
    if key in s.values then Touched(s, key) else s
  }

  function AfterPut(s: State, key: string, value: string, capacity: nat): State {
    var roomy := if key in s.values then s else Evicted(s, capacity);
    Touched(roomy.(values := roomy.values[key := value]), key)
  }

  function Apply(s: State, op: Op, capacity: nat): State {
    match op
    case Get(k) => AfterGet(s, k)
    case Put(k, v) => AfterPut(s, k, v, capacity)
  }

  function Run(ops: seq<Op>, capacity: nat): State {
    if ops == [] then EMPTY else Apply(Run(ops[..|ops| - 1], capacity), ops[|ops| - 1], capacity)
  }

  // ----------------------------------------------------------- the cache

  class ActantCache {
    const capacity: nat
    var values: map<string, string>
    var lru: seq<string>

    function Contents(): State
      reads this
    {
      State(values, lru)
    }

    constructor WithMaxEntries(capacity: nat)
      requires capacity > 0
      ensures this.capacity == capacity && Contents() == EMPTY
    {
      this.capacity := capacity;
      values, lru := map[], [];
    }

    method Touch(key: string)
      modifies this
      ensures Contents() == Touched(old(Contents()), key)
    {
      var kept: seq<string> := [];
      for i := 0 to |lru|
        invariant kept == Without(lru[..i], key)
        invariant lru == old(lru) && values == old(values)
      {
        assert lru[..i + 1][..i] == lru[..i];
        if lru[i] != key { kept := kept + [lru[i]]; }
      }
      assert lru[..|lru|] == lru;
      lru := kept + [key];
    }

    method EvictUntilRoom()
      modifies this
      ensures Contents() == Evicted(old(Contents()), capacity)
    {
      while |values| >= capacity
        invariant Evicted(Contents(), capacity) == Evicted(old(Contents()), capacity)
        decreases |lru|
      {
        if lru == [] {
          values := map[];
          return;
        }
        var key := lru[0];
        lru := lru[1..];
        values := values - {key};
      }
    }

    method Get(key: string) returns (value: Option<string>)
      modifies this
      ensures Contents() == AfterGet(old(Contents()), key)
      ensures value == if key in old(values) then Some(old(values)[key]) else None
    {
      if key !in values { return None; }
      value := Some(values[key]);
      Touch(key);
    }

    method Put(key: string, value: string)
      modifies this
      ensures Contents() == AfterPut(old(Contents()), key, value, capacity)
    {
      if key !in values { EvictUntilRoom(); }
      values := values[key := value];
      Touch(key);
    }
  }

  // ---------------------------------------------------------- invariant

  /** The deque lists the map's keys, each once, and there are at most `capacity` of them. */
  ghost predicate Inv(s: State, capacity: nat) {
    && Distinct(s.lru) && |s.lru| == |s.values| <= capacity
    && (forall k :: k in s.lru <==> k in s.values)
  }

  lemma {:induction false} WithoutFilters(s: seq<string>, key: string)
    ensures forall k :: k in Without(s, key) <==> k in s && k != key
    ensures Distinct(s) ==> Distinct(Without(s, key))
    ensures Distinct(s) ==> |Without(s, key)| == |s| - if key in s then 1 else 0
  {
    if s != [] {
      var init, last := s[..|s| - 1], s[|s| - 1];
      WithoutFilters(init, key);
      assert s == init + [last];
      var r := Without(init, key);
      forall i | 0 <= i < |r| ensures Distinct(s) ==> r[i] != last {
        assert r[i] in r && r[i] in init;
        var k :| 0 <= k < |init| && init[k] == r[i];
        assert s[k] == init[k] && s[|s| - 1] == last;
      }
    }
  }

  lemma {:induction false} WithoutAbsent(s: seq<string>, key: string)
    requires key !in s
    ensures Without(s, key) == s
  {
    if s != [] {
      assert s == s[..|s| - 1] + [s[|s| - 1]];
      WithoutAbsent(s[..|s| - 1], key);
    }
  }

  /** On a consistent cache eviction drops exactly the least recent key of a full cache, and the
      branch that clears the map is never taken. */
  lemma EvictedDropsOldest(s: State, capacity: nat)
    requires capacity > 0 && Inv(s, capacity)
    ensures Evicted(s, capacity) ==
              if |s.lru| < capacity then s else State(s.values - {s.lru[0]}, s.lru[1..])
    ensures |s.values| >= capacity ==> s.lru != []
  {
    if |s.lru| >= capacity {
      assert s.lru[0] in s.values;
      assert |s.values - {s.lru[0]}| == |s.values| - 1 by {
        assert s.values.Keys == (s.values - {s.lru[0]}).Keys + {s.lru[0]};
      }
    }
  }

  /** Eviction always makes room, even when the deque does not list every key of the map. */
  lemma {:induction false} EvictionMakesRoom(s: State, capacity: nat)
    requires capacity > 0
    ensures |Evicted(s, capacity).values| < capacity
    ensures Evicted(s, capacity).values.Keys <= s.values.Keys
    decreases |s.lru|
  {
    if |s.values| >= capacity && s.lru != [] {
      EvictionMakesRoom(State(s.values - {s.lru[0]}, s.lru[1..]), capacity);
    }
  }

  /** The deque after a put. */
  function PutOrder(lru: seq<string>, key: string, capacity: nat): seq<string> {
    (if key in lru then Without(lru, key) else if |lru| < capacity then lru else lru[if lru == [] then 0 else 1..]) + [key]
  }

  /** `s'` holds the keys of `lru`, `key` with its new value and the others as in `s`. */
  ghost predicate Updated(s: State, s': State, lru: seq<string>, key: string, value: string) {
    && s'.lru == lru
    && key in s'.values && s'.values[key] == value
    && (forall k :: k in lru && k != key ==> k in s.values && k in s'.values && s'.values[k] == s.values[k])
  }

  lemma PutKnownKey(s: State, key: string, value: string, capacity: nat)
    requires Inv(s, capacity) && key in s.values
    ensures var s' := AfterPut(s, key, value, capacity);
            Inv(s', capacity) && Updated(s, s', PutOrder(s.lru, key, capacity), key, value)
  {
    var s' := AfterPut(s, key, value, capacity);
    WithoutFilters(s.lru, key);
    assert s'.values.Keys == s.values.Keys;
    assert |s'.values| == |s.values|;
  }

  lemma SizeWith(m: map<string, string>, key: string, value: string)
    requires key !in m
    ensures |m[key := value]| == |m| + 1
  {
    assert m[key := value].Keys == m.Keys + {key};
  }

  lemma DistinctGrows(s: seq<string>, key: string)
    requires Distinct(s) && key !in s
    ensures Distinct(s + [key]) && forall k :: k in s + [key] <==> k in s || k == key
  {
  }

  lemma PutNewKey(s: State, r: State, key: string, value: string, capacity: nat)
    requires Inv(r, capacity) && |r.lru| < capacity && key !in r.values
    requires forall k :: k in r.values ==> k in s.values && s.values[k] == r.values[k]
    ensures var s' := Touched(r.(values := r.values[key := value]), key);
            Inv(s', capacity) && Updated(s, s', r.lru + [key], key, value)
  {
    var s' := Touched(r.(values := r.values[key := value]), key);
    WithoutAbsent(r.lru, key);
    assert s' == State(r.values[key := value], r.lru + [key]);
    SizeWith(r.values, key, value);
    DistinctGrows(r.lru, key);
  }

  lemma SizeWithout(m: map<string, string>, key: string)
    requires key in m
    ensures |m - {key}| == |m| - 1
  {
    assert m.Keys == (m - {key}).Keys + {key};
  }

  lemma TailOfDistinct(s: seq<string>)
    requires Distinct(s) && s != []
    ensures Distinct(s[1..]) && forall k :: k in s[1..] <==> k in s && k != s[0]
  {
    assert s == [s[0]] + s[1..];
  }

  /** A full cache that has dropped its oldest key. */
  lemma {:induction false} DroppedKeepsInv(s: State, capacity: nat)
    requires Inv(s, capacity) && s.lru != []
    ensures Inv(State(s.values - {s.lru[0]}, s.lru[1..]), capacity)
  {
    SizeWithout(s.values, s.lru[0]);
    TailOfDistinct(s.lru);
  }

  lemma {:induction false} PutEffect(s: State, key: string, value: string, capacity: nat)
    requires capacity > 0 && Inv(s, capacity)
    ensures var s' := AfterPut(s, key, value, capacity);
            Inv(s', capacity) && Updated(s, s', PutOrder(s.lru, key, capacity), key, value)
  {
    if key in s.values {
      PutKnownKey(s, key, value, capacity);
    } else {
      EvictedDropsOldest(s, capacity);
      var r := Evicted(s, capacity);
      if |s.lru| >= capacity { DroppedKeepsInv(s, capacity); }
      PutNewKey(s, r, key, value, capacity);
    }
  }

  lemma GetEffect(s: State, key: string, capacity: nat)
    requires Inv(s, capacity)
    ensures Inv(AfterGet(s, key), capacity)
    ensures AfterGet(s, key).values == s.values
    ensures AfterGet(s, key).lru == if key in s.values then Without(s.lru, key) + [key] else s.lru
  {
    WithoutFilters(s.lru, key);
  }

  /** After any run the deque and the map agree and the bound holds. */
  lemma {:induction false} RunKeepsInv(ops: seq<Op>, capacity: nat)
    requires capacity > 0
    ensures Inv(Run(ops, capacity), capacity)
  {
    if ops != [] {
      var s, op := Run(ops[..|ops| - 1], capacity), ops[|ops| - 1];
      RunKeepsInv(ops[..|ops| - 1], capacity);
      match op
      case Get(k) => GetEffect(s, k, capacity);
      case Put(k, v) => PutEffect(s, k, v, capacity);
    }
  }

  // ------------------------------------------- refinement of a recency list

  /** The last `n` items, or all of them. */
  function Last(s: seq<string>, n: nat): seq<string> {
    if |s| <= n then s else s[|s| - n..]
  }

  /** Every key ever put, by recency; a get counts only if the key is among the last `capacity`. */
  function Recency(ops: seq<Op>, capacity: nat): seq<string> {
    if ops == [] then []
    else
      var before := Recency(ops[..|ops| - 1], capacity);
      match ops[|ops| - 1]
      case Put(k, _) => Without(before, k) + [k]
      case Get(k) => if k in Last(before, capacity) then Without(before, k) + [k] else before
  }

  /** The value of the latest put of `key`. */
  function LatestPut(ops: seq<Op>, key: string): Option<string> {
    if ops == [] then None
    else
      var last := ops[|ops| - 1];
      if last.Put? && last.key == key then Some(last.value) else LatestPut(ops[..|ops| - 1], key)
  }

  lemma {:induction false} WithoutSplits(a: seq<string>, b: seq<string>, key: string)
    ensures Without(a + b, key) == Without(a, key) + Without(b, key)
    decreases |b|
  {
    if b == [] {
      assert a + b == a;
    } else {
      assert (a + b)[..|a + b| - 1] == a + b[..|b| - 1];
      WithoutSplits(a, b[..|b| - 1], key);
    }
  }

  lemma LastSplits(s: seq<string>, n: nat) returns (head: seq<string>)
    ensures s == head + Last(s, n)
    ensures head != [] ==> |Last(s, n)| == n
  {
    head := s[..|s| - |Last(s, n)|];
  }

  lemma LastOfConcat(head: seq<string>, w: seq<string>, n: nat)
    requires |w| <= n && (head == [] || |w| == n)
    ensures Last(head + w, n) == w
  {
  }

  lemma LastOfAppend(head: seq<string>, w: seq<string>, key: string, n: nat)
    requires |w| < n && (head == [] || |w| + 1 == n)
    ensures Last((head + w) + [key], n) == w + [key]
  {
    assert (head + w) + [key] == head + (w + [key]);
    LastOfConcat(head, w + [key], n);
  }

  lemma LastAfterMove(s: seq<string>, key: string, n: nat)
    requires Distinct(s) && key in Last(s, n)
    ensures Last(Without(s, key) + [key], n) == Without(Last(s, n), key) + [key]
  {
    var w := Last(s, n);
    var head := LastSplits(s, n);
    MovedSplits(head, w, key);
    LastOfAppend(head, Without(w, key), key, n);
  }

  lemma MovedSplits(head: seq<string>, w: seq<string>, key: string)
    requires Distinct(head + w) && key in w
    ensures Without(head + w, key) == head + Without(w, key)
    ensures |Without(w, key)| == |w| - 1
  {
    AbsentFromHead(head, w, key);
    WithoutSplits(head, w, key);
    WithoutAbsent(head, key);
    WithoutFilters(w, key);
  }

  lemma AbsentFromHead(head: seq<string>, w: seq<string>, key: string)
    requires Distinct(head + w) && key in w
    ensures key !in head && Distinct(w)
  {
    var k :| 0 <= k < |w| && w[k] == key;
    assert (head + w)[|head| + k] == key;
    forall i, j | 0 <= i < j < |w| ensures w[i] != w[j] {
      assert (head + w)[|head| + i] != (head + w)[|head| + j];
    }
    forall i | 0 <= i < |head| ensures head[i] != key { assert (head + w)[i] != (head + w)[|head| + k]; }
  }

  lemma LastAfterAdd(s: seq<string>, key: string, n: nat)
    requires n > 0 && key !in Last(s, n)
    ensures Last(Without(s, key) + [key], n) == (if |Last(s, n)| < n then Last(s, n) else Last(s, n)[1..]) + [key]
  {
    var w := Last(s, n);
    var head := LastSplits(s, n);
    AddedSplits(head, w, key);
    if |w| < n {
      LastOfAppend(Without(head, key), w, key, n);
    } else {
      LastOfFullAppend(Without(head, key), w, key, n);
    }
  }

  lemma LastOfFullAppend(rest: seq<string>, w: seq<string>, key: string, n: nat)
    requires |w| == n > 0
    ensures Last((rest + w) + [key], n) == w[1..] + [key]
  {
    assert rest + w == (rest + [w[0]]) + w[1..];
    LastOfAppend(rest + [w[0]], w[1..], key, n);
  }

  lemma AddedSplits(head: seq<string>, w: seq<string>, key: string)
    requires key !in w
    ensures Without(head + w, key) == Without(head, key) + w
  {
    WithoutSplits(head, w, key);
    WithoutAbsent(w, key);
  }

  /** A put moves or adds the key at the back of the last `n` items in the same way. */
  lemma LastAfterPut(s: seq<string>, key: string, n: nat)
    requires n > 0 && Distinct(s)
    ensures Last(Without(s, key) + [key], n) == PutOrder(Last(s, n), key, n)
  {
    if key in Last(s, n) { LastAfterMove(s, key, n); } else { LastAfterAdd(s, key, n); }
  }

  /** The cache holds exactly the last `capacity` keys of the recency list, each with its
      latest put value. */
  ghost predicate IsEndOfRecency(s: State, r: seq<string>, ops: seq<Op>, capacity: nat) {
    && Distinct(r)
    && s.lru == Last(r, capacity)
    && (forall k :: k in s.values ==> LatestPut(ops, k) == Some(s.values[k]))
  }

  lemma {:induction false} GetKeepsEnd(s: State, r: seq<string>, before: seq<Op>, key: string, capacity: nat)
    requires capacity > 0 && Inv(s, capacity) && IsEndOfRecency(s, r, before, capacity)
    ensures IsEndOfRecency(AfterGet(s, key), if key in Last(r, capacity) then Without(r, key) + [key] else r,
                           before + [Get(key)], capacity)
  {
    assert (before + [Get(key)])[..|before|] == before;
    GetEffect(s, key, capacity);
    MoveKeepsDistinct(r, key);
    if key in Last(r, capacity) { LastAfterMove(r, key, capacity); }
  }

  lemma {:induction false} PutKeepsEnd(s: State, r: seq<string>, before: seq<Op>, key: string, value: string, capacity: nat)
    requires capacity > 0 && Inv(s, capacity) && IsEndOfRecency(s, r, before, capacity)
    ensures IsEndOfRecency(AfterPut(s, key, value, capacity), Without(r, key) + [key], before + [Put(key, value)], capacity)
  {
    PutEffect(s, key, value, capacity);
    MoveKeepsDistinct(r, key);
    LastAfterPut(r, key, capacity);
    PutKeepsLatest(before, Put(key, value), s, capacity);
  }

  lemma {:induction false} CacheIsEndOfRecency(ops: seq<Op>, capacity: nat)
    requires capacity > 0
    ensures IsEndOfRecency(Run(ops, capacity), Recency(ops, capacity), ops, capacity)
  {
    if ops != [] {
      var before, op := ops[..|ops| - 1], ops[|ops| - 1];
      CacheIsEndOfRecency(before, capacity);
      RunKeepsInv(before, capacity);
      assert ops == before + [op];
      match op
      case Get(k) => GetKeepsEnd(Run(before, capacity), Recency(before, capacity), before, k, capacity);
      case Put(k, v) => PutKeepsEnd(Run(before, capacity), Recency(before, capacity), before, k, v, capacity);
    }
  }

  lemma MoveKeepsDistinct(s: seq<string>, key: string)
    requires Distinct(s)
    ensures Distinct(Without(s, key) + [key])
  {
    WithoutFilters(s, key);
  }

  lemma PutKeepsLatest(before: seq<Op>, op: Op, s: State, capacity: nat)
    requires capacity > 0 && Inv(s, capacity) && op.Put?
    requires forall k :: k in s.values ==> LatestPut(before, k) == Some(s.values[k])
    ensures var s' := AfterPut(s, op.key, op.value, capacity);
            forall k :: k in s'.values ==> LatestPut(before + [op], k) == Some(s'.values[k])
  {
    PutEffect(s, op.key, op.value, capacity);
    var s' := AfterPut(s, op.key, op.value, capacity);
    assert (before + [op])[..|before|] == before;
    forall k | k in s'.values ensures LatestPut(before + [op], k) == Some(s'.values[k]) {
      assert k in s'.lru;
    }
  }

  // ------------------------------------------------------ stack inclusion

  function Only(s: seq<string>, keep: set<string>): seq<string> {
    if s == [] then []
    else Only(s[..|s| - 1], keep) + (if s[|s| - 1] in keep then [s[|s| - 1]] else [])
  }

  /** `a` is what remains of `b` when the keys not in `a` are dropped. */
  predicate Subsequence(a: seq<string>, b: seq<string>) {
    a == Only(b, SetOf(a))
  }

  lemma {:induction false} OnlyMembers(s: seq<string>, keep: set<string>)
    ensures forall k :: k in Only(s, keep) <==> k in s && k in keep
    ensures SetOf(s) <= keep ==> Only(s, keep) == s
  {
    if s != [] {
      assert s == s[..|s| - 1] + [s[|s| - 1]];
      OnlyMembers(s[..|s| - 1], keep);
    }
  }

  lemma {:induction false} OnlyWithout(s: seq<string>, keep: set<string>, key: string)
    ensures Only(s, keep - {key}) == Without(Only(s, keep), key)
    ensures Only(Without(s, key), keep) == Without(Only(s, keep), key)
  {
    if s != [] {
      var init, last := s[..|s| - 1], s[|s| - 1];
      OnlyWithout(init, keep, key);
      var kept := Only(init, keep);
      if last in keep { assert (kept + [last])[..|kept|] == kept; } else { assert Only(s, keep) == kept; }
      var w := Without(init, key);
      if last != key { assert (w + [last])[..|w|] == w; } else { assert Without(s, key) == w; }
    }
  }

  lemma OnlyAppend(s: seq<string>, keep: set<string>, key: string)
    ensures Only(s + [key], keep) == Only(s, keep) + if key in keep then [key] else []
  {
    assert (s + [key])[..|s|] == s;
  }

  lemma {:induction false} OnlyAgrees(s: seq<string>, keep: set<string>, same: set<string>)
    requires forall k :: k in s ==> (k in keep <==> k in same)
    ensures Only(s, keep) == Only(s, same)
  {
    if s != [] { OnlyAgrees(s[..|s| - 1], keep, same); }
  }

  lemma {:induction false} OnlySplits(a: seq<string>, b: seq<string>, keep: set<string>)
    ensures Only(a + b, keep) == Only(a, keep) + Only(b, keep)
    decreases |b|
  {
    if b == [] {
      assert a + b == a;
    } else {
      assert (a + b)[..|a + b| - 1] == a + b[..|b| - 1];
      OnlySplits(a, b[..|b| - 1], keep);
    }
  }

  lemma WithoutHead(s: seq<string>)
    requires s != [] && Distinct(s)
    ensures Without(s, s[0]) == s[1..]
  {
    assert s == [s[0]] + s[1..];
    WithoutSplits([s[0]], s[1..], s[0]);
    WithoutAbsent(s[1..], s[0]);
    assert [s[0]][..0] == [];
  }

  /** The smaller cache's order after a step is a subsequence of the larger one's, provided it
      was so before and the smaller cache is full or the two are equal. */
  ghost predicate Nested(a: seq<string>, b: seq<string>, small: nat, large: nat) {
    && Distinct(a) && Distinct(b) && |a| <= small && |b| <= large
    && Subsequence(a, b)
    && (|a| < small ==> a == b)
  }

  /** Moving a key to the end rearranges, no more. */
  lemma {:induction false} MovedToEnd(s: seq<string>, key: string)
    requires Distinct(s) && key in s
    ensures var moved := Without(s, key) + [key];
            Distinct(moved) && |moved| == |s| && SetOf(moved) == SetOf(s)
  {
    WithoutFilters(s, key);
    var w := Without(s, key);
    var moved := w + [key];
    forall i, j | 0 <= i < j < |moved| ensures moved[i] != moved[j] {
      assert moved[i] in w;
    }
    assert forall k :: k in moved <==> k in w || k == key;
  }

  /** A read of a key that both caches hold. */
  lemma {:induction false} HitKeepsNested(a: seq<string>, b: seq<string>, small: nat, large: nat, key: string)
    requires Nested(a, b, small, large) && key in b && key in a
    ensures Nested(Without(a, key) + [key], Without(b, key) + [key], small, large)
  {
    MovedToEnd(a, key);
    MovedToEnd(b, key);
    OnlyWithout(b, SetOf(a), key);
    OnlyAppend(Without(b, key), SetOf(a), key);
  }

  /** A read of a key that only the larger cache holds. */
  lemma {:induction false} MissKeepsNested(a: seq<string>, b: seq<string>, small: nat, large: nat, key: string)
    requires Nested(a, b, small, large) && key in b && key !in a
    ensures Nested(a, Without(b, key) + [key], small, large)
  {
    WithoutFilters(b, key);
    OnlyWithout(b, SetOf(a), key);
    OnlyAppend(Without(b, key), SetOf(a), key);
    WithoutAbsent(a, key);
  }

  /** Adding a key the smaller cache lacks while it is full. */
  lemma AddKeepsNested(a: seq<string>, b: seq<string>, rest: seq<string>, small: nat, large: nat, key: string)
    requires Nested(a, b, small, large) && |a| == small > 0 && key !in a
    requires Distinct(rest) && |rest| < large && key !in rest
    requires Only(rest, SetOf(a) - {a[0]}) == Only(b, SetOf(a) - {a[0]})
    ensures Nested(a[1..] + [key], rest + [key], small, large)
  {
    WithoutHead(a);
    OnlyWithout(b, SetOf(a), a[0]);
    AddedIsSubsequence(a, rest, key);
  }

  lemma AddedIsSubsequence(a: seq<string>, rest: seq<string>, key: string)
    requires a != [] && Distinct(a) && key !in rest
    requires Only(rest, SetOf(a) - {a[0]}) == a[1..]
    ensures Subsequence(a[1..] + [key], rest + [key])
  {
    var keep := SetOf(a) - {a[0]};
    assert a == [a[0]] + a[1..];
    assert SetOf(a[1..] + [key]) == keep + {key};
    OnlyAgrees(rest, keep, keep + {key});
    OnlyAppend(rest, keep + {key}, key);
  }

  /** A full smaller cache takes a key that only the larger one holds. */
  lemma {:induction false} RefillKeepsNested(a: seq<string>, b: seq<string>, small: nat, large: nat, key: string)
    requires Nested(a, b, small, large) && |a| == small > 0 && key !in a && key in b
    ensures Nested(a[1..] + [key], Without(b, key) + [key], small, large)
  {
    var keep := SetOf(a) - {a[0]};
    WithoutFilters(b, key);
    OnlyWithout(b, keep, key);
    OnlyMembers(b, keep);
    WithoutAbsent(Only(b, keep), key);
    AddKeepsNested(a, b, Without(b, key), small, large, key);
  }

  lemma {:induction false} NewKeyKeepsNested(a: seq<string>, b: seq<string>, small: nat, large: nat, key: string)
    requires Nested(a, b, small, large) && 0 < small <= large && |a| == small && key !in a && key !in b
    ensures Nested(a[1..] + [key], PutOrder(b, key, large), small, large)
  {
    if |b| < large {
      AddKeepsNested(a, b, b, small, large, key);
    } else {
      OldestGoesFromBoth(a, b);
      AddKeepsNested(a, b, b[1..], small, large, key);
    }
  }

  lemma {:induction false} PutKeepsNested(a: seq<string>, b: seq<string>, small: nat, large: nat, key: string)
    requires Nested(a, b, small, large) && 0 < small <= large
    ensures Nested(PutOrder(a, key, small), PutOrder(b, key, large), small, large)
  {
    OnlyMembers(b, SetOf(a));
    if key in a {
      assert key in b;
      HitKeepsNested(a, b, small, large, key);
    } else if |a| < small {
      OnlyMembers(b + [key], SetOf(a + [key]));
    } else if key in b {
      RefillKeepsNested(a, b, small, large, key);
    } else {
      NewKeyKeepsNested(a, b, small, large, key);
    }
  }

  /** The larger cache's oldest key is the smaller one's oldest too, or absent from it. */
  lemma OldestGoesFromBoth(a: seq<string>, b: seq<string>)
    requires Distinct(a) && Distinct(b) && Subsequence(a, b) && a != [] && b != []
    ensures Only(b[1..], SetOf(a) - {a[0]}) == Only(b, SetOf(a) - {a[0]})
  {
    assert b == [b[0]] + b[1..];
    OnlySplits([b[0]], b[1..], SetOf(a));
    OnlySplits([b[0]], b[1..], SetOf(a) - {a[0]});
    assert [b[0]][..0] == [];
  }

  /** Inclusion: for capacities small ≤ large and the same calls, the smaller cache's recency
      list is a subsequence of the larger one's, and they agree on every shared value. */
  lemma {:induction false} SmallerCacheIsIncluded(ops: seq<Op>, small: nat, large: nat)
    requires 0 < small <= large
    ensures var s, l := Run(ops, small), Run(ops, large);
            && Nested(s.lru, l.lru, small, large)
            && (forall k :: k in s.values ==> k in l.values && s.values[k] == l.values[k])
  {
    RunKeepsInv(ops, small);
    RunKeepsInv(ops, large);
    CacheIsEndOfRecency(ops, small);
    CacheIsEndOfRecency(ops, large);
    if ops != [] {
      var before, op := ops[..|ops| - 1], ops[|ops| - 1];
      var s, l := Run(before, small), Run(before, large);
      RunKeepsInv(before, small);
      RunKeepsInv(before, large);
      SmallerCacheIsIncluded(before, small, large);
      match op
      case Get(k) =>
        GetEffect(s, k, small);
        GetEffect(l, k, large);
        OnlyMembers(l.lru, SetOf(s.lru));
        if k in l.values {
          if k in s.values {
            HitKeepsNested(s.lru, l.lru, small, large, k);
          } else {
            MissKeepsNested(s.lru, l.lru, small, large, k);
          }
        }
      case Put(k, v) =>
        PutEffect(s, k, v, small);
        PutEffect(l, k, v, large);
        PutKeepsNested(s.lru, l.lru, small, large, k);
    }
    OnlyMembers(Run(ops, large).lru, SetOf(Run(ops, small).lru));
  }
}
