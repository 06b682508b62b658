/** Any number of threads driving any number of hybrid clocks, one load or one
    compare-and-swap at a time, while stamps travel between the clocks. */
module Causality {
  import opened HybridClock

  type ClockId = nat
  type ThreadId = nat

  /** `Seeded` is a clock's construction; `Foreign` is a stamp that arrived from outside;
      `Ticked` and `Observed` are successful swaps, with the word they replaced. */
  datatype Cause =
    | Seeded(clock: ClockId)
    | Foreign
    | Ticked(clock: ClockId, raw: U64, now: U64)
    | Observed(clock: ClockId, raw: U64, now: U64, source: nat)

  datatype Event = Event(cause: Cause, stamp: Hlc)

  datatype Call = LocalTick | Observe(source: nat)

  /** Where a thread stands inside `local_tick` or `observe`. */
  datatype Phase =
    | Idle
    | Sampled(clock: ClockId, call: Call, now: U64)
    | Loaded(clock: ClockId, call: Call, now: U64, raw: U64)

  datatype State = State(words: map<ClockId, U64>, threads: map<ThreadId, Phase>, history: seq<Event>)

  const INITIAL := State(map[], map[], [])

  datatype Step =
    | NewClock(clock: ClockId, seed: Hlc)
    | Arrive(remote: Hlc)
    | Begin(thread: ThreadId, target: ClockId, call: Call, reading: U64)
    | Load(thread: ThreadId)
    | Swap(thread: ThreadId)

  function PhaseOf(s: State, t: ThreadId): Phase {
    if t in s.threads then s.threads[t] else Idle
  }

  function NextStamp(s: State, p: Phase): Hlc
    requires p.Loaded?
    requires p.call.Observe? ==> p.call.source < |s.history|
  {
    match p.call
    case LocalTick => TickNext(Unpack(p.raw), p.now)
    case Observe(k) => ObserveNext(Unpack(p.raw), s.history[k].stamp, p.now)
  }

  function CauseOf(p: Phase): Cause
    requires p.Loaded?
  {
    match p.call
    case LocalTick => Ticked(p.clock, p.raw, p.now)
    case Observe(k) => Observed(p.clock, p.raw, p.now, k)
  }

  /** A step that is not possible in `s` leaves `s` as it is. */
  function Apply(s: State, step: Step): State {
    match step
    case NewClock(c, seed) =>
      if c in s.words then s
      else s.(words := s.words[c := Pack(seed)],
              history := s.history + [Event(Seeded(c), Unpack(Pack(seed)))])
    case Arrive(remote) =>
      s.(history := s.history + [Event(Foreign, remote)])
    case Begin(t, c, call, reading) =>
      if PhaseOf(s, t) != Idle || c !in s.words || (call.Observe? && call.source >= |s.history|) then s
      else s.(threads := s.threads[t := Sampled(c, call, reading % PHYSICAL_SPAN)])
    case Load(t) =>
      var p := PhaseOf(s, t);
      if !p.Sampled? || p.clock !in s.words then s
      else s.(threads := s.threads[t := Loaded(p.clock, p.call, p.now, s.words[p.clock])])
    case Swap(t) =>
      var p := PhaseOf(s, t);
      if !p.Loaded? || p.clock !in s.words || (p.call.Observe? && p.call.source >= |s.history|) then s
      else if s.words[p.clock] != p.raw then
        // the swap failed: go round the loop again with the same reading
        s.(threads := s.threads[t := Sampled(p.clock, p.call, p.now)])
      else
        var next := NextStamp(s, p);
        State(s.words[p.clock := Pack(next)], s.threads[t := Idle], s.history + [Event(CauseOf(p), next)])
  }

  function Run(steps: seq<Step>): State {
    if steps == [] then INITIAL else Apply(Run(steps[..|steps| - 1]), steps[|steps| - 1])
  }

  // ------------------------------------------------------- happens-before

  predicate OnClock(e: Event, c: ClockId) {
    !e.cause.Foreign? && e.cause.clock == c
  }

  /** `i` directly precedes `j`: they act on one clock in that order, or `j` observed `i`'s stamp. */
  predicate Edge(h: seq<Event>, i: nat, j: nat)
    requires i < |h| && j < |h|
  {
    i < j && ((!h[j].cause.Foreign? && OnClock(h[i], h[j].cause.clock))
              || (h[j].cause.Observed? && h[j].cause.source == i))
  }

  ghost predicate HappensBefore(h: seq<Event>, i: nat, j: nat)
    requires i < |h| && j < |h|
    decreases j
  {
    Edge(h, i, j) || exists k: nat :: k < j && HappensBefore(h, i, k) && Edge(h, k, j)
  }

  /** Stamps follow causality: whatever happens before an event carries a smaller stamp. */
  ghost predicate CausallyOrdered(h: seq<Event>) {
    forall i: nat, j: nat :: i < |h| && j < |h| && HappensBefore(h, i, j) ==> Less(h[i].stamp, h[j].stamp)
  }

  predicate Saturated(h: seq<Event>, j: nat)
    requires j < |h|
    requires h[j].cause.Observed? ==> h[j].cause.source < |h|
  {
    match h[j].cause
    case Ticked(_, raw, now) => TickSaturates(Unpack(raw), now)
    case Observed(_, raw, now, k) => ObserveSaturates(Unpack(raw), h[k].stamp, now)
    case _ => false
  }

  predicate SourcesPrecede(h: seq<Event>) {
    forall j: nat :: j < |h| && h[j].cause.Observed? ==> h[j].cause.source < j
  }

  predicate NeverSaturated(h: seq<Event>)
    requires SourcesPrecede(h)
  {
    forall j: nat :: j < |h| ==> !Saturated(h, j)
  }

  /** Foreign stamps have a physical part that fits 48 bits. */
  predicate ForeignInRange(h: seq<Event>) {
    forall j: nat :: j < |h| && h[j].cause.Foreign? ==> h[j].stamp.physical < PHYSICAL_SPAN
  }

  // ----------------------------------------------------------- invariant

  /** Event `j` was computed by the tick rules from the word it replaced. */
  predicate FollowsRule(h: seq<Event>, j: nat)
    requires j < |h| && SourcesPrecede(h)
  {
    match h[j].cause
    case Seeded(_) => InRange(h[j].stamp)
    case Foreign => true
    case Ticked(_, raw, now) => now < PHYSICAL_SPAN && h[j].stamp == TickNext(Unpack(raw), now)
    case Observed(_, raw, now, k) => now < PHYSICAL_SPAN && h[j].stamp == ObserveNext(Unpack(raw), h[k].stamp, now)
  }

  predicate Replaces(e: Event) {
    e.cause.Ticked? || e.cause.Observed?
  }

  /** `w` packs the stamp of the latest of `h`'s events on clock `c`, the largest so far. */
  ghost predicate Holds(h: seq<Event>, c: ClockId, w: U64) {
    && (exists i: nat :: i < |h| && OnClock(h[i], c) && h[i].stamp == Unpack(w))
    && (forall i: nat :: i < |h| && OnClock(h[i], c) ==> AtMost(h[i].stamp, Unpack(w)))
  }

  /** A clock is constructed once, before anything else happens on it. */
  predicate NoReseed(h: seq<Event>) {
    forall i: nat, j: nat :: i < j < |h| && h[j].cause.Seeded? ==> !OnClock(h[i], h[j].cause.clock)
  }

  ghost predicate Consistent(h: seq<Event>) {
    && SourcesPrecede(h)
    && NoReseed(h)
    && (forall j: nat :: j < |h| ==> FollowsRule(h, j))
    && (forall j: nat :: j < |h| && Replaces(h[j]) ==> Holds(h[..j], h[j].cause.clock, h[j].cause.raw))
  }

  ghost predicate Inv(s: State) {
    && Consistent(s.history)
    && (forall c :: c in s.words ==> Holds(s.history, c, s.words[c]))
    && (forall i: nat :: i < |s.history| && !s.history[i].cause.Foreign? ==> s.history[i].cause.clock in s.words)
    && (forall t :: t in s.threads && !s.threads[t].Idle? ==> s.threads[t].now < PHYSICAL_SPAN)
  }

  lemma HoldsAfterOther(h: seq<Event>, e: Event, c: ClockId, w: U64)
    requires Holds(h, c, w) && !OnClock(e, c)
    ensures Holds(h + [e], c, w)
  {
    var i: nat :| i < |h| && OnClock(h[i], c) && h[i].stamp == Unpack(w);
    assert (h + [e])[i] == h[i];
  }

  lemma HoldsAfterOwn(h: seq<Event>, e: Event, c: ClockId, w: U64, w': U64)
    requires Holds(h, c, w) && OnClock(e, c)
    requires e.stamp == Unpack(w') && AtMost(Unpack(w), Unpack(w'))
    ensures Holds(h + [e], c, w')
  {
    assert (h + [e])[|h|] == e;
  }

  lemma ConsistentExtends(h: seq<Event>, e: Event)
    requires Consistent(h)
    requires e.cause.Observed? ==> e.cause.source < |h|
    requires SourcesPrecede(h + [e]) && FollowsRule(h + [e], |h|)
    requires Replaces(e) ==> Holds(h, e.cause.clock, e.cause.raw)
    requires e.cause.Seeded? ==> forall i: nat :: i < |h| ==> !OnClock(h[i], e.cause.clock)
    ensures Consistent(h + [e])
  {
    var h' := h + [e];
    forall j: nat | j < |h'|
      ensures FollowsRule(h', j)
      ensures Replaces(h'[j]) ==> Holds(h'[..j], h'[j].cause.clock, h'[j].cause.raw)
    {
      if j < |h| {
        assert FollowsRule(h, j);
        assert h'[..j] == h[..j];
      } else {
        assert h'[..j] == h;
      }
    }
  }

  predicate Swaps(s: State, p: Phase) {
    p.Loaded? && p.clock in s.words && (p.call.Observe? ==> p.call.source < |s.history|) && s.words[p.clock] == p.raw
  }

  lemma NextStampRises(s: State, p: Phase)
    requires Swaps(s, p) && p.now < PHYSICAL_SPAN
    requires forall i: nat :: i < |s.history| ==> s.history[i].stamp.physical < PHYSICAL_SPAN
    ensures InRange(NextStamp(s, p)) && AtMost(Unpack(p.raw), NextStamp(s, p))
    ensures Unpack(Pack(NextStamp(s, p))) == NextStamp(s, p)
  {
    PackUndoesUnpack(p.raw);
    if p.call.LocalTick? {
      TickRises(Unpack(p.raw), p.now);
    } else {
      ObserveRises(Unpack(p.raw), s.history[p.call.source].stamp, p.now);
    }
    UnpackUndoesPack(NextStamp(s, p));
  }

  lemma SwapExtends(s: State, p: Phase)
    requires Inv(s) && Swaps(s, p) && p.now < PHYSICAL_SPAN
    ensures Consistent(s.history + [Event(CauseOf(p), NextStamp(s, p))])
  {
    ConsistentExtends(s.history, Event(CauseOf(p), NextStamp(s, p)));
  }

  lemma SwapKeepsInv(s: State, t: ThreadId)
    requires Inv(s)
    requires forall i: nat :: i < |s.history| ==> s.history[i].stamp.physical < PHYSICAL_SPAN
    ensures Inv(Apply(s, Swap(t)))
    ensures forall i: nat :: i < |Apply(s, Swap(t)).history| ==> Apply(s, Swap(t)).history[i].stamp.physical < PHYSICAL_SPAN
  {
    var s', p := Apply(s, Swap(t)), PhaseOf(s, t);
    if Swaps(s, p) {
      var next, h, e := NextStamp(s, p), s.history, Event(CauseOf(p), NextStamp(s, p));
      assert s' == State(s.words[p.clock := Pack(next)], s.threads[t := Idle], h + [e]);
      NextStampRises(s, p);
      SwapExtends(s, p);
      forall c | c in s'.words ensures Holds(h + [e], c, s'.words[c]) {
        if c == p.clock {
          HoldsAfterOwn(h, e, c, p.raw, Pack(next));
        } else {
          HoldsAfterOther(h, e, c, s.words[c]);
        }
      }
    }
  }

  lemma NewClockKeepsInv(s: State, c: ClockId, seed: Hlc)
    requires Inv(s)
    ensures Inv(Apply(s, NewClock(c, seed)))
  {
    var s' := Apply(s, NewClock(c, seed));
    if c !in s.words {
      var e := Event(Seeded(c), Unpack(Pack(seed)));
      UnpackUndoesPack(seed);
      ConsistentExtends(s.history, e);
      assert s'.history[|s.history|] == e;
      forall d | d in s'.words ensures Holds(s'.history, d, s'.words[d]) {
        if d != c { HoldsAfterOther(s.history, e, d, s.words[d]); }
      }
    }
  }

  lemma ArriveKeepsInv(s: State, remote: Hlc)
    requires Inv(s)
    ensures Inv(Apply(s, Arrive(remote)))
  {
    var s' := Apply(s, Arrive(remote));
    var e := Event(Foreign, remote);
    ConsistentExtends(s.history, e);
    forall d | d in s'.words ensures Holds(s'.history, d, s'.words[d]) {
      HoldsAfterOther(s.history, e, d, s.words[d]);
    }
  }

  lemma EntryKeepsInv(s: State, step: Step)
    requires Inv(s) && (step.Begin? || step.Load?)
    ensures Inv(Apply(s, step)) && Apply(s, step).history == s.history
  {
  }

  lemma HistoryGrows(s: State, step: Step)
    ensures s.history <= Apply(s, step).history
    ensures ForeignInRange(Apply(s, step).history) ==> ForeignInRange(s.history)
  {
    var h, h' := s.history, Apply(s, step).history;
    forall j: nat | j < |h| ensures h[j] == h'[j] {}
  }

  lemma {:induction false} RunKeepsInv(steps: seq<Step>)
    requires ForeignInRange(Run(steps).history)
    ensures Inv(Run(steps))
    ensures forall i: nat :: i < |Run(steps).history| ==> Run(steps).history[i].stamp.physical < PHYSICAL_SPAN
  {
    if steps != [] {
      var before, step := steps[..|steps| - 1], steps[|steps| - 1];
      var s := Run(before);
      HistoryGrows(s, step);
      RunKeepsInv(before);
      match step
      case NewClock(c, seed) => NewClockKeepsInv(s, c, seed);
      case Arrive(remote) => ArriveKeepsInv(s, remote);
      case Begin(_, _, _, _) => EntryKeepsInv(s, step);
      case Load(_) => EntryKeepsInv(s, step);
      case Swap(t) => SwapKeepsInv(s, t);
    }
  }

  // ---------------------------------------------------------- main results

  lemma EdgeRises(h: seq<Event>, i: nat, j: nat)
    requires Consistent(h) && i < |h| && j < |h| && Edge(h, i, j)
    requires !Saturated(h, j)
    ensures Less(h[i].stamp, h[j].stamp)
  {
    assert FollowsRule(h, j);
    match h[j].cause
    case Seeded(_) =>
    case Foreign =>
    case Ticked(c, raw, now) =>
      assert h[..j][i] == h[i];
      PackUndoesUnpack(raw);
      TickRises(Unpack(raw), now);
    case Observed(c, raw, now, k) =>
      assert h[..j][i] == h[i];
      PackUndoesUnpack(raw);
      ObserveRises(Unpack(raw), h[k].stamp, now);
  }

  lemma {:induction false} HappensBeforeRises(h: seq<Event>, i: nat, j: nat)
    requires Consistent(h) && NeverSaturated(h)
    requires i < |h| && j < |h| && HappensBefore(h, i, j)
    ensures Less(h[i].stamp, h[j].stamp)
    decreases j
  {
    if Edge(h, i, j) {
      EdgeRises(h, i, j);
    } else {
      var k: nat :| k < j && HappensBefore(h, i, k) && Edge(h, k, j);
      HappensBeforeRises(h, i, k);
      EdgeRises(h, k, j);
    }
  }

  /** A saturated swap leaves some direct predecessor at or above it. */
  lemma SaturationBreaksOrder(h: seq<Event>, j: nat)
    requires Consistent(h) && j < |h| && Saturated(h, j)
    ensures exists i: nat :: i < |h| && HappensBefore(h, i, j) && !Less(h[i].stamp, h[j].stamp)
  {
    var e := h[j];
    var raw := e.cause.raw;
    assert FollowsRule(h, j) && Holds(h[..j], e.cause.clock, raw);
    var i: nat :| i < |h[..j]| && OnClock(h[..j][i], e.cause.clock) && h[..j][i].stamp == Unpack(raw);
    assert h[..j][i] == h[i] && HappensBefore(h, i, j);
    PackUndoesUnpack(raw);
    if e.cause.Ticked? {
      TickRises(Unpack(raw), e.cause.now);
    } else {
      var k := e.cause.source;
      ObserveRises(Unpack(raw), h[k].stamp, e.cause.now);
      assert HappensBefore(h, k, j);
    }
  }

  /** Causality, for every interleaving: stamps follow happens-before throughout a run
      exactly when no swap of the run saturated the logical counter. */
  lemma StampsFollowCausality(steps: seq<Step>)
    requires ForeignInRange(Run(steps).history)
    ensures SourcesPrecede(Run(steps).history)
    ensures CausallyOrdered(Run(steps).history) <==> NeverSaturated(Run(steps).history)
  {
    RunKeepsInv(steps);
    var h := Run(steps).history;
    if NeverSaturated(h) {
      forall i: nat, j: nat | i < |h| && j < |h| && HappensBefore(h, i, j)
        ensures Less(h[i].stamp, h[j].stamp)
      { HappensBeforeRises(h, i, j); }
    } else {
      var j: nat :| j < |h| && Saturated(h, j);
      SaturationBreaksOrder(h, j);
    }
  }

  /** Calls that share a clock return pairwise distinct stamps, in the order of their swaps. */
  lemma SharedClockStampsIncrease(steps: seq<Step>, c: ClockId, i: nat, j: nat)
    requires ForeignInRange(Run(steps).history)
    requires SourcesPrecede(Run(steps).history) && NeverSaturated(Run(steps).history)
    requires i < j < |Run(steps).history|
    requires OnClock(Run(steps).history[i], c) && OnClock(Run(steps).history[j], c)
    ensures Less(Run(steps).history[i].stamp, Run(steps).history[j].stamp)
  {
    StampsFollowCausality(steps);
    assert HappensBefore(Run(steps).history, i, j);
  }

  /** Stamps are no larger than causality asks for: unless it saturated, an event of a tick or an
      observation carries the least stamp that exceeds those of its direct predecessors and whose
      physical part has reached its reading. */
  lemma {:induction false} StampsAreTight(steps: seq<Step>, j: nat, s: Hlc)
    requires ForeignInRange(Run(steps).history)
    requires var h := Run(steps).history;
             && j < |h| && Replaces(h[j]) && (h[j].cause.Observed? ==> h[j].cause.source < |h|) && !Saturated(h, j)
             && (forall i: nat :: i < |h| && Edge(h, i, j) ==> Less(h[i].stamp, s)) && s.physical >= h[j].cause.now
    ensures AtMost(Run(steps).history[j].stamp, s)
  {
    RunKeepsInv(steps);
    var h := Run(steps).history;
    var raw := h[j].cause.raw;
    assert FollowsRule(h, j) && Holds(h[..j], h[j].cause.clock, raw);
    var i: nat :| i < |h[..j]| && OnClock(h[..j][i], h[j].cause.clock) && h[..j][i].stamp == Unpack(raw);
    assert h[..j][i] == h[i] && Edge(h, i, j);
    PackUndoesUnpack(raw);
    if h[j].cause.Ticked? {
      TickIsLeast(Unpack(raw), h[j].cause.now, s);
    } else {
      var k := h[j].cause.source;
      assert Edge(h, k, j);
      ObserveIsLeast(Unpack(raw), h[k].stamp, h[j].cause.now, s);
    }
  }

  /** A whole tick that nothing comes between is one tick of the clock, at its reading. */
  lemma {:induction false} TickIsItsSteps(s: State, t: ThreadId, c: ClockId, reading: U64)
    requires PhaseOf(s, t) == Idle && c in s.words
    ensures var s' := Apply(Apply(Apply(s, Begin(t, c, LocalTick, reading)), Load(t)), Swap(t));
            var next := TickNext(Unpack(s.words[c]), reading % PHYSICAL_SPAN);
            && s'.words == s.words[c := Pack(next)] && PhaseOf(s', t) == Idle
            && s'.history == s.history + [Event(Ticked(c, s.words[c], reading % PHYSICAL_SPAN), next)]
  {
  }

  /** A stamp that arrives, and is then observed with nothing in between, is one observation of it. */
  lemma {:induction false} ObservationIsItsSteps(s: State, t: ThreadId, c: ClockId, remote: Hlc, reading: U64)
    requires PhaseOf(s, t) == Idle && c in s.words
    ensures var k := |s.history|;
            var s' := Apply(Apply(Apply(Apply(s, Arrive(remote)), Begin(t, c, Observe(k), reading)), Load(t)), Swap(t));
            var next := ObserveNext(Unpack(s.words[c]), remote, reading % PHYSICAL_SPAN);
            && s'.words == s.words[c := Pack(next)] && PhaseOf(s', t) == Idle
            && s'.history == s.history + [Event(Foreign, remote)]
                             + [Event(Observed(c, s.words[c], reading % PHYSICAL_SPAN, k), next)]
  {
    var s1 := Apply(s, Arrive(remote));
    var s2 := Apply(s1, Begin(t, c, Observe(|s.history|), reading));
    assert PhaseOf(s2, t) == Sampled(c, Observe(|s.history|), reading % PHYSICAL_SPAN);
    assert s2.history == s.history + [Event(Foreign, remote)] && s2.history[|s.history|].stamp == remote;
  }

  /** A call whose swap failed goes round the loop: left alone, its next load and swap complete it,
      with the reading it took at first and over the word that made it fail. */
  lemma {:induction false} FailedSwapRetries(s: State, t: ThreadId)
    requires var p := PhaseOf(s, t);
             && p.Loaded? && p.clock in s.words && s.words[p.clock] != p.raw
             && (p.call.Observe? ==> p.call.source < |s.history|)
    ensures var p := PhaseOf(s, t);
            var s' := Apply(Apply(Apply(s, Swap(t)), Load(t)), Swap(t));
            && PhaseOf(s', t) == Idle && |s'.history| == |s.history| + 1 && s.history <= s'.history
            && s'.history[|s.history|].cause ==
                 (match p.call
                  case LocalTick => Ticked(p.clock, s.words[p.clock], p.now)
                  case Observe(k) => Observed(p.clock, s.words[p.clock], p.now, k))
  {
  }

  lemma {:induction false} HeldStampIsBelow(s: State, s': State, c: ClockId)
    requires Inv(s) && Inv(s') && c in s.words && c in s'.words && s.history <= s'.history
    ensures s.words[c] <= s'.words[c]
  {
    var i: nat :| i < |s.history| && OnClock(s.history[i], c) && s.history[i].stamp == Unpack(s.words[c]);
    assert s'.history[i] == s.history[i];
    UnpackEmbedsOrder(s.words[c], s'.words[c]);
  }

  /** No interleaving ever lowers a clock's word, saturated or not. */
  lemma {:induction false} WordsNeverFall(steps: seq<Step>, step: Step, c: ClockId)
    requires ForeignInRange(Run(steps + [step]).history)
    requires c in Run(steps).words
    ensures c in Run(steps + [step]).words
    ensures Run(steps).words[c] <= Run(steps + [step]).words[c]
  {
    var all := steps + [step];
    assert all[..|all| - 1] == steps;
    var s, s' := Run(steps), Run(all);
    assert s' == Apply(s, step);
    HistoryGrows(s, step);
    RunKeepsInv(all);
    RunKeepsInv(steps);
    HeldStampIsBelow(s, s', c);
  }

  // ------------------------------------------------------- physical bound

  /** The physical time an event brings in by itself. */
  function Reading(e: Event): U64 {
    match e.cause
    case Seeded(_) => e.stamp.physical
    case Foreign => e.stamp.physical
    case Ticked(_, _, now) => now
    case Observed(_, _, now, _) => now
  }

  ghost predicate InPast(h: seq<Event>, i: nat, j: nat)
    requires i < |h| && j < |h|
  {
    i == j || HappensBefore(h, i, j)
  }

  lemma EdgeCarriesPhysical(h: seq<Event>, i: nat, j: nat)
    requires Consistent(h) && i < |h| && j < |h| && Edge(h, i, j)
    ensures h[i].stamp.physical <= h[j].stamp.physical
  {
    assert FollowsRule(h, j);
    assert h[..j][i] == h[i];
  }

  lemma {:induction false} PastReadingsAreBelow(h: seq<Event>, i: nat, j: nat)
    requires Consistent(h)
    requires i < |h| && j < |h| && InPast(h, i, j)
    ensures Reading(h[i]) <= h[j].stamp.physical
    decreases j
  {
    assert FollowsRule(h, i);
    if i != j {
      if Edge(h, i, j) {
        EdgeCarriesPhysical(h, i, j);
      } else {
        var k: nat :| k < j && HappensBefore(h, i, k) && Edge(h, k, j);
        PastReadingsAreBelow(h, i, k);
        EdgeCarriesPhysical(h, k, j);
      }
    }
  }

  lemma {:induction false} SomePastReadingIsReached(h: seq<Event>, j: nat) returns (i: nat)
    requires Consistent(h) && j < |h|
    ensures i < |h| && InPast(h, i, j) && Reading(h[i]) == h[j].stamp.physical
    decreases j
  {
    assert FollowsRule(h, j);
    i := j;
    if Reading(h[j]) != h[j].stamp.physical {
      var raw := h[j].cause.raw;
      assert Holds(h[..j], h[j].cause.clock, raw);
      var p: nat :| p < |h[..j]| && OnClock(h[..j][p], h[j].cause.clock) && h[..j][p].stamp == Unpack(raw);
      assert h[..j][p] == h[p] && Edge(h, p, j);
      var k := if h[p].stamp.physical == h[j].stamp.physical then p else h[j].cause.source;
      assert Edge(h, k, j);
      i := SomePastReadingIsReached(h, k);
      assert HappensBefore(h, i, j);
    }
  }

  /** The physical part of every stamp is the largest seed, arrival or wall-clock reading
      in its causal past: no clock ever runs ahead of what fed it. */
  lemma PhysicalIsLargestReading(steps: seq<Step>, j: nat)
    requires ForeignInRange(Run(steps).history) && j < |Run(steps).history|
    ensures var h := Run(steps).history;
            && (forall i: nat :: i < |h| && InPast(h, i, j) ==> Reading(h[i]) <= h[j].stamp.physical)
            && (exists i: nat :: i < |h| && InPast(h, i, j) && Reading(h[i]) == h[j].stamp.physical)
  {
    RunKeepsInv(steps);
    var h := Run(steps).history;
    forall i: nat | i < |h| && InPast(h, i, j) ensures Reading(h[i]) <= h[j].stamp.physical {
      PastReadingsAreBelow(h, i, j);
    }
    var k := SomePastReadingIsReached(h, j);
  }
}
