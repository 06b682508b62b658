/** Laws of replicated ingest: convergence, what an exchange achieves, and the clock afterwards. */
module IngestLaws {
  import opened Common
  import opened HybridClock
  import opened Ingest
  import Causality

  /** Some valid event of the batch has this id. */
  predicate Carries(batch: seq<IngestEvent>, r: Rules, id: string) {
    exists i :: 0 <= i < |batch| && Valid(batch[i], r) && batch[i].event.id == id
  }

  lemma CarriesLast(batch: seq<IngestEvent>, r: Rules, id: string)
    requires batch != []
    ensures var last := batch[|batch| - 1];
            Carries(batch, r, id) <==> Carries(batch[..|batch| - 1], r, id) || (Valid(last, r) && last.event.id == id)
  {
    var earlier := batch[..|batch| - 1];
    if Carries(earlier, r, id) {
      var i :| 0 <= i < |earlier| && Valid(earlier[i], r) && earlier[i].event.id == id;
      assert batch[i] == earlier[i];
    }
    if Carries(batch, r, id) {
      var i :| 0 <= i < |batch| && Valid(batch[i], r) && batch[i].event.id == id;
      if i < |earlier| { assert earlier[i] == batch[i]; }
    }
  }

  /** Ids afterwards: those before, and those of the valid events. No row is ever changed. */
  lemma {:induction false} IdsAfter(rows: Rows, batch: seq<IngestEvent>, r: Rules, id: string)
    ensures id in RowsAfter(rows, batch, r) <==> id in rows || Carries(batch, r, id)
    ensures id in rows ==> RowsAfter(rows, batch, r)[id] == rows[id]
  {
    if batch != [] {
      IdsAfter(rows, batch[..|batch| - 1], r, id);
      CarriesLast(batch, r, id);
    }
  }

  lemma {:induction false} BatchesConcatenate(rows: Rows, a: seq<IngestEvent>, b: seq<IngestEvent>, r: Rules)
    ensures RowsAfter(rows, a + b, r) == RowsAfter(RowsAfter(rows, a, r), b, r)
  {
    if b == [] {
      assert a + b == a;
    } else {
      assert (a + b)[..|a + b| - 1] == a + b[..|b| - 1];
      BatchesConcatenate(rows, a, b[..|b| - 1], r);
    }
  }

  // ------------------------------------------------------- whole histories

  /** Batches ingested one after another. */
  function RowsAfterAll(rows: Rows, batches: seq<seq<IngestEvent>>, r: Rules): Rows
    decreases |batches|
  {
    if batches == [] then rows
    else RowsAfterAll(RowsAfter(rows, batches[0], r), batches[1..], r)
  }

  function Joined(batches: seq<seq<IngestEvent>>): seq<IngestEvent> {
    if batches == [] then [] else batches[0] + Joined(batches[1..])
  }

  /** How a history is cut into batches does not matter, down to the rows. */
  lemma {:induction false} SplittingDoesNotMatter(rows: Rows, batches: seq<seq<IngestEvent>>, r: Rules)
    ensures RowsAfterAll(rows, batches, r) == RowsAfter(rows, Joined(batches), r)
    decreases |batches|
  {
    if batches != [] {
      SplittingDoesNotMatter(RowsAfter(rows, batches[0], r), batches[1..], r);
      BatchesConcatenate(rows, batches[0], Joined(batches[1..]), r);
    }
  }

  predicate SameValidEvents(a: seq<IngestEvent>, b: seq<IngestEvent>, r: Rules) {
    (forall ie | ie in a && Valid(ie, r) :: ie in b) && (forall ie | ie in b && Valid(ie, r) :: ie in a)
  }

  lemma CarriesOnlyDependsOnValid(a: seq<IngestEvent>, b: seq<IngestEvent>, r: Rules, id: string)
    requires SameValidEvents(a, b, r)
    ensures Carries(a, r, id) == Carries(b, r, id)
  {
    if Carries(a, r, id) {
      var i :| 0 <= i < |a| && Valid(a[i], r) && a[i].event.id == id;
      assert a[i] in b;
    }
    if Carries(b, r, id) {
      var i :| 0 <= i < |b| && Valid(b[i], r) && b[i].event.id == id;
      assert b[i] in a;
    }
  }

  /** The ids depend only on the set of valid events: not on their order, on how they are cut into
      batches, or on how often each is sent. */
  lemma ReplicasConverge(rows: Rows, other: Rows, r: Rules,
                         mine: seq<seq<IngestEvent>>, theirs: seq<seq<IngestEvent>>)
    requires rows.Keys == other.Keys
    requires SameValidEvents(Joined(mine), Joined(theirs), r)
    ensures RowsAfterAll(rows, mine, r).Keys == RowsAfterAll(other, theirs, r).Keys
  {
    SplittingDoesNotMatter(rows, mine, r);
    SplittingDoesNotMatter(other, theirs, r);
    forall id ensures id in RowsAfterAll(rows, mine, r) <==> id in RowsAfterAll(other, theirs, r) {
      IdsAfter(rows, Joined(mine), r, id);
      IdsAfter(other, Joined(theirs), r, id);
      CarriesOnlyDependsOnValid(Joined(mine), Joined(theirs), r, id);
    }
  }

  // ----------------------------------------------------------- row contents

  /** The row that a store may come to hold under an id: the one it has, or else that of some valid
      event of the batch. */
  predicate Possible(rows: Rows, batch: seq<IngestEvent>, r: Rules, id: string, row: Row) {
    if id in rows then row == rows[id]
    else exists ie :: ie in batch && Valid(ie, r) && ie.event.id == id && RowOf(ie) == row
  }

  /** Two stores can only come to hold one and the same row under the id, or both none. */
  ghost predicate Settled(rows: Rows, other: Rows, batch: seq<IngestEvent>, r: Rules, id: string) {
    && (id in rows || Carries(batch, r, id) <==> id in other || Carries(batch, r, id))
    && (forall x, y :: Possible(rows, batch, r, id, x) && Possible(other, batch, r, id, y) ==> x == y)
  }

  lemma {:induction false} NewRowsComeFromTheBatch(rows: Rows, batch: seq<IngestEvent>, r: Rules, id: string)
    requires id in RowsAfter(rows, batch, r) && id !in rows
    ensures exists ie :: ie in batch && Valid(ie, r) && ie.event.id == id && RowsAfter(rows, batch, r)[id] == RowOf(ie)
  {
    var earlier := batch[..|batch| - 1];
    var last := batch[|batch| - 1];
    if id in RowsAfter(rows, earlier, r) {
      NewRowsComeFromTheBatch(rows, earlier, r, id);
      var ie :| ie in earlier && Valid(ie, r) && ie.event.id == id && RowsAfter(rows, earlier, r)[id] == RowOf(ie);
      assert ie in batch;
    } else {
      assert last in batch && Valid(last, r);
    }
  }

  /** The row names its device, its workspace is known, and its id is the hash of its own content. */
  predicate Genuine(ie: IngestEvent, r: Rules) {
    && ie.device != "" && ie.event.workspace in r.workspaces
    && ie.event.id == "evt_" + r.sha(Preimage(ie.payload, ie.hlc, ie.event.actor))
  }

  /** A new row is a genuine entry of the batch, stored under its own id with its device and stamp. */
  lemma {:induction false} NewRowsAreGenuine(rows: Rows, batch: seq<IngestEvent>, r: Rules, id: string)
    requires id in RowsAfter(rows, batch, r) && id !in rows
    ensures exists ie :: ie in batch && Genuine(ie, r) && id == ie.event.id
                         && RowsAfter(rows, batch, r)[id] == Row(ie.event, ie.device, ie.hlc)
  {
    NewRowsComeFromTheBatch(rows, batch, r, id);
    var ie :| ie in batch && Valid(ie, r) && ie.event.id == id && RowsAfter(rows, batch, r)[id] == RowOf(ie);
    assert Genuine(ie, r);
  }

  /** An id is stored afterwards exactly when it was before or some genuine entry brings it. */
  lemma {:induction false} StoredExactlyWhen(rows: Rows, batch: seq<IngestEvent>, r: Rules, id: string)
    ensures id in RowsAfter(rows, batch, r) <==> id in rows || exists ie :: ie in batch && Genuine(ie, r) && ie.event.id == id
  {
    IdsAfter(rows, batch, r, id);
    if id in RowsAfter(rows, batch, r) && id !in rows { NewRowsAreGenuine(rows, batch, r, id); }
    if ie :| ie in batch && Genuine(ie, r) && ie.event.id == id {
      var i :| 0 <= i < |batch| && batch[i] == ie;
      assert Valid(batch[i], r);
    }
  }

  lemma {:induction false} StoredIsPossible(rows: Rows, batch: seq<IngestEvent>, r: Rules, id: string)
    requires id in RowsAfter(rows, batch, r)
    ensures Possible(rows, batch, r, id, RowsAfter(rows, batch, r)[id])
  {
    IdsAfter(rows, batch, r, id);
    if id !in rows { NewRowsComeFromTheBatch(rows, batch, r, id); }
  }

  lemma {:induction false} PossibleOnlyDependsOnValid(rows: Rows, a: seq<IngestEvent>, b: seq<IngestEvent>, r: Rules,
                                                     id: string, row: Row)
    requires SameValidEvents(a, b, r) && Possible(rows, a, r, id, row)
    ensures Possible(rows, b, r, id, row)
  {
  }

  /** When every id is settled, the rows themselves converge: for any order, cut and repetition of
      the events on either side. */
  lemma {:induction false} RowsConverge(rows: Rows, other: Rows, r: Rules, a: seq<IngestEvent>, b: seq<IngestEvent>)
    requires SameValidEvents(a, b, r) && forall id :: Settled(rows, other, a, r, id)
    ensures RowsAfter(rows, a, r) == RowsAfter(other, b, r)
  {
    var x, y := RowsAfter(rows, a, r), RowsAfter(other, b, r);
    forall id ensures (id in x <==> id in y) && (id in x ==> x[id] == y[id]) {
      IdsAfter(rows, a, r, id);
      IdsAfter(other, b, r, id);
      CarriesOnlyDependsOnValid(a, b, r, id);
      assert Settled(rows, other, a, r, id);
      if id in x {
        StoredIsPossible(rows, a, r, id);
        StoredIsPossible(other, b, r, id);
        PossibleOnlyDependsOnValid(other, b, a, r, id, y[id]);
      }
    }
  }

  predicate Rearranges(a: seq<IngestEvent>, b: seq<IngestEvent>) {
    multiset(a) == multiset(b)
  }

  lemma RearrangingKeepsEvents(a: seq<IngestEvent>, b: seq<IngestEvent>, r: Rules)
    requires Rearranges(a, b)
    ensures SameValidEvents(a, b, r)
  {
    forall ie | ie in a ensures ie in b { assert ie in multiset(a) && ie in multiset(b); }
    forall ie | ie in b ensures ie in a { assert ie in multiset(b) && ie in multiset(a); }
  }

  /** Whatever a store may come to hold, some order of the batch makes it hold. */
  lemma {:induction false} PossibleIsReached(rows: Rows, batch: seq<IngestEvent>, r: Rules, id: string, row: Row)
    returns (a: seq<IngestEvent>)
    requires Possible(rows, batch, r, id, row)
    ensures Rearranges(a, batch) && id in RowsAfter(rows, a, r) && RowsAfter(rows, a, r)[id] == row
  {
    a := batch;
    if id in rows {
      IdsAfter(rows, a, r, id);
    } else {
      var i :| 0 <= i < |batch| && Valid(batch[i], r) && batch[i].event.id == id && RowOf(batch[i]) == row;
      var rest := batch[..i] + batch[i + 1..];
      a := [batch[i]] + rest;
      assert batch == batch[..i] + [batch[i]] + batch[i + 1..];
      BatchesConcatenate(rows, [batch[i]], rest, r);
      assert [batch[i]][..0] == [];
      IdsAfter(RowsAfter(rows, [batch[i]], r), rest, r, id);
    }
  }

  lemma {:induction false} SettledAnyway(rows: Rows, other: Rows, batch: seq<IngestEvent>, a: seq<IngestEvent>, r: Rules)
    requires Rearranges(a, batch) && forall id :: Settled(rows, other, batch, r, id)
    ensures forall id :: Settled(rows, other, a, r, id)
  {
    RearrangingKeepsEvents(a, batch, r);
    forall id ensures Settled(rows, other, a, r, id) {
      assert Settled(rows, other, batch, r, id);
      CarriesOnlyDependsOnValid(a, batch, r, id);
      forall x | Possible(rows, a, r, id, x) ensures Possible(rows, batch, r, id, x) {
        PossibleOnlyDependsOnValid(rows, a, batch, r, id, x);
      }
      forall y | Possible(other, a, r, id, y) ensures Possible(other, batch, r, id, y) {
        PossibleOnlyDependsOnValid(other, a, batch, r, id, y);
      }
    }
  }

  /** In whatever orders the two stores receive the events, they end with the same rows. */
  ghost predicate AlwaysConverge(rows: Rows, other: Rows, r: Rules, batch: seq<IngestEvent>) {
    forall a, b :: Rearranges(a, batch) && Rearranges(b, batch) ==> RowsAfter(rows, a, r) == RowsAfter(other, b, r)
  }

  lemma {:induction false} SettledConverges(rows: Rows, other: Rows, r: Rules, batch: seq<IngestEvent>)
    requires forall id :: Settled(rows, other, batch, r, id)
    ensures AlwaysConverge(rows, other, r, batch)
  {
    forall a, b | Rearranges(a, batch) && Rearranges(b, batch)
      ensures RowsAfter(rows, a, r) == RowsAfter(other, b, r)
    {
      SettledAnyway(rows, other, batch, a, r);
      RearrangingKeepsEvents(a, b, r);
      RowsConverge(rows, other, r, a, b);
    }
  }

  lemma {:induction false} ConvergingSettles(rows: Rows, other: Rows, r: Rules, batch: seq<IngestEvent>, id: string)
    requires AlwaysConverge(rows, other, r, batch)
    ensures Settled(rows, other, batch, r, id)
  {
    assert Rearranges(batch, batch);
    IdsAfter(rows, batch, r, id);
    IdsAfter(other, batch, r, id);
    forall x, y | Possible(rows, batch, r, id, x) && Possible(other, batch, r, id, y) ensures x == y {
      var a := PossibleIsReached(rows, batch, r, id, x);
      var b := PossibleIsReached(other, batch, r, id, y);
      assert RowsAfter(rows, a, r) == RowsAfter(other, b, r);
    }
  }

  /** Two stores end with the same rows in whatever orders each receives the events exactly when
      every id is settled: no two valid events bring different rows for an id that is new, and no
      event or stored row differs from one that the other side has. */
  lemma {:induction false} RowsConvergeExactlyWhen(rows: Rows, other: Rows, r: Rules, batch: seq<IngestEvent>)
    ensures AlwaysConverge(rows, other, r, batch) <==> forall id :: Settled(rows, other, batch, r, id)
  {
    if AlwaysConverge(rows, other, r, batch) {
      forall id ensures Settled(rows, other, batch, r, id) { ConvergingSettles(rows, other, r, batch, id); }
    } else if forall id :: Settled(rows, other, batch, r, id) {
      SettledConverges(rows, other, r, batch);
    }
  }

  lemma RowsAfterPair(rows: Rows, r: Rules, x: IngestEvent, y: IngestEvent)
    ensures RowsAfter(rows, [x, y], r) == Insert(Insert(rows, x, r), y, r)
  {
    assert [x][..0] == [];
    assert RowsAfter(rows, [x], r) == Insert(rows, x, r);
    assert [x, y][..1] == [x];
  }

  /** Two events commute exactly when they do not both bring a different row for one new id. */
  lemma OrderMattersExactlyWhen(rows: Rows, r: Rules, x: IngestEvent, y: IngestEvent)
    ensures RowsAfter(rows, [x, y], r) == RowsAfter(rows, [y, x], r) <==>
              (Valid(x, r) && Valid(y, r) && x.event.id == y.event.id && x.event.id !in rows ==> RowOf(x) == RowOf(y))
  {
    RowsAfterPair(rows, r, x, y);
    RowsAfterPair(rows, r, y, x);
    var id := x.event.id;
    if Valid(x, r) && Valid(y, r) && id == y.event.id && id !in rows {
      assert Insert(Insert(rows, x, r), y, r)[id] == RowOf(x);
      assert Insert(Insert(rows, y, r), x, r)[id] == RowOf(y);
    }
  }

  // --------------------------------------------------------------- counters

  lemma {:induction false} EveryRowIsCounted(rows: Rows, batch: seq<IngestEvent>, r: Rules)
    ensures NewCount(rows, batch, r) + RepeatCount(rows, batch, r) + |Rejects(batch, r)| == |batch|
    ensures |RowsAfter(rows, batch, r)| == |rows| + NewCount(rows, batch, r)
  {
    if batch != [] {
      EveryRowIsCounted(rows, batch[..|batch| - 1], r);
      var last := batch[|batch| - 1];
      var before := RowsAfter(rows, batch[..|batch| - 1], r);
      if Valid(last, r) && last.event.id !in before {
        assert before[last.event.id := RowOf(last)].Keys == before.Keys + {last.event.id};
      }
    }
  }

  /** The three parts of a report add up to the batch exactly while neither counter overflows. */
  lemma ReportAddsUp(rows: Rows, batch: seq<IngestEvent>, r: Rules)
    ensures var news, repeats := NewCount(rows, batch, r), RepeatCount(rows, batch, r);
            Saturated(news) + Saturated(repeats) + |Rejects(batch, r)| == |batch|
            <==> news <= COUNTER_MAX && repeats <= COUNTER_MAX
    ensures |batch| <= COUNTER_MAX ==>
              Saturated(NewCount(rows, batch, r)) + Saturated(RepeatCount(rows, batch, r)) + |Rejects(batch, r)| == |batch|
  {
    EveryRowIsCounted(rows, batch, r);
  }

  /** Some reject has this position. */
  predicate Names(rejects: seq<Reject>, i: nat) {
    exists x :: x in rejects && x.index == i
  }

  /** The rejects name exactly the invalid positions, each with its id and reason. */
  lemma {:induction false} RejectsAreTheInvalid(batch: seq<IngestEvent>, r: Rules, i: nat)
    ensures Names(Rejects(batch, r), i) <==> i < |batch| && !Valid(batch[i], r)
    ensures i < |batch| && !Valid(batch[i], r) ==>
              Reject(i, batch[i].event.id, Refusal(batch[i], r).value) in Rejects(batch, r)
  {
    if batch != [] {
      var earlier, last := batch[..|batch| - 1], batch[|batch| - 1];
      RejectsAreTheInvalid(earlier, r, i);
      var before, all := Rejects(earlier, r), Rejects(batch, r);
      if Valid(last, r) {
        assert all == before;
      } else {
        var x := Reject(|earlier|, last.event.id, Refusal(last, r).value);
        assert all == before + [x];
        assert forall y :: y in all <==> y in before || y == x;
      }
      if i < |earlier| { assert earlier[i] == batch[i]; }
    }
  }

  /** The first check that fails is the reason: a missing device, then an id that is not the hash of
      the content, then an unknown workspace. */
  ghost predicate FailsFirst(ie: IngestEvent, r: Rules, reason: string) {
    var hashed := ie.event.id == "evt_" + r.sha(Preimage(ie.payload, ie.hlc, ie.event.actor));
    || (reason == "missing_fields" && ie.device == "")
    || (reason == "hash_mismatch" && ie.device != "" && !hashed)
    || (reason == "workspace_unknown" && ie.device != "" && hashed && ie.event.workspace !in r.workspaces)
  }

  /** A position is rejected, with its id and a reason, exactly when that reason is its first failure. */
  lemma {:induction false} ReasonsAreExact(batch: seq<IngestEvent>, r: Rules, x: Reject)
    ensures x in Rejects(batch, r) <==>
              x.index < |batch| && x.id == batch[x.index].event.id && FailsFirst(batch[x.index], r, x.reason)
  {
    if batch != [] {
      var earlier, last := batch[..|batch| - 1], batch[|batch| - 1];
      ReasonsAreExact(earlier, r, x);
      var refusal := Refusal(last, r);
      var before, all := Rejects(earlier, r), Rejects(batch, r);
      if refusal.Some? {
        var y := Reject(|earlier|, last.event.id, refusal.value);
        assert all == before + [y];
        assert x in all <==> x in before || x == y;
      } else {
        assert all == before;
      }
      if x.index < |earlier| { assert earlier[x.index] == batch[x.index]; }
    }
  }

  // ------------------------------------------------------------------ clock

  lemma {:induction false} TopIsLargest(batch: seq<IngestEvent>, r: Rules)
    ensures Top(batch, r).Some? <==> exists ie :: ie in batch && Valid(ie, r)
    ensures forall ie | ie in batch && Valid(ie, r) :: AtMost(ie.hlc, Top(batch, r).value)
    ensures Top(batch, r).Some? ==> exists ie :: ie in batch && Valid(ie, r) && ie.hlc == Top(batch, r).value
  {
    if batch != [] {
      var earlier, last := batch[..|batch| - 1], batch[|batch| - 1];
      TopIsLargest(earlier, r);
      assert forall ie :: ie in batch <==> ie in earlier || ie == last;
    }
  }

  /** A tick of a word that has taken in an observation of the batch's top exceeds every stamp that
      passed validation exactly when it has room or the word is already above all of them. */
  lemma TickExceedsIngested(batch: seq<IngestEvent>, r: Rules, before: U64, reading: U64, word: U64, now: U64)
    requires Top(batch, r).Some? && Top(batch, r).value.physical < PHYSICAL_SPAN
    requires reading < PHYSICAL_SPAN && now < PHYSICAL_SPAN
    requires Pack(ObserveNext(Unpack(before), Top(batch, r).value, reading)) <= word
    ensures (forall ie | ie in batch && Valid(ie, r) :: Less(ie.hlc, TickNext(Unpack(word), now)))
            <==> !TickSaturates(Unpack(word), now) || Less(Top(batch, r).value, Unpack(word))
  {
    var top := Top(batch, r).value;
    var next := ObserveNext(Unpack(before), top, reading);
    var tick := TickNext(Unpack(word), now);
    PackUndoesUnpack(before);
    PackUndoesUnpack(word);
    ObserveRises(Unpack(before), top, reading);
    UnpackUndoesPack(next);
    UnpackEmbedsOrder(Pack(next), word);
    TickRises(Unpack(word), now);
    TopIsLargest(batch, r);
  }

  /** In every interleaving of threads and clocks: once a clock has observed a batch's top, each
      later tick of that clock, whoever makes it, exceeds the stamp of every event that passed
      validation, new or repeated, exactly when it has room or the word it replaced was already
      above them all. */
  lemma TicksExceedIngested(steps: seq<Causality.Step>, batch: seq<IngestEvent>, r: Rules, j: nat, m: nat)
    requires Causality.ForeignInRange(Causality.Run(steps).history)
    requires j < m < |Causality.Run(steps).history|
    requires var h := Causality.Run(steps).history;
             && h[j].cause.Observed? && h[m].cause.Ticked? && h[j].cause.clock == h[m].cause.clock
             && h[j].cause.source < |h| && Top(batch, r) == Some(h[h[j].cause.source].stamp)
    ensures var e := Causality.Run(steps).history[m];
            (forall ie | ie in batch && Valid(ie, r) :: Less(ie.hlc, e.stamp))
            <==> !TickSaturates(Unpack(e.cause.raw), e.cause.now) || Less(Top(batch, r).value, Unpack(e.cause.raw))
  {
    Causality.RunKeepsInv(steps);
    var h := Causality.Run(steps).history;
    var seen, tick := h[j].cause, h[m].cause;
    assert Causality.FollowsRule(h, j) && Causality.FollowsRule(h, m);
    assert Causality.Holds(h[..m], tick.clock, tick.raw);
    assert h[..m][j] == h[j] && Causality.OnClock(h[..m][j], tick.clock);
    PackUndoesUnpack(tick.raw);
    UnpackUndoesPack(h[j].stamp);
    PackUndoesUnpack(seen.raw);
    ObserveRises(Unpack(seen.raw), h[seen.source].stamp, seen.now);
    PackEmbedsOrder(h[j].stamp, Unpack(tick.raw));
    TickExceedsIngested(batch, r, seen.raw, seen.now, tick.raw, tick.now);
  }

  // --------------------------------------------------------------- exchange

  predicate HasId(events: seq<Event>, id: string) {
    exists i :: 0 <= i < |events| && events[i].id == id
  }

  /** The ids in `a` that are not in `b`, in the order of `a`. */
  function MissingIn(a: seq<Event>, b: seq<Event>): seq<string> {
    if a == [] then []
    else if HasId(b, a[0].id) then MissingIn(a[1..], b)
    else [a[0].id] + MissingIn(a[1..], b)
  }

  lemma {:induction false} MissingIsTheDifference(a: seq<Event>, b: seq<Event>, id: string)
    ensures id in MissingIn(a, b) <==> HasId(a, id) && !HasId(b, id)
  {
    if a != [] {
      MissingIsTheDifference(a[1..], b, id);
      if HasId(a[1..], id) {
        var i :| 0 <= i < |a[1..]| && a[1..][i].id == id;
        assert a[i + 1].id == id;
      }
      if HasId(a, id) {
        var i :| 0 <= i < |a| && a[i].id == id;
        if i > 0 { assert a[1..][i - 1].id == id; }
      }
    }
  }

  /** The ids of a snapshot, in its order. */
  function Ids(events: seq<Event>): (r: seq<string>)
    ensures |r| == |events| && forall i :: 0 <= i < |r| ==> r[i] == events[i].id
  {
    if events == [] then [] else [events[0].id] + Ids(events[1..])
  }

  /** Nothing is moved or repeated: cutting the snapshot anywhere cuts the result. */
  lemma {:induction false} MissingFollowsTheSnapshot(a: seq<Event>, more: seq<Event>, b: seq<Event>)
    ensures MissingIn(a + more, b) == MissingIn(a, b) + MissingIn(more, b)
    ensures (forall e :: e in a ==> !HasId(b, e.id)) ==> MissingIn(a, b) == Ids(a)
  {
    if a == [] {
      assert a + more == more;
    } else {
      assert (a + more)[1..] == a[1..] + more;
      assert a[0] in a && forall e :: e in a[1..] ==> e in a;
      MissingFollowsTheSnapshot(a[1..], more, b);
    }
  }

  /** Rows are stored under their event's id. */
  predicate Keyed(rows: Rows) {
    forall id | id in rows :: rows[id].event.id == id
  }

  lemma {:induction false} IngestKeepsKeyed(rows: Rows, batch: seq<IngestEvent>, r: Rules)
    requires Keyed(rows)
    ensures Keyed(RowsAfter(rows, batch, r))
  {
    if batch != [] { IngestKeepsKeyed(rows, batch[..|batch| - 1], r); }
  }

  /** A snapshot lists a store's rows, in any order. */
  predicate IsSnapshot(s: seq<Row>, rows: Rows) {
    (forall row | row in s :: row.event.id in rows && rows[row.event.id] == row) &&
    (forall id | id in rows :: rows[id] in s)
  }

  function Events(s: seq<Row>): (es: seq<Event>)
    ensures |es| == |s| && forall i :: 0 <= i < |s| ==> es[i] == s[i].event
  {
    if s == [] then [] else [s[0].event] + Events(s[1..])
  }

  /** A stored row as it is sent: the payload column is what the id was derived from. */
  function Envelope(row: Row): IngestEvent {
    IngestEvent(row.event, row.hlc, row.device, row.event.payload)
  }

  /** The rows of a snapshot with the wanted ids, ready to send. */
  function Envelopes(s: seq<Row>, wanted: seq<string>): seq<IngestEvent> {
    if s == [] then []
    else if s[0].event.id in wanted then [Envelope(s[0])] + Envelopes(s[1..], wanted)
    else Envelopes(s[1..], wanted)
  }

  lemma {:induction false} EnvelopesAreTheWanted(s: seq<Row>, wanted: seq<string>, ie: IngestEvent)
    ensures ie in Envelopes(s, wanted) <==> exists row :: row in s && row.event.id in wanted && ie == Envelope(row)
  {
    if s != [] {
      EnvelopesAreTheWanted(s[1..], wanted, ie);
      assert forall row :: row in s <==> row == s[0] || row in s[1..];
    }
  }

  /** What one side is sent: everything the other has and it lacks. */
  function Sent(from: seq<Row>, to: seq<Row>): seq<IngestEvent> {
    Envelopes(from, MissingIn(Events(from), Events(to)))
  }

  lemma SnapshotIds(s: seq<Row>, rows: Rows, id: string)
    requires IsSnapshot(s, rows) && Keyed(rows)
    ensures HasId(Events(s), id) <==> id in rows
  {
    if id in rows {
      var k :| 0 <= k < |s| && s[k] == rows[id];
      assert Events(s)[k].id == id;
    }
    if HasId(Events(s), id) {
      var i :| 0 <= i < |Events(s)| && Events(s)[i].id == id;
      assert s[i] in s;
    }
  }

  /** What a store lacks and would accept. */
  predicate Accepts(from: Rows, to: Rows, r: Rules, id: string) {
    id in from && id !in to && Valid(Envelope(from[id]), r)
  }

  lemma SentCarries(from: Rows, to: Rows, sf: seq<Row>, st: seq<Row>, r: Rules, id: string)
    requires Keyed(from) && Keyed(to) && IsSnapshot(sf, from) && IsSnapshot(st, to)
    ensures Carries(Sent(sf, st), r, id) <==> Accepts(from, to, r, id)
  {
    var wanted := MissingIn(Events(sf), Events(st));
    var batch := Sent(sf, st);
    MissingIsTheDifference(Events(sf), Events(st), id);
    SnapshotIds(sf, from, id);
    SnapshotIds(st, to, id);
    if Carries(batch, r, id) {
      var i :| 0 <= i < |batch| && Valid(batch[i], r) && batch[i].event.id == id;
      assert batch[i] in batch;
      EnvelopesAreTheWanted(sf, wanted, batch[i]);
      var row :| row in sf && row.event.id in wanted && batch[i] == Envelope(row);
      assert from[id] == row;
    }
    if Accepts(from, to, r, id) {
      var ie := Envelope(from[id]);
      assert from[id] in sf;
      EnvelopesAreTheWanted(sf, wanted, ie);
      var i :| 0 <= i < |batch| && batch[i] == ie;
    }
  }

  /** Every row one side has and the other lacks passes the other's validation. */
  predicate Transferable(from: Rows, to: Rows, r: Rules) {
    forall id | id in from && id !in to :: Valid(Envelope(from[id]), r)
  }

  lemma IdsAfterPull(from: Rows, to: Rows, sf: seq<Row>, st: seq<Row>, r: Rules, id: string)
    requires Keyed(from) && Keyed(to) && IsSnapshot(sf, from) && IsSnapshot(st, to)
    ensures id in RowsAfter(to, Sent(sf, st), r) <==> id in to || Accepts(from, to, r, id)
  {
    SentCarries(from, to, sf, st, r, id);
    IdsAfter(to, Sent(sf, st), r, id);
  }

  /** After one exchange in both directions the two stores hold the same ids exactly when every row
      that the other side lacked passes validation there. */
  lemma ExchangeConverges(a: Rows, b: Rows, sa: seq<Row>, sb: seq<Row>, ra: Rules, rb: Rules)
    requires Keyed(a) && Keyed(b) && IsSnapshot(sa, a) && IsSnapshot(sb, b)
    ensures RowsAfter(a, Sent(sb, sa), ra).Keys == RowsAfter(b, Sent(sa, sb), rb).Keys
            <==> Transferable(a, b, rb) && Transferable(b, a, ra)
  {
    var x, y := RowsAfter(a, Sent(sb, sa), ra), RowsAfter(b, Sent(sa, sb), rb);
    forall id
      ensures id in x <==> id in a || Accepts(b, a, ra, id)
      ensures id in y <==> id in b || Accepts(a, b, rb, id)
    {
      IdsAfterPull(b, a, sb, sa, ra, id);
      IdsAfterPull(a, b, sa, sb, rb, id);
    }
    if Transferable(a, b, rb) && Transferable(b, a, ra) {
      forall id ensures id in x <==> id in y {}
    }
    if x.Keys == y.Keys {
      forall id | id in a && id !in b ensures Valid(Envelope(a[id]), rb) {
        assert id in x.Keys;
        assert id in y.Keys;
      }
      forall id | id in b && id !in a ensures Valid(Envelope(b[id]), ra) {
        assert id in y.Keys;
        assert id in x.Keys;
      }
    }
  }

  lemma {:induction false} NothingMissing(a: seq<Event>, b: seq<Event>)
    ensures MissingIn(a, b) == [] <==> forall id :: HasId(a, id) ==> HasId(b, id)
  {
    if MissingIn(a, b) != [] {
      MissingIsTheDifference(a, b, MissingIn(a, b)[0]);
    } else {
      forall id | HasId(a, id) ensures HasId(b, id) { MissingIsTheDifference(a, b, id); }
    }
  }

  lemma {:induction false} SnapshotsCompare(a: Rows, b: Rows, sa: seq<Row>, sb: seq<Row>)
    requires Keyed(a) && Keyed(b) && IsSnapshot(sa, a) && IsSnapshot(sb, b)
    ensures MissingIn(Events(sa), Events(sb)) == [] <==> a.Keys <= b.Keys
  {
    NothingMissing(Events(sa), Events(sb));
    forall id
      ensures HasId(Events(sa), id) <==> id in a.Keys
      ensures HasId(Events(sb), id) <==> id in b.Keys
    {
      SnapshotIds(sa, a, id);
      SnapshotIds(sb, b, id);
    }
  }

  /** Once the ids agree, the next difference is empty in both directions. */
  lemma {:induction false} ConvergedStoresExchangeNothing(a: Rows, b: Rows, sa: seq<Row>, sb: seq<Row>)
    requires Keyed(a) && Keyed(b) && IsSnapshot(sa, a) && IsSnapshot(sb, b)
    ensures a.Keys == b.Keys <==>
              MissingIn(Events(sa), Events(sb)) == [] && MissingIn(Events(sb), Events(sa)) == []
  {
    SnapshotsCompare(a, b, sa, sb);
    SnapshotsCompare(b, a, sb, sa);
  }
}
