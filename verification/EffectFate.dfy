/** What becomes of an effect of crates/actant-effects/src/lib.rs: what heartbeats and failures do
    to it, when a worker or a reaper that stops strands it, and when reapers may overlap. */
module EffectFate {
  import opened Common
  import opened Effects
  import opened EffectQueue

  lemma {:induction false} RunSplits(s: State, first: seq<Step>, rest: seq<Step>)
    ensures Run(s, first + rest) == Run(Run(s, first), rest)
  {
    if rest == [] {
      assert first + rest == first;
    } else {
      var init, last := rest[..|rest| - 1], rest[|rest| - 1];
      RunSplits(s, first, init);
      assert (first + rest)[..|first + rest| - 1] == first + init;
    }
  }

  // -------------------------------------------------------- overlapping reapers

  ghost predicate LedgerThroughout(steps: seq<Step>) {
    Ledger(Run(INITIAL, steps)) && (steps != [] ==> LedgerThroughout(steps[..|steps| - 1]))
  }

  ghost predicate HarmlessThroughout(steps: seq<Step>) {
    steps != [] ==>
      !Harmful(Run(INITIAL, steps[..|steps| - 1]), steps[|steps| - 1]) && HarmlessThroughout(steps[..|steps| - 1])
  }

  /** With any number of reapers, the books balance throughout a run exactly when no reaper gives
      back an effect that is held, or out of attempts, by then. */
  lemma {:induction false} LedgerHoldsExactlyWhen(steps: seq<Step>)
    ensures LedgerThroughout(steps) <==> HarmlessThroughout(steps)
  {
    if steps != [] {
      var init, last := steps[..|steps| - 1], steps[|steps| - 1];
      LedgerHoldsExactlyWhen(init);
      if LedgerThroughout(init) {
        assert Ledger(Run(INITIAL, init));
        StepKeepsLedgerExactlyWhen(Run(INITIAL, init), last);
      }
    }
  }

  /** The second update of a reaper's loop leaves a pending effect that someone holds exactly when
      the row it read has attempts left and its effect is held by then. */
  lemma {:induction false} ResetBreaksDisciplineExactlyWhen(s: State, r: ReaperId)
    requires Ledger(s) && r in s.reapers && s.reapers[r].released
    ensures var s', row := Apply(s, ResetEffect(r)), s.reapers[r].rows[0];
            (exists id :: id in s'.effects && s'.effects[id].status == Pending && !Unheld(s', id)) <==>
              row.attempts < row.maxAttempts && !Unheld(s, row.effect)
  {
    var s', row := Apply(s, ResetEffect(r)), s.reapers[r].rows[0];
    assert RowsStable(s, s.reapers[r]) && RowStable(s, row, s.reapers[r].now);
    forall id ensures Unheld(s', id) <==> Unheld(s, id) {
      forall c ensures Live(s', c, id) <==> Live(s, c, id) {}
      forall k ensures Holds(s', k, id) <==> Holds(s, k, id) {}
    }
    forall id | id in s.effects && s.effects[id].status == Pending ensures Unheld(s, id) { assert EffectInv(s, id); }
    if row.attempts < row.maxAttempts { assert s'.effects[row.effect].status == Pending; }
  }

  // --------------------------------------------------------------- heartbeats

  predicate Beats(step: Step) {
    step.Register? || step.Heartbeat?
  }

  function WithoutBeats(steps: seq<Step>): seq<Step> {
    if steps == [] then []
    else WithoutBeats(steps[..|steps| - 1]) + if Beats(steps[|steps| - 1]) then [] else [steps[|steps| - 1]]
  }

  lemma {:induction false} SnapshotIgnoresSeen(s: State, seen: map<WorkerId, nat>, now: nat, rows: seq<Row>)
    ensures Snapshot(s.(seen := seen), now, rows) <==> Snapshot(s, now, rows)
  {
    var t := s.(seen := seen);
    forall c ensures Expired(t, now, c) <==> Expired(s, now, c) {}
    forall r ensures RowOf(t, r) <==> RowOf(s, r) {}
  }

  lemma {:induction false} ReapIgnoresSeen(s: State, seen: map<WorkerId, nat>, r: ReaperId, now: nat, rows: seq<Row>)
    ensures Apply(s.(seen := seen), Reap(r, now, rows)) == Apply(s, Reap(r, now, rows)).(seen := seen)
  {
    SnapshotIgnoresSeen(s, seen, now, rows);
  }

  lemma {:induction false} ReaperIgnoresSeen(s: State, seen: map<WorkerId, nat>, step: Step)
    requires step.ReleaseClaim? || step.ResetEffect? || step.StopReaper?
    ensures Apply(s.(seen := seen), step) == Apply(s, step).(seen := seen)
  {
  }

  lemma {:induction false} ClaimIgnoresSeen(s: State, seen: map<WorkerId, nat>, step: Step)
    requires step.Take? || step.Grant?
    ensures Apply(s.(seen := seen), step) == Apply(s, step).(seen := seen)
  {
  }

  /** No other step looks at when a worker was last heard of. */
  lemma {:induction false} StepIgnoresSeen(s: State, seen: map<WorkerId, nat>, step: Step)
    requires !Beats(step)
    ensures Apply(s.(seen := seen), step) == Apply(s, step).(seen := seen)
  {
    if step.Reap? {
      ReapIgnoresSeen(s, seen, step.reaper, step.now, step.rows);
    } else if step.ReleaseClaim? || step.ResetEffect? || step.StopReaper? {
      ReaperIgnoresSeen(s, seen, step);
    } else if step.Take? || step.Grant? {
      ClaimIgnoresSeen(s, seen, step);
    }
  }

  /** A beat changes `seen` alone; any other step does the same to both states. */
  lemma {:induction false} StepAlongside(s: State, t: State, step: Step)
    requires s == t.(seen := s.seen)
    ensures var s', t' := Apply(s, step), if Beats(step) then t else Apply(t, step); s' == t'.(seen := s'.seen)
  {
    if !Beats(step) { StepIgnoresSeen(t, s.seen, step); }
  }

  /** Heartbeats and registrations can be left out of any run, wherever they occur: all that changes
      is when the workers were last heard of. */
  lemma {:induction false} HeartbeatsChangeNothingElse(s: State, steps: seq<Step>)
    ensures Run(s, steps) == Run(s, WithoutBeats(steps)).(seen := Run(s, steps).seen)
  {
    if steps != [] {
      var init, last := steps[..|steps| - 1], steps[|steps| - 1];
      HeartbeatsChangeNothingElse(s, init);
      StepAlongside(Run(s, init), Run(s, WithoutBeats(init)), last);
      RunExtends(s, WithoutBeats(init), last);
      assert WithoutBeats(init) + [] == WithoutBeats(init);
    }
  }

  lemma {:induction false} ReapReleases(s: State, now: nat, rows: seq<Row>, c: ClaimId)
    requires Present(s, rows) && c in s.claims
    ensures c in Reaped(s, now, rows).claims
    ensures (exists r :: r in rows && r.claim == c) ==> Reaped(s, now, rows).claims[c].releasedAt == Some(now)
  {
    if rows != [] {
      var init, last := rows[..|rows| - 1], rows[|rows| - 1];
      assert last in rows && forall r :: r in rows <==> r in init || r == last;
      ReapReleases(s, now, init, c);
    }
  }

  /** An expired claim is reaped however often its worker was heard of: heartbeats do not extend a lease. */
  lemma HeartbeatsDoNotExtendLeases(s: State, beats: seq<Step>, now: nat, rows: seq<Row>, c: ClaimId)
    requires forall step :: step in beats ==> Beats(step)
    requires Expired(s, now, c)
    requires Snapshot(Run(s, beats), now, rows) && Present(Run(s, beats), rows)
    ensures Run(s, beats) == s.(seen := Run(s, beats).seen)
    ensures c in Reaped(Run(s, beats), now, rows).claims
            && Reaped(Run(s, beats), now, rows).claims[c].releasedAt == Some(now)
  {
    HeartbeatsChangeNothingElse(s, beats);
    OnlyBeats(beats);
    assert Expired(Run(s, beats), now, c);
    ReapReleases(Run(s, beats), now, rows, c);
  }

  lemma {:induction false} OnlyBeats(beats: seq<Step>)
    requires forall step :: step in beats ==> Beats(step)
    ensures WithoutBeats(beats) == []
  {
    if beats != [] { OnlyBeats(beats[..|beats| - 1]); }
  }

  // ----------------------------------------------------------------- failures

  /** The status that the comment on `fail` promises: pending again while attempts are left. */
  function PromisedOnFailure(e: Effect): Status {
    if e.attempts < e.maxAttempts then Pending else Failed
  }

  lemma FailKeepsItsPromiseExactlyWhen(s: State, id: EffectId)
    requires id in s.effects
    ensures Apply(s, Fail(id)).effects[id].status == PromisedOnFailure(s.effects[id]) <==>
              s.effects[id].attempts >= s.effects[id].maxAttempts
  {
  }

  /** No reaper has the effect on its list. */
  ghost predicate OffTheLists(s: State, id: EffectId) {
    forall r :: r in s.reapers ==> forall row :: row in s.reapers[r].rows ==> row.effect != id
  }

  lemma {:induction false} StaysOffTheLists(s: State, step: Step, id: EffectId)
    requires OffTheLists(s, id)
    requires Unheld(s, id) || Terminal(s, id)
    ensures OffTheLists(Apply(s, step), id)
  {
    var s' := Apply(s, step);
    forall r | r in s'.reapers ensures forall row :: row in s'.reapers[r].rows ==> row.effect != id {
      if r !in s.reapers {
        forall row | row in s'.reapers[r].rows ensures row.effect != id {
          assert RowOf(s, row) && Expired(s, step.now, row.claim);
          assert !Live(s, row.claim, id) || Terminal(s, id);
        }
      } else {
        assert forall row :: row in s'.reapers[r].rows ==> row in s.reapers[r].rows;
      }
    }
  }

  /** A failed effect is never retried: unless a reaper had already read it or somebody starts it
      unasked, it never becomes pending again, whatever attempts it has left. */
  lemma {:induction false} FailureIsFinal(s: State, steps: seq<Step>, id: EffectId)
    requires id in s.effects && OffTheLists(s, id) && Start(id) !in steps
    ensures Terminal(Run(Apply(s, Fail(id)), steps), id) && OffTheLists(Run(Apply(s, Fail(id)), steps), id)
  {
    if steps != [] {
      var init, last := steps[..|steps| - 1], steps[|steps| - 1];
      FailureIsFinal(s, init, id);
      var t := Run(Apply(s, Fail(id)), init);
      StaysOffTheLists(t, last, id);
      assert last in steps;
      if last.ResetEffect? {
        ResetElsewhere(t, last.reaper, id);
      } else {
        FinishedStaysFinished(t, last, id);
      }
    }
  }

  lemma {:induction false} ResetElsewhere(s: State, r: ReaperId, id: EffectId)
    requires id in s.effects && OffTheLists(s, id)
    ensures id in Apply(s, ResetEffect(r)).effects && Apply(s, ResetEffect(r)).effects[id] == s.effects[id]
  {
    if r in s.reapers && s.reapers[r].rows != [] { assert s.reapers[r].rows[0] in s.reapers[r].rows; }
  }

  // ---------------------------------------------------------- stranded effects

  /** Neither waiting to be claimed nor held by anyone, and no reaper will give it back. */
  ghost predicate Stranded(s: State, id: EffectId) {
    id in s.effects && s.effects[id].status != Pending && Unheld(s, id) && OffTheLists(s, id)
  }

  lemma {:induction false} StatusSettles(s: State, step: Step, id: EffectId)
    requires id in s.effects && s.effects[id].status != Pending && OffTheLists(s, id)
    ensures var s' := Apply(s, step);
            id in s'.effects && s'.effects[id].status != Pending && s'.effects[id].attempts == s.effects[id].attempts
  {
    if step.ResetEffect? { ResetElsewhere(s, step.reaper, id); } else { RunningEffectKept(s, step, id); }
  }

  /** A stranded effect stays stranded: it is never pending again, and never claimed again. */
  lemma {:induction false} StrandedForever(s: State, steps: seq<Step>, id: EffectId)
    requires Stranded(s, id)
    ensures Stranded(Run(s, steps), id) && Run(s, steps).effects[id].attempts == s.effects[id].attempts
  {
    if steps != [] {
      var init, last := steps[..|steps| - 1], steps[|steps| - 1];
      StrandedForever(s, init, id);
      StatusSettles(Run(s, init), last, id);
      StaysUnheld(Run(s, init), last, id);
      StaysOffTheLists(Run(s, init), last, id);
    }
  }

  /** A worker that stops between its update and its insert strands the effect it had won. */
  lemma {:induction false} AbandonStrands(s: State, call: CallId, steps: seq<Step>, id: EffectId)
    requires Inv(s) && Holds(s, call, id)
    ensures Stranded(Run(s, [Abandon(call)] + steps), id)
  {
    var s' := Apply(s, Abandon(call));
    assert id in s.effects && EffectInv(s, id);
    forall c ensures !Live(s', c, id) { assert !Live(s, c, id); }
    forall k ensures !Holds(s', k, id) { if Holds(s', k, id) { assert Holds(s, k, id); } }
    forall r | r in s'.reapers ensures forall row :: row in s'.reapers[r].rows ==> row.effect != id {
      HeldIsNotListed(s, call, id, r);
    }
    assert [Abandon(call)][..0] == [];
    assert Run(s, [Abandon(call)]) == s';
    RunSplits(s, [Abandon(call)], steps);
    StrandedForever(s', steps, id);
  }

  lemma {:induction false} HeldIsNotListed(s: State, call: CallId, id: EffectId, r: ReaperId)
    requires Inv(s) && Holds(s, call, id) && r in s.reapers
    ensures forall row :: row in s.reapers[r].rows ==> row.effect != id
  {
    var p := s.reapers[r];
    assert ReapingInv(s, p) && EffectInv(s, id);
    forall i | 0 <= i < |p.rows| ensures p.rows[i].effect != id {
      if !(i == 0 && p.released) { assert Live(s, p.rows[i].claim, p.rows[i].effect); }
    }
  }

  /** A reaper that stops between its two updates strands the effect whose claim it released. */
  lemma {:induction false} StoppedReaperStrands(s: State, r: ReaperId, steps: seq<Step>)
    requires Inv(s) && OneReaper(s) && r in s.reapers && s.reapers[r].released
    ensures Stranded(Run(s, [StopReaper(r)] + steps), s.reapers[r].rows[0].effect)
  {
    var s', id := Apply(s, StopReaper(r)), s.reapers[r].rows[0].effect;
    assert ReapingInv(s, s.reapers[r]) && RowInv(s, s.reapers[r].rows[0]);
    forall c ensures !Live(s', c, id) { assert !Live(s, c, id); }
    forall k ensures !Holds(s', k, id) { assert !Holds(s, k, id); }
    assert s'.reapers == map[];
    assert [StopReaper(r)][..0] == [];
    assert Run(s, [StopReaper(r)]) == s';
    RunSplits(s, [StopReaper(r)], steps);
    StrandedForever(s', steps, id);
  }

  // -------------------------------------------------------- returnable effects

  /** No attempts are left, and every reaper that has read the effect has seen that. */
  ghost predicate Exhausted(s: State, id: EffectId) {
    && id in s.effects && s.effects[id].status != Pending
    && s.effects[id].attempts >= s.effects[id].maxAttempts
    && (forall r :: r in s.reapers ==> forall row :: row in s.reapers[r].rows ==>
          row.effect == id ==> row.attempts >= row.maxAttempts)
  }

  lemma {:induction false} ExhaustedStep(s: State, step: Step, id: EffectId)
    requires Exhausted(s, id)
    ensures Exhausted(Apply(s, step), id)
  {
    var s' := Apply(s, step);
    if step.ResetEffect? {
      if step.reaper in s.reapers && s.reapers[step.reaper].rows != [] {
        assert s.reapers[step.reaper].rows[0] in s.reapers[step.reaper].rows;
      }
    } else {
      RunningEffectKept(s, step, id);
    }
    forall r, row | r in s'.reapers && row in s'.reapers[r].rows && row.effect == id
      ensures row.attempts >= row.maxAttempts
    {
      if r in s.reapers { assert row in s.reapers[r].rows; } else { assert RowOf(s, row); }
    }
  }

  lemma {:induction false} ExhaustedForever(s: State, steps: seq<Step>, id: EffectId)
    requires Exhausted(s, id)
    ensures Exhausted(Run(s, steps), id)
  {
    if steps != [] {
      ExhaustedForever(s, steps[..|steps| - 1], id);
      ExhaustedStep(Run(s, steps[..|steps| - 1]), steps[|steps| - 1], id);
    }
  }

  lemma {:induction false} Bound(ids: set<nat>) returns (n: nat)
    ensures n !in ids && forall k :: k in ids ==> k < n
  {
    n := 0;
    if ids != {} {
      var id :| id in ids;
      var m := Bound(ids - {id});
      n := if m <= id then id + 1 else m;
      assert forall k :: k in ids ==> k == id || k in ids - {id};
    }
  }

  function RowFor(s: State, c: ClaimId): Row
    requires c in s.claims && s.claims[c].effect in s.effects
  {
    var id := s.claims[c].effect;
    Row(id, c, s.effects[id].attempts, s.effects[id].maxAttempts)
  }

  /** The expired claims among those given, in some order. */
  lemma {:induction false} RowsAmong(s: State, now: nat, ids: set<ClaimId>) returns (rows: seq<Row>)
    ensures forall r :: r in rows ==> RowOf(s, r) && Expired(s, now, r.claim) && r.claim in ids
    ensures forall i, j :: 0 <= i < j < |rows| ==> rows[i].claim != rows[j].claim
    ensures forall c :: c in ids && Expired(s, now, c) ==> exists r :: r in rows && r.claim == c
    decreases |ids|
  {
    rows := [];
    if ids != {} {
      var c :| c in ids;
      var rest := RowsAmong(s, now, ids - {c});
      rows := if Expired(s, now, c) then [RowFor(s, c)] + rest else rest;
      assert forall r :: r in rest ==> r in rows;
      if Expired(s, now, c) { assert RowFor(s, c) in rows; }
    }
  }

  /** A reaper may list any expired claim first. */
  lemma {:induction false} SnapshotStartingWith(s: State, now: nat, c: ClaimId) returns (rows: seq<Row>)
    requires Expired(s, now, c)
    ensures rows != [] && rows[0] == RowFor(s, c) && Snapshot(s, now, rows)
  {
    var rest := RowsAmong(s, now, s.claims.Keys - {c});
    rows := [RowFor(s, c)] + rest;
    assert RowFor(s, c) in rows && forall r :: r in rest ==> r in rows;
  }

  /** An effect with an unreleased claim and attempts left can be reaped back. */
  lemma {:induction false} LiveCanReturn(s: State, id: EffectId, c: ClaimId) returns (steps: seq<Step>)
    requires s.reapers == map[] && id in s.effects && Live(s, c, id)
    requires s.effects[id].attempts < s.effects[id].maxAttempts
    ensures id in Run(s, steps).effects && Run(s, steps).effects[id].status == Pending
  {
    var t, now := Apply(s, Start(id)), s.claims[c].expiresAt + 1;
    assert Expired(t, now, c);
    var rows := SnapshotStartingWith(t, now, c);
    steps := [Start(id), Reap(0, now, rows), ReleaseClaim(0), ResetEffect(0)];
    RunExtends(s, [], Start(id));
    RunExtends(s, [Start(id)], Reap(0, now, rows));
    RunExtends(s, [Start(id), Reap(0, now, rows)], ReleaseClaim(0));
    RunExtends(s, [Start(id), Reap(0, now, rows), ReleaseClaim(0)], ResetEffect(0));
    assert [] + [Start(id)] == [Start(id)] && [Start(id)] + [Reap(0, now, rows)] == [Start(id), Reap(0, now, rows)];
    assert [Start(id), Reap(0, now, rows)] + [ReleaseClaim(0)] == [Start(id), Reap(0, now, rows), ReleaseClaim(0)];
    assert [Start(id), Reap(0, now, rows), ReleaseClaim(0)] + [ResetEffect(0)] == steps;
    assert Apply(t, Reap(0, now, rows)) == t.(reapers := map[0 := Reaping(now, rows, false)]);
    RowIsItsSteps(t, now, rows);
  }

  /** A call that has won the effect may go on to insert its claim. */
  lemma {:induction false} HeldCanReturn(s: State, id: EffectId, k: CallId) returns (steps: seq<Step>)
    requires s.reapers == map[] && id in s.effects && Holds(s, k, id)
    requires s.effects[id].attempts < s.effects[id].maxAttempts
    ensures id in Run(s, steps).effects && Run(s, steps).effects[id].status == Pending
  {
    var c := Bound(s.claims.Keys);
    var t := Apply(s, Grant(k, c));
    assert Live(t, c, id);
    var rest := LiveCanReturn(t, id, c);
    steps := [Grant(k, c)] + rest;
    RunExtends(s, [], Grant(k, c));
    assert [] + [Grant(k, c)] == [Grant(k, c)];
    RunSplits(s, [Grant(k, c)], rest);
  }

  ghost predicate PendingAfter(s: State, steps: seq<Step>, id: EffectId) {
    id in Run(s, steps).effects && Run(s, steps).effects[id].status == Pending
  }

  /** With no reaper at work, some continuation makes an effect pending again exactly when someone
      holds, or is about to hold, an unreleased claim on it and attempts are left. */
  lemma {:induction false} ReturnableExactlyWhen(s: State, id: EffectId)
    requires Inv(s) && s.reapers == map[] && id in s.effects && s.effects[id].status != Pending
    ensures (exists steps :: PendingAfter(s, steps, id)) <==> !Unheld(s, id) && s.effects[id].attempts < MAX_ATTEMPTS
  {
    assert EffectInv(s, id);
    if Unheld(s, id) {
      forall steps ensures !PendingAfter(s, steps, id) { StrandedForever(s, steps, id); }
    } else if s.effects[id].attempts == MAX_ATTEMPTS {
      forall steps ensures !PendingAfter(s, steps, id) { ExhaustedForever(s, steps, id); }
    } else if c :| Live(s, c, id) {
      var steps := LiveCanReturn(s, id, c);
      assert PendingAfter(s, steps, id);
    } else {
      var k :| Holds(s, k, id);
      var steps := HeldCanReturn(s, id, k);
      assert PendingAfter(s, steps, id);
    }
  }
}
