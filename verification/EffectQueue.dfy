/** The effect queue object of crates/actant-effects/src/lib.rs: each method, run without
    interference, is the sequence of statements that Effects interleaves. */
module EffectQueue {
  import opened Common
  import opened Effects

  const LEASE_SECONDS := 60

  datatype Lease = Lease(effect: EffectId, worker: WorkerId, effectType: string, expiresAt: nat)

  // ------------------------------------------------- what whole calls come to

  ghost function ClaimSteps(id: EffectId, worker: WorkerId, workspace: string, types: set<string>, expiresAt: nat,
                            claim: ClaimId): seq<Step>
  {
    [Select(0, worker, workspace, types, id, expiresAt), Take(0), Grant(0, claim)]
  }

  /** The tables after an uncontended claim. */
  function Leased(s: State, id: EffectId, worker: WorkerId, expiresAt: nat, claim: ClaimId): State
    requires id in s.effects
  {
    var e := s.effects[id];
    s.(effects := s.effects[id := e.(status := Claimed, owner := Some(worker), attempts := e.attempts + 1)],
       claims := s.claims[claim := Claim(id, worker, expiresAt, None)],
       granted := s.granted + [id])
  }

  lemma {:induction false} RunExtends(s: State, steps: seq<Step>, step: Step)
    ensures Run(s, steps + [step]) == Apply(Run(s, steps), step)
  {
    assert (steps + [step])[..|steps|] == steps;
  }

  lemma {:induction false} ClaimIsItsSteps(s: State, id: EffectId, worker: WorkerId, workspace: string,
                                           types: set<string>, expiresAt: nat, claim: ClaimId)
    requires s.calls == map[] && claim !in s.claims && OldestEligible(s, id, workspace, types)
    ensures Run(s, ClaimSteps(id, worker, workspace, types, expiresAt, claim)) == Leased(s, id, worker, expiresAt, claim)
  {
    var select := Select(0, worker, workspace, types, id, expiresAt);
    RunExtends(s, [], select);
    RunExtends(s, [select], Take(0));
    RunExtends(s, [select, Take(0)], Grant(0, claim));
    assert [] + [select] == [select] && [select] + [Take(0)] == [select, Take(0)];
    assert [select, Take(0)] + [Grant(0, claim)] == ClaimSteps(id, worker, workspace, types, expiresAt, claim);
    var won := Won(id, worker, expiresAt);
    assert (s.calls[0 := won]) - {0} == map[];
  }

  /** The two statements of the reaper's loop body. */
  function ReapRow(s: State, now: nat, row: Row): State
    requires row.claim in s.claims && row.effect in s.effects
  {
    var e := s.effects[row.effect];
    s.(claims := s.claims[row.claim := s.claims[row.claim].(releasedAt := Some(now))],
       effects := s.effects[row.effect :=
         if row.attempts < row.maxAttempts then e.(status := Pending, owner := None) else e.(status := Failed)])
  }

  predicate Present(s: State, rows: seq<Row>) {
    forall r :: r in rows ==> r.claim in s.claims && r.effect in s.effects
  }

  /** The tables after the reaper's loop. */
  function Reaped(s: State, now: nat, rows: seq<Row>): (t: State)
    requires Present(s, rows)
    ensures t.effects.Keys == s.effects.Keys && t.claims.Keys == s.claims.Keys
    ensures t == s.(effects := t.effects, claims := t.claims)
  {
    if rows == [] then s
    else
      assert rows[|rows| - 1] in rows;
      ReapRow(Reaped(s, now, rows[..|rows| - 1]), now, rows[|rows| - 1])
  }

  ghost function ReapSteps(now: nat, rows: seq<Row>, n: nat): seq<Step> {
    if n == 0 then [Reap(0, now, rows)] else ReapSteps(now, rows, n - 1) + [ReleaseClaim(0), ResetEffect(0)]
  }

  lemma {:induction false} ReapStarts(s: State, now: nat, rows: seq<Row>)
    requires s.reapers == map[] && rows != [] && Snapshot(s, now, rows)
    ensures Run(s, [Reap(0, now, rows)]) == s.(reapers := map[0 := Reaping(now, rows, false)])
  {
    assert [] + [Reap(0, now, rows)] == [Reap(0, now, rows)];
    RunExtends(s, [], Reap(0, now, rows));
  }

  /** After `n` rounds of the loop the tables are as reaped so far, with the other rows still to do. */
  lemma {:induction false} ReapIsItsSteps(s: State, now: nat, rows: seq<Row>, n: nat)
    requires s.reapers == map[] && rows != [] && Snapshot(s, now, rows) && n <= |rows| && Present(s, rows)
    ensures Run(s, ReapSteps(now, rows, n)) ==
              Reaped(s, now, rows[..n]).(reapers := if n == |rows| then map[] else map[0 := Reaping(now, rows[n..], false)])
  {
    if n == 0 {
      ReapStarts(s, now, rows);
      assert rows[0..] == rows && rows[..0] == [];
    } else {
      ReapIsItsSteps(s, now, rows, n - 1);
      ReapRound(s, now, rows, n);
    }
  }

  lemma {:induction false} ReapedGrows(s: State, now: nat, rows: seq<Row>, n: nat)
    requires 0 < n <= |rows| && Present(s, rows)
    ensures Present(s, rows[..n]) && Present(s, rows[..n - 1])
    ensures rows[n - 1].claim in s.claims && rows[n - 1].effect in s.effects
    ensures Reaped(s, now, rows[..n]) == ReapRow(Reaped(s, now, rows[..n - 1]), now, rows[n - 1])
  {
    assert rows[n - 1] in rows && rows[..n][..n - 1] == rows[..n - 1];
  }

  lemma {:induction false} TwoMoreSteps(s: State, now: nat, rows: seq<Row>, n: nat)
    requires n > 0
    ensures Run(s, ReapSteps(now, rows, n)) == Apply(Apply(Run(s, ReapSteps(now, rows, n - 1)), ReleaseClaim(0)), ResetEffect(0))
  {
    var done := ReapSteps(now, rows, n - 1);
    RunExtends(s, done, ReleaseClaim(0));
    RunExtends(s, done + [ReleaseClaim(0)], ResetEffect(0));
    assert done + [ReleaseClaim(0)] + [ResetEffect(0)] == ReapSteps(now, rows, n);
  }

  lemma {:induction false} ReapRound(s: State, now: nat, rows: seq<Row>, n: nat)
    requires s.reapers == map[] && 0 < n <= |rows| && Present(s, rows)
    requires Run(s, ReapSteps(now, rows, n - 1)) ==
               Reaped(s, now, rows[..n - 1]).(reapers := map[0 := Reaping(now, rows[n - 1..], false)])
    ensures Run(s, ReapSteps(now, rows, n)) ==
              Reaped(s, now, rows[..n]).(reapers := if n == |rows| then map[] else map[0 := Reaping(now, rows[n..], false)])
  {
    var before := Reaped(s, now, rows[..n - 1]);
    ReapedGrows(s, now, rows, n);
    TwoMoreSteps(s, now, rows, n);
    assert rows[n - 1..][1..] == rows[n..];
    RowIsItsSteps(before, now, rows[n - 1..]);
  }

  lemma {:induction false} RowIsItsSteps(s: State, now: nat, todo: seq<Row>)
    requires s.reapers == map[] && todo != [] && todo[0].claim in s.claims && todo[0].effect in s.effects
    ensures Apply(Apply(s.(reapers := map[0 := Reaping(now, todo, false)]), ReleaseClaim(0)), ResetEffect(0))
         == ReapRow(s, now, todo[0]).(reapers := if |todo| == 1 then map[] else map[0 := Reaping(now, todo[1..], false)])
  {
    var r := map[0 := Reaping(now, todo, false)];
    assert r[0 := Reaping(now, todo, true)] == map[0 := Reaping(now, todo, true)];
    assert map[0 := Reaping(now, todo, true)] - {0} == map[];
    assert map[0 := Reaping(now, todo, true)][0 := Reaping(now, todo[1..], false)] == map[0 := Reaping(now, todo[1..], false)];
  }

  // ------------------------------------------------------------------ queue

  class EffectQueue {
    var effects: map<EffectId, Effect>
    var claims: map<ClaimId, Claim>
    var successes: seq<Success>
    var seen: map<WorkerId, nat>
    ghost var granted: seq<EffectId>

    /** The tables, with no call under way. */
    ghost function Tables(): State
      reads this
    {
      State(effects, claims, map[], map[], granted, successes, seen)
    }

    constructor ()
      ensures Tables() == INITIAL
    {
      effects, claims, successes, seen, granted := map[], map[], [], map[], [];
    }

    method Enqueue(id: EffectId, workspace: string, effectType: string, now: nat)
      requires id !in effects
      modifies this
      ensures Tables() == Apply(old(Tables()), Step.Enqueue(id, workspace, effectType, now))
      ensures effects == old(effects)[id := Effect(workspace, effectType, now, Pending, 0, 3, None)]
    {
      effects := effects[id := Effect(workspace, effectType, now, Pending, 0, MAX_ATTEMPTS, None)];
    }

    /** The SELECT of `claim_one`. */
    method Oldest(workspace: string, types: set<string>) returns (found: Option<EffectId>)
      ensures found.None? ==> forall k :: k in effects ==> !Eligible(effects[k], workspace, types)
      ensures found.Some? ==> OldestEligible(Tables(), found.value, workspace, types)
    {
      found := None;
      var rest := effects.Keys;
      while rest != {}
        invariant rest <= effects.Keys
        invariant found.Some? ==> found.value in effects && Eligible(effects[found.value], workspace, types)
        invariant forall k :: k in effects && k !in rest && Eligible(effects[k], workspace, types) ==>
          found.Some? && effects[found.value].createdAt <= effects[k].createdAt
        decreases rest
      {
        var k :| k in rest;
        rest := rest - {k};
        if Eligible(effects[k], workspace, types) && (found.None? || effects[k].createdAt < effects[found.value].createdAt) {
          found := Some(k);
        }
      }
    }

    /** A claim succeeds exactly when something is eligible, and takes an oldest one. */
    method ClaimOne(worker: WorkerId, workspace: string, types: set<string>, now: nat, claim: ClaimId)
      returns (lease: Option<Lease>)
      requires claim !in claims
      modifies this
      ensures lease.None? ==> Tables() == old(Tables())
      ensures lease.None? <==> forall k :: k in old(effects) ==> !Eligible(old(effects)[k], workspace, types)
      ensures lease.Some? ==>
                var l := lease.value;
                && OldestEligible(old(Tables()), l.effect, workspace, types)
                && old(effects)[l.effect].workspace == workspace && old(effects)[l.effect].effectType in types
                && old(effects)[l.effect].status == Pending
                && l == Lease(l.effect, worker, old(effects)[l.effect].effectType, now + LEASE_SECONDS)
                && Tables() == Run(old(Tables()), ClaimSteps(l.effect, worker, workspace, types, l.expiresAt, claim))
    {
      var found := Oldest(workspace, types);
      if found.None? { return None; }
      var id, e, expiresAt := found.value, effects[found.value], now + LEASE_SECONDS;
      ClaimIsItsSteps(Tables(), id, worker, workspace, types, expiresAt, claim);
      effects := effects[id := e.(status := Claimed, owner := Some(worker), attempts := e.attempts + 1)];
      claims := claims[claim := Claim(id, worker, expiresAt, None)];
      granted := granted + [id];
      lease := Some(Lease(id, worker, e.effectType, expiresAt));
    }

    method Report(id: EffectId, status: Status)
      modifies this
      ensures Tables() == SetStatus(old(Tables()), id, status)
    {
      if id in effects { effects := effects[id := effects[id].(status := status)]; }
    }

    method Start(id: EffectId)
      modifies this
      ensures Tables() == Apply(old(Tables()), Step.Start(id))
    {
      Report(id, Running);
    }

    method Complete(id: EffectId)
      modifies this
      ensures Tables() == Apply(Apply(old(Tables()), Step.Complete(id)), LogSuccess(id))
    {
      Report(id, Succeeded);
      if id in effects { successes := successes + [Success(id, effects[id].attempts)]; }
    }

    method Fail(id: EffectId)
      modifies this
      ensures Tables() == Apply(old(Tables()), Step.Fail(id))
    {
      Report(id, Failed);
    }

    /** A worker registers again under its id with the new row. */
    method RegisterWorker(worker: WorkerId, at: nat)
      modifies this
      ensures Tables() == Apply(old(Tables()), Step.Register(worker, at))
    {
      seen := seen[worker := at];
    }

    /** Updates the worker's own row, and nothing else of the queue. */
    method Heartbeat(worker: WorkerId, at: nat)
      modifies this
      ensures Tables() == Apply(old(Tables()), Step.Heartbeat(worker, at))
    {
      if worker in seen { seen := seen[worker := at]; }
    }

    /** The reaper's join. */
    method ExpiredRows(now: nat) returns (rows: seq<Row>)
      ensures Snapshot(Tables(), now, rows) && Present(Tables(), rows)
    {
      rows := [];
      var rest := claims.Keys;
      while rest != {}
        invariant rest <= claims.Keys
        invariant forall r :: r in rows ==> RowOf(Tables(), r) && Expired(Tables(), now, r.claim) && r.claim !in rest
        invariant forall i, j :: 0 <= i < j < |rows| ==> rows[i].claim != rows[j].claim
        invariant forall c :: c in claims && c !in rest && Expired(Tables(), now, c) ==> exists r :: r in rows && r.claim == c
        decreases rest
      {
        var c :| c in rest;
        rest := rest - {c};
        var id := claims[c].effect;
        if claims[c].releasedAt == None && claims[c].expiresAt < now && id in effects
           && effects[id].status in {Claimed, Running}
        {
          var row := Row(id, c, effects[id].attempts, effects[id].maxAttempts);
          assert forall i :: 0 <= i < |rows| ==> rows[i] in rows;
          var more := rows + [row];
          assert row in more && forall r :: r in rows ==> r in more;
          rows := more;
        }
      }
    }

    method ReapExpired(now: nat) returns (reclaimed: nat, ghost rows: seq<Row>)
      modifies this
      ensures Snapshot(old(Tables()), now, rows) && Present(old(Tables()), rows) && reclaimed == |rows|
      ensures Tables() == Reaped(old(Tables()), now, rows)
      ensures rows != [] ==> Tables() == Run(old(Tables()), ReapSteps(now, rows, |rows|))
    {
      var expired := ExpiredRows(now);
      rows := expired;
      ghost var before := Tables();
      assert expired[..0] == [];
      reclaimed := 0;
      while reclaimed < |expired|
        invariant reclaimed <= |expired|
        invariant Tables() == Reaped(before, now, expired[..reclaimed])
      {
        var row := expired[reclaimed];
        assert row in expired;
        assert expired[..reclaimed + 1][..reclaimed] == expired[..reclaimed];
        assert row.claim in Tables().claims && row.effect in Tables().effects;
        claims := claims[row.claim := claims[row.claim].(releasedAt := Some(now))];
        var e := effects[row.effect];
        if row.attempts < row.maxAttempts {
          effects := effects[row.effect := e.(status := Pending, owner := None)];
        } else {
          effects := effects[row.effect := e.(status := Failed)];
        }
        reclaimed := reclaimed + 1;
      }
      assert expired[..|expired|] == expired;
      if expired != [] { ReapIsItsSteps(before, now, expired, |expired|); }
    }
  }

  // -------------------------------------------------------- a quiet reaper

  lemma {:induction false} StillExpired(s: State, now: nat, rows: seq<Row>, c: ClaimId)
    requires Present(s, rows)
    ensures Expired(Reaped(s, now, rows), now, c) ==> Expired(s, now, c) && forall r :: r in rows ==> r.claim != c
  {
    if rows != [] {
      var init, last := rows[..|rows| - 1], rows[|rows| - 1];
      assert last in rows && forall r :: r in rows <==> r in init || r == last;
      StillExpired(s, now, init, c);
    }
  }

  /** A reap that nothing interferes with leaves no expired claim behind. */
  lemma {:induction false} QuietReapClearsExpired(s: State, now: nat, rows: seq<Row>, c: ClaimId)
    requires Snapshot(s, now, rows) && Present(s, rows)
    ensures !Expired(Reaped(s, now, rows), now, c)
  {
    StillExpired(s, now, rows, c);
  }

  /** An effect that no listed row names is left alone. */
  lemma {:induction false} UntouchedEffect(s: State, now: nat, rows: seq<Row>, id: EffectId)
    requires Present(s, rows) && id in s.effects && forall r :: r in rows ==> r.effect != id
    ensures id in Reaped(s, now, rows).effects && Reaped(s, now, rows).effects[id] == s.effects[id]
  {
    if rows != [] {
      assert rows[|rows| - 1] in rows;
      UntouchedEffect(s, now, rows[..|rows| - 1], id);
    }
  }

  /** On the tables of any run with one reaper at a time, a quiet reap gives every expired effect
      back exactly when it has attempts left, and fails it otherwise. */
  lemma {:induction false} QuietReapDecides(steps: seq<Step>, now: nat, rows: seq<Row>, i: nat)
    requires OneReaperThroughout(steps)
    requires var s := Run(INITIAL, steps); Snapshot(s, now, rows) && Present(s, rows) && i < |rows|
    ensures var s, id := Run(INITIAL, steps), rows[i].effect;
            && id in Reaped(s, now, rows).effects
            && Reaped(s, now, rows).effects[id].status == if s.effects[id].attempts < MAX_ATTEMPTS then Pending else Failed
  {
    var s := Run(INITIAL, steps);
    RunKeepsInv(steps);
    forall j, k | 0 <= j < k < |rows| ensures rows[j].effect != rows[k].effect {
      assert rows[j] in rows && rows[k] in rows;
      assert Live(s, rows[j].claim, rows[j].effect) && Live(s, rows[k].claim, rows[k].effect);
    }
    assert rows[i] in rows && EffectInv(s, rows[i].effect);
    ReapedRow(s, now, rows, i);
  }

  lemma {:induction false} ReapedRow(s: State, now: nat, rows: seq<Row>, i: nat)
    requires Present(s, rows) && i < |rows|
    requires forall j, k :: 0 <= j < k < |rows| ==> rows[j].effect != rows[k].effect
    ensures var id := rows[i].effect;
            && id in Reaped(s, now, rows).effects
            && Reaped(s, now, rows).effects[id].status ==
                 if rows[i].attempts < rows[i].maxAttempts then Pending else Failed
  {
    var init, last := rows[..|rows| - 1], rows[|rows| - 1];
    assert last in rows;
    if i < |init| {
      assert init[i] in rows;
      ReapedRow(s, now, init, i);
    }
  }
}
