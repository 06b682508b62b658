/** The effect queue of crates/actant-effects/src/lib.rs: workers racing through claim_one one
    SQL statement at a time, unguarded status reports, and the lease reaper. */
module Effects {
  import opened Common

  type EffectId = nat
  type ClaimId = nat
  type WorkerId = nat
  type CallId = nat
  type ReaperId = nat

  const MAX_ATTEMPTS := 3

  datatype Status = Pending | Claimed | Running | Succeeded | Failed

  datatype Effect = Effect(workspace: string, effectType: string, createdAt: nat,
                           status: Status, attempts: nat, maxAttempts: nat, owner: Option<WorkerId>)

  datatype Claim = Claim(effect: EffectId, worker: WorkerId, expiresAt: nat, releasedAt: Option<nat>)

  /** A claim_one call between its statements: a row was selected; the guarded update hit it. */
  datatype Call =
    | Chosen(effect: EffectId, worker: WorkerId, expiresAt: nat)
    | Won(effect: EffectId, worker: WorkerId, expiresAt: nat)

  /** One row of the reaper's join, with the attempt counts it read. */
  datatype Row = Row(effect: EffectId, claim: ClaimId, attempts: nat, maxAttempts: nat)

  /** A reap_expired call: rows left to process, and whether the first one's claim is released. */
  datatype Reaping = Reaping(now: nat, rows: seq<Row>, released: bool)

  /** A row that `complete` inserts: which effect, on which attempt. */
  datatype Success = Success(effect: EffectId, attempt: nat)

  /** `granted` logs the effect of every lease handed to a worker; `seen` is when each registered
      worker was last heard of. */
  datatype State = State(effects: map<EffectId, Effect>, claims: map<ClaimId, Claim>,
                         calls: map<CallId, Call>, reapers: map<ReaperId, Reaping>, granted: seq<EffectId>,
                         successes: seq<Success>, seen: map<WorkerId, nat>)

  const INITIAL := State(map[], map[], map[], map[], [], [], map[])

  datatype Step =
    | Enqueue(effect: EffectId, workspace: string, effectType: string, createdAt: nat)
    | Select(call: CallId, worker: WorkerId, workspace: string, types: set<string>, effect: EffectId, expiresAt: nat)
    | Take(call: CallId)
    | Grant(call: CallId, claim: ClaimId)
    | Abandon(call: CallId)
    | Start(effect: EffectId)
    | Complete(effect: EffectId)
    | LogSuccess(effect: EffectId)
    | Fail(effect: EffectId)
    | Reap(reaper: ReaperId, now: nat, rows: seq<Row>)
    | ReleaseClaim(reaper: ReaperId)
    | ResetEffect(reaper: ReaperId)
    | StopReaper(reaper: ReaperId)
    | Register(worker: WorkerId, at: nat)
    | Heartbeat(worker: WorkerId, at: nat)

  // --------------------------------------------------------------- steps

  predicate Eligible(e: Effect, workspace: string, types: set<string>) {
    e.workspace == workspace && e.status == Pending && e.effectType in types
  }

  /** WHERE eligible ORDER BY created_at LIMIT 1, ties broken either way. */
  predicate OldestEligible(s: State, id: EffectId, workspace: string, types: set<string>) {
    && id in s.effects && Eligible(s.effects[id], workspace, types)
    && (forall k :: k in s.effects && Eligible(s.effects[k], workspace, types)
          ==> s.effects[id].createdAt <= s.effects[k].createdAt)
  }

  /** The reaper's WHERE clause for one claim. */
  predicate Expired(s: State, now: nat, c: ClaimId) {
    && c in s.claims && s.claims[c].releasedAt == None && s.claims[c].expiresAt < now
    && s.claims[c].effect in s.effects && s.effects[s.claims[c].effect].status in {Claimed, Running}
  }

  predicate RowOf(s: State, r: Row) {
    && r.claim in s.claims && r.effect == s.claims[r.claim].effect && r.effect in s.effects
    && r.attempts == s.effects[r.effect].attempts && r.maxAttempts == s.effects[r.effect].maxAttempts
  }

  /** `rows` lists the expired claims, each once, in some order. */
  predicate Snapshot(s: State, now: nat, rows: seq<Row>) {
    && (forall r :: r in rows ==> RowOf(s, r) && Expired(s, now, r.claim))
    && (forall i, j :: 0 <= i < j < |rows| ==> rows[i].claim != rows[j].claim)
    && (forall c :: c in s.claims && Expired(s, now, c) ==> exists r :: r in rows && r.claim == c)
  }

  function SetStatus(s: State, id: EffectId, status: Status): State {
    if id !in s.effects then s else s.(effects := s.effects[id := s.effects[id].(status := status)])
  }

  /** The row that `complete` inserts carries the attempt count at that time. */
  function SuccessLogged(s: State, id: EffectId): State {
    if id !in s.effects then s else s.(successes := s.successes + [Success(id, s.effects[id].attempts)])
  }

  /** A step that is not possible in `s` leaves `s` as it is. */
  ghost function Apply(s: State, step: Step): State {
    match step
    case Enqueue(id, workspace, effectType, createdAt) =>
      if id in s.effects then s
      else s.(effects := s.effects[id := Effect(workspace, effectType, createdAt, Pending, 0, MAX_ATTEMPTS, None)])
    case Select(call, worker, workspace, types, id, expiresAt) =>
      if call in s.calls || !OldestEligible(s, id, workspace, types) then s
      else s.(calls := s.calls[call := Chosen(id, worker, expiresAt)])
    case Take(call) =>
      if call !in s.calls || !s.calls[call].Chosen? || s.calls[call].effect !in s.effects then s
      else
        var c := s.calls[call];
        var e := s.effects[c.effect];
        if e.status != Pending then s.(calls := s.calls - {call})
        else s.(effects := s.effects[c.effect := e.(status := Claimed, owner := Some(c.worker), attempts := e.attempts + 1)],
                calls := s.calls[call := Won(c.effect, c.worker, c.expiresAt)])
    case Grant(call, claim) =>
      if call !in s.calls || !s.calls[call].Won? || claim in s.claims then s
      else
        var c := s.calls[call];
        s.(claims := s.claims[claim := Claim(c.effect, c.worker, c.expiresAt, None)],
           calls := s.calls - {call}, granted := s.granted + [c.effect])
    case Abandon(call) => s.(calls := s.calls - {call})
    case Start(id) => SetStatus(s, id, Running)
    case Complete(id) => SetStatus(s, id, Succeeded)
    case LogSuccess(id) => SuccessLogged(s, id)
    case Fail(id) => SetStatus(s, id, Failed)
    case Reap(r, now, rows) =>
      if r in s.reapers || rows == [] || !Snapshot(s, now, rows) then s
      else s.(reapers := s.reapers[r := Reaping(now, rows, false)])
    case ReleaseClaim(r) =>
      if r !in s.reapers || s.reapers[r].released || s.reapers[r].rows == [] || s.reapers[r].rows[0].claim !in s.claims then s
      else
        var c := s.reapers[r].rows[0].claim;
        s.(claims := s.claims[c := s.claims[c].(releasedAt := Some(s.reapers[r].now))],
           reapers := s.reapers[r := s.reapers[r].(released := true)])
    case ResetEffect(r) =>
      if r !in s.reapers || !s.reapers[r].released || s.reapers[r].rows == [] || s.reapers[r].rows[0].effect !in s.effects then s
      else
        var p := s.reapers[r];
        var row := p.rows[0];
        var e := s.effects[row.effect];
        s.(effects := s.effects[row.effect :=
             if row.attempts < row.maxAttempts then e.(status := Pending, owner := None) else e.(status := Failed)],
           reapers := if |p.rows| == 1 then s.reapers - {r} else s.reapers[r := Reaping(p.now, p.rows[1..], false)])
    case StopReaper(r) => s.(reapers := s.reapers - {r})
    case Register(worker, at) => s.(seen := s.seen[worker := at])
    case Heartbeat(worker, at) => if worker !in s.seen then s else s.(seen := s.seen[worker := at])
  }

  ghost function Run(s: State, steps: seq<Step>): State {
    if steps == [] then s else Apply(Run(s, steps[..|steps| - 1]), steps[|steps| - 1])
  }

  /** reap_expired calls never overlap. */
  ghost predicate OneReaper(s: State) {
    forall a, b :: a in s.reapers && b in s.reapers ==> a == b
  }

  ghost predicate OneReaperThroughout(steps: seq<Step>) {
    OneReaper(Run(INITIAL, steps)) && (steps != [] ==> OneReaperThroughout(steps[..|steps| - 1]))
  }

  // ---------------------------------------------------------- invariant

  predicate Live(s: State, c: ClaimId, id: EffectId) {
    c in s.claims && s.claims[c].effect == id && s.claims[c].releasedAt == None
  }

  predicate Holds(s: State, k: CallId, id: EffectId) {
    k in s.calls && s.calls[k] == Won(id, s.calls[k].worker, s.calls[k].expiresAt)
  }

  /** Nobody holds, or is about to hold, an unreleased claim on the effect. */
  ghost predicate Unheld(s: State, id: EffectId) {
    (forall c :: !Live(s, c, id)) && (forall k :: !Holds(s, k, id))
  }

  /** At most one worker holds, or is about to hold, the effect. */
  ghost predicate HeldOnce(s: State, id: EffectId) {
    && (forall c, d :: Live(s, c, id) && Live(s, d, id) ==> c == d)
    && (forall j, k :: Holds(s, j, id) && Holds(s, k, id) ==> j == k)
    && (forall c, k :: Live(s, c, id) ==> !Holds(s, k, id))
  }

  ghost predicate EffectInv(s: State, id: EffectId)
    requires id in s.effects
  {
    var e := s.effects[id];
    && e.maxAttempts == MAX_ATTEMPTS && e.attempts <= MAX_ATTEMPTS
    && (e.status == Pending ==> e.attempts < MAX_ATTEMPTS && Unheld(s, id))
    && HeldOnce(s, id)
    && Grants(s.granted, id) <= e.attempts
    && ((exists k :: Holds(s, k, id)) ==> Grants(s.granted, id) < e.attempts)
  }

  function Grants(log: seq<EffectId>, id: EffectId): nat {
    if log == [] then 0
    else Grants(log[..|log| - 1], id) + (if log[|log| - 1] == id then 1 else 0)
  }

  ghost predicate RowInv(s: State, r: Row) {
    RowOf(s, r) && s.effects[r.effect].status != Pending
  }

  ghost predicate ReapingInv(s: State, p: Reaping) {
    && p.rows != []
    && (forall i :: 0 <= i < |p.rows| ==> RowInv(s, p.rows[i]))
    && (forall i, j :: 0 <= i < j < |p.rows| ==> p.rows[i].effect != p.rows[j].effect)
    && (forall i :: 0 <= i < |p.rows| && !(i == 0 && p.released) ==>
          Live(s, p.rows[i].claim, p.rows[i].effect) && s.claims[p.rows[i].claim].expiresAt < p.now)
    && (p.released ==> Unheld(s, p.rows[0].effect))
  }

  /** What never changes about a row a reaper has read. */
  ghost predicate RowStable(s: State, r: Row, now: nat) {
    && r.claim in s.claims && r.effect == s.claims[r.claim].effect && r.effect in s.effects
    && s.claims[r.claim].expiresAt < now && r.maxAttempts == MAX_ATTEMPTS
  }

  ghost predicate RowsStable(s: State, p: Reaping) {
    p.rows != [] && forall i :: 0 <= i < |p.rows| ==> RowStable(s, p.rows[i], p.now)
  }

  /** The books of effects, claims, calls and leases. */
  ghost predicate Ledger(s: State) {
    && (forall id :: id in s.effects ==> EffectInv(s, id))
    && (forall c :: c in s.claims ==> s.claims[c].effect in s.effects)
    && (forall c :: c in s.claims && s.claims[c].releasedAt.Some? ==> s.claims[c].expiresAt < s.claims[c].releasedAt.value)
    && (forall k :: k in s.calls ==> s.calls[k].effect in s.effects)
    && (forall id :: id in s.granted ==> id in s.effects)
    && (forall r :: r in s.reapers ==> RowsStable(s, s.reapers[r]))
  }

  ghost predicate Inv(s: State) {
    Ledger(s) && forall r :: r in s.reapers ==> ReapingInv(s, s.reapers[r])
  }

  // ------------------------------------------------ each step keeps it

  /** An effect's ledger stays balanced when it gains no holder, no attempt and no grant, and
      becomes pending only while unheld and with attempts left. */
  lemma EffectInvKept(s: State, s': State, id: EffectId)
    requires id in s.effects && id in s'.effects && EffectInv(s, id)
    requires forall c :: Live(s', c, id) ==> Live(s, c, id)
    requires forall k :: Holds(s', k, id) ==> Holds(s, k, id)
    requires Grants(s'.granted, id) == Grants(s.granted, id)
    requires s'.effects[id].attempts == s.effects[id].attempts && s'.effects[id].maxAttempts == s.effects[id].maxAttempts
    requires s'.effects[id].status != Pending || s.effects[id].status == Pending
             || (s.effects[id].attempts < MAX_ATTEMPTS && Unheld(s', id))
    ensures EffectInv(s', id)
  {
    forall c, d | Live(s', c, id) && Live(s', d, id) ensures c == d { assert Live(s, c, id) && Live(s, d, id); }
    forall j, k | Holds(s', j, id) && Holds(s', k, id) ensures j == k { assert Holds(s, j, id) && Holds(s, k, id); }
    forall c, k | Live(s', c, id) ensures !Holds(s', k, id) { assert Live(s, c, id) && !Holds(s, k, id); }
  }

  lemma {:induction false} NoGrants(log: seq<EffectId>, id: EffectId)
    requires id !in log
    ensures Grants(log, id) == 0
  {
    if log != [] { NoGrants(log[..|log| - 1], id); }
  }

  lemma {:induction false} EnqueueKeepsLedger(s: State, step: Step)
    requires Ledger(s) && step.Enqueue?
    ensures Ledger(Apply(s, step))
  {
    var s', id := Apply(s, step), step.effect;
    if id !in s.effects {
      NoGrants(s.granted, id);
      forall c, k ensures Live(s', c, k) <==> Live(s, c, k) {}
      forall j, k ensures Holds(s', j, k) <==> Holds(s, j, k) {}
      forall k | k in s'.effects ensures EffectInv(s', k) {
        if k != id { EffectInvKept(s, s', k); }
      }
      forall r | r in s'.reapers ensures RowsStable(s', s'.reapers[r]) { assert RowsStable(s, s.reapers[r]); }
    }
  }

  /** A step that touches neither effects, claims, leases nor what anyone holds. */
  lemma {:induction false} OtherTablesKeepLedger(s: State, s': State)
    requires Ledger(s)
    requires s' == s.(calls := s'.calls, reapers := s'.reapers, successes := s'.successes, seen := s'.seen)
    requires forall k :: k in s'.calls ==> s'.calls[k].effect in s.effects
    requires forall k, id :: Holds(s', k, id) ==> Holds(s, k, id)
    requires forall r :: r in s'.reapers ==> RowsStable(s, s'.reapers[r])
    ensures Ledger(s')
  {
    forall c, k ensures Live(s', c, k) <==> Live(s, c, k) {}
    forall k | k in s'.effects ensures EffectInv(s', k) { EffectInvKept(s, s', k); }
    forall r | r in s'.reapers ensures RowsStable(s', s'.reapers[r]) {
      var p := s'.reapers[r];
      forall i | 0 <= i < |p.rows| ensures RowStable(s', p.rows[i], p.now) { assert RowStable(s, p.rows[i], p.now); }
    }
  }

  lemma {:induction false} TakeKeepsLedger(s: State, call: CallId)
    requires Ledger(s) && call in s.calls && s.calls[call].Chosen?
    requires s.calls[call].effect in s.effects && s.effects[s.calls[call].effect].status == Pending
    ensures Ledger(Apply(s, Take(call)))
  {
    var s', id := Apply(s, Take(call)), s.calls[call].effect;
    assert EffectInv(s, id);
    forall c, k ensures Live(s', c, k) <==> Live(s, c, k) {}
    forall j, k ensures Holds(s', j, k) <==> Holds(s, j, k) || (j == call && k == id) {}
    assert EffectInv(s', id);
    forall k | k in s'.effects ensures EffectInv(s', k) {
      if k != id { EffectInvKept(s, s', k); }
    }
    forall r | r in s'.reapers ensures RowsStable(s', s'.reapers[r]) { StableKept(s, s', s.reapers[r]); }
  }

  lemma {:induction false} StableKept(s: State, s': State, p: Reaping)
    requires RowsStable(s, p) && s.effects.Keys <= s'.effects.Keys
    requires forall c :: c in s.claims ==>
               c in s'.claims && s'.claims[c].effect == s.claims[c].effect && s'.claims[c].expiresAt == s.claims[c].expiresAt
    ensures RowsStable(s', p)
  {
    forall i | 0 <= i < |p.rows| ensures RowStable(s', p.rows[i], p.now) { assert RowStable(s, p.rows[i], p.now); }
  }

  lemma {:induction false} GrantMovesHold(s: State, call: CallId, claim: ClaimId)
    requires Ledger(s) && call in s.calls && s.calls[call].Won? && claim !in s.claims
    ensures var s', id := Apply(s, Grant(call, claim)), s.calls[call].effect;
            && (forall c, k :: Live(s', c, k) <==> Live(s, c, k) || (c == claim && k == id))
            && (forall j, k :: Holds(s', j, k) <==> Holds(s, j, k) && j != call)
            && (forall k :: Grants(s'.granted, k) == Grants(s.granted, k) + (if k == id then 1 else 0))
            && EffectInv(s', id) && s.effects[id].status != Pending
  {
    var s', id := Apply(s, Grant(call, claim)), s.calls[call].effect;
    assert EffectInv(s, id) && Holds(s, call, id);
    forall c, k ensures Live(s', c, k) <==> Live(s, c, k) || (c == claim && k == id) {}
    forall j, k ensures Holds(s', j, k) <==> Holds(s, j, k) && j != call {}
    assert s'.granted[..|s.granted|] == s.granted;
    forall k ensures !Holds(s', k, id) { if Holds(s, k, id) { assert k == call; } }
    forall c ensures !Live(s, c, id) { assert Live(s, c, id) ==> !Holds(s, call, id); }
  }

  lemma {:induction false} GrantKeepsEffect(s: State, call: CallId, claim: ClaimId, k: EffectId)
    requires Ledger(s) && call in s.calls && s.calls[call].Won? && claim !in s.claims && k in s.effects
    ensures EffectInv(Apply(s, Grant(call, claim)), k)
  {
    GrantMovesHold(s, call, claim);
    if k != s.calls[call].effect { EffectInvKept(s, Apply(s, Grant(call, claim)), k); }
  }

  lemma {:induction false} GrantKeepsLedger(s: State, call: CallId, claim: ClaimId)
    requires Ledger(s) && call in s.calls && s.calls[call].Won? && claim !in s.claims
    ensures Ledger(Apply(s, Grant(call, claim)))
  {
    var s' := Apply(s, Grant(call, claim));
    forall k | k in s'.effects ensures EffectInv(s', k) {
      GrantKeepsEffect(s, call, claim, k);
    }
    forall r | r in s'.reapers ensures RowsStable(s', s'.reapers[r]) { StableKept(s, s', s.reapers[r]); }
  }

  lemma {:induction false} ReportKeepsLedger(s: State, id: EffectId, status: Status)
    requires Ledger(s) && status != Pending && id in s.effects
    ensures Ledger(SetStatus(s, id, status))
  {
    var s' := SetStatus(s, id, status);
    forall c, k ensures Live(s', c, k) <==> Live(s, c, k) {}
    forall j, k ensures Holds(s', j, k) <==> Holds(s, j, k) {}
    forall k | k in s'.effects ensures EffectInv(s', k) {
      assert EffectInv(s, k);
      EffectInvKept(s, s', k);
    }
    forall r | r in s'.reapers ensures RowsStable(s', s'.reapers[r]) { StableKept(s, s', s.reapers[r]); }
  }

  lemma {:induction false} ReleaseKeepsLedger(s: State, r: ReaperId)
    requires Ledger(s)
    ensures Ledger(Apply(s, ReleaseClaim(r)))
  {
    var s' := Apply(s, ReleaseClaim(r));
    if s' != s {
      var p := s.reapers[r];
      var row := p.rows[0];
      assert RowsStable(s, p) && RowStable(s, row, p.now);
      forall c, k ensures Live(s', c, k) <==> Live(s, c, k) && c != row.claim {}
      forall j, k ensures Holds(s', j, k) <==> Holds(s, j, k) {}
      forall k | k in s'.effects ensures EffectInv(s', k) { EffectInvKept(s, s', k); }
      forall q | q in s'.reapers ensures RowsStable(s', s'.reapers[q]) { StableKept(s, s', s.reapers[q]); }
    }
  }

  /** The reaper gives an effect back, by a row it read, that someone holds by then or that has no
      attempts left by then. */
  ghost predicate Harmful(s: State, step: Step) {
    && step.ResetEffect? && step.reaper in s.reapers && s.reapers[step.reaper].released
    && s.reapers[step.reaper].rows != []
    && var row := s.reapers[step.reaper].rows[0];
       row.effect in s.effects && row.attempts < row.maxAttempts
       && (!Unheld(s, row.effect) || s.effects[row.effect].attempts == MAX_ATTEMPTS)
  }

  lemma {:induction false} ResetKeepsStable(s: State, r: ReaperId)
    requires Ledger(s)
    ensures var s' := Apply(s, ResetEffect(r)); forall q :: q in s'.reapers ==> RowsStable(s', s'.reapers[q])
  {
    var s' := Apply(s, ResetEffect(r));
    forall q | q in s'.reapers ensures RowsStable(s', s'.reapers[q]) {
      StableKept(s, s', s.reapers[q]);
      if s' != s && q == r { assert forall i :: 0 <= i < |s'.reapers[r].rows| ==> s'.reapers[r].rows[i] == s.reapers[r].rows[i + 1]; }
    }
  }

  lemma {:induction false} HarmlessResetKeepsLedger(s: State, r: ReaperId)
    requires Ledger(s) && !Harmful(s, ResetEffect(r))
    ensures Ledger(Apply(s, ResetEffect(r)))
  {
    var s' := Apply(s, ResetEffect(r));
    ResetKeepsStable(s, r);
    forall c, k ensures Live(s', c, k) <==> Live(s, c, k) {}
    forall j, k ensures Holds(s', j, k) <==> Holds(s, j, k) {}
    forall k | k in s'.effects ensures EffectInv(s', k) {
      assert EffectInv(s, k);
      EffectInvKept(s, s', k);
    }
  }

  /** Whatever is harmful leaves a pending effect that someone holds, or that has no attempts left. */
  lemma {:induction false} HarmBreaksLedger(s: State, r: ReaperId)
    requires Ledger(s) && Harmful(s, ResetEffect(r))
    ensures var s', id := Apply(s, ResetEffect(r)), s.reapers[r].rows[0].effect;
            && id in s'.effects && s'.effects[id].status == Pending && s'.effects[id].attempts == s.effects[id].attempts
            && (Unheld(s', id) <==> Unheld(s, id)) && !Ledger(s')
  {
    var s', id := Apply(s, ResetEffect(r)), s.reapers[r].rows[0].effect;
    forall c ensures Live(s', c, id) <==> Live(s, c, id) {}
    forall k ensures Holds(s', k, id) <==> Holds(s, k, id) {}
    assert !EffectInv(s', id);
  }

  lemma {:induction false} ReapKeepsLedger(s: State, step: Step)
    requires Ledger(s) && step.Reap?
    ensures Ledger(Apply(s, step))
  {
    var s' := Apply(s, step);
    if s' != s {
      var p := s'.reapers[step.reaper];
      forall i | 0 <= i < |p.rows| ensures RowStable(s, p.rows[i], p.now) {
        assert p.rows[i] in p.rows;
        assert EffectInv(s, p.rows[i].effect);
      }
      OtherTablesKeepLedger(s, s');
    }
  }

  lemma {:induction false} AnyTakeKeepsLedger(s: State, call: CallId)
    requires Ledger(s)
    ensures Ledger(Apply(s, Take(call)))
  {
    if call in s.calls && s.calls[call].Chosen? && s.calls[call].effect in s.effects {
      if s.effects[s.calls[call].effect].status == Pending {
        TakeKeepsLedger(s, call);
      } else {
        var s' := s.(calls := s.calls - {call});
        assert Apply(s, Take(call)) == s';
        OtherTablesKeepLedger(s, s');
      }
    }
  }

  lemma {:induction false} QuietStepKeepsLedger(s: State, step: Step)
    requires Ledger(s)
    requires step.StopReaper? || step.Register? || step.Heartbeat? || step.LogSuccess?
    ensures Ledger(Apply(s, step))
  {
    OtherTablesKeepLedger(s, Apply(s, step));
  }

  lemma {:induction false} SelectKeepsLedger(s: State, call: CallId, c: Call)
    requires Ledger(s) && call !in s.calls && c.Chosen? && c.effect in s.effects
    ensures Ledger(s.(calls := s.calls[call := c]))
  {
    OtherTablesKeepLedger(s, s.(calls := s.calls[call := c]));
  }

  lemma {:induction false} AbandonKeepsLedger(s: State, call: CallId)
    requires Ledger(s)
    ensures Ledger(s.(calls := s.calls - {call}))
  {
    OtherTablesKeepLedger(s, s.(calls := s.calls - {call}));
  }

  /** However many reapers are at work, a step keeps the ledger exactly when it is not harmful. */
  lemma {:induction false} StepKeepsLedgerExactlyWhen(s: State, step: Step)
    requires Ledger(s)
    ensures Ledger(Apply(s, step)) <==> !Harmful(s, step)
  {
    match step
    case Enqueue(_, _, _, _) => EnqueueKeepsLedger(s, step);
    case Select(call, worker, workspace, types, id, expiresAt) =>
      if call !in s.calls && OldestEligible(s, id, workspace, types) { SelectKeepsLedger(s, call, Chosen(id, worker, expiresAt)); }
    case Abandon(call) => AbandonKeepsLedger(s, call);
    case Take(call) => AnyTakeKeepsLedger(s, call);
    case Grant(call, claim) =>
      if call in s.calls && s.calls[call].Won? && claim !in s.claims { GrantKeepsLedger(s, call, claim); }
    case Reap(_, _, _) => ReapKeepsLedger(s, step);
    case ReleaseClaim(r) => ReleaseKeepsLedger(s, r);
    case ResetEffect(r) => if Harmful(s, step) { HarmBreaksLedger(s, r); } else { HarmlessResetKeepsLedger(s, r); }
    case Start(id) => if id in s.effects { ReportKeepsLedger(s, id, Running); }
    case Complete(id) => if id in s.effects { ReportKeepsLedger(s, id, Succeeded); }
    case Fail(id) => if id in s.effects { ReportKeepsLedger(s, id, Failed); }
    case _ => QuietStepKeepsLedger(s, step);
  }

  // ---------------------------------------------------------- one reaper

  /** A reaper's work list survives a step that leaves claims and running effects alone. */
  lemma {:induction false} RowsKept(s: State, s': State, r: ReaperId)
    requires r in s.reapers && ReapingInv(s, s.reapers[r])
    requires forall c :: c in s.claims ==> c in s'.claims && s'.claims[c] == s.claims[c]
    requires forall k :: k in s.effects && s.effects[k].status != Pending
               ==> k in s'.effects && s'.effects[k].status != Pending
                   && s'.effects[k].attempts == s.effects[k].attempts && s'.effects[k].maxAttempts == s.effects[k].maxAttempts
    requires s.reapers[r].released ==> Unheld(s', s.reapers[r].rows[0].effect)
    ensures ReapingInv(s', s.reapers[r])
  {
    var p := s.reapers[r];
    forall i | 0 <= i < |p.rows| ensures RowInv(s', p.rows[i]) { assert RowInv(s, p.rows[i]); }
  }

  /** A new unreleased claim comes from a call that had won the effect. */
  lemma {:induction false} ClaimsComeFromGrants(s: State, step: Step, c: ClaimId, id: EffectId)
    requires Live(Apply(s, step), c, id)
    ensures Live(s, c, id) || (step.Grant? && Holds(s, step.call, id))
  {
  }

  /** A call comes to hold only a pending effect. */
  lemma {:induction false} HoldsComeFromTakes(s: State, step: Step, k: CallId, id: EffectId)
    requires Holds(Apply(s, step), k, id)
    ensures Holds(s, k, id) || (id in s.effects && s.effects[id].status == Pending)
  {
  }

  /** Nobody comes to hold an effect that is unheld and not pending. */
  lemma {:induction false} StaysUnheld(s: State, step: Step, id: EffectId)
    requires id in s.effects && s.effects[id].status != Pending && Unheld(s, id)
    ensures Unheld(Apply(s, step), id)
  {
    var s' := Apply(s, step);
    forall c ensures !Live(s', c, id) { if Live(s', c, id) { ClaimsComeFromGrants(s, step, c, id); } }
    forall k ensures !Holds(s', k, id) { if Holds(s', k, id) { HoldsComeFromTakes(s, step, k, id); } }
  }

  /** Only a take, a report or the reaper changes an effect, and a take needs a pending one. */
  lemma {:induction false} RunningEffectKept(s: State, step: Step, id: EffectId)
    requires id in s.effects && s.effects[id].status != Pending && !step.ResetEffect?
    ensures var s' := Apply(s, step);
            && id in s'.effects && s'.effects[id].status != Pending
            && s'.effects[id].attempts == s.effects[id].attempts && s'.effects[id].maxAttempts == s.effects[id].maxAttempts
  {
  }

  lemma {:induction false} ClaimKept(s: State, step: Step, c: ClaimId)
    requires c in s.claims && !step.ReleaseClaim?
    ensures c in Apply(s, step).claims && Apply(s, step).claims[c] == s.claims[c]
  {
  }

  lemma {:induction false} ReapingKept(s: State, s': State, step: Step, r: ReaperId)
    requires Inv(s) && r in s.reapers && !step.ReleaseClaim? && !step.ResetEffect? && s' == Apply(s, step)
    ensures ReapingInv(s', s.reapers[r])
  {
    forall c | c in s.claims ensures c in s'.claims && s'.claims[c] == s.claims[c] { ClaimKept(s, step, c); }
    forall k | k in s.effects && s.effects[k].status != Pending
      ensures k in s'.effects && s'.effects[k].status != Pending
      ensures s'.effects[k].attempts == s.effects[k].attempts && s'.effects[k].maxAttempts == s.effects[k].maxAttempts
    {
      RunningEffectKept(s, step, k);
    }
    if s.reapers[r].released {
      assert ReapingInv(s, s.reapers[r]) && RowInv(s, s.reapers[r].rows[0]);
      StaysUnheld(s, step, s.reapers[r].rows[0].effect);
    }
    RowsKept(s, s', r);
  }

  lemma {:induction false} SnapshotIsReaping(s: State, now: nat, rows: seq<Row>)
    requires (forall id :: id in s.effects ==> EffectInv(s, id)) && rows != [] && Snapshot(s, now, rows)
    ensures ReapingInv(s, Reaping(now, rows, false))
  {
    forall i | 0 <= i < |rows|
      ensures RowInv(s, rows[i]) && Live(s, rows[i].claim, rows[i].effect)
      ensures s.claims[rows[i].claim].expiresAt < now
    {
      assert rows[i] in rows;
      assert RowOf(s, rows[i]) && Expired(s, now, rows[i].claim);
    }
    forall i, j | 0 <= i < j < |rows| ensures rows[i].effect != rows[j].effect {
      assert EffectInv(s, rows[i].effect);
      assert Live(s, rows[i].claim, rows[i].effect) && Live(s, rows[j].claim, rows[j].effect);
    }
  }

  lemma {:induction false} ReleaseKeepsReaping(s: State, r: ReaperId)
    requires Inv(s) && OneReaper(s)
    ensures var s' := Apply(s, ReleaseClaim(r)); forall q :: q in s'.reapers ==> ReapingInv(s', s'.reapers[q])
  {
    var s' := Apply(s, ReleaseClaim(r));
    if s' != s {
      var p := s.reapers[r];
      var row := p.rows[0];
      assert ReapingInv(s, p) && RowInv(s, row) && Live(s, row.claim, row.effect) && EffectInv(s, row.effect);
      forall c, k ensures Live(s', c, k) <==> Live(s, c, k) && c != row.claim {}
      forall j, k ensures Holds(s', j, k) <==> Holds(s, j, k) {}
      forall q | q in s'.reapers ensures ReapingInv(s', s'.reapers[q]) {
        assert q == r;
        forall i | 0 <= i < |p.rows| ensures RowInv(s', p.rows[i]) { assert RowInv(s, p.rows[i]); }
        forall i | 0 < i < |p.rows| ensures p.rows[i].claim != row.claim { assert p.rows[0].effect != p.rows[i].effect; }
        assert Unheld(s', row.effect);
      }
    }
  }

  lemma {:induction false} ResetKeepsReaping(s: State, r: ReaperId)
    requires Inv(s) && OneReaper(s)
    ensures var s' := Apply(s, ResetEffect(r)); forall q :: q in s'.reapers ==> ReapingInv(s', s'.reapers[q])
  {
    var s' := Apply(s, ResetEffect(r));
    if s' != s {
      var p := s.reapers[r];
      assert ReapingInv(s, p);
      forall c, k ensures Live(s', c, k) <==> Live(s, c, k) {}
      forall j, k ensures Holds(s', j, k) <==> Holds(s, j, k) {}
      forall q | q in s'.reapers ensures ReapingInv(s', s'.reapers[q]) {
        assert q == r;
        var rest := p.rows[1..];
        forall i | 0 <= i < |rest|
          ensures RowInv(s', rest[i]) && Live(s', rest[i].claim, rest[i].effect)
          ensures s'.claims[rest[i].claim].expiresAt < p.now
        {
          assert rest[i] == p.rows[i + 1] && p.rows[0].effect != p.rows[i + 1].effect;
          assert RowInv(s, p.rows[i + 1]);
        }
      }
    }
  }

  /** A reaper that nobody overtakes does no harm: what it released is still unheld. */
  lemma {:induction false} SoleReaperIsHarmless(s: State, step: Step)
    requires Inv(s)
    ensures !Harmful(s, step)
  {
    if step.ResetEffect? && step.reaper in s.reapers && s.reapers[step.reaper].released {
      var p := s.reapers[step.reaper];
      assert ReapingInv(s, p) && RowInv(s, p.rows[0]);
    }
  }

  lemma {:induction false} SnapshotSurvives(s: State, s': State, now: nat, rows: seq<Row>)
    requires s' == s.(reapers := s'.reapers) && Snapshot(s, now, rows)
    ensures Snapshot(s', now, rows)
  {
    forall c | c in s'.claims && Expired(s', now, c) ensures exists r :: r in rows && r.claim == c {
      assert Expired(s, now, c);
    }
    forall r | r in rows ensures RowOf(s', r) && Expired(s', now, r.claim) {
      assert RowOf(s, r) && Expired(s, now, r.claim);
    }
  }

  lemma {:induction false} NewReapingIsGood(s: State, step: Step, r: ReaperId)
    requires Inv(s) && r !in s.reapers && r in Apply(s, step).reapers
    ensures ReapingInv(Apply(s, step), Apply(s, step).reapers[r])
  {
    var s' := Apply(s, step);
    assert step.Reap? && step.reaper == r && s' == s.(reapers := s'.reapers);
    assert Snapshot(s', step.now, step.rows) by { SnapshotSurvives(s, s', step.now, step.rows); }
    forall id | id in s'.effects ensures EffectInv(s', id) { EffectInvKept(s, s', id); }
    SnapshotIsReaping(s', step.now, step.rows);
  }

  lemma {:induction false} OtherStepsKeepReaping(s: State, step: Step)
    requires Inv(s) && !step.ReleaseClaim? && !step.ResetEffect?
    ensures var s' := Apply(s, step); forall r :: r in s'.reapers ==> ReapingInv(s', s'.reapers[r])
  {
    var s' := Apply(s, step);
    forall r | r in s'.reapers ensures ReapingInv(s', s'.reapers[r]) {
      if r in s.reapers {
        ReapingKept(s, s', step, r);
      } else {
        NewReapingIsGood(s, step, r);
      }
    }
  }

  lemma {:induction false} StepKeepsInv(s: State, step: Step)
    requires Inv(s) && OneReaper(s)
    ensures Inv(Apply(s, step))
  {
    SoleReaperIsHarmless(s, step);
    StepKeepsLedgerExactlyWhen(s, step);
    if step.ReleaseClaim? {
      ReleaseKeepsReaping(s, step.reaper);
    } else if step.ResetEffect? {
      ResetKeepsReaping(s, step.reaper);
    } else {
      OtherStepsKeepReaping(s, step);
    }
  }

  lemma {:induction false} RunKeepsInv(steps: seq<Step>)
    requires OneReaperThroughout(steps)
    ensures Inv(Run(INITIAL, steps))
  {
    if steps != [] {
      RunKeepsInv(steps[..|steps| - 1]);
      StepKeepsInv(Run(INITIAL, steps[..|steps| - 1]), steps[|steps| - 1]);
    }
  }

  // -------------------------------------------------------- main results

  /** Lease discipline in every run with one reaper at a time, whatever start, complete and fail
      calls are mixed in: a pending effect is unclaimed and has attempts left, no effect ever has
      two unreleased claims, and a claim is only released after it expired. */
  lemma LeaseDiscipline(steps: seq<Step>)
    requires OneReaperThroughout(steps)
    ensures var s := Run(INITIAL, steps);
            && (forall id, c :: id in s.effects && s.effects[id].status == Pending ==> !Live(s, c, id))
            && (forall id :: id in s.effects && s.effects[id].status == Pending
                  ==> s.effects[id].attempts < s.effects[id].maxAttempts)
            && (forall id, c, d :: id in s.effects && Live(s, c, id) && Live(s, d, id) ==> c == d)
            && (forall c :: c in s.claims && s.claims[c].releasedAt.Some? ==> s.claims[c].expiresAt < s.claims[c].releasedAt.value)
  {
    RunKeepsInv(steps);
    var s := Run(INITIAL, steps);
    forall id | id in s.effects
      ensures s.effects[id].status == Pending ==> s.effects[id].attempts < s.effects[id].maxAttempts && Unheld(s, id)
      ensures HeldOnce(s, id)
    {
      assert EffectInv(s, id);
    }
  }

  lemma {:induction false} BoundedLog(log: seq<EffectId>, ids: set<EffectId>)
    requires forall id :: id in log ==> id in ids
    requires forall id :: id in ids ==> Grants(log, id) <= MAX_ATTEMPTS
    ensures |log| <= MAX_ATTEMPTS * |ids|
    decreases |ids|
  {
    if log != [] {
      var id := log[0];
      var rest := Without(log, id);
      WithoutCounts(log, id);
      forall k | k in ids - {id} ensures Grants(rest, k) <= MAX_ATTEMPTS { WithoutKeepsOthers(log, id, k); }
      BoundedLog(rest, ids - {id});
      assert |ids| == |ids - {id}| + 1;
    }
  }

  lemma {:induction false} WithoutCounts(log: seq<EffectId>, id: EffectId)
    ensures |log| == |Without(log, id)| + Grants(log, id)
    ensures forall k :: k in Without(log, id) ==> k in log && k != id
  {
    if log != [] {
      var init, last := log[..|log| - 1], log[|log| - 1];
      WithoutCounts(init, id);
      assert forall k :: k in log <==> k in init || k == last;
    }
  }

  lemma {:induction false} WithoutKeepsOthers(log: seq<EffectId>, id: EffectId, k: EffectId)
    requires k != id
    ensures Grants(Without(log, id), k) == Grants(log, k)
  {
    if log != [] {
      var init, last := log[..|log| - 1], log[|log| - 1];
      WithoutKeepsOthers(init, id, k);
      if last != id {
        assert (Without(init, id) + [last])[..|Without(init, id)|] == Without(init, id);
      } else {
        assert Without(init, id) + [] == Without(init, id);
      }
    }
  }

  /** Each effect is granted at most three times, so E effects admit at most 3·E leases. */
  lemma GrantsAreBounded(steps: seq<Step>)
    requires OneReaperThroughout(steps)
    ensures var s := Run(INITIAL, steps);
            && (forall id :: id in s.effects ==> Grants(s.granted, id) <= s.effects[id].attempts <= MAX_ATTEMPTS)
            && |s.granted| <= MAX_ATTEMPTS * |s.effects|
  {
    RunKeepsInv(steps);
    var s := Run(INITIAL, steps);
    forall id | id in s.effects ensures Grants(s.granted, id) <= s.effects[id].attempts <= MAX_ATTEMPTS {
      assert EffectInv(s, id);
    }
    BoundedLog(s.granted, s.effects.Keys);
  }

  predicate Terminal(s: State, id: EffectId) {
    id in s.effects && s.effects[id].status in {Succeeded, Failed}
  }

  lemma {:induction false} FinishedStaysFinished(s: State, step: Step, id: EffectId)
    requires Terminal(s, id) && step != Start(id) && !step.ResetEffect?
    ensures Terminal(Apply(s, step), id)
  {
  }

  lemma {:induction false} ResetReopensExactlyWhen(s: State, r: ReaperId, id: EffectId)
    requires Inv(s) && Terminal(s, id)
    ensures !Terminal(Apply(s, ResetEffect(r)), id) <==>
              r in s.reapers && s.reapers[r].released && s.reapers[r].rows[0].effect == id && s.effects[id].attempts < MAX_ATTEMPTS
  {
    if r in s.reapers {
      assert ReapingInv(s, s.reapers[r]);
      assert RowInv(s, s.reapers[r].rows[0]);
      assert EffectInv(s, s.reapers[r].rows[0].effect);
    }
  }

  /** A finished effect is reopened exactly by an unguarded start, or by the reaper acting on a
      row it read before the effect finished. */
  lemma {:induction false} ReopenedExactlyBy(s: State, step: Step, id: EffectId)
    requires Inv(s) && Terminal(s, id)
    ensures !Terminal(Apply(s, step), id) <==>
              (step == Start(id)
               || (step.ResetEffect? && step.reaper in s.reapers && s.reapers[step.reaper].released
                   && s.reapers[step.reaper].rows[0].effect == id
                   && s.effects[id].attempts < MAX_ATTEMPTS))
  {
    if step.ResetEffect? {
      ResetReopensExactlyWhen(s, step.reaper, id);
    } else if step != Start(id) {
      FinishedStaysFinished(s, step, id);
    }
  }

  // ----------------------------------------------- overlapping reapers

  const ROW := Row(0, 0, 1, MAX_ATTEMPTS)
  const WORK := Effect("ws", "shell.run", 0, Claimed, 1, MAX_ATTEMPTS, Some(7))

  /** One effect is leased, the lease has expired, and two reapers have read the expired claim. */
  const BOTH_READ := State(map[0 := WORK], map[0 := Claim(0, 7, 60, None)], map[],
                           map[0 := Reaping(100, [ROW], false), 1 := Reaping(100, [ROW], false)], [0], [], map[])

  /** `next` is reached from `s` by the steps listed. */
  ghost predicate Reaches(s: State, steps: seq<Step>, next: State) {
    Run(s, steps) == next
  }

  lemma Then(s: State, steps: seq<Step>, mid: State, step: Step, next: State)
    requires Reaches(s, steps, mid) && Apply(mid, step) == next
    ensures Reaches(s, steps + [step], next)
  {
    assert (steps + [step])[..|steps|] == steps;
  }

  lemma BothReadHappens() returns (t: seq<Step>)
    ensures Reaches(INITIAL, t, BOTH_READ)
  {
    t := [];
    var s := INITIAL;
    var s1 := State(map[0 := WORK.(status := Pending, attempts := 0, owner := None)], map[], map[], map[], [], [], map[]);
    var a := Enqueue(0, "ws", "shell.run", 0);
    Then(INITIAL, t, s, a, s1);
    t := t + [a];
    var s2 := s1.(calls := map[0 := Chosen(0, 7, 60)]);
    var b := Select(0, 7, "ws", {"shell.run"}, 0, 60);
    Then(INITIAL, t, s1, b, s2);
    t := t + [b];
    var s3 := s2.(effects := map[0 := WORK], calls := map[0 := Won(0, 7, 60)]);
    Then(INITIAL, t, s2, Take(0), s3);
    t := t + [Take(0)];
    var s4 := State(map[0 := WORK], map[0 := Claim(0, 7, 60, None)], map[], map[], [0], [], map[]);
    Then(INITIAL, t, s3, Grant(0, 0), s4);
    t := t + [Grant(0, 0)];
    t := BothReadFrom(t, s4);
  }

  lemma BothReadFrom(t0: seq<Step>, s4: State) returns (t: seq<Step>)
    requires s4 == State(map[0 := WORK], map[0 := Claim(0, 7, 60, None)], map[], map[], [0], [], map[])
    requires Reaches(INITIAL, t0, s4)
    ensures Reaches(INITIAL, t, BOTH_READ)
  {
    assert Expired(s4, 100, 0) && ROW in [ROW];
    var s5 := s4.(reapers := map[0 := Reaping(100, [ROW], false)]);
    var first, other := Reap(0, 100, [ROW]), Reap(1, 100, [ROW]);
    Then(INITIAL, t0, s4, first, s5);
    assert Expired(s5, 100, 0) && ROW in [ROW];
    Then(INITIAL, t0 + [first], s5, other, BOTH_READ);
    t := t0 + [first] + [other];
  }

  const TAKEN := Claim(0, 7, 60, Some(100))
  const AGAIN := Claim(0, 8, 160, None)
  const LATE := Reaping(100, [ROW], false)
  const SECOND := WORK.(attempts := 2, owner := Some(8))

  /** The first reaper finishes and another worker gets the lease. */
  const LEASED_AGAIN := State(map[0 := SECOND], map[0 := TAKEN, 1 := AGAIN], map[], map[1 := LATE], [0, 0], [], map[])

  const RETURNED := BOTH_READ.(effects := map[0 := WORK.(status := Pending, owner := None)], claims := map[0 := TAKEN],
                              reapers := map[1 := LATE])

  lemma ReturnedHappens(t0: seq<Step>) returns (t: seq<Step>)
    requires Reaches(INITIAL, t0, BOTH_READ)
    ensures Reaches(INITIAL, t, RETURNED)
  {
    var s1 := BOTH_READ.(claims := map[0 := TAKEN], reapers := map[0 := LATE.(released := true), 1 := LATE]);
    Then(INITIAL, t0, BOTH_READ, ReleaseClaim(0), s1);
    t := t0 + [ReleaseClaim(0)];
    Then(INITIAL, t, s1, ResetEffect(0), RETURNED);
    t := t + [ResetEffect(0)];
  }

  lemma LeasedAgainHappens(t0: seq<Step>) returns (t: seq<Step>)
    requires Reaches(INITIAL, t0, RETURNED)
    ensures Reaches(INITIAL, t, LEASED_AGAIN)
  {
    var s3 := RETURNED.(calls := map[1 := Chosen(0, 8, 160)]);
    var b := Select(1, 8, "ws", {"shell.run"}, 0, 160);
    Then(INITIAL, t0, RETURNED, b, s3);
    t := t0 + [b];
    var s4 := s3.(effects := map[0 := SECOND], calls := map[1 := Won(0, 8, 160)]);
    Then(INITIAL, t, s3, Take(1), s4);
    t := t + [Take(1)];
    Then(INITIAL, t, s4, Grant(1, 1), LEASED_AGAIN);
    t := t + [Grant(1, 1)];
  }

  /** With overlapping reapers the discipline fails: the second reaper resets the effect after
      it was leased again, and the effect is pending while its new claim is unreleased. */
  lemma OverlappingReapersBreakDiscipline()
    ensures exists t :: var s := Run(INITIAL, t); 0 in s.effects && s.effects[0].status == Pending && Live(s, 1, 0)
  {
    var t := BothReadHappens();
    t := ReturnedHappens(t);
    t := LeasedAgainHappens(t);
    var s1 := LEASED_AGAIN.(reapers := map[1 := LATE.(released := true)]);
    Then(INITIAL, t, LEASED_AGAIN, ReleaseClaim(1), s1);
    t := t + [ReleaseClaim(1)];
    var s2 := s1.(effects := map[0 := SECOND.(status := Pending, owner := None)], reapers := map[]);
    Then(INITIAL, t, s1, ResetEffect(1), s2);
    assert Reaches(INITIAL, t + [ResetEffect(1)], s2) && Live(s2, 1, 0);
  }
}
