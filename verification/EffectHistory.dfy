/** What the columns of an effect of crates/actant-effects/src/lib.rs say about the run so far. */
module EffectHistory {
  import opened Common
  import opened Effects
  import opened EffectQueue

  /** The guarded update of a claim hits the effect that the call chose. */
  predicate Wins(s: State, step: Step, id: EffectId) {
    && step.Take? && step.call in s.calls && s.calls[step.call].Chosen? && s.calls[step.call].effect == id
    && id in s.effects && s.effects[id].status == Pending
  }

  /** The second update of a reaper's loop is about the effect. */
  predicate GivesBack(s: State, step: Step, id: EffectId) {
    && step.ResetEffect? && step.reaper in s.reapers && s.reapers[step.reaper].released
    && s.reapers[step.reaper].rows != [] && s.reapers[step.reaper].rows[0].effect == id
  }

  predicate Touches(s: State, step: Step, id: EffectId) {
    || (step.Enqueue? && step.effect == id && id !in s.effects)
    || Wins(s, step, id)
    || (id in s.effects && (step == Start(id) || step == Complete(id) || step == Fail(id) || GivesBack(s, step, id)))
  }

  /** The last step of a run that touched the effect. */
  ghost function LastTouch(steps: seq<Step>, id: EffectId): Option<Step> {
    if steps == [] then None
    else if Touches(Run(INITIAL, steps[..|steps| - 1]), steps[|steps| - 1], id) then Some(steps[|steps| - 1])
    else LastTouch(steps[..|steps| - 1], id)
  }

  predicate Tells(step: Step, status: Status) {
    match step
    case Enqueue(_, _, _, _) => status == Pending
    case Take(_) => status == Claimed
    case Start(_) => status == Running
    case Complete(_) => status == Succeeded
    case Fail(_) => status == Failed
    case ResetEffect(_) => status == Pending || status == Failed
    case _ => false
  }

  lemma {:induction false} UntouchedStays(s: State, step: Step, id: EffectId)
    requires !Touches(s, step, id)
    ensures id in s.effects <==> id in Apply(s, step).effects
    ensures id in s.effects ==> Apply(s, step).effects[id] == s.effects[id]
  {
  }

  lemma {:induction false} TouchTells(s: State, step: Step, id: EffectId)
    requires Touches(s, step, id)
    ensures id in Apply(s, step).effects && Tells(step, Apply(s, step).effects[id].status)
  {
  }

  /** In every run, however many reapers overlap: the status of an effect tells the last step that
      touched it. It has succeeded exactly when that was a completion. */
  lemma {:induction false} StatusTellsTheLastTouch(steps: seq<Step>, id: EffectId)
    ensures LastTouch(steps, id).Some? <==> id in Run(INITIAL, steps).effects
    ensures id in Run(INITIAL, steps).effects ==>
              && Tells(LastTouch(steps, id).value, Run(INITIAL, steps).effects[id].status)
              && (Run(INITIAL, steps).effects[id].status == Succeeded <==> LastTouch(steps, id) == Some(Complete(id)))
  {
    if steps != [] {
      var init, last := steps[..|steps| - 1], steps[|steps| - 1];
      StatusTellsTheLastTouch(init, id);
      if Touches(Run(INITIAL, init), last, id) {
        TouchTells(Run(INITIAL, init), last, id);
      } else {
        UntouchedStays(Run(INITIAL, init), last, id);
      }
    }
  }

  // ------------------------------------------------------------- attempts

  ghost function WinsOf(steps: seq<Step>, id: EffectId): nat {
    if steps == [] then 0
    else WinsOf(steps[..|steps| - 1], id) + if Wins(Run(INITIAL, steps[..|steps| - 1]), steps[|steps| - 1], id) then 1 else 0
  }

  lemma {:induction false} StepCountsAttempts(s: State, step: Step, id: EffectId)
    ensures id in s.effects ==>
              && id in Apply(s, step).effects
              && Apply(s, step).effects[id].attempts == s.effects[id].attempts + if Wins(s, step, id) then 1 else 0
    ensures id !in s.effects && id in Apply(s, step).effects ==> Apply(s, step).effects[id].attempts == 0
  {
    if !Touches(s, step, id) { UntouchedStays(s, step, id); }
  }

  /** In every run the attempts of an effect are the claims that won it. */
  lemma {:induction false} AttemptsAreWins(steps: seq<Step>, id: EffectId)
    ensures id in Run(INITIAL, steps).effects ==> Run(INITIAL, steps).effects[id].attempts == WinsOf(steps, id)
    ensures id !in Run(INITIAL, steps).effects ==> WinsOf(steps, id) == 0
  {
    if steps != [] {
      AttemptsAreWins(steps[..|steps| - 1], id);
      StepCountsAttempts(Run(INITIAL, steps[..|steps| - 1]), steps[|steps| - 1], id);
    }
  }

  /** The row that records a success carries the number of claims that had won the effect by then,
      and no other step adds or removes such a row. */
  lemma {:induction false} SuccessesAreRecorded(steps: seq<Step>, step: Step)
    ensures var s, s' := Run(INITIAL, steps), Run(INITIAL, steps + [step]);
            s'.successes == s.successes +
              if step.LogSuccess? && step.effect in s.effects then [Success(step.effect, WinsOf(steps, step.effect))] else []
  {
    RunExtends(INITIAL, steps, step);
    if step.LogSuccess? { AttemptsAreWins(steps, step.effect); }
  }

  // --------------------------------------------------------------- workers

  predicate HeardFrom(step: Step, w: WorkerId) {
    (step.Register? || step.Heartbeat?) && step.worker == w
  }

  predicate Registered(steps: seq<Step>, w: WorkerId) {
    exists i :: 0 <= i < |steps| && steps[i].Register? && steps[i].worker == w
  }

  /** Step `i` is the last that the worker was heard from in, at that time. */
  predicate LastHeardIn(steps: seq<Step>, w: WorkerId, at: nat, i: int) {
    0 <= i < |steps| && HeardFrom(steps[i], w) && steps[i].at == at && forall j :: i < j < |steps| ==> !HeardFrom(steps[j], w)
  }

  lemma {:induction false} LastHeardExtends(steps: seq<Step>, step: Step, w: WorkerId, at: nat, i: int)
    requires LastHeardIn(steps, w, at, i) && !HeardFrom(step, w)
    ensures LastHeardIn(steps + [step], w, at, i)
  {
  }

  lemma {:induction false} RegisteredExtends(steps: seq<Step>, step: Step, w: WorkerId)
    ensures Registered(steps + [step], w) <==> Registered(steps, w) || (step.Register? && step.worker == w)
  {
    var all := steps + [step];
    assert all[|steps|] == step && forall i :: 0 <= i < |steps| ==> all[i] == steps[i];
  }

  /** A worker is known exactly when it has registered, and was last heard of at its latest
      registration or heartbeat. */
  lemma {:induction false} SeenIsLastHeard(steps: seq<Step>, w: WorkerId)
    ensures w in Run(INITIAL, steps).seen <==> Registered(steps, w)
    ensures w in Run(INITIAL, steps).seen ==> exists i :: LastHeardIn(steps, w, Run(INITIAL, steps).seen[w], i)
  {
    if steps != [] {
      var init, last := steps[..|steps| - 1], steps[|steps| - 1];
      var s := Run(INITIAL, init);
      assert steps == init + [last];
      SeenIsLastHeard(init, w);
      SeenChanges(s, last, w);
      RegisteredExtends(init, last, w);
      if w in Run(INITIAL, steps).seen {
        if HeardFrom(last, w) {
          assert LastHeardIn(steps, w, last.at, |init|);
        } else {
          var i :| LastHeardIn(init, w, s.seen[w], i);
          LastHeardExtends(init, last, w, s.seen[w], i);
        }
      }
    }
  }

  lemma {:induction false} SeenChanges(s: State, step: Step, w: WorkerId)
    ensures w in Apply(s, step).seen <==> w in s.seen || (step.Register? && step.worker == w)
    ensures w in Apply(s, step).seen ==> Apply(s, step).seen[w] == if HeardFrom(step, w) then step.at else s.seen[w]
  {
  }

  // ------------------------------------------------------------- terms

  /** What an effect was enqueued with never changes. */
  lemma {:induction false} TermsStay(s: State, steps: seq<Step>, id: EffectId)
    requires id in s.effects
    ensures var s' := Run(s, steps);
            && id in s'.effects && s'.effects[id].workspace == s.effects[id].workspace
            && s'.effects[id].effectType == s.effects[id].effectType && s'.effects[id].createdAt == s.effects[id].createdAt
            && s'.effects[id].maxAttempts == s.effects[id].maxAttempts
  {
    if steps != [] {
      TermsStay(s, steps[..|steps| - 1], id);
      TermsStayForOne(Run(s, steps[..|steps| - 1]), steps[|steps| - 1], id);
    }
  }

  lemma {:induction false} TermsStayForOne(s: State, step: Step, id: EffectId)
    requires id in s.effects
    ensures var s' := Apply(s, step);
            && id in s'.effects && s'.effects[id].workspace == s.effects[id].workspace
            && s'.effects[id].effectType == s.effects[id].effectType && s'.effects[id].createdAt == s.effects[id].createdAt
            && s'.effects[id].maxAttempts == s.effects[id].maxAttempts
  {
    if !Touches(s, step, id) { UntouchedStays(s, step, id); }
  }

  /** A free call chooses an effect exactly when it is pending in the workspace asked for, of a type
      asked for, and none such is older. */
  lemma {:induction false} SelectPicksAnOldest(s: State, call: CallId, worker: WorkerId, workspace: string,
                                               types: set<string>, id: EffectId, expiresAt: nat)
    requires call !in s.calls
    ensures var s' := Apply(s, Select(call, worker, workspace, types, id, expiresAt));
            && (call in s'.calls <==>
                  && id in s.effects && s.effects[id].workspace == workspace && s.effects[id].effectType in types
                  && s.effects[id].status == Pending
                  && forall k | k in s.effects && s.effects[k].workspace == workspace
                                && s.effects[k].effectType in types && s.effects[k].status == Pending ::
                       s.effects[id].createdAt <= s.effects[k].createdAt)
            && (call in s'.calls ==> s'.calls[call] == Chosen(id, worker, expiresAt))
  {
    if OldestEligible(s, id, workspace, types) {
      forall k | k in s.effects && s.effects[k].workspace == workspace && s.effects[k].effectType in types
                 && s.effects[k].status == Pending
        ensures s.effects[id].createdAt <= s.effects[k].createdAt
      {
        assert Eligible(s.effects[k], workspace, types);
      }
    }
  }

  // ------------------------------------------------------------- owners

  /** Whoever holds, or is about to hold, an effect is the worker assigned to it. */
  ghost predicate Owned(s: State) {
    && (forall c, id :: Live(s, c, id) ==> id in s.effects && s.effects[id].owner == Some(s.claims[c].worker))
    && (forall k, id :: Holds(s, k, id) ==> id in s.effects && s.effects[id].owner == Some(s.calls[k].worker))
  }

  lemma {:induction false} OwnerStays(s: State, step: Step, id: EffectId)
    requires id in s.effects && !Wins(s, step, id) && !GivesBack(s, step, id)
    ensures id in Apply(s, step).effects && Apply(s, step).effects[id].owner == s.effects[id].owner
  {
    if !Touches(s, step, id) { UntouchedStays(s, step, id); }
  }

  /** What is held is neither won again nor given back. */
  lemma {:induction false} HeldIsLeftAlone(s: State, step: Step, id: EffectId)
    requires Inv(s) && id in s.effects && !Unheld(s, id)
    ensures !Wins(s, step, id) && !GivesBack(s, step, id)
  {
    assert EffectInv(s, id);
    if step.ResetEffect? && step.reaper in s.reapers { assert ReapingInv(s, s.reapers[step.reaper]); }
  }

  lemma {:induction false} WorkerOfClaim(s: State, step: Step, c: ClaimId, id: EffectId)
    requires Live(Apply(s, step), c, id)
    ensures (Live(s, c, id) && Apply(s, step).claims[c].worker == s.claims[c].worker)
            || (step.Grant? && Holds(s, step.call, id) && Apply(s, step).claims[c].worker == s.calls[step.call].worker)
  {
  }

  lemma {:induction false} WorkerOfCall(s: State, step: Step, k: CallId, id: EffectId)
    requires Holds(Apply(s, step), k, id)
    ensures (Holds(s, k, id) && Apply(s, step).calls[k].worker == s.calls[k].worker)
            || (Wins(s, step, id) && id in Apply(s, step).effects
                && Apply(s, step).effects[id].owner == Some(Apply(s, step).calls[k].worker))
  {
  }

  lemma {:induction false} LiveStaysOwned(s: State, step: Step, c: ClaimId, id: EffectId)
    requires Inv(s) && Owned(s) && Live(Apply(s, step), c, id)
    ensures id in Apply(s, step).effects && Apply(s, step).effects[id].owner == Some(Apply(s, step).claims[c].worker)
  {
    WorkerOfClaim(s, step, c, id);
    HeldIsLeftAlone(s, step, id);
    OwnerStays(s, step, id);
  }

  lemma {:induction false} HeldStaysOwned(s: State, step: Step, k: CallId, id: EffectId)
    requires Inv(s) && Owned(s) && Holds(Apply(s, step), k, id)
    ensures id in Apply(s, step).effects && Apply(s, step).effects[id].owner == Some(Apply(s, step).calls[k].worker)
  {
    WorkerOfCall(s, step, k, id);
    if Holds(s, k, id) {
      HeldIsLeftAlone(s, step, id);
      OwnerStays(s, step, id);
    }
  }

  /** In every run with one reaper at a time an effect that is held is assigned to its holder. */
  lemma {:induction false} HolderIsTheOwner(steps: seq<Step>)
    requires OneReaperThroughout(steps)
    ensures Owned(Run(INITIAL, steps))
  {
    if steps != [] {
      var init, last := steps[..|steps| - 1], steps[|steps| - 1];
      var s, s' := Run(INITIAL, init), Run(INITIAL, steps);
      HolderIsTheOwner(init);
      RunKeepsInv(init);
      forall c, id | Live(s', c, id) ensures id in s'.effects && s'.effects[id].owner == Some(s'.claims[c].worker) {
        LiveStaysOwned(s, last, c, id);
      }
      forall k, id | Holds(s', k, id) ensures id in s'.effects && s'.effects[id].owner == Some(s'.calls[k].worker) {
        HeldStaysOwned(s, last, k, id);
      }
    }
  }
}
