/** Dispatches that overlap: lookup, command and record of crates/actant-command/src/lib.rs
    (dispatch) as separate steps, interleaved in any way. */
module DispatchRaces {
  import opened Common
  import opened Dispatch

  datatype Answer = Answer(call: Call, reply: Reply)

  /** `missed` are the calls whose lookup found nothing, `ran` those whose command has succeeded
      but is not recorded yet; then the answers given, by kind. */
  datatype Tables = Tables(records: map<Scope, string>, missed: multiset<Call>, ran: multiset<Call>,
                           failed: seq<Answer>, won: seq<Answer>, told: seq<Answer>)

  datatype Step = LookUp(call: Call) | Execute(call: Call) | Record(call: Call)

  const START := Tables(map[], multiset{}, multiset{}, [], [], [])

  /** A step that is not possible leaves the tables as they are. */
  function Apply(t: Tables, step: Step): Tables {
    match step
    case LookUp(c) =>
      if Found(t.records, c) then t.(told := t.told + [Answer(c, Replayed(t.records[(c.workspace, c.key.value)]))])
      else t.(missed := t.missed + multiset{c})
    case Execute(c) =>
      if c !in t.missed then t
      else if c.succeeds then t.(missed := t.missed - multiset{c}, ran := t.ran + multiset{c})
      else t.(missed := t.missed - multiset{c}, failed := t.failed + [Answer(c, Reply.Failed)])
    case Record(c) =>
      if c !in t.ran then t
      else t.(records := Recorded(t.records, c), ran := t.ran - multiset{c}, won := t.won + [Answer(c, Executed(c.id))])
  }

  function Interleaved(steps: seq<Step>): Tables {
    if steps == [] then START else Apply(Interleaved(steps[..|steps| - 1]), steps[|steps| - 1])
  }

  predicate Finished(t: Tables) {
    t.missed == multiset{} && t.ran == multiset{}
  }

  /** The answers of calls dispatched one after the other. */
  function Answers(calls: seq<Call>): (r: seq<Answer>)
    ensures |r| == |calls|
  {
    if calls == [] then []
    else
      var init, c := calls[..|calls| - 1], calls[|calls| - 1];
      Answers(init) + [Answer(c, Dispatched(Run(init), c).1)]
  }

  /** The answers given so far, in no particular order. */
  function Given(t: Tables): multiset<Answer> {
    multiset(t.failed) + multiset(t.won) + multiset(t.told)
  }

  function InOneGo(t: Tables, c: Call): Tables {
    Apply(Apply(Apply(t, LookUp(c)), Execute(c)), Record(c))
  }

  lemma {:induction false} ReplayInOneGo(t: Tables, c: Call)
    requires Finished(t) && Found(t.records, c)
    ensures InOneGo(t, c) == t.(told := t.told + [Answer(c, Replayed(t.records[(c.workspace, c.key.value)]))])
  {
  }

  lemma {:induction false} RunInOneGo(t: Tables, c: Call)
    requires Finished(t) && !Found(t.records, c)
    ensures InOneGo(t, c) ==
              if c.succeeds then t.(records := Recorded(t.records, c), won := t.won + [Answer(c, Executed(c.id))])
              else t.(failed := t.failed + [Answer(c, Reply.Failed)])
  {
    assert multiset{} + multiset{c} - multiset{c} == multiset{};
    var t1 := t.(missed := multiset{c});
    assert Apply(t, LookUp(c)) == t1;
  }

  /** One call whose steps nothing comes between is one dispatch. */
  lemma {:induction false} DispatchIsItsSteps(t: Tables, c: Call)
    requires Finished(t)
    ensures var (s, r) := Dispatched(State(t.records, []), c);
            && Finished(InOneGo(t, c)) && InOneGo(t, c).records == s.records
            && Given(InOneGo(t, c)) == Given(t) + multiset{Answer(c, r)}
  {
    if Found(t.records, c) { ReplayInOneGo(t, c); } else { RunInOneGo(t, c); }
  }

  // ------------------------------------------------- successes of one key

  predicate Win(a: Answer, scope: Scope) {
    a.reply.Executed? && Uses(a.call, scope)
  }

  function Wins(answers: seq<Answer>, scope: Scope): nat {
    if answers == [] then 0
    else Wins(answers[..|answers| - 1], scope) + if Win(answers[|answers| - 1], scope) then 1 else 0
  }

  lemma {:induction false} WinsSplit(a: seq<Answer>, b: seq<Answer>, scope: Scope)
    ensures Wins(a + b, scope) == Wins(a, scope) + Wins(b, scope)
  {
    if b == [] {
      assert a + b == a;
    } else {
      WinsSplit(a, b[..|b| - 1], scope);
      assert (a + b)[..|a + b| - 1] == a + b[..|b| - 1];
    }
  }

  lemma {:induction false} NoWins(answers: seq<Answer>, scope: Scope)
    requires forall a :: a in answers ==> !Win(a, scope)
    ensures Wins(answers, scope) == 0
  {
    if answers != [] { NoWins(answers[..|answers| - 1], scope); }
  }

  lemma BagWithout(a: seq<Answer>, init: seq<Answer>, x: Answer, b: seq<Answer>, before: seq<Answer>, after: seq<Answer>)
    requires a == init + [x] && b == before + [x] + after && multiset(a) == multiset(b)
    ensures multiset(init) == multiset(before + after)
  {
    assert multiset(a) - multiset{x} == multiset(init);
    assert multiset(b) == multiset(before) + multiset{x} + multiset(after);
    assert multiset(b) - multiset{x} == multiset(before + after);
  }

  /** How many answers are wins does not depend on their order. */
  lemma {:induction false} WinsOfBag(a: seq<Answer>, b: seq<Answer>, scope: Scope)
    requires multiset(a) == multiset(b)
    ensures Wins(a, scope) == Wins(b, scope)
    decreases |a|
  {
    if a == [] {
      assert |multiset(b)| == 0;
    } else {
      var init, last := a[..|a| - 1], a[|a| - 1];
      assert a == init + [last];
      assert last in multiset(b);
      var i :| 0 <= i < |b| && b[i] == last;
      var before, after := b[..i], b[i + 1..];
      assert b == before + [last] + after;
      BagWithout(a, init, last, b, before, after);
      WinsOfBag(init, before + after, scope);
      WinsSplit(before, after, scope);
      WinsSplit(before + [last], after, scope);
      WinsSplit(before, [last], scope);
      WinsSplit(init, [last], scope);
    }
  }

  /** Lookups with the key that came before it was first recorded, by calls that will succeed. */
  function EarlyLookups(steps: seq<Step>, scope: Scope): nat {
    if steps == [] then 0
    else
      var init, last := steps[..|steps| - 1], steps[|steps| - 1];
      EarlyLookups(init, scope)
      + if last.LookUp? && Uses(last.call, scope) && last.call.succeeds && scope !in Interleaved(init).records then 1 else 0
  }

  predicate WillWin(c: Call, scope: Scope) {
    Uses(c, scope) && c.succeeds
  }

  /** The calls of a bag that will win the key, with their number. */
  ghost function Winning(bag: multiset<Call>, scope: Scope): nat
    decreases |bag|
  {
    if bag == multiset{} then 0
    else
      var c :| c in bag;
      Winning(bag - multiset{c}, scope) + if WillWin(c, scope) then 1 else 0
  }

  lemma {:induction false} WinningWithout(bag: multiset<Call>, c: Call, scope: Scope)
    requires c in bag
    ensures Winning(bag, scope) == Winning(bag - multiset{c}, scope) + if WillWin(c, scope) then 1 else 0
    decreases |bag|
  {
    var d :| d in bag && Winning(bag, scope) == Winning(bag - multiset{d}, scope) + if WillWin(d, scope) then 1 else 0;
    if d != c {
      WinningWithout(bag - multiset{d}, c, scope);
      WinningWithout(bag - multiset{c}, d, scope);
      assert bag - multiset{d} - multiset{c} == bag - multiset{c} - multiset{d};
    }
  }

  lemma WinningWith(bag: multiset<Call>, c: Call, scope: Scope)
    ensures Winning(bag + multiset{c}, scope) == Winning(bag, scope) + if WillWin(c, scope) then 1 else 0
  {
    WinningWithout(bag + multiset{c}, c, scope);
    assert bag + multiset{c} - multiset{c} == bag;
  }

  /** What every interleaving keeps: the records are those of the wins so far, and every replay told
      the id that its key stands for. */
  ghost predicate Kept(t: Tables) {
    && (forall a :: a in t.failed ==> !a.call.succeeds && a.reply == Reply.Failed)
    && (forall a :: a in t.won ==> a.call.succeeds && a.reply == Executed(a.call.id))
    && (forall a :: a in t.told ==>
          Found(t.records, a.call) && a.reply == Replayed(t.records[(a.call.workspace, a.call.key.value)]))
    && (forall c :: c in t.ran ==> c.succeeds)
    && t.records == RecordsOf(t.won)
  }

  /** The first win of a key is recorded. */
  function RecordsOf(won: seq<Answer>): map<Scope, string> {
    if won == [] then map[] else Recorded(RecordsOf(won[..|won| - 1]), won[|won| - 1].call)
  }

  lemma {:induction false} RecordKeepsKept(t: Tables, c: Call)
    requires Kept(t) && c in t.ran
    ensures Kept(Apply(t, Record(c)))
  {
    var t', a := Apply(t, Record(c)), Answer(c, Executed(c.id));
    assert t'.won == t.won + [a] && t'.won[..|t'.won| - 1] == t.won;
    forall b | b in t'.won ensures b.call.succeeds && b.reply == Executed(b.call.id) { assert b in t.won || b == a; }
  }

  lemma {:induction false} StepKeepsKept(t: Tables, step: Step)
    requires Kept(t)
    ensures Kept(Apply(t, step))
  {
    if step.Record? {
      if step.call in t.ran { RecordKeepsKept(t, step.call); }
    }
  }

  lemma {:induction false} InterleavedIsKept(steps: seq<Step>)
    ensures Kept(Interleaved(steps))
  {
    if steps != [] {
      InterleavedIsKept(steps[..|steps| - 1]);
      StepKeepsKept(Interleaved(steps[..|steps| - 1]), steps[|steps| - 1]);
    }
  }

  ghost function UnderWay(t: Tables, scope: Scope): nat {
    Winning(t.missed, scope) + Winning(t.ran, scope) + Wins(t.won, scope)
  }

  lemma {:induction false} StepCounts(t: Tables, step: Step, scope: Scope)
    requires Kept(t)
    ensures UnderWay(Apply(t, step), scope) == UnderWay(t, scope)
              + if step.LookUp? && WillWin(step.call, scope) && scope !in t.records then 1 else 0
  {
    var c := step.call;
    if step.LookUp? {
      WinningWith(t.missed, c, scope);
      if Uses(c, scope) { assert scope == (c.workspace, c.key.value); }
    } else if step.Execute? && c in t.missed {
      WinningWithout(t.missed, c, scope);
      WinningWith(t.ran, c, scope);
    } else if step.Record? && c in t.ran {
      RecordCounts(t, c, scope);
    }
  }

  lemma {:induction false} RecordCounts(t: Tables, c: Call, scope: Scope)
    requires Kept(t) && c in t.ran
    ensures UnderWay(Apply(t, Record(c)), scope) == UnderWay(t, scope)
  {
    WinningWithout(t.ran, c, scope);
    WinsSplit(t.won, [Answer(c, Executed(c.id))], scope);
  }

  /** In every interleaving, whatever other keys do: the calls with a key that have succeeded or will
      are exactly as many as those that looked up before the key was first recorded. */
  lemma {:induction false} EveryEarlyLookupSucceeds(steps: seq<Step>, scope: Scope)
    ensures UnderWay(Interleaved(steps), scope) == EarlyLookups(steps, scope)
    ensures Finished(Interleaved(steps)) ==> Wins(Interleaved(steps).won, scope) == EarlyLookups(steps, scope)
  {
    if steps != [] {
      var init, last := steps[..|steps| - 1], steps[|steps| - 1];
      EveryEarlyLookupSucceeds(init, scope);
      InterleavedIsKept(init);
      StepCounts(Interleaved(init), last, scope);
    }
  }

  // ------------------------------------------------------- serializability

  /** Some order of whole dispatches gives every call the same answer and leaves the same records. */
  ghost predicate Serial(t: Tables) {
    exists calls :: SameAs(t, calls)
  }

  ghost predicate SameAs(t: Tables, calls: seq<Call>) {
    Run(calls).records == t.records && multiset(Answers(calls)) == Given(t)
  }

  function CallsOf(answers: seq<Answer>): (r: seq<Call>)
    ensures |r| == |answers| && forall i :: 0 <= i < |r| ==> r[i] == answers[i].call
  {
    seq(|answers|, i requires 0 <= i < |answers| => answers[i].call)
  }

  /** Dispatching `more` after `done` gives the answers listed and leaves the records given. */
  ghost predicate Continues(done: seq<Call>, answers: seq<Answer>, records: map<Scope, string>) {
    Run(done).records == records && Answers(done) == answers
  }

  lemma {:induction false} OneMore(done: seq<Call>, answers: seq<Answer>, records: map<Scope, string>, a: Answer,
                                   after: map<Scope, string>)
    requires Continues(done, answers, records)
    requires forall log :: Dispatched(State(records, log), a.call).1 == a.reply
    requires forall log :: Dispatched(State(records, log), a.call).0.records == after
    ensures Continues(done + [a.call], answers + [a], after)
  {
    assert (done + [a.call])[..|done|] == done;
    assert Run(done) == State(records, Run(done).log);
    assert a == Answer(a.call, Dispatched(Run(done), a.call).1);
  }

  lemma {:induction false} FailuresFirst(failed: seq<Answer>)
    requires forall a :: a in failed ==> !a.call.succeeds && a.reply == Reply.Failed
    ensures Continues(CallsOf(failed), failed, map[])
  {
    if failed == [] {
      assert CallsOf(failed) == [];
    } else {
      var init, last := failed[..|failed| - 1], failed[|failed| - 1];
      FailuresFirst(init);
      assert last in failed;
      OneMore(CallsOf(init), init, map[], last, map[]);
      assert CallsOf(failed) == CallsOf(init) + [last.call] && failed == init + [last];
    }
  }

  lemma {:induction false} RecordedMeansWon(won: seq<Answer>, scope: Scope)
    requires forall a :: a in won ==> a.reply.Executed?
    ensures scope in RecordsOf(won) <==> Wins(won, scope) > 0
  {
    if won != [] {
      var c := won[|won| - 1].call;
      assert won[|won| - 1] in won;
      RecordedMeansWon(won[..|won| - 1], scope);
      if Uses(c, scope) { assert scope == (c.workspace, c.key.value); }
    }
  }

  lemma {:induction false} ThenSuccesses(failed: seq<Answer>, won: seq<Answer>)
    requires forall a :: a in failed ==> !a.call.succeeds && a.reply == Reply.Failed
    requires forall a :: a in won ==> a.call.succeeds && a.reply == Executed(a.call.id)
    requires forall scope :: Wins(won, scope) <= 1
    ensures Continues(CallsOf(failed + won), failed + won, RecordsOf(won))
  {
    if won == [] {
      FailuresFirst(failed);
      assert failed + won == failed;
    } else {
      var init, last := won[..|won| - 1], won[|won| - 1];
      assert last in won;
      forall scope ensures Wins(init, scope) <= 1 { assert Wins(won, scope) <= 1; }
      ThenSuccesses(failed, init);
      if last.call.key.Some? {
        var scope := (last.call.workspace, last.call.key.value);
        assert Uses(last.call, scope) && Wins(won, scope) <= 1;
        RecordedMeansWon(init, scope);
      }
      OneMore(CallsOf(failed + init), failed + init, RecordsOf(init), last, RecordsOf(won));
      assert failed + won == (failed + init) + [last];
      assert CallsOf(failed + won) == CallsOf(failed + init) + [last.call];
    }
  }

  lemma {:induction false} ThenReplays(done: seq<Call>, answers: seq<Answer>, records: map<Scope, string>, told: seq<Answer>)
    requires Continues(done, answers, records)
    requires forall a :: a in told ==>
               Found(records, a.call) && a.reply == Replayed(records[(a.call.workspace, a.call.key.value)])
    ensures Continues(done + CallsOf(told), answers + told, records)
  {
    if told == [] {
      assert done + CallsOf(told) == done && answers + told == answers;
    } else {
      var init, last := told[..|told| - 1], told[|told| - 1];
      assert last in told;
      ThenReplays(done, answers, records, init);
      OneMore(done + CallsOf(init), answers + init, records, last, records);
      assert told == init + [last];
      assert done + CallsOf(told) == done + CallsOf(init) + [last.call] by {
        assert CallsOf(told) == CallsOf(init) + [last.call];
      }
      assert answers + told == answers + init + [last];
    }
  }

  /** Dispatched one after the other, a key is won once at most. */
  lemma {:induction false} SerialWinsOnce(calls: seq<Call>, scope: Scope)
    ensures Wins(Answers(calls), scope) == if scope in Run(calls).records then 1 else 0
  {
    if calls != [] {
      var init, c := calls[..|calls| - 1], calls[|calls| - 1];
      SerialWinsOnce(init, scope);
      RecordsGrow(Run(init), c, scope);
      assert Answers(calls)[..|calls| - 1] == Answers(init);
      if Uses(c, scope) { assert scope == (c.workspace, c.key.value); }
    }
  }

  lemma {:induction false} AllWins(t: Tables, scope: Scope)
    requires Kept(t)
    ensures Wins(t.failed + t.won + t.told, scope) == Wins(t.won, scope)
  {
    WinsSplit(t.failed + t.won, t.told, scope);
    WinsSplit(t.failed, t.won, scope);
    NoWins(t.failed, scope);
    NoWins(t.told, scope);
  }

  lemma {:induction false} OneWinEachIsSerial(t: Tables)
    requires Kept(t) && forall scope :: Wins(t.won, scope) <= 1
    ensures Serial(t)
  {
    ThenSuccesses(t.failed, t.won);
    ThenReplays(CallsOf(t.failed + t.won), t.failed + t.won, t.records, t.told);
    assert SameAs(t, CallsOf(t.failed + t.won) + CallsOf(t.told));
  }

  lemma {:induction false} SerialHasOneWinEach(t: Tables, calls: seq<Call>, scope: Scope)
    requires Kept(t) && SameAs(t, calls)
    ensures Wins(t.won, scope) <= 1
  {
    SerialWinsOnce(calls, scope);
    AllWins(t, scope);
    WinsOfBag(Answers(calls), t.failed + t.won + t.told, scope);
  }

  /** No key was looked up twice, by calls that succeed, before it was recorded. */
  ghost predicate RaceFree(steps: seq<Step>) {
    forall scope :: EarlyLookups(steps, scope) <= 1
  }

  /** Overlapping dispatches that have all finished give the answers and records of some order of
      whole dispatches exactly when they are free of races. */
  lemma {:induction false} InterleavingIsSerialExactlyWhen(steps: seq<Step>)
    requires Finished(Interleaved(steps))
    ensures Serial(Interleaved(steps)) <==> RaceFree(steps)
  {
    var t := Interleaved(steps);
    InterleavedIsKept(steps);
    forall scope ensures Wins(t.won, scope) == EarlyLookups(steps, scope) { EveryEarlyLookupSucceeds(steps, scope); }
    if RaceFree(steps) {
      forall scope ensures Wins(t.won, scope) <= 1 { assert EarlyLookups(steps, scope) <= 1; }
      OneWinEachIsSerial(t);
    } else if Serial(t) {
      var calls :| SameAs(t, calls);
      forall scope ensures EarlyLookups(steps, scope) <= 1 {
        SerialHasOneWinEach(t, calls, scope);
        assert Wins(t.won, scope) == EarlyLookups(steps, scope);
      }
      assert false;
    }
  }
}
