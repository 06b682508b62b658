/** The idempotency gate around every command: crates/actant-command/src/lib.rs (dispatch) over the
    key table of crates/actant-storage/src/repo.rs. */
module Dispatch {
  import opened Common

  type Scope = (string, string)

  /** A request, with the id its command record would get and whether the command will succeed. */
  datatype Call = Call(id: string, workspace: string, key: Option<string>, succeeds: bool)

  datatype Reply = Replayed(prior: string) | Executed(id: string) | Failed

  /** The recorded keys, and every call whose command was run, in order. */
  datatype State = State(records: map<Scope, string>, log: seq<Call>)

  predicate Uses(c: Call, scope: Scope) {
    c.workspace == scope.0 && c.key == Some(scope.1)
  }

  /** Whether the lookup finds a record. */
  predicate Found(records: map<Scope, string>, c: Call) {
    c.key.Some? && (c.workspace, c.key.value) in records
  }

  /** `INSERT OR IGNORE`. */
  function Recorded(records: map<Scope, string>, c: Call): map<Scope, string> {
    if c.key.None? || Found(records, c) then records else records[(c.workspace, c.key.value) := c.id]
  }

  /** Running the command: a failure returns before anything is recorded. */
  function RunCommand(s: State, c: Call): (State, Reply) {
    if c.succeeds then (State(Recorded(s.records, c), s.log + [c]), Executed(c.id))
    else (State(s.records, s.log + [c]), Failed)
  }

  function Dispatched(s: State, c: Call): (State, Reply) {
    if Found(s.records, c) then (s, Replayed(s.records[(c.workspace, c.key.value)])) else RunCommand(s, c)
  }

  function Run(calls: seq<Call>): State {
    if calls == [] then State(map[], [])
    else Dispatched(Run(calls[..|calls| - 1]), calls[|calls| - 1]).0
  }

  class Engine {
    var records: map<Scope, string>
    var log: seq<Call>

    constructor ()
      ensures State(records, log) == Run([])
    {
      records, log := map[], [];
    }

    method Dispatch(c: Call) returns (r: Reply)
      modifies this
      ensures (State(records, log), r) == Dispatched(State(old(records), old(log)), c)
    {
      if c.key.Some? && (c.workspace, c.key.value) in records {
        return Replayed(records[(c.workspace, c.key.value)]);
      }
      log := log + [c];
      if !c.succeeds { return Failed; }
      if c.key.Some? && (c.workspace, c.key.value) !in records {
        records := records[(c.workspace, c.key.value) := c.id];
      }
      r := Executed(c.id);
    }
  }

  // ------------------------------------------------------------ exactly once

  function With(calls: seq<Call>, scope: Scope): seq<Call> {
    if calls == [] then []
    else With(calls[..|calls| - 1], scope) + if Uses(calls[|calls| - 1], scope) then [calls[|calls| - 1]] else []
  }

  predicate NoneSucceeds(calls: seq<Call>) {
    forall i :: 0 <= i < |calls| ==> !calls[i].succeeds
  }

  /** The attempts up to and including the first that succeeds. */
  function Attempts(calls: seq<Call>): (r: seq<Call>)
    ensures |r| <= |calls| && r == calls[..|r|]
    ensures NoneSucceeds(calls) ==> r == calls
    ensures !NoneSucceeds(calls) ==> r != [] && r[|r| - 1].succeeds && NoneSucceeds(r[..|r| - 1])
  {
    if calls == [] then []
    else
      var earlier := calls[..|calls| - 1];
      if NoneSucceeds(earlier) then calls else Attempts(earlier)
  }

  lemma LogGrowsByOne(s: State, c: Call, scope: Scope)
    ensures With(Dispatched(s, c).0.log, scope) ==
              With(s.log, scope) + if Uses(c, scope) && scope !in s.records then [c] else []
  {
    assert (s.log + [c])[..|s.log + [c]| - 1] == s.log;
    if Uses(c, scope) { assert scope == (c.workspace, c.key.value); }
  }

  lemma RecordsGrow(s: State, c: Call, scope: Scope)
    ensures var records := Dispatched(s, c).0.records;
            && (scope in records <==> scope in s.records || (Uses(c, scope) && c.succeeds))
            && (scope in s.records ==> records[scope] == s.records[scope])
            && (scope in records && scope !in s.records ==> records[scope] == c.id)
  {
    if Uses(c, scope) { assert scope == (c.workspace, c.key.value); }
  }

  lemma AttemptsGrow(mine: seq<Call>, c: Call)
    ensures NoneSucceeds(mine + [c]) <==> NoneSucceeds(mine) && !c.succeeds
    ensures Attempts(mine + [c]) == if NoneSucceeds(mine) then mine + [c] else Attempts(mine)
  {
    var all := mine + [c];
    assert all[..|all| - 1] == mine && all[|mine|] == c;
    if NoneSucceeds(all) {
      forall i | 0 <= i < |mine| ensures !mine[i].succeeds { assert all[i] == mine[i]; }
    }
  }

  /** What the gate keeps for one key, given the calls made with it. */
  predicate Gated(s: State, mine: seq<Call>, scope: Scope) {
    && With(s.log, scope) == Attempts(mine)
    && (scope in s.records <==> !NoneSucceeds(mine))
    && (scope in s.records ==> s.records[scope] == Attempts(mine)[|Attempts(mine)| - 1].id)
  }

  lemma DispatchKeepsGated(s: State, mine: seq<Call>, c: Call, scope: Scope)
    requires Gated(s, mine, scope)
    ensures Gated(Dispatched(s, c).0, if Uses(c, scope) then mine + [c] else mine, scope)
  {
    LogGrowsByOne(s, c, scope);
    RecordsGrow(s, c, scope);
    AttemptsGrow(mine, c);
  }

  /** For every key, whatever else is dispatched in between: its command runs until it first
      succeeds and never again, and the key then stands for that success. */
  lemma {:induction false} KeyRunsUpToFirstSuccess(calls: seq<Call>, scope: Scope)
    ensures Gated(Run(calls), With(calls, scope), scope)
  {
    if calls != [] {
      var earlier, c := calls[..|calls| - 1], calls[|calls| - 1];
      KeyRunsUpToFirstSuccess(earlier, scope);
      DispatchKeepsGated(Run(earlier), With(earlier, scope), c, scope);
      assert With(earlier, scope) + [] == With(earlier, scope);
    }
  }

  /** After the first success every call with the key changes nothing and is told that command's id. */
  lemma LaterCallsReplay(calls: seq<Call>, c: Call, scope: Scope)
    requires Uses(c, scope) && !NoneSucceeds(With(calls, scope))
    ensures Dispatched(Run(calls), c) ==
              (Run(calls), Replayed(Attempts(With(calls, scope))[|Attempts(With(calls, scope))| - 1].id))
  {
    KeyRunsUpToFirstSuccess(calls, scope);
    assert scope == (c.workspace, c.key.value);
  }

  /** At most one command per key succeeds. */
  lemma AtMostOneSuccess(calls: seq<Call>, scope: Scope, i: nat, j: nat)
    requires i < j < |With(Run(calls).log, scope)|
    ensures !With(Run(calls).log, scope)[i].succeeds
  {
    KeyRunsUpToFirstSuccess(calls, scope);
    var mine := With(calls, scope);
    var a := Attempts(mine);
    if !NoneSucceeds(mine) { assert a[..|a| - 1][i] == a[i]; }
  }

  function WithoutKey(calls: seq<Call>): seq<Call> {
    if calls == [] then []
    else WithoutKey(calls[..|calls| - 1]) + if calls[|calls| - 1].key.None? then [calls[|calls| - 1]] else []
  }

  /** A call without a key always runs its command. */
  lemma {:induction false} KeylessCallsAllRun(calls: seq<Call>)
    ensures WithoutKey(Run(calls).log) == WithoutKey(calls)
  {
    if calls != [] {
      var earlier, c := calls[..|calls| - 1], calls[|calls| - 1];
      KeylessCallsAllRun(earlier);
      var log := Run(earlier).log;
      assert (log + [c])[..|log + [c]| - 1] == log;
      assert WithoutKey(log) + [] == WithoutKey(log);
    }
  }

  /** What a caller is told is what happened: a replay ran nothing and names the recorded command, a
      failure ran the command and recorded nothing, and a success ran it and recorded its own id. */
  lemma {:induction false} RepliesTellWhatHappened(s: State, c: Call)
    ensures var (s', r) := Dispatched(s, c);
            match r
            case Replayed(prior) =>
              s' == s && c.key.Some? && (c.workspace, c.key.value) in s.records && prior == s.records[(c.workspace, c.key.value)]
            case Failed => s' == State(s.records, s.log + [c]) && !c.succeeds
            case Executed(id) =>
              && id == c.id && c.succeeds && s'.log == s.log + [c]
              && (c.key.Some? ==> (c.workspace, c.key.value) !in s.records
                                  && s'.records == s.records[(c.workspace, c.key.value) := c.id])
              && (c.key.None? ==> s'.records == s.records)
  {
  }

  /** Lookup and record are separate statements. Two calls that both look up before either runs, and
      then run one after the other, come to some serial order of the two (the same answers, the same
      records, the same commands run) exactly when they do not both succeed under one key. */
  lemma OverlapIsSerialExactlyWhen(s: State, c: Call, d: Call)
    requires !Found(s.records, c) && !Found(s.records, d)
    ensures (ComesTo(s, c, d, c, d) || ComesTo(s, c, d, d, c)) <==>
              !(c.succeeds && d.succeeds && c.key.Some? && c.key == d.key && c.workspace == d.workspace)
  {
    var s1 := RunCommand(s, c).0;
    assert RunCommand(s1, d).0.log == s.log + [c] + [d];
  }

  /** What `c` and `d` do after both looked up is what dispatching `first` and then `second` does. */
  predicate ComesTo(s: State, c: Call, d: Call, first: Call, second: Call)
    requires (first, second) == (c, d) || (first, second) == (d, c)
  {
    var (s1, rc) := RunCommand(s, c);
    var (s2, rd) := RunCommand(s1, d);
    var (t1, r1) := Dispatched(s, first);
    var (t2, r2) := Dispatched(t1, second);
    && s2.records == t2.records && multiset(s2.log) == multiset(t2.log)
    && (if first == c then (rc, rd) == (r1, r2) else (rc, rd) == (r2, r1))
  }
}
