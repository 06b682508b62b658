/** The tamper-evident event chain: crates/actant-command/src/lib.rs (append_chronicle),
    crates/actant-storage/src/repo.rs (last_event_hash), crates/actant-core/src/hash.rs
    (chain_hash). SHA-256 in hexadecimal is the function `sha`. */
module Chain {
  import opened Common

  datatype Digest = Digest(hex: string)
  type Hash = string -> Digest

  /** An event about to be appended: its key in the table is the time it was stamped with and
      then its id, and `payload` is the hash of its canonical payload. */
  datatype Draft = Draft(workspace: string, session: Option<string>, createdAt: int, id: int, payload: string)

  datatype Event = Event(draft: Draft, hash: string)

  /** A query for the last event: of a session, or of the whole workspace. */
  datatype Scope = OfSession(workspace: string, session: string) | OfWorkspace(workspace: string)

  function ScopeOf(d: Draft): Scope {
    if d.session.Some? then OfSession(d.workspace, d.session.value) else OfWorkspace(d.workspace)
  }

  predicate InScope(d: Draft, s: Scope) {
    d.workspace == s.workspace && (s.OfSession? ==> d.session == Some(s.session))
  }

  /** `ORDER BY created_at, id`. */
  predicate Before(a: Draft, b: Draft) {
    a.createdAt < b.createdAt || (a.createdAt == b.createdAt && a.id < b.id)
  }

  function Zeros(n: nat): (s: string)
    ensures |s| == n && forall i :: 0 <= i < n ==> s[i] == '0'
  {
    if n == 0 then "" else Zeros(n - 1) + "0"
  }

  const ZEROS := Zeros(64)

  function ChainHash(prev: string, payload: string, sha: Hash): string {
    sha(prev + ":" + payload).hex
  }

  /** The row the query returns: the last in key order, whatever the order of insertion. */
  function Latest(rows: seq<Event>, s: Scope): Option<Event> {
    if rows == [] then None
    else
      var e, earlier := rows[|rows| - 1], Latest(rows[..|rows| - 1], s);
      if InScope(e.draft, s) && (earlier.None? || Before(earlier.value.draft, e.draft)) then Some(e) else earlier
  }

  function LastHash(rows: seq<Event>, s: Scope): string {
    var e := Latest(rows, s);
    if e.Some? then e.value.hash else ZEROS
  }

  function Appended(rows: seq<Event>, d: Draft, sha: Hash): seq<Event> {
    rows + [Event(d, ChainHash(LastHash(rows, ScopeOf(d)), d.payload, sha))]
  }

  /** A serial run of appends on an empty table. */
  function Run(drafts: seq<Draft>, sha: Hash): seq<Event> {
    if drafts == [] then []
    else Appended(Run(drafts[..|drafts| - 1], sha), drafts[|drafts| - 1], sha)
  }

  class Chronicle {
    var rows: seq<Event>

    constructor ()
      ensures rows == []
    {
      rows := [];
    }

    /** The query, as a scan that keeps the latest matching row. */
    method LastEventHash(s: Scope) returns (hash: Option<string>)
      ensures hash == if Latest(rows, s).Some? then Some(Latest(rows, s).value.hash) else None
    {
      var best: Option<Event> := None;
      assert rows[..0] == [];
      for i := 0 to |rows|
        invariant best == Latest(rows[..i], s)
      {
        assert rows[..i + 1][..i] == rows[..i];
        if InScope(rows[i].draft, s) && (best.None? || Before(best.value.draft, rows[i].draft)) {
          best := Some(rows[i]);
        }
      }
      assert rows[..|rows|] == rows;
      hash := if best.Some? then Some(best.value.hash) else None;
    }

    method AppendChronicle(d: Draft, sha: Hash)
      modifies this
      ensures rows == Appended(old(rows), d, sha)
    {
      var last := LastEventHash(ScopeOf(d));
      var prev := if last.Some? then last.value else ZEROS;
      rows := rows + [Event(d, ChainHash(prev, d.payload, sha))];
    }
  }

  /** The query's answer is in scope and nothing in scope comes after it in key order. */
  lemma {:induction false} LatestIsLast(rows: seq<Event>, s: Scope, e: Event)
    ensures e in rows && InScope(e.draft, s) ==> Latest(rows, s).Some? && !Before(Latest(rows, s).value.draft, e.draft)
    ensures Latest(rows, s).Some? ==> Latest(rows, s).value in rows && InScope(Latest(rows, s).value.draft, s)
  {
    if rows != [] {
      LatestIsLast(rows[..|rows| - 1], s, e);
      assert e in rows <==> e in rows[..|rows| - 1] || e == rows[|rows| - 1];
    }
  }

  /** A row of the draft's own workspace, and of its session if it has one. */
  predicate Precursor(d: Draft, e: Event) {
    e.draft.workspace == d.workspace && (d.session.Some? ==> e.draft.session == d.session)
  }

  /** An append links to the hash of the latest stored row of its workspace and session, by time and
      then by id; without a session, to that of the latest row of any session of the workspace; and
      to 64 zeros when there is no such row. */
  lemma {:induction false} AppendLinksToLatest(rows: seq<Event>, d: Draft, sha: Hash) returns (prev: string)
    ensures Appended(rows, d, sha) == rows + [Event(d, sha(prev + ":" + d.payload).hex)]
    ensures (forall e :: e in rows ==> !Precursor(d, e)) ==> |prev| == 64 && forall i :: 0 <= i < 64 ==> prev[i] == '0'
    ensures (exists e :: e in rows && Precursor(d, e)) ==>
              exists e :: && e in rows && Precursor(d, e) && prev == e.hash
                          && forall f :: f in rows && Precursor(d, f) ==>
                               f.draft.createdAt < e.draft.createdAt
                               || (f.draft.createdAt == e.draft.createdAt && f.draft.id <= e.draft.id)
  {
    var s := ScopeOf(d);
    prev := LastHash(rows, s);
    forall e: Event ensures InScope(e.draft, s) <==> Precursor(d, e) {}
    if e :| e in rows && Precursor(d, e) {
      LatestIsLast(rows, s, e);
      var last := Latest(rows, s).value;
      forall f | f in rows && Precursor(d, f)
        ensures f.draft.createdAt < last.draft.createdAt
                || (f.draft.createdAt == last.draft.createdAt && f.draft.id <= last.draft.id)
      {
        LatestIsLast(rows, s, f);
      }
    } else {
      NoLatest(rows, s);
    }
  }

  lemma {:induction false} NoLatest(rows: seq<Event>, s: Scope)
    requires forall e: Event :: e in rows ==> !InScope(e.draft, s)
    ensures Latest(rows, s) == None
  {
    if rows != [] {
      assert rows[|rows| - 1] in rows;
      NoLatest(rows[..|rows| - 1], s);
    }
  }

  // -------------------------------------------------------------- isolation

  function Drafts(drafts: seq<Draft>, s: Scope): seq<Draft> {
    if drafts == [] then []
    else Drafts(drafts[..|drafts| - 1], s) + if InScope(drafts[|drafts| - 1], s) then [drafts[|drafts| - 1]] else []
  }

  function Rows(rows: seq<Event>, s: Scope): seq<Event> {
    if rows == [] then []
    else Rows(rows[..|rows| - 1], s) + if InScope(rows[|rows| - 1].draft, s) then [rows[|rows| - 1]] else []
  }

  lemma AppendInScope(rows: seq<Event>, e: Event, s: Scope)
    ensures Rows(rows + [e], s) == Rows(rows, s) + if InScope(e.draft, s) then [e] else []
    ensures Latest(rows + [e], s) ==
              if InScope(e.draft, s) && (Latest(rows, s).None? || Before(Latest(rows, s).value.draft, e.draft))
              then Some(e) else Latest(rows, s)
  {
    assert (rows + [e])[..|rows + [e]| - 1] == rows;
  }

  lemma {:induction false} LatestOfRows(rows: seq<Event>, s: Scope)
    ensures Latest(Rows(rows, s), s) == Latest(rows, s)
  {
    if rows != [] {
      var earlier, e := rows[..|rows| - 1], rows[|rows| - 1];
      LatestOfRows(earlier, s);
      if InScope(e.draft, s) {
        AppendInScope(Rows(earlier, s), e, s);
        assert Rows(rows, s) == Rows(earlier, s) + [e];
      } else {
        assert Rows(rows, s) == Rows(earlier, s);
      }
    }
  }

  lemma RunAppended(drafts: seq<Draft>, d: Draft, sha: Hash)
    ensures Run(drafts + [d], sha) == Appended(Run(drafts, sha), d, sha)
  {
    assert (drafts + [d])[..|drafts + [d]| - 1] == drafts;
  }

  lemma AppendKeepsIsolation(rows: seq<Event>, mine: seq<Draft>, d: Draft, s: Scope, sha: Hash)
    requires s.OfSession? && Rows(rows, s) == Run(mine, sha)
    ensures Rows(Appended(rows, d, sha), s) == Run(mine + if InScope(d, s) then [d] else [], sha)
  {
    var e := Event(d, ChainHash(LastHash(rows, ScopeOf(d)), d.payload, sha));
    AppendInScope(rows, e, s);
    if InScope(d, s) {
      assert ScopeOf(d) == s;
      LatestOfRows(rows, s);
      RunAppended(mine, d, sha);
    } else {
      assert mine + [] == mine;
    }
  }

  /** A session's events are what they would be if nothing else had been appended: other sessions
      and events without a session leave no trace in it. */
  lemma {:induction false} SessionsAreIsolated(drafts: seq<Draft>, s: Scope, sha: Hash)
    requires s.OfSession?
    ensures Rows(Run(drafts, sha), s) == Run(Drafts(drafts, s), sha)
  {
    if drafts != [] {
      var earlier, d := drafts[..|drafts| - 1], drafts[|drafts| - 1];
      SessionsAreIsolated(earlier, s, sha);
      AppendKeepsIsolation(Run(earlier, sha), Drafts(earlier, s), d, s, sha);
    }
  }

  // ------------------------------------------------------------------ folds

  /** The left fold of the link function from 64 zeros. */
  function Fold(payloads: seq<string>, sha: Hash): string {
    if payloads == [] then ZEROS
    else ChainHash(Fold(payloads[..|payloads| - 1], sha), payloads[|payloads| - 1], sha)
  }

  function Payloads(drafts: seq<Draft>): (ps: seq<string>)
    ensures |ps| == |drafts| && forall i :: 0 <= i < |ps| ==> ps[i] == drafts[i].payload
  {
    if drafts == [] then [] else Payloads(drafts[..|drafts| - 1]) + [drafts[|drafts| - 1].payload]
  }

  /** Each row's hash is the fold of the payload hashes up to it. */
  predicate Linear(rows: seq<Event>, payloads: seq<string>, sha: Hash) {
    |rows| == |payloads| && forall k :: 0 <= k < |rows| ==> rows[k].hash == Fold(payloads[..k + 1], sha)
  }

  predicate AllIn(drafts: seq<Draft>, s: Scope) {
    forall d | d in drafts :: ScopeOf(d) == s
  }

  lemma {:induction false} RunShape(drafts: seq<Draft>, sha: Hash)
    ensures |Run(drafts, sha)| == |drafts|
    ensures forall k :: 0 <= k < |drafts| ==> Run(drafts, sha)[k].draft == drafts[k]
  {
    if drafts != [] { RunShape(drafts[..|drafts| - 1], sha); }
  }

  lemma {:induction false} RunOfPrefix(drafts: seq<Draft>, n: nat, sha: Hash)
    requires n <= |drafts|
    ensures n <= |Run(drafts, sha)| && Run(drafts, sha)[..n] == Run(drafts[..n], sha)
  {
    RunShape(drafts, sha);
    if n == |drafts| {
      assert drafts[..n] == drafts;
    } else {
      RunOfPrefix(drafts[..|drafts| - 1], n, sha);
      assert drafts[..|drafts| - 1][..n] == drafts[..n];
    }
  }

  lemma {:induction false} RunAtEnd(drafts: seq<Draft>, sha: Hash)
    requires drafts != []
    ensures var init, d := drafts[..|drafts| - 1], drafts[|drafts| - 1];
            && |Run(drafts, sha)| == |drafts| && Run(drafts, sha)[..|init|] == Run(init, sha)
            && Run(drafts, sha)[|init|].hash == ChainHash(LastHash(Run(init, sha), ScopeOf(d)), d.payload, sha)
  {
    RunShape(drafts[..|drafts| - 1], sha);
  }

  lemma {:induction false} RunAt(drafts: seq<Draft>, k: nat, sha: Hash)
    requires k < |drafts|
    ensures |Run(drafts, sha)| == |drafts|
    ensures Run(drafts, sha)[k].hash ==
              ChainHash(LastHash(Run(drafts[..k], sha), ScopeOf(drafts[k])), drafts[k].payload, sha)
  {
    var head := drafts[..k + 1];
    assert head[..|head| - 1] == drafts[..k] && head[k] == drafts[k];
    RunAtEnd(head, sha);
    RunOfPrefix(drafts, k + 1, sha);
    RunShape(drafts, sha);
    assert Run(drafts, sha)[..k + 1][k] == Run(drafts, sha)[k];
  }

  /** The position of the last draft in key order. */
  function Tip(drafts: seq<Draft>): (t: nat)
    requires drafts != []
    ensures t < |drafts|
  {
    if |drafts| == 1 then 0
    else
      var t := Tip(drafts[..|drafts| - 1]);
      if Before(drafts[t], drafts[|drafts| - 1]) then |drafts| - 1 else t
  }

  lemma {:induction false} TipIsLast(drafts: seq<Draft>, i: nat)
    requires i < |drafts|
    ensures !Before(drafts[Tip(drafts)], drafts[i])
    ensures i < Tip(drafts) ==> Before(drafts[i], drafts[Tip(drafts)])
  {
    if |drafts| > 1 {
      var earlier := drafts[..|drafts| - 1];
      if i < |earlier| { TipIsLast(earlier, i); }
    }
  }

  lemma {:induction false} LatestIsTip(drafts: seq<Draft>, s: Scope, sha: Hash)
    requires drafts != [] && AllIn(drafts, s)
    ensures |Run(drafts, sha)| == |drafts|
    ensures Latest(Run(drafts, sha), s) == Some(Run(drafts, sha)[Tip(drafts)])
  {
    RunShape(drafts, sha);
    var rows, n := Run(drafts, sha), |drafts| - 1;
    RunOfPrefix(drafts, n, sha);
    assert rows[n].draft == drafts[n] && drafts[n] in drafts;
    if n > 0 {
      assert forall d :: d in drafts[..n] ==> d in drafts;
      LatestIsTip(drafts[..n], s, sha);
      assert rows[..n][Tip(drafts[..n])] == rows[Tip(drafts[..n])];
    }
  }

  /** What a row is linked to in a session on its own: the row at the tip of those before it. */
  lemma LinkedToTip(drafts: seq<Draft>, s: Scope, k: nat, sha: Hash)
    requires AllIn(drafts, s) && k < |drafts|
    ensures |Run(drafts, sha)| == |drafts|
    ensures Run(drafts, sha)[k].hash ==
              ChainHash(if k == 0 then ZEROS else Run(drafts, sha)[Tip(drafts[..k])].hash, drafts[k].payload, sha)
  {
    RunAt(drafts, k, sha);
    RunOfPrefix(drafts, k, sha);
    assert drafts[k] in drafts;
    if k > 0 {
      assert forall d :: d in drafts[..k] ==> d in drafts;
      LatestIsTip(drafts[..k], s, sha);
      assert Run(drafts, sha)[..k][Tip(drafts[..k])] == Run(drafts, sha)[Tip(drafts[..k])];
    }
  }

  /** Keys rise from each draft to the next, except perhaps to the last one. */
  predicate RisesBeforeLast(drafts: seq<Draft>) {
    forall i, j :: 0 <= i < j < |drafts| - 1 ==> Before(drafts[i], drafts[j])
  }

  lemma TipOfRising(drafts: seq<Draft>, k: nat)
    requires 0 < k < |drafts| && RisesBeforeLast(drafts)
    ensures Tip(drafts[..k]) == k - 1
  {
    TipIsLast(drafts[..k], k - 1);
  }

  lemma {:induction false} RisingKeysLink(drafts: seq<Draft>, s: Scope, sha: Hash, k: nat)
    requires AllIn(drafts, s) && RisesBeforeLast(drafts) && k < |drafts|
    ensures |Run(drafts, sha)| == |drafts|
    ensures Run(drafts, sha)[k].hash == Fold(Payloads(drafts)[..k + 1], sha)
  {
    LinkedToTip(drafts, s, k, sha);
    var ps := Payloads(drafts);
    assert ps[..k + 1][..k] == ps[..k];
    if k > 0 {
      TipOfRising(drafts, k);
      RisingKeysLink(drafts, s, sha, k - 1);
    }
  }

  /** With rising keys a session's hashes are the left fold over its own payload hashes, whatever
      else is appended in between. */
  lemma SessionChainIsFold(drafts: seq<Draft>, s: Scope, sha: Hash)
    requires s.OfSession? && RisesBeforeLast(Drafts(drafts, s))
    ensures Linear(Rows(Run(drafts, sha), s), Payloads(Drafts(drafts, s)), sha)
  {
    SessionsAreIsolated(drafts, s, sha);
    DraftsAreIn(drafts, s);
    var mine := Drafts(drafts, s);
    RunShape(mine, sha);
    forall k | 0 <= k < |mine| ensures Run(mine, sha)[k].hash == Fold(Payloads(mine)[..k + 1], sha) {
      RisingKeysLink(mine, s, sha, k);
    }
  }

  lemma {:induction false} DraftsAreIn(drafts: seq<Draft>, s: Scope)
    requires s.OfSession?
    ensures AllIn(Drafts(drafts, s), s)
  {
    if drafts != [] { DraftsAreIn(drafts[..|drafts| - 1], s); }
  }

  // -------------------------------------------------------- tamper evidence

  predicate NoColon(s: string) {
    forall i :: 0 <= i < |s| ==> s[i] != ':'
  }

  /** The hash has no collisions, is written without colons, and never gives 64 zeros. */
  ghost predicate Ideal(sha: Hash) {
    (forall x, y :: sha(x) == sha(y) ==> x == y) && (forall x :: NoColon(sha(x).hex) && sha(x).hex != ZEROS)
  }

  function FirstColon(s: string): nat {
    if s == "" || s[0] == ':' then 0 else 1 + FirstColon(s[1..])
  }

  lemma {:induction false} FirstColonSplits(a: string, p: string)
    requires NoColon(a)
    ensures FirstColon(a + ":" + p) == |a|
  {
    if a != "" {
      assert (a + ":" + p)[1..] == a[1..] + ":" + p;
      FirstColonSplits(a[1..], p);
    }
  }

  lemma LinkIsInjective(a: string, p: string, b: string, q: string, sha: Hash)
    requires Ideal(sha) && NoColon(a) && NoColon(b)
    requires ChainHash(a, p, sha) == ChainHash(b, q, sha)
    ensures a == b && p == q
  {
    var x, y := a + ":" + p, b + ":" + q;
    assert x == y;
    FirstColonSplits(a, p);
    FirstColonSplits(b, q);
    assert x[..|a|] == a && y[..|b|] == b && x[|a| + 1..] == p && y[|b| + 1..] == q;
  }

  lemma FoldHasNoColon(ps: seq<string>, sha: Hash)
    requires Ideal(sha)
    ensures NoColon(Fold(ps, sha))
  {
  }

  /** The last hash determines the whole sequence of payload hashes. */
  lemma {:induction false} LastHashDeterminesPayloads(ps: seq<string>, qs: seq<string>, sha: Hash)
    requires Ideal(sha)
    ensures Fold(ps, sha) == Fold(qs, sha) <==> ps == qs
  {
    if Fold(ps, sha) == Fold(qs, sha) && ps != [] && qs != [] {
      var p, q := ps[..|ps| - 1], qs[..|qs| - 1];
      FoldHasNoColon(p, sha);
      FoldHasNoColon(q, sha);
      LinkIsInjective(Fold(p, sha), ps[|ps| - 1], Fold(q, sha), qs[|qs| - 1], sha);
      LastHashDeterminesPayloads(p, q, sha);
      assert ps == p + [ps[|ps| - 1]] && qs == q + [qs[|qs| - 1]];
    }
  }

  /** A spelling without colons that can be read back. */
  function Spelled(s: string): string {
    if s == "" then ""
    else (if s[0] == ':' then "pc" else if s[0] == 'p' then "pp" else [s[0]]) + Spelled(s[1..])
  }

  lemma {:induction false} SpelledIsInjective(s: string, t: string)
    requires Spelled(s) == Spelled(t)
    ensures s == t
  {
    if s != "" && t != "" {
      var a, b := Spelled(s), Spelled(t);
      assert a[0] == b[0];
      if a[0] == 'p' {
        assert a[1] == b[1] && a[2..] == Spelled(s[1..]) && b[2..] == Spelled(t[1..]);
      } else {
        assert a[1..] == Spelled(s[1..]) && b[1..] == Spelled(t[1..]);
      }
      SpelledIsInjective(s[1..], t[1..]);
      assert s == [s[0]] + s[1..] && t == [t[0]] + t[1..];
    }
  }

  lemma {:induction false} SpelledHasNoColon(s: string)
    ensures NoColon(Spelled(s))
  {
    if s != "" { SpelledHasNoColon(s[1..]); }
  }

  /** The idealization is consistent: some hash meets it. */
  lemma {:induction false} IdealHashExists()
    ensures exists sha: Hash :: Ideal(sha)
  {
    var sha: Hash := (s: string) => Digest("x" + Spelled(s));
    forall x, y | sha(x) == sha(y) ensures x == y {
      assert ("x" + Spelled(x))[1..] == Spelled(x) && ("x" + Spelled(y))[1..] == Spelled(y);
      SpelledIsInjective(x, y);
    }
    forall x ensures NoColon(sha(x).hex) && sha(x).hex != ZEROS {
      SpelledHasNoColon(x);
      assert sha(x).hex[0] == 'x' && ZEROS[0] == '0';
    }
    assert Ideal(sha);
  }

  lemma {:induction false} LinearTip(drafts: seq<Draft>, s: Scope, sha: Hash, k: nat)
    requires AllIn(drafts, s) && Ideal(sha) && 0 < k < |drafts|
    requires Linear(Run(drafts, sha), Payloads(drafts), sha)
    ensures Tip(drafts[..k]) == k - 1
  {
    var ps, t := Payloads(drafts), Tip(drafts[..k]);
    LinkedToTip(drafts, s, k, sha);
    assert ps[..k + 1][..k] == ps[..k];
    FoldHasNoColon(ps[..t + 1], sha);
    FoldHasNoColon(ps[..k], sha);
    LinkIsInjective(Fold(ps[..t + 1], sha), ps[k], Fold(ps[..k], sha), ps[k], sha);
    LastHashDeterminesPayloads(ps[..t + 1], ps[..k], sha);
  }

  lemma {:induction false} LinearRises(drafts: seq<Draft>, s: Scope, sha: Hash)
    requires AllIn(drafts, s) && Ideal(sha)
    requires Linear(Run(drafts, sha), Payloads(drafts), sha)
    ensures RisesBeforeLast(drafts)
  {
    forall i, j | 0 <= i < j < |drafts| - 1 ensures Before(drafts[i], drafts[j]) {
      LinearTip(drafts, s, sha, j + 1);
      TipIsLast(drafts[..j + 1], i);
    }
  }

  /** The session chain is the fold exactly when no timestamp before the last one went back: a
      clock that steps back makes the next event link past the one before it. */
  lemma {:induction false} ChainIsLinearExactlyWhen(drafts: seq<Draft>, s: Scope, sha: Hash)
    requires s.OfSession? && Ideal(sha)
    ensures Linear(Rows(Run(drafts, sha), s), Payloads(Drafts(drafts, s)), sha) <==> RisesBeforeLast(Drafts(drafts, s))
  {
    if RisesBeforeLast(Drafts(drafts, s)) {
      SessionChainIsFold(drafts, s, sha);
    } else {
      SessionsAreIsolated(drafts, s, sha);
      DraftsAreIn(drafts, s);
      if Linear(Run(Drafts(drafts, s), sha), Payloads(Drafts(drafts, s)), sha) {
        LinearRises(Drafts(drafts, s), s, sha);
      }
    }
  }

  /** Two sessions with rising keys that end in the same hash hold the same payload hashes. */
  lemma EqualHeadsEqualHistories(a: seq<Draft>, b: seq<Draft>, s: Scope, t: Scope, sha: Hash)
    requires s.OfSession? && t.OfSession? && Ideal(sha)
    requires RisesBeforeLast(Drafts(a, s)) && RisesBeforeLast(Drafts(b, t))
    requires Drafts(a, s) != [] && Drafts(b, t) != []
    ensures var x, y := Rows(Run(a, sha), s), Rows(Run(b, sha), t);
            |x| == |Drafts(a, s)| && |y| == |Drafts(b, t)|
            && (x[|x| - 1].hash == y[|y| - 1].hash <==> Payloads(Drafts(a, s)) == Payloads(Drafts(b, t)))
  {
    SessionChainIsFold(a, s, sha);
    SessionChainIsFold(b, t, sha);
    var ps, qs := Payloads(Drafts(a, s)), Payloads(Drafts(b, t));
    assert ps[..|ps|] == ps && qs[..|qs|] == qs;
    LastHashDeterminesPayloads(ps, qs, sha);
  }

  /** A read and an append are separate statements: an append that read its predecessor from the
      first `n` rows continues the chain exactly when no event of the session came after them. */
  lemma StaleReadsForkExactlyWhen(drafts: seq<Draft>, s: Scope, n: nat, payload: string, sha: Hash)
    requires AllIn(drafts, s) && Ideal(sha) && n <= |drafts|
    requires forall i, j :: 0 <= i < j < |drafts| ==> Before(drafts[i], drafts[j])
    ensures ChainHash(LastHash(Run(drafts[..n], sha), s), payload, sha) == Fold(Payloads(drafts) + [payload], sha)
            <==> n == |drafts|
  {
    var ps := Payloads(drafts);
    assert (ps + [payload])[..|ps|] == ps;
    HeadOfRising(drafts, s, n, sha);
    FoldHasNoColon(ps[..n], sha);
    FoldHasNoColon(ps, sha);
    if n == |drafts| {
      assert ps[..n] == ps;
    } else if ChainHash(Fold(ps[..n], sha), payload, sha) == ChainHash(Fold(ps, sha), payload, sha) {
      LinkIsInjective(Fold(ps[..n], sha), payload, Fold(ps, sha), payload, sha);
      LastHashDeterminesPayloads(ps[..n], ps, sha);
    }
  }

  lemma TipOfPrefix(drafts: seq<Draft>, s: Scope, n: nat)
    requires AllIn(drafts, s) && 0 < n <= |drafts|
    requires forall i, j :: 0 <= i < j < |drafts| ==> Before(drafts[i], drafts[j])
    ensures Tip(drafts[..n]) == n - 1 && AllIn(drafts[..n], s) && RisesBeforeLast(drafts[..n])
  {
    TipIsLast(drafts[..n], n - 1);
    assert forall d :: d in drafts[..n] ==> d in drafts;
  }

  lemma {:induction false} HeadOfRising(drafts: seq<Draft>, s: Scope, n: nat, sha: Hash)
    requires AllIn(drafts, s) && n <= |drafts|
    requires forall i, j :: 0 <= i < j < |drafts| ==> Before(drafts[i], drafts[j])
    ensures LastHash(Run(drafts[..n], sha), s) == Fold(Payloads(drafts)[..n], sha)
  {
    if n > 0 {
      var head := drafts[..n];
      assert forall d :: d in head ==> d in drafts;
      TipOfPrefix(drafts, s, n);
      LatestIsTip(head, s, sha);
      RisingKeysLink(head, s, sha, n - 1);
      PayloadsOfPrefix(drafts, n);
    } else {
      assert drafts[..0] == [] && Payloads(drafts)[..0] == [];
    }
  }

  lemma {:induction false} PayloadsOfPrefix(drafts: seq<Draft>, n: nat)
    requires n <= |drafts|
    ensures Payloads(drafts[..n])[..n] == Payloads(drafts)[..n]
  {
  }
}
