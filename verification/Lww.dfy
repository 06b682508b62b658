/** Last-writer-wins resolution: crates/actant-replay/src/conflict.rs. */
module Lww {
  import opened HybridClock
  import opened Text

  datatype Ordering = LessThan | Equal | GreaterThan

  datatype Write = Write(hlc: Hlc, actor: string, value: string)

  /** What `resolve` compares. */
  datatype Key = Key(hlc: Hlc, actor: string)

  function KeyOf(w: Write): Key {
    Key(w.hlc, w.actor)
  }

  function CompareHlc(a: Hlc, b: Hlc): Ordering {
    if Less(a, b) then LessThan else if Less(b, a) then GreaterThan else Equal
  }

  function CompareText(a: string, b: string): Ordering {
    if TextLess(a, b) then LessThan else if TextLess(b, a) then GreaterThan else Equal
  }

  function Resolve(a: Write, b: Write): Ordering {
    match CompareHlc(a.hlc, b.hlc)
    case Equal => CompareText(a.actor, b.actor)
    case other => other
  }

  /** The write a caller applies; a full tie keeps the first. */
  function Winner(a: Write, b: Write): Write {
    if Resolve(a, b) == LessThan then b else a
  }

  // ------------------------------------------------------------ total order

  function Flip(o: Ordering): Ordering {
    match o
    case LessThan => GreaterThan
    case Equal => Equal
    case GreaterThan => LessThan
  }

  predicate AtMostKey(a: Write, b: Write) {
    Resolve(a, b) != GreaterThan
  }

  lemma HlcIsTotal(a: Hlc, b: Hlc)
    ensures Less(a, b) || Less(b, a) || a == b
    ensures !(Less(a, b) && Less(b, a)) && !Less(a, a)
  {
  }

  /** `resolve` ties only on the same stamp and actor, and swapping its arguments flips it. */
  lemma ResolveIsTotal(a: Write, b: Write)
    ensures Resolve(a, b) == Equal <==> KeyOf(a) == KeyOf(b)
    ensures Resolve(b, a) == Flip(Resolve(a, b))
    ensures Resolve(a, b) == GreaterThan <==> Less(b.hlc, a.hlc) || (a.hlc == b.hlc && TextLess(b.actor, a.actor))
  {
    HlcIsTotal(a.hlc, b.hlc);
    TextLessIsTotal(a.actor, b.actor);
    TextLessIsTotal(a.actor, a.actor);
  }

  lemma ResolveIsTransitive(a: Write, b: Write, c: Write)
    requires AtMostKey(a, b) && AtMostKey(b, c)
    ensures AtMostKey(a, c)
    ensures Resolve(a, b) == LessThan || Resolve(b, c) == LessThan ==> Resolve(a, c) == LessThan
  {
    ResolveIsTotal(a, b);
    ResolveIsTotal(b, c);
    ResolveIsTotal(a, c);
    if a.hlc == b.hlc && b.hlc == c.hlc {
      TextLessIsTotal(a.actor, b.actor);
      TextLessIsTotal(b.actor, c.actor);
      if TextLess(a.actor, b.actor) && TextLess(b.actor, c.actor) {
        TextLessIsTransitive(a.actor, b.actor, c.actor);
      }
      TextLessIsTotal(a.actor, c.actor);
    }
  }

  // ------------------------------------------------------------ merge trees

  /** Any way of combining writes two at a time: a left fold, a right fold, replicas merging
      replicas, the same write more than once. */
  datatype Merge = Leaf(write: Write) | Join(left: Merge, right: Merge)

  function Outcome(m: Merge): Write {
    match m
    case Leaf(w) => w
    case Join(l, r) => Winner(Outcome(l), Outcome(r))
  }

  predicate Contains(m: Merge, w: Write) {
    match m
    case Leaf(x) => x == w
    case Join(l, r) => Contains(l, w) || Contains(r, w)
  }

  lemma {:induction false} OutcomeIsGreatest(m: Merge, w: Write)
    ensures Contains(m, Outcome(m))
    ensures Contains(m, w) ==> AtMostKey(w, Outcome(m))
  {
    match m
    case Leaf(x) => ResolveIsTotal(x, x);
    case Join(l, r) =>
      OutcomeIsGreatest(l, w);
      OutcomeIsGreatest(r, w);
      var a, b := Outcome(l), Outcome(r);
      ResolveIsTotal(a, b);
      if Contains(l, w) && Winner(a, b) == b { ResolveIsTransitive(w, a, b); }
      if Contains(r, w) && Winner(a, b) == a { ResolveIsTransitive(w, b, a); }
  }

  /** The last writer wins: no write of the merge is later than the outcome, and among those with
      its stamp none has a larger actor. */
  lemma {:induction false} LastWriterWins(m: Merge, w: Write)
    requires Contains(m, w)
    ensures AtMost(w.hlc, Outcome(m).hlc)
    ensures w.hlc == Outcome(m).hlc ==> TextAtMost(w.actor, Outcome(m).actor)
  {
    OutcomeIsGreatest(m, w);
    ResolveIsTotal(w, Outcome(m));
    HlcIsTotal(w.hlc, Outcome(m).hlc);
    TextLessIsTotal(w.actor, Outcome(m).actor);
  }

  /** Every stamp and actor in `m` is also in `n`. */
  ghost predicate KeysWithin(m: Merge, n: Merge) {
    forall w | Contains(m, w) :: exists v :: Contains(n, v) && KeyOf(v) == KeyOf(w)
  }

  lemma OutcomeIsAtMost(m: Merge, n: Merge)
    requires KeysWithin(m, n)
    ensures AtMostKey(Outcome(m), Outcome(n))
  {
    var w := Outcome(m);
    OutcomeIsGreatest(m, w);
    var v :| Contains(n, v) && KeyOf(v) == KeyOf(w);
    OutcomeIsGreatest(n, v);
  }

  /** The winning stamp and actor depend only on the set of them: not on order, grouping or
      repetition. */
  lemma WinnerIsOrderFree(m: Merge, n: Merge)
    requires KeysWithin(m, n) && KeysWithin(n, m)
    ensures KeyOf(Outcome(m)) == KeyOf(Outcome(n))
  {
    OutcomeIsAtMost(m, n);
    OutcomeIsAtMost(n, m);
    ResolveIsTotal(Outcome(m), Outcome(n));
  }

  /** All writes tied for the win are one write. */
  ghost predicate Decided(m: Merge) {
    forall w | Contains(m, w) && KeyOf(w) == KeyOf(Outcome(m)) :: w == Outcome(m)
  }

  ghost predicate SameWrites(m: Merge, n: Merge) {
    forall w :: Contains(m, w) <==> Contains(n, w)
  }

  lemma SameWritesSameKey(m: Merge, n: Merge)
    requires SameWrites(m, n)
    ensures KeyOf(Outcome(m)) == KeyOf(Outcome(n))
  {
    WinnerIsOrderFree(m, n);
  }

  /** The winning write itself is order-free exactly when the top key names one write. */
  lemma WriteIsOrderFreeExactlyWhen(m: Merge)
    ensures Decided(m) <==> forall n | SameWrites(m, n) :: Outcome(n) == Outcome(m)
  {
    if Decided(m) {
      forall n | SameWrites(m, n) ensures Outcome(n) == Outcome(m) {
        SameWritesSameKey(m, n);
        OutcomeIsGreatest(n, Outcome(n));
      }
    } else {
      var w :| Contains(m, w) && KeyOf(w) == KeyOf(Outcome(m)) && w != Outcome(m);
      var n := Join(Leaf(w), m);
      ResolveIsTotal(w, Outcome(m));
      assert Outcome(n) == Winner(Outcome(n.left), Outcome(n.right));
      assert Outcome(n.left) == w && Resolve(w, Outcome(m)) == Equal;
      assert SameWrites(m, n);
    }
  }

  // ------------------------------------------------------------ projections

  /** Which fields of which table are merged one by one. */
  type Policy = map<string, set<string>>

  const DEFAULT_POLICY: Policy := map[
    "memory" := {"approved_at", "rejected_at", "last_verified_at"},
    "session" := {"title", "phase"},
    "actor" := {"display_name"}
  ]

  predicate IsPerField(policy: Policy, table: string, field: string) {
    table in policy && field in policy[table]
  }

  /** What competes with what: a field that is merged on its own, or the rest of its row. */
  datatype Slot = FieldSlot(table: string, row: string, field: string) | RowSlot(table: string, row: string)

  datatype Op = Op(table: string, row: string, field: string, write: Write)

  function SlotOf(policy: Policy, op: Op): Slot {
    if IsPerField(policy, op.table, op.field) then FieldSlot(op.table, op.row, op.field) else RowSlot(op.table, op.row)
  }

  type Projection = map<Slot, Write>

  function Apply(p: Projection, policy: Policy, op: Op): Projection {
    var slot := SlotOf(policy, op);
    p[slot := if slot in p then Winner(p[slot], op.write) else op.write]
  }

  function Replay(p: Projection, policy: Policy, ops: seq<Op>): Projection {
    if ops == [] then p else Apply(Replay(p, policy, ops[..|ops| - 1]), policy, ops[|ops| - 1])
  }

  /** Writes compete exactly when they are to one row, and there to one field or to two fields
      neither of which is merged on its own. */
  lemma FieldsCompeteExactlyWhen(policy: Policy, a: Op, b: Op)
    ensures SlotOf(policy, a) == SlotOf(policy, b) <==>
              && a.table == b.table && a.row == b.row
              && (a.field == b.field || (!IsPerField(policy, a.table, a.field) && !IsPerField(policy, b.table, b.field)))
  {
  }

  /** Some operation of the history writes `w` to the slot. */
  predicate Writes(ops: seq<Op>, policy: Policy, slot: Slot, w: Write) {
    exists op :: op in ops && SlotOf(policy, op) == slot && op.write == w
  }

  lemma WritesLast(ops: seq<Op>, policy: Policy, slot: Slot, w: Write)
    requires ops != []
    ensures var last := ops[|ops| - 1];
            Writes(ops, policy, slot, w) <==>
              Writes(ops[..|ops| - 1], policy, slot, w) || (SlotOf(policy, last) == slot && last.write == w)
  {
    assert forall op :: op in ops <==> op in ops[..|ops| - 1] || op == ops[|ops| - 1];
  }

  /** After a replay a slot holds a greatest one of the writes made to it. */
  lemma {:induction false} SlotHoldsGreatest(policy: Policy, ops: seq<Op>, slot: Slot, w: Write)
    ensures var p := Replay(map[], policy, ops);
            && (slot in p ==> Writes(ops, policy, slot, p[slot]))
            && (Writes(ops, policy, slot, w) ==> slot in p && AtMostKey(w, p[slot]))
  {
    if ops != [] {
      var earlier, last := ops[..|ops| - 1], ops[|ops| - 1];
      var before, p := Replay(map[], policy, earlier), Replay(map[], policy, ops);
      SlotHoldsGreatest(policy, earlier, slot, w);
      WritesLast(ops, policy, slot, w);
      if slot in p {
        WritesLast(ops, policy, slot, p[slot]);
      }
      if SlotOf(policy, last) == slot {
        ResolveIsTotal(last.write, last.write);
        if slot in before {
          ResolveIsTotal(before[slot], last.write);
          ResolveIsTotal(before[slot], before[slot]);
          if Writes(earlier, policy, slot, w) { ResolveIsTransitive(w, before[slot], p[slot]); }
        }
      }
    }
  }

  /** After a replay a slot holds a write made to it, none of them is later, and among those with
      its stamp none has a larger actor. */
  lemma {:induction false} SlotHoldsTheLatest(policy: Policy, ops: seq<Op>, op: Op)
    requires op in ops
    ensures var p, slot := Replay(map[], policy, ops), SlotOf(policy, op);
            && slot in p && Writes(ops, policy, slot, p[slot])
            && AtMost(op.write.hlc, p[slot].hlc)
            && (op.write.hlc == p[slot].hlc ==> TextAtMost(op.write.actor, p[slot].actor))
  {
    var p, slot := Replay(map[], policy, ops), SlotOf(policy, op);
    assert Writes(ops, policy, slot, op.write);
    SlotHoldsGreatest(policy, ops, slot, op.write);
    ResolveIsTotal(op.write, p[slot]);
    HlcIsTotal(op.write.hlc, p[slot].hlc);
    TextLessIsTotal(op.write.actor, p[slot].actor);
  }

  /** Writes to one slot with one stamp and actor are one write. */
  predicate Distinguishable(ops: seq<Op>, policy: Policy) {
    forall a, b | a in ops && b in ops && SlotOf(policy, a) == SlotOf(policy, b) && KeyOf(a.write) == KeyOf(b.write) ::
      a.write == b.write
  }

  ghost predicate SameOps(a: seq<Op>, b: seq<Op>) {
    forall op :: op in a <==> op in b
  }

  lemma SameSlot(policy: Policy, a: seq<Op>, b: seq<Op>, slot: Slot)
    requires SameOps(a, b) && Distinguishable(a, policy)
    ensures var p, q := Replay(map[], policy, a), Replay(map[], policy, b);
            (slot in p <==> slot in q) && (slot in p ==> p[slot] == q[slot])
  {
    var p, q := Replay(map[], policy, a), Replay(map[], policy, b);
    forall w ensures Writes(a, policy, slot, w) <==> Writes(b, policy, slot, w) {}
    if slot in p {
      SlotHoldsGreatest(policy, a, slot, p[slot]);
      SlotHoldsGreatest(policy, b, slot, p[slot]);
    }
    if slot in q {
      SlotHoldsGreatest(policy, b, slot, q[slot]);
      SlotHoldsGreatest(policy, a, slot, q[slot]);
    }
    if slot in p && slot in q { ResolveIsTotal(p[slot], q[slot]); }
  }

  /** Replicas that have seen the same operations, in any order and any number of times, show the
      same projection. */
  lemma ReplaysConverge(policy: Policy, a: seq<Op>, b: seq<Op>)
    requires SameOps(a, b) && Distinguishable(a, policy)
    ensures Replay(map[], policy, a) == Replay(map[], policy, b)
  {
    forall slot
      ensures var p, q := Replay(map[], policy, a), Replay(map[], policy, b);
              (slot in p <==> slot in q) && (slot in p ==> p[slot] == q[slot])
    {
      SameSlot(policy, a, b, slot);
    }
  }

  /** Two operations commute on a projection exactly when they do not tie for the same slot with
      different writes above what it already holds. */
  lemma OpsCommuteExactlyWhen(p: Projection, policy: Policy, a: Op, b: Op)
    ensures Apply(Apply(p, policy, a), policy, b) == Apply(Apply(p, policy, b), policy, a) <==>
              var slot := SlotOf(policy, a);
              !(slot == SlotOf(policy, b) && KeyOf(a.write) == KeyOf(b.write) && a.write != b.write
                && (slot in p ==> Resolve(p[slot], a.write) == LessThan))
  {
    var slot := SlotOf(policy, a);
    if slot != SlotOf(policy, b) {
      assert Apply(Apply(p, policy, a), policy, b) == Apply(Apply(p, policy, b), policy, a);
    } else {
      ResolveIsTotal(a.write, b.write);
      var x, y := Apply(Apply(p, policy, a), policy, b), Apply(Apply(p, policy, b), policy, a);
      assert x == p[slot := x[slot]] && y == p[slot := y[slot]];
      if slot in p {
        WinnersOfThree(p[slot], a.write, b.write);
      }
      assert x == y <==> x[slot] == y[slot];
    }
  }

  lemma WinnersOfThree(w: Write, a: Write, b: Write)
    ensures Winner(Winner(w, a), b) == Winner(Winner(w, b), a) <==>
              !(KeyOf(a) == KeyOf(b) && a != b && Resolve(w, a) == LessThan)
  {
    ResolveIsTotal(w, a);
    ResolveIsTotal(w, b);
    ResolveIsTotal(a, b);
    if AtMostKey(w, a) && AtMostKey(a, b) { ResolveIsTransitive(w, a, b); }
    if AtMostKey(w, b) && AtMostKey(b, a) { ResolveIsTransitive(w, b, a); }
    if AtMostKey(a, w) && AtMostKey(w, b) { ResolveIsTransitive(a, w, b); }
    if AtMostKey(b, w) && AtMostKey(w, a) { ResolveIsTransitive(b, w, a); }
  }
}
