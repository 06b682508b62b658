/** The hybrid logical clock of crates/actant-core/src/hlc.rs: stamps, their packed
    64-bit form, the two tick rules, and the compare-and-swap loops. */
module HybridClock {
  import opened Common

  const LOGICAL_SPAN := 0x1_0000
  const LOGICAL_MAX := LOGICAL_SPAN - 1
  const PHYSICAL_SPAN := 0x1_0000_0000_0000

  type U64 = x: int | 0 <= x < 0x1_0000_0000_0000_0000

  datatype Hlc = Hlc(physical: U64, logical: U32)

  /** The derived order: physical part first, logical part breaks ties. */
  predicate Less(a: Hlc, b: Hlc) {
    a.physical < b.physical || (a.physical == b.physical && a.logical < b.logical)
  }

  predicate AtMost(a: Hlc, b: Hlc) {
    a == b || Less(a, b)
  }

  function Max(a: int, b: int): int {
    if a < b then b else a
  }

  function Min(a: int, b: int): int {
    if a < b then a else b
  }

  // ------------------------------------------------------------ packing

  /** 48 physical bits above 16 logical bits; both parts are masked. */
  function Pack(h: Hlc): U64 {
    (h.physical % PHYSICAL_SPAN) * LOGICAL_SPAN + h.logical % LOGICAL_SPAN
  }

  function Unpack(raw: U64): Hlc {
    Hlc(raw / LOGICAL_SPAN % PHYSICAL_SPAN, raw % LOGICAL_SPAN)
  }

  predicate InRange(h: Hlc) {
    h.physical < PHYSICAL_SPAN && h.logical <= LOGICAL_MAX
  }

  /** Masking loses nothing exactly on the stamps that fit the word. */
  lemma UnpackUndoesPack(h: Hlc)
    ensures InRange(Unpack(Pack(h)))
    ensures Unpack(Pack(h)) == h <==> InRange(h)
  {
    var p, l := h.physical % PHYSICAL_SPAN, h.logical % LOGICAL_SPAN;
    assert (p * LOGICAL_SPAN + l) / LOGICAL_SPAN == p;
    assert (p * LOGICAL_SPAN + l) % LOGICAL_SPAN == l;
  }

  /** Every word is the packed form of exactly the stamp it unpacks to. */
  lemma PackUndoesUnpack(raw: U64)
    ensures InRange(Unpack(raw))
    ensures Pack(Unpack(raw)) == raw
  {
    assert raw / LOGICAL_SPAN < PHYSICAL_SPAN;
  }

  /** On stamps that fit, comparing words is comparing stamps. */
  lemma PackEmbedsOrder(a: Hlc, b: Hlc)
    requires InRange(a) && InRange(b)
    ensures Less(a, b) <==> Pack(a) < Pack(b)
    ensures AtMost(a, b) <==> Pack(a) <= Pack(b)
  {
    assert Pack(a) == a.physical * LOGICAL_SPAN + a.logical;
    assert Pack(b) == b.physical * LOGICAL_SPAN + b.logical;
  }

  lemma UnpackEmbedsOrder(v: U64, w: U64)
    ensures v < w <==> Less(Unpack(v), Unpack(w))
    ensures v <= w <==> AtMost(Unpack(v), Unpack(w))
  {
    PackUndoesUnpack(v);
    PackUndoesUnpack(w);
    PackEmbedsOrder(Unpack(v), Unpack(w));
  }

  // --------------------------------------------------------- tick rules

  function BumpLogical(c: U32): U32 {
    Min(c + 1, LOGICAL_MAX)
  }

  /** The stamp `local_tick` tries to install over `prev`. */
  function TickNext(prev: Hlc, now: U64): Hlc {
    if now > prev.physical then Hlc(now, 0) else Hlc(prev.physical, BumpLogical(prev.logical))
  }

  /** The stamp `observe` tries to install over `prev`. */
  function ObserveNext(prev: Hlc, remote: Hlc, now: U64): Hlc {
    var l := Max(Max(prev.physical, remote.physical), now);
    var c := match (l == prev.physical, l == remote.physical)
      case (true, true) => BumpLogical(Max(prev.logical, remote.logical))
      case (true, false) => BumpLogical(prev.logical)
      case (false, true) => BumpLogical(remote.logical)
      case (false, false) => 0;
    Hlc(l, c)
  }

  /** The tick has no room above `prev`. */
  predicate TickSaturates(prev: Hlc, now: U64) {
    now <= prev.physical && prev.logical >= LOGICAL_MAX
  }

  /** The observation has no room above whichever input already holds its physical part. */
  predicate ObserveSaturates(prev: Hlc, remote: Hlc, now: U64) {
    var l := Max(Max(prev.physical, remote.physical), now);
    (prev.physical == l && prev.logical >= LOGICAL_MAX) ||
    (remote.physical == l && remote.logical >= LOGICAL_MAX)
  }

  /** A tick rises strictly exactly when it does not saturate, and then never falls. */
  lemma TickRises(prev: Hlc, now: U64)
    requires InRange(prev) && now < PHYSICAL_SPAN
    ensures InRange(TickNext(prev, now))
    ensures AtMost(prev, TickNext(prev, now))
    ensures Less(prev, TickNext(prev, now)) <==> !TickSaturates(prev, now)
    ensures TickNext(prev, now).physical == Max(prev.physical, now)
  {
  }

  /** An observation rises strictly above both inputs exactly when it does not saturate. */
  lemma ObserveRises(prev: Hlc, remote: Hlc, now: U64)
    requires InRange(prev) && now < PHYSICAL_SPAN
    ensures var next := ObserveNext(prev, remote, now);
            && AtMost(prev, next)
            && (remote.logical <= LOGICAL_MAX ==> AtMost(remote, next))
            && (Less(prev, next) && Less(remote, next) <==> !ObserveSaturates(prev, remote, now))
            && next.logical <= LOGICAL_MAX
            && next.physical == Max(Max(prev.physical, remote.physical), now)
  {
  }

  /** A tick gives the least stamp above the stored one whose physical part has reached the reading;
      when there is none, the largest one of the stored physical part. */
  lemma TickIsLeast(prev: Hlc, now: U64, s: Hlc)
    requires InRange(prev) && now < PHYSICAL_SPAN
    ensures !TickSaturates(prev, now) && Less(prev, s) && s.physical >= now ==> AtMost(TickNext(prev, now), s)
    ensures TickSaturates(prev, now) ==> TickNext(prev, now) == Hlc(prev.physical, LOGICAL_MAX)
  {
  }

  /** An observation gives the least stamp above both the stored and the remote one whose physical
      part has reached the reading; when there is none, the largest one of their physical part. */
  lemma ObserveIsLeast(prev: Hlc, remote: Hlc, now: U64, s: Hlc)
    requires InRange(prev) && now < PHYSICAL_SPAN
    ensures !ObserveSaturates(prev, remote, now) && Less(prev, s) && Less(remote, s) && s.physical >= now ==>
              AtMost(ObserveNext(prev, remote, now), s)
    ensures ObserveSaturates(prev, remote, now) ==>
              ObserveNext(prev, remote, now) == Hlc(Max(Max(prev.physical, remote.physical), now), LOGICAL_MAX)
  {
  }

  /** What `observe` returns is what it stores exactly when the remote physical part fits 48 bits. */
  lemma ObserveStoresWhatItReturns(prev: Hlc, remote: Hlc, now: U64)
    requires InRange(prev) && now < PHYSICAL_SPAN
    ensures var next := ObserveNext(prev, remote, now);
            Unpack(Pack(next)) == next <==> remote.physical < PHYSICAL_SPAN
  {
    UnpackUndoesPack(ObserveNext(prev, remote, now));
  }

  /** The stored word falls exactly when the remote physical part does not fit 48 bits and what is
      left of it, with the remote counter bumped, is below the stamp that was stored. */
  lemma WordFallsExactlyWhen(prev: Hlc, remote: Hlc, now: U64)
    requires InRange(prev) && now < PHYSICAL_SPAN
    ensures Pack(ObserveNext(prev, remote, now)) < Pack(prev) <==>
              remote.physical >= PHYSICAL_SPAN
              && Less(Hlc(remote.physical % PHYSICAL_SPAN, BumpLogical(remote.logical)), prev)
  {
    var next := ObserveNext(prev, remote, now);
    if remote.physical < PHYSICAL_SPAN {
      ObserveRises(prev, remote, now);
      PackEmbedsOrder(prev, next);
    } else {
      var stored := Hlc(remote.physical % PHYSICAL_SPAN, BumpLogical(remote.logical));
      assert next == Hlc(remote.physical, BumpLogical(remote.logical));
      assert Pack(next) == Pack(stored);
      PackEmbedsOrder(stored, prev);
    }
  }

  // ------------------------------------------------ compare-and-swap loop

  /** The word that a compare-and-swap loop finally replaces. `rivals[i]` is what the
      other threads left in the word between this thread's i-th load and i-th swap. */
  function Overwritten(word: U64, rivals: seq<U64>): U64
    decreases |rivals|
  {
    if rivals == [] || rivals[0] == word then word
    else Overwritten(rivals[0], rivals[1..])
  }

  predicate Rising(word: U64, rivals: seq<U64>)
    decreases |rivals|
  {
    rivals == [] || (word <= rivals[0] && Rising(rivals[0], rivals[1..]))
  }

  /** If the other threads only ever raise the word, the replaced word is no lower than
      the one present when the call began: every call linearizes after its start. */
  lemma {:induction false} OverwrittenIsLater(word: U64, rivals: seq<U64>)
    requires Rising(word, rivals)
    ensures word <= Overwritten(word, rivals)
    decreases |rivals|
  {
    if rivals != [] && rivals[0] != word {
      OverwrittenIsLater(rivals[0], rivals[1..]);
    }
  }

  /** What the word is before the `i`-th swap, if every earlier one failed. */
  function WordBefore(word: U64, rivals: seq<U64>, i: nat): U64
    requires i <= |rivals|
  {
    if i == 0 then word else rivals[i - 1]
  }

  /** The loop goes round while a rival has changed the word, and replaces the first one that none has. */
  lemma {:induction false} OverwrittenIsFirstUndisturbed(word: U64, rivals: seq<U64>) returns (k: nat)
    ensures k <= |rivals| && Overwritten(word, rivals) == WordBefore(word, rivals, k)
    ensures k < |rivals| ==> rivals[k] == WordBefore(word, rivals, k)
    ensures forall i: nat :: i < k ==> rivals[i] != WordBefore(word, rivals, i)
    decreases |rivals|
  {
    if rivals == [] || rivals[0] == word {
      k := 0;
    } else {
      var n := OverwrittenIsFirstUndisturbed(rivals[0], rivals[1..]);
      k := n + 1;
      forall i: nat | i < k ensures rivals[i] != WordBefore(word, rivals, i) {
        if i > 0 { assert rivals[1..][i - 1] != WordBefore(rivals[0], rivals[1..], i - 1); }
      }
    }
  }

  class HlcClock {
    var state: U64

    constructor (initial: Hlc)
      ensures state == Pack(initial)
    {
      state := Pack(initial);
    }

    method Peek() returns (h: Hlc)
      ensures h == Unpack(state)
    {
      h := Unpack(state);
    }

    method LocalTick(reading: U64, rivals: seq<U64>) returns (next: Hlc)
      modifies this
      ensures next == TickNext(Unpack(Overwritten(old(state), rivals)), reading % PHYSICAL_SPAN)
      ensures state == Pack(next)
    {
      var now := reading % PHYSICAL_SPAN;
      var attempt := 0;
      while true
        invariant attempt <= |rivals|
        invariant Overwritten(state, rivals[attempt..]) == Overwritten(old(state), rivals)
        decreases |rivals| - attempt
      {
        var raw := state;
        next := TickNext(Unpack(raw), now);
        if attempt < |rivals| {
          state := rivals[attempt];
        }
        if state == raw {
          state := Pack(next);
          return;
        }
        attempt := attempt + 1;
      }
    }

    method Observe(remote: Hlc, reading: U64, rivals: seq<U64>) returns (next: Hlc)
      modifies this
      ensures next == ObserveNext(Unpack(Overwritten(old(state), rivals)), remote, reading % PHYSICAL_SPAN)
      ensures state == Pack(next)
    {
      var now := reading % PHYSICAL_SPAN;
      var attempt := 0;
      while true
        invariant attempt <= |rivals|
        invariant Overwritten(state, rivals[attempt..]) == Overwritten(old(state), rivals)
        decreases |rivals| - attempt
      {
        var raw := state;
        next := ObserveNext(Unpack(raw), remote, now);
        if attempt < |rivals| {
          state := rivals[attempt];
        }
        if state == raw {
          state := Pack(next);
          return;
        }
        attempt := attempt + 1;
      }
    }
  }
}
