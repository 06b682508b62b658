/** Replicated ingest: content-derived event ids (crates/actant-core/src/ids.rs), the batch loop of
    crates/actant-storage/src/repo.rs, and the difference that drives an exchange between replicas
    (crates/actant-sync/src/lib.rs). SHA-256 is the function `sha`. */
module Ingest {
  import opened Common
  import opened HybridClock

  type Byte = x: int | 0 <= x < 256

  /** A ledger row; `rest` stands for the columns that neither the id nor ingest looks at. */
  datatype Event = Event(id: string, workspace: string, actor: seq<Byte>, payload: seq<Byte>, rest: string)
  datatype Row = Row(event: Event, device: string, hlc: Hlc)
  datatype IngestEvent = IngestEvent(event: Event, hlc: Hlc, device: string, payload: seq<Byte>)

  // ----------------------------------------------------- content-derived ids

  function BigEndian(v: nat, bytes: nat): (s: seq<Byte>)
    ensures |s| == bytes
  {
    if bytes == 0 then [] else BigEndian(v / 256, bytes - 1) + [v % 256]
  }

  function Preimage(payload: seq<Byte>, hlc: Hlc, actor: seq<Byte>): seq<Byte> {
    payload + BigEndian(hlc.physical, 8) + BigEndian(hlc.logical, 4) + actor
  }

  function ContentId(payload: seq<Byte>, hlc: Hlc, actor: seq<Byte>, sha: seq<Byte> -> string): string {
    "evt_" + sha(Preimage(payload, hlc, actor))
  }

  function Value(s: seq<Byte>): nat {
    if s == [] then 0 else 256 * Value(s[..|s| - 1]) + s[|s| - 1]
  }

  function Span(bytes: nat): nat {
    if bytes == 0 then 1 else 256 * Span(bytes - 1)
  }

  lemma {:induction false} ValueUndoesBigEndian(v: nat, bytes: nat)
    requires v < Span(bytes)
    ensures Value(BigEndian(v, bytes)) == v
  {
    if bytes > 0 {
      var s := BigEndian(v, bytes);
      assert s[..bytes - 1] == BigEndian(v / 256, bytes - 1);
      ValueUndoesBigEndian(v / 256, bytes - 1);
    }
  }

  lemma MachineWordsFit(h: Hlc)
    ensures h.physical < Span(8) && h.logical < Span(4)
  {
    assert Span(2) == 256 * 256;
    assert Span(4) == 0x1_0000_0000;
    assert Span(6) == 256 * 256 * Span(4);
    assert Span(8) == 256 * 256 * Span(6);
  }

  predicate Injective(sha: seq<Byte> -> string, x: seq<Byte>, y: seq<Byte>) {
    sha(x) == sha(y) ==> x == y
  }

  /** The preimage is not framed: two of them coincide with the same payload, stamp and actor
      exactly when the payloads have the same length. */
  lemma PreimageIdentifies(p: seq<Byte>, h: Hlc, a: seq<Byte>, q: seq<Byte>, g: Hlc, b: seq<Byte>)
    requires Preimage(p, h, a) == Preimage(q, g, b)
    ensures (p == q && h == g && a == b) <==> |p| == |q|
  {
    if |p| == |q| {
      var x, y := Preimage(p, h, a), Preimage(q, g, b);
      var n := |p|;
      assert x[..n] == p && y[..n] == q;
      assert x[n..n + 8] == BigEndian(h.physical, 8) && y[n..n + 8] == BigEndian(g.physical, 8);
      assert x[n + 8..n + 12] == BigEndian(h.logical, 4) && y[n + 8..n + 12] == BigEndian(g.logical, 4);
      assert x[n + 12..] == a && y[n + 12..] == b;
      MachineWordsFit(h);
      MachineWordsFit(g);
      ValueUndoesBigEndian(h.physical, 8);
      ValueUndoesBigEndian(g.physical, 8);
      ValueUndoesBigEndian(h.logical, 4);
      ValueUndoesBigEndian(g.logical, 4);
    }
  }

  /** With payloads of one length, and no collision of the hash on the two inputs, equal ids mean
      equal contents. */
  lemma IdsIdentifyContents(p: seq<Byte>, h: Hlc, a: seq<Byte>, q: seq<Byte>, g: Hlc, b: seq<Byte>,
                            sha: seq<Byte> -> string)
    requires |p| == |q| && Injective(sha, Preimage(p, h, a), Preimage(q, g, b))
    ensures ContentId(p, h, a, sha) == ContentId(q, g, b, sha) <==> p == q && h == g && a == b
  {
    if ContentId(p, h, a, sha) == ContentId(q, g, b, sha) {
      assert ContentId(p, h, a, sha)[4..] == sha(Preimage(p, h, a));
      assert ContentId(q, g, b, sha)[4..] == sha(Preimage(q, g, b));
      PreimageIdentifies(p, h, a, q, g, b);
    }
  }

  lemma {:induction false} BigEndianZero(bytes: nat)
    ensures forall i :: 0 <= i < bytes ==> BigEndian(0, bytes)[i] == 0
  {
    if bytes > 0 { BigEndianZero(bytes - 1); }
  }

  /** Payload and actor can trade bytes without changing the id. */
  lemma PayloadAndActorCanTradeBytes(sha: seq<Byte> -> string)
    ensures ContentId([], Hlc(0, 0), [0], sha) == ContentId([0], Hlc(0, 0), [], sha)
  {
    BigEndianZero(8);
    BigEndianZero(4);
    assert Preimage([], Hlc(0, 0), [0]) == Preimage([0], Hlc(0, 0), []);
  }

  // ------------------------------------------------------------ validation

  /** What a store checks a row against. */
  datatype Rules = Rules(sha: seq<Byte> -> string, workspaces: set<string>)

  datatype Reject = Reject(index: nat, id: string, reason: string)

  /** The reason to refuse the row, in the order of the checks. */
  function Refusal(ie: IngestEvent, r: Rules): Option<string> {
    if ie.device == "" then Some("missing_fields")
    else if ContentId(ie.payload, ie.hlc, ie.event.actor, r.sha) != ie.event.id then Some("hash_mismatch")
    else if ie.event.workspace !in r.workspaces then Some("workspace_unknown")
    else None
  }

  predicate Valid(ie: IngestEvent, r: Rules) {
    Refusal(ie, r).None?
  }

  function RowOf(ie: IngestEvent): Row {
    Row(ie.event, ie.device, ie.hlc)
  }

  // ------------------------------------------------------------- one batch

  type Rows = map<string, Row>

  /** `INSERT ... ON CONFLICT(id) DO NOTHING`, for a row that passed validation. */
  function Insert(rows: Rows, ie: IngestEvent, r: Rules): Rows {
    if !Valid(ie, r) || ie.event.id in rows then rows else rows[ie.event.id := RowOf(ie)]
  }

  function RowsAfter(rows: Rows, batch: seq<IngestEvent>, r: Rules): Rows {
    if batch == [] then rows
    else Insert(RowsAfter(rows, batch[..|batch| - 1], r), batch[|batch| - 1], r)
  }

  function NewCount(rows: Rows, batch: seq<IngestEvent>, r: Rules): nat {
    if batch == [] then 0
    else
      var ie := batch[|batch| - 1];
      var earlier := batch[..|batch| - 1];
      NewCount(rows, earlier, r) + if Valid(ie, r) && ie.event.id !in RowsAfter(rows, earlier, r) then 1 else 0
  }

  function RepeatCount(rows: Rows, batch: seq<IngestEvent>, r: Rules): nat {
    if batch == [] then 0
    else
      var ie := batch[|batch| - 1];
      var earlier := batch[..|batch| - 1];
      RepeatCount(rows, earlier, r) + if Valid(ie, r) && ie.event.id in RowsAfter(rows, earlier, r) then 1 else 0
  }

  function Rejects(batch: seq<IngestEvent>, r: Rules): seq<Reject> {
    if batch == [] then []
    else
      var ie := batch[|batch| - 1];
      var refusal := Refusal(ie, r);
      Rejects(batch[..|batch| - 1], r) +
      if refusal.Some? then [Reject(|batch| - 1, ie.event.id, refusal.value)] else []
  }

  function Top(batch: seq<IngestEvent>, r: Rules): Option<Hlc> {
    if batch == [] then None
    else
      var ie := batch[|batch| - 1];
      var top := Top(batch[..|batch| - 1], r);
      if !Valid(ie, r) || (top.Some? && AtMost(ie.hlc, top.value)) then top else Some(ie.hlc)
  }

  const COUNTER_MAX: U32 := 0xFFFF_FFFF

  function Saturated(n: nat): U32 {
    Min(n, COUNTER_MAX)
  }

  datatype Report = Report(accepted: U32, skipped: U32, rejected: seq<Reject>)

  class Storage {
    var rows: Rows
    const rules: Rules

    constructor (rules: Rules)
      ensures rows == map[] && this.rules == rules
    {
      this.rules := rules;
      rows := map[];
    }

    /** The batch loop. `reading` and `rivals` are what the clock sees if it is observed. */
    method IngestEvents(batch: seq<IngestEvent>, clock: HlcClock?, reading: U64, rivals: seq<U64>)
      returns (report: Report)
      modifies `rows, clock
      ensures rows == RowsAfter(old(rows), batch, rules)
      ensures report.accepted == Saturated(NewCount(old(rows), batch, rules))
      ensures report.skipped == Saturated(RepeatCount(old(rows), batch, rules))
      ensures report.rejected == Rejects(batch, rules)
      ensures clock != null ==>
                match Top(batch, rules)
                case None => clock.state == old(clock.state)
                case Some(top) =>
                  var word := Overwritten(old(clock.state), rivals);
                  clock.state == Pack(ObserveNext(Unpack(word), top, reading % PHYSICAL_SPAN))
    {
      var accepted, skipped := 0, 0;
      var rejected: seq<Reject> := [];
      var top: Option<Hlc> := None;
      assert batch[..0] == [];
      for index := 0 to |batch|
        invariant rows == RowsAfter(old(rows), batch[..index], rules)
        invariant accepted == Saturated(NewCount(old(rows), batch[..index], rules))
        invariant skipped == Saturated(RepeatCount(old(rows), batch[..index], rules))
        invariant rejected == Rejects(batch[..index], rules)
        invariant top == Top(batch[..index], rules)
        invariant clock != null ==> clock.state == old(clock.state)
      {
        var ie := batch[index];
        assert batch[..index + 1][..index] == batch[..index];
        var refusal := Refusal(ie, rules);
        if refusal.Some? {
          rejected := rejected + [Reject(index, ie.event.id, refusal.value)];
        } else {
          if ie.event.id in rows {
            skipped := if skipped < COUNTER_MAX then skipped + 1 else skipped;
          } else {
            rows := rows[ie.event.id := RowOf(ie)];
            accepted := if accepted < COUNTER_MAX then accepted + 1 else accepted;
          }
          top := if top.Some? && AtMost(ie.hlc, top.value) then top else Some(ie.hlc);
        }
      }
      assert batch[..|batch|] == batch;
      if clock != null && top.Some? {
        var _ := clock.Observe(top.value, reading, rivals);
      }
      report := Report(accepted, skipped, rejected);
    }
  }
}
