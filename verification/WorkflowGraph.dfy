/** Workflow definitions and the topological sort of crates/actant-flow/src/lib.rs. */
module WorkflowGraph {
  import opened Common
  import opened Text

  datatype Result<T> = Ok(value: T) | Err(error: string)

  datatype NodeType =
    | AgentTask | ModelCall | ToolCall | ApprovalGate | HumanTask | Condition
    | ParallelGroup | MemoryWrite | FileOperation | Delay | Subworkflow

  /** The entries of a node's JSON configuration that the runner looks up. */
  datatype Config = Config(
    tool: Option<string>, arguments: Option<string>, prompt: Option<string>,
    summary: Option<string>, seconds: Option<nat>)

  datatype Node = Node(key: string, nodeType: NodeType, config: Option<Config>)
  datatype Edge = Edge(src: string, dst: string)
  datatype Workflow = Workflow(name: string, nodes: seq<Node>, edges: seq<Edge>)

  function KeysOf(nodes: seq<Node>): set<string> {
    set n | n in nodes :: n.key
  }

  function TargetsOf(edges: seq<Edge>): set<string> {
    set e | e in edges :: e.dst
  }

  function Keys(wf: Workflow): set<string> {
    KeysOf(wf.nodes)
  }

  /** The keys of the in-degree table: declared nodes and edge targets. */
  function Tabled(wf: Workflow): set<string> {
    Keys(wf) + TargetsOf(wf.edges)
  }

  /** Node keys are distinct and edges join declared nodes. */
  predicate WellFormed(wf: Workflow) {
    && (forall i, j :: 0 <= i < j < |wf.nodes| ==> wf.nodes[i].key != wf.nodes[j].key)
    && (forall e :: e in wf.edges ==> e.src in Keys(wf) && e.dst in Keys(wf))
  }

  // ------------------------------------------------------ specification

  /** The adjacency list of `n`: targets of its outgoing edges, in declaration order. */
  function Targets(edges: seq<Edge>, n: string): seq<string> {
    if edges == [] then []
    else (if edges[0].src == n then [edges[0].dst] else []) + Targets(edges[1..], n)
  }

  /** How many edges enter `v` from outside `done`, parallel edges counted separately. */
  function Waiting(edges: seq<Edge>, v: string, done: set<string>): nat {
    if edges == [] then 0
    else (if edges[0].dst == v && edges[0].src !in done then 1 else 0) + Waiting(edges[1..], v, done)
  }

  /** One edge's worth of the inner loop, for each target in turn. */
  function Release(indeg: map<string, nat>, ready: seq<string>, targets: seq<string>)
    : (map<string, nat>, seq<string>)
    decreases |targets|
  {
    if targets == [] then (indeg, ready)
    else
      var m := targets[0];
      var before := if m in indeg then indeg[m] else 0;
      var after := if before > 0 then before - 1 else before;
      Release(indeg[m := after], if after == 0 then ready + [m] else ready, targets[1..])
  }

  lemma {:induction false} ReleaseKeepsKeys(indeg: map<string, nat>, ready: seq<string>, targets: seq<string>)
    ensures Release(indeg, ready, targets).0.Keys == indeg.Keys + SetOf(targets)
    ensures forall x :: x in Release(indeg, ready, targets).1 ==> x in ready || x in targets
    decreases |targets|
  {
    if targets != [] {
      var m := targets[0];
      var before := if m in indeg then indeg[m] else 0;
      var after := if before > 0 then before - 1 else before;
      assert targets == [m] + targets[1..];
      ReleaseKeepsKeys(indeg[m := after], if after == 0 then ready + [m] else ready, targets[1..]);
    }
  }

  lemma TargetsAreTargets(edges: seq<Edge>, n: string)
    ensures forall m :: m in Targets(edges, n) ==> exists e :: e in edges && e.dst == m && e.src == n
  {
    if edges != [] {
      TargetsAreTargets(edges[1..], n);
      forall m | m in Targets(edges, n) ensures exists e :: e in edges && e.dst == m && e.src == n {
        if m in Targets(edges[1..], n) {
          var e :| e in edges[1..] && e.dst == m && e.src == n;
          assert e in edges;
        } else {
          assert edges[0] in edges;
        }
      }
    }
  }

  /** The outer loop: pop the last ready vertex, emit it, release its targets. */
  function Drain(edges: seq<Edge>, indeg: map<string, nat>, ready: seq<string>, out: seq<string>): seq<string>
    requires forall e :: e in edges ==> e.dst in indeg
    requires forall x :: x in ready ==> x in indeg
    decreases |indeg.Keys - SetOf(out)|, |ready|
  {
    if ready == [] then out
    else
      var n, rest := ready[|ready| - 1], ready[..|ready| - 1];
      if n in out then Drain(edges, indeg, rest, out)
      else
        TargetsAreTargets(edges, n);
        ReleaseKeepsKeys(indeg, rest, Targets(edges, n));
        var next := Release(indeg, rest, Targets(edges, n));
        assert next.0.Keys == indeg.Keys;
        assert SetOf(out + [n]) == SetOf(out) + {n};
        assert n in indeg.Keys - SetOf(out);
        assert indeg.Keys - SetOf(out + [n]) == (indeg.Keys - SetOf(out)) - {n};
        Drain(edges, next.0, next.1, out + [n])
  }

  function InDegrees(wf: Workflow): map<string, nat> {
    map v | v in Tabled(wf) :: Waiting(wf.edges, v, {})
  }

  ghost function Emitted(wf: Workflow): seq<string> {
    Drain(wf.edges, InDegrees(wf), InOrder(set v | v in Tabled(wf) && InDegrees(wf)[v] == 0), [])
  }

  ghost function Sorted(wf: Workflow): Result<seq<string>> {
    if |Emitted(wf)| != |wf.nodes| then Err("cycle detected") else Ok(Emitted(wf))
  }

  // -------------------------------------------------------- the method

  lemma WaitingExtends(edges: seq<Edge>, e: Edge, v: string, done: set<string>)
    ensures Waiting(edges + [e], v, done)
         == Waiting(edges, v, done) + if e.dst == v && e.src !in done then 1 else 0
  {
    if edges != [] {
      assert (edges + [e])[1..] == edges[1..] + [e];
      WaitingExtends(edges[1..], e, v, done);
    }
  }

  lemma TargetsExtends(edges: seq<Edge>, e: Edge, n: string)
    ensures Targets(edges + [e], n) == Targets(edges, n) + if e.src == n then [e.dst] else []
  {
    if edges != [] {
      assert (edges + [e])[1..] == edges[1..] + [e];
      TargetsExtends(edges[1..], e, n);
    }
  }

  lemma KeysExtend(nodes: seq<Node>, n: Node)
    ensures KeysOf(nodes + [n]) == KeysOf(nodes) + {n.key}
  {
    forall k ensures k in KeysOf(nodes + [n]) <==> k in KeysOf(nodes) + {n.key} {
      if k == n.key { assert n in nodes + [n]; }
      if m :| m in nodes && m.key == k { assert m in nodes + [n]; }
    }
  }

  lemma TargetsOfExtend(edges: seq<Edge>, e: Edge)
    ensures TargetsOf(edges + [e]) == TargetsOf(edges) + {e.dst}
  {
    forall k ensures k in TargetsOf(edges + [e]) <==> k in TargetsOf(edges) + {e.dst} {
      if k == e.dst { assert e in edges + [e]; }
      if f :| f in edges && f.dst == k { assert f in edges + [e]; }
    }
  }

  /** The tables after the first `edges`: lists of targets, and in-degrees over `vertices`. */
  ghost predicate Tables(edges: seq<Edge>, vertices: set<string>, adj: map<string, seq<string>>, indeg: map<string, nat>) {
    && indeg.Keys == vertices
    && (forall v :: (if v in indeg then indeg[v] else 0) == Waiting(edges, v, {}))
    && (forall n :: (if n in adj then adj[n] else []) == Targets(edges, n))
  }

  lemma TablesExtend(edges: seq<Edge>, vertices: set<string>, adj: map<string, seq<string>>, indeg: map<string, nat>, e: Edge)
    requires Tables(edges, vertices, adj, indeg)
    ensures Tables(edges + [e], vertices + {e.dst},
                   adj[e.src := (if e.src in adj then adj[e.src] else []) + [e.dst]],
                   indeg[e.dst := (if e.dst in indeg then indeg[e.dst] else 0) + 1])
  {
    var adj' := adj[e.src := (if e.src in adj then adj[e.src] else []) + [e.dst]];
    var indeg' := indeg[e.dst := (if e.dst in indeg then indeg[e.dst] else 0) + 1];
    forall v ensures (if v in indeg' then indeg'[v] else 0) == Waiting(edges + [e], v, {}) {
      WaitingExtends(edges, e, v, {});
    }
    forall n ensures (if n in adj' then adj'[n] else []) == Targets(edges + [e], n) {
      TargetsExtends(edges, e, n);
    }
  }

  lemma {:induction false} TablesSeed(vertices: set<string>, adj: map<string, seq<string>>, indeg: map<string, nat>, key: string)
    requires Tables([], vertices, adj, indeg)
    ensures Tables([], vertices + {key}, adj, indeg[key := 0])
    ensures key !in adj ==> Tables([], vertices + {key}, adj[key := []], indeg[key := 0])
  {
  }

  /** An entry for every declared node. */
  method SeedTables(nodes: seq<Node>) returns (adj: map<string, seq<string>>, indeg: map<string, nat>)
    ensures Tables([], KeysOf(nodes), adj, indeg)
  {
    adj, indeg := map[], map[];
    for i := 0 to |nodes|
      invariant Tables([], KeysOf(nodes[..i]), adj, indeg)
    {
      var key := nodes[i].key;
      assert nodes[..i + 1] == nodes[..i] + [nodes[i]];
      KeysExtend(nodes[..i], nodes[i]);
      TablesSeed(KeysOf(nodes[..i]), adj, indeg, key);
      indeg := indeg[key := 0];
      if key !in adj { adj := adj[key := []]; }
    }
    assert nodes[..|nodes|] == nodes;
  }

  lemma PrefixGrows(edges: seq<Edge>, i: nat, keys: set<string>)
    requires i < |edges|
    ensures edges[..i + 1] == edges[..i] + [edges[i]]
    ensures keys + TargetsOf(edges[..i + 1]) == keys + TargetsOf(edges[..i]) + {edges[i].dst}
  {
    assert edges[..i + 1] == edges[..i] + [edges[i]];
    TargetsOfExtend(edges[..i], edges[i]);
  }

  lemma TablesMove(edges: seq<Edge>, edges': seq<Edge>, vertices: set<string>, vertices': set<string>,
                   adj: map<string, seq<string>>, indeg: map<string, nat>, e: Edge)
    requires Tables(edges, vertices, adj, indeg) && edges' == edges + [e] && vertices' == vertices + {e.dst}
    ensures Tables(edges', vertices',
                   adj[e.src := (if e.src in adj then adj[e.src] else []) + [e.dst]],
                   indeg[e.dst := (if e.dst in indeg then indeg[e.dst] else 0) + 1])
  {
    TablesExtend(edges, vertices, adj, indeg, e);
  }

  /** Fills the adjacency lists and the in-degree table. */
  method BuildTables(wf: Workflow) returns (adj: map<string, seq<string>>, indeg: map<string, nat>)
    ensures Tables(wf.edges, Tabled(wf), adj, indeg)
  {
    adj, indeg := SeedTables(wf.nodes);
    assert wf.edges[..0] == [] && Keys(wf) + TargetsOf([]) == Keys(wf);
    for i := 0 to |wf.edges|
      invariant Tables(wf.edges[..i], Keys(wf) + TargetsOf(wf.edges[..i]), adj, indeg)
    {
      var e := wf.edges[i];
      PrefixGrows(wf.edges, i, Keys(wf));
      TablesMove(wf.edges[..i], wf.edges[..i + 1], Keys(wf) + TargetsOf(wf.edges[..i]),
                 Keys(wf) + TargetsOf(wf.edges[..i + 1]), adj, indeg, e);
      adj := adj[e.src := (if e.src in adj then adj[e.src] else []) + [e.dst]];
      indeg := indeg[e.dst := (if e.dst in indeg then indeg[e.dst] else 0) + 1];
    }
    assert wf.edges[..|wf.edges|] == wf.edges;
  }

  /** The inner loop: one edge's worth of bookkeeping for each target. */
  method ReleaseTargets(indeg0: map<string, nat>, ready0: seq<string>, targets: seq<string>)
    returns (indeg: map<string, nat>, ready: seq<string>)
    ensures (indeg, ready) == Release(indeg0, ready0, targets)
  {
    indeg, ready := indeg0, ready0;
    for i := 0 to |targets|
      invariant Release(indeg, ready, targets[i..]) == Release(indeg0, ready0, targets)
    {
      var m := targets[i];
      var entry := if m in indeg then indeg[m] else 0;
      if entry > 0 { entry := entry - 1; }
      assert targets[i..][1..] == targets[i + 1..];
      indeg := indeg[m := entry];
      if entry == 0 { ready := ready + [m]; }
    }
    assert targets[|targets|..] == [];
  }

  /** The outer loop, from the tables and the vertices without predecessors. */
  method DrainReady(edges: seq<Edge>, adj: map<string, seq<string>>, indeg0: map<string, nat>, ready0: seq<string>)
    returns (out: seq<string>)
    requires forall n :: (if n in adj then adj[n] else []) == Targets(edges, n)
    requires forall e :: e in edges ==> e.dst in indeg0
    requires forall x :: x in ready0 ==> x in indeg0
    ensures out == Drain(edges, indeg0, ready0, [])
  {
    var indeg, ready := indeg0, ready0;
    var visited: set<string> := {};
    out := [];
    while ready != []
      invariant indeg.Keys == indeg0.Keys
      invariant forall x :: x in ready ==> x in indeg
      invariant visited == SetOf(out)
      invariant Drain(edges, indeg, ready, out) == Drain(edges, indeg0, ready0, [])
      decreases |indeg0.Keys - visited|, |ready|
    {
      var n := ready[|ready| - 1];
      if n in visited {
        ready := ready[..|ready| - 1];
        continue;
      }
      DrainStep(edges, indeg, ready, out);
      visited := visited + {n};
      out := out + [n];
      var targets := if n in adj then adj[n] else [];
      indeg, ready := ReleaseTargets(indeg, ready[..|ready| - 1], targets);
    }
  }

  method TopologicalOrder(wf: Workflow) returns (r: Result<seq<string>>)
    ensures r == Sorted(wf)
  {
    var adj, indeg := BuildTables(wf);
    assert indeg == InDegrees(wf);
    var roots := set v | v in indeg.Keys && indeg[v] == 0;
    assert roots == set v | v in Tabled(wf) && InDegrees(wf)[v] == 0;
    TargetsAreTabled(wf);
    var ready := Sort(roots);
    var out := DrainReady(wf.edges, adj, indeg, ready);
    if |out| != |wf.nodes| { return Err("cycle detected"); }
    return Ok(out);
  }

  lemma TargetsAreTabled(wf: Workflow)
    ensures forall e :: e in wf.edges ==> e.dst in Tabled(wf)
  {
  }

  lemma DrainStep(edges: seq<Edge>, indeg: map<string, nat>, ready: seq<string>, out: seq<string>)
    requires forall e :: e in edges ==> e.dst in indeg
    requires forall x :: x in ready ==> x in indeg
    requires ready != [] && ready[|ready| - 1] !in out
    ensures var n := ready[|ready| - 1];
            var next := Release(indeg, ready[..|ready| - 1], Targets(edges, n));
            && next.0.Keys == indeg.Keys
            && (forall x :: x in next.1 ==> x in indeg)
            && SetOf(out + [n]) == SetOf(out) + {n}
            && |indeg.Keys - SetOf(out + [n])| < |indeg.Keys - SetOf(out)|
            && Drain(edges, indeg, ready, out) == Drain(edges, next.0, next.1, out + [n])
  {
    var n := ready[|ready| - 1];
    TargetsAreTargets(edges, n);
    ReleaseKeepsKeys(indeg, ready[..|ready| - 1], Targets(edges, n));
    assert SetOf(out + [n]) == SetOf(out) + {n};
    assert n in indeg.Keys - SetOf(out);
    assert indeg.Keys - SetOf(out + [n]) == (indeg.Keys - SetOf(out)) - {n};
  }

  // ------------------------------------------- what the algorithm achieves

  function Count(s: seq<string>, v: string): nat {
    if s == [] then 0 else (if s[0] == v then 1 else 0) + Count(s[1..], v)
  }

  lemma {:induction false} WaitingSplits(edges: seq<Edge>, v: string, done: set<string>, n: string)
    requires n !in done
    ensures Waiting(edges, v, done) == Waiting(edges, v, done + {n}) + Count(Targets(edges, n), v)
  {
    if edges != [] {
      WaitingSplits(edges[1..], v, done, n);
      if edges[0].src == n {
        assert Targets(edges, n)[1..] == Targets(edges[1..], n);
      } else {
        assert Targets(edges, n) == Targets(edges[1..], n);
      }
    }
  }

  lemma {:induction false} WaitingIsZero(edges: seq<Edge>, v: string, done: set<string>)
    ensures Waiting(edges, v, done) == 0 <==> forall e :: e in edges && e.dst == v ==> e.src in done
  {
    if edges != [] {
      WaitingIsZero(edges[1..], v, done);
      assert edges == [edges[0]] + edges[1..];
    }
  }

  /** Every vertex's predecessors have all been emitted before it. */
  predicate PredecessorsFirst(edges: seq<Edge>, out: seq<string>) {
    forall i, e :: 0 <= i < |out| && e in edges && e.dst == out[i] ==> e.src in out[..i]
  }

  /** The loop state: `pending` are the targets still to be released for the last vertex of `out`. */
  ghost predicate Accounted(edges: seq<Edge>, indeg: map<string, nat>, ready: seq<string>,
                            out: seq<string>, pending: seq<string>)
  {
    && (forall e :: e in edges ==> e.dst in indeg)
    && (forall m :: m in pending ==> m in indeg)
    && (forall v :: v in indeg ==> indeg[v] == Waiting(edges, v, SetOf(out)) + Count(pending, v))
    && Distinct(ready) && Distinct(out)
    && (forall x :: x in ready ==> x in indeg && indeg[x] == 0 && x !in out)
    && (forall x :: x in out ==> x in indeg && indeg[x] == 0)
    && (forall v :: v in indeg && indeg[v] == 0 ==> v in out || v in ready)
    && PredecessorsFirst(edges, out)
  }

  lemma CountTail(s: seq<string>, v: string)
    requires s != []
    ensures Count(s, v) == (if s[0] == v then 1 else 0) + Count(s[1..], v)
  {
  }

  lemma ReleaseOneAccounts(edges: seq<Edge>, indeg: map<string, nat>, ready: seq<string>,
                           out: seq<string>, pending: seq<string>)
    requires Accounted(edges, indeg, ready, out, pending) && pending != []
    ensures var m := pending[0];
            && m in indeg && indeg[m] > 0
            && Accounted(edges, indeg[m := indeg[m] - 1],
                         if indeg[m] == 1 then ready + [m] else ready, out, pending[1..])
  {
    var m := pending[0];
    assert m in indeg;
    CountTail(pending, m);
    assert m !in ready && m !in out;
    var indeg' := indeg[m := indeg[m] - 1];
    var ready' := if indeg[m] == 1 then ready + [m] else ready;
    forall v | v in indeg' ensures indeg'[v] == Waiting(edges, v, SetOf(out)) + Count(pending[1..], v) {
      CountTail(pending, v);
    }
    assert Distinct(ready');
    assert forall x :: x in ready' <==> x in ready || (x == m && indeg[m] == 1);
  }

  lemma ReleaseStep(indeg: map<string, nat>, ready: seq<string>, pending: seq<string>)
    requires pending != [] && pending[0] in indeg && indeg[pending[0]] > 0
    ensures var m := pending[0];
            Release(indeg, ready, pending) ==
              Release(indeg[m := indeg[m] - 1], if indeg[m] == 1 then ready + [m] else ready, pending[1..])
  {
  }

  lemma {:induction false} ReleaseAccounts(edges: seq<Edge>, indeg: map<string, nat>, ready: seq<string>,
                                           out: seq<string>, pending: seq<string>)
    requires Accounted(edges, indeg, ready, out, pending)
    ensures var r := Release(indeg, ready, pending); Accounted(edges, r.0, r.1, out, [])
    decreases |pending|
  {
    if pending == [] {
      assert Release(indeg, ready, pending) == (indeg, ready);
    } else {
      var m := pending[0];
      ReleaseOneAccounts(edges, indeg, ready, out, pending);
      ReleaseStep(indeg, ready, pending);
      ReleaseAccounts(edges, indeg[m := indeg[m] - 1], if indeg[m] == 1 then ready + [m] else ready, out, pending[1..]);
    }
  }

  lemma PopAccounts(edges: seq<Edge>, indeg: map<string, nat>, ready: seq<string>, out: seq<string>)
    requires Accounted(edges, indeg, ready, out, []) && ready != []
    ensures var n := ready[|ready| - 1];
            n !in out && Accounted(edges, indeg, ready[..|ready| - 1], out + [n], Targets(edges, n))
  {
    var n, rest := ready[|ready| - 1], ready[..|ready| - 1];
    var out' := out + [n];
    assert ready == rest + [n];
    TargetsAreTargets(edges, n);
    assert SetOf(out') == SetOf(out) + {n};
    forall v | v in indeg ensures indeg[v] == Waiting(edges, v, SetOf(out')) + Count(Targets(edges, n), v) {
      WaitingSplits(edges, v, SetOf(out), n);
    }
    assert forall x :: x in rest ==> x in ready && x != n;
    assert forall x :: x in out' ==> x in out || x == n;
    forall i, e | 0 <= i < |out'| && e in edges && e.dst == out'[i] ensures e.src in out'[..i] {
      if i < |out| {
        assert out'[..i] == out[..i];
      } else {
        assert out'[..i] == out;
        WaitingIsZero(edges, n, SetOf(out));
      }
    }
  }

  /** What is emitted, for any workflow at all: distinct tabled vertices, each after all its
      predecessors, and nothing is left out that could have been emitted. */
  ghost predicate Blocked(edges: seq<Edge>, out: seq<string>, v: string) {
    exists e :: e in edges && e.dst == v && e.src !in out
  }

  ghost predicate MaximalOrder(edges: seq<Edge>, table: set<string>, out: seq<string>) {
    && Distinct(out)
    && SetOf(out) <= table
    && PredecessorsFirst(edges, out)
    && (forall v {:trigger Blocked(edges, out, v)} :: v in table && v !in out ==> Blocked(edges, out, v))
  }

  lemma {:induction false} DrainIsMaximal(edges: seq<Edge>, indeg: map<string, nat>, ready: seq<string>, out: seq<string>)
    requires Accounted(edges, indeg, ready, out, [])
    ensures MaximalOrder(edges, indeg.Keys, Drain(edges, indeg, ready, out))
    decreases |indeg.Keys - SetOf(out)|
  {
    if ready == [] {
      forall v | v in indeg && v !in out ensures Blocked(edges, out, v) {
        WaitingIsZero(edges, v, SetOf(out));
      }
    } else {
      var n, rest := ready[|ready| - 1], ready[..|ready| - 1];
      PopAccounts(edges, indeg, ready, out);
      ReleaseAccounts(edges, indeg, rest, out + [n], Targets(edges, n));
      var next := Release(indeg, rest, Targets(edges, n));
      TargetsAreTargets(edges, n);
      ReleaseKeepsKeys(indeg, rest, Targets(edges, n));
      assert next.0.Keys == indeg.Keys;
      assert n in indeg.Keys - SetOf(out);
      assert indeg.Keys - SetOf(out + [n]) == (indeg.Keys - SetOf(out)) - {n};
      DrainIsMaximal(edges, next.0, next.1, out + [n]);
    }
  }

  lemma EmittedIsMaximal(wf: Workflow)
    ensures MaximalOrder(wf.edges, Tabled(wf), Emitted(wf))
  {
    var indeg := InDegrees(wf);
    var ready := InOrder(set v | v in Tabled(wf) && indeg[v] == 0);
    forall i, j | 0 <= i < j < |ready| ensures ready[i] != ready[j] { TextLessIsTotal(ready[i], ready[j]); }
    assert SetOf([]) == {};
    assert Accounted(wf.edges, indeg, ready, [], []);
    DrainIsMaximal(wf.edges, indeg, ready, []);
  }

  // ------------------------------------------------------------- cycles

  ghost predicate Joined(edges: seq<Edge>, a: string, b: string) {
    Edge(a, b) in edges
  }

  ghost predicate Path(edges: seq<Edge>, p: seq<string>) {
    forall i :: 0 <= i < |p| - 1 ==> Joined(edges, p[i], p[i + 1])
  }

  ghost predicate Cycle(edges: seq<Edge>, p: seq<string>) {
    |p| >= 2 && Path(edges, p) && p[0] == p[|p| - 1]
  }

  lemma {:induction false} Pigeonhole(s: seq<string>, pool: set<string>)
    requires SetOf(s) <= pool && |s| > |pool|
    ensures exists i, j :: 0 <= i < j < |s| && s[i] == s[j]
    decreases |s|
  {
    var last, init := s[|s| - 1], s[..|s| - 1];
    if last in init {
      var i :| 0 <= i < |init| && init[i] == last;
      assert s[i] == s[|s| - 1];
    } else {
      assert last in pool;
      assert SetOf(init) <= pool - {last};
      Pigeonhole(init, pool - {last});
      var i, j :| 0 <= i < j < |init| && init[i] == init[j];
      assert s[i] == s[j];
    }
  }

  ghost predicate Fed(edges: seq<Edge>, stuck: set<string>, v: string) {
    exists e :: e in edges && e.dst == v && e.src in stuck
  }

  ghost predicate AllFed(edges: seq<Edge>, stuck: set<string>) {
    forall v {:trigger Fed(edges, stuck, v)} :: v in stuck ==> Fed(edges, stuck, v)
  }

  /** If every member of `stuck` has a predecessor in `stuck`, paths inside it can be any length. */
  lemma {:induction false} LongPath(edges: seq<Edge>, stuck: set<string>, length: nat) returns (p: seq<string>)
    requires stuck != {}
    requires AllFed(edges, stuck)
    ensures |p| == length + 1 && Path(edges, p) && SetOf(p) <= stuck
  {
    if length == 0 {
      var v :| v in stuck;
      p := [v];
    } else {
      var q := LongPath(edges, stuck, length - 1);
      assert q[0] in SetOf(q) && Fed(edges, stuck, q[0]);
      var e :| e in edges && e.dst == q[0] && e.src in stuck;
      p := [e.src] + q;
      forall i | 0 <= i < |p| - 1 ensures Joined(edges, p[i], p[i + 1]) {
        if i > 0 { assert Joined(edges, q[i - 1], q[i]); } else { assert e == Edge(p[0], p[1]); }
      }
      forall x | x in SetOf(p) ensures x in stuck { if x != e.src { assert x in SetOf(q); } }
    }
  }

  /** A path into an emitted vertex starts at a vertex emitted earlier. */
  lemma {:induction false} PathAdvances(edges: seq<Edge>, out: seq<string>, p: seq<string>, last: nat)
    requires PredecessorsFirst(edges, out)
    requires Path(edges, p) && |p| >= 2
    requires last < |out| && out[last] == p[|p| - 1]
    ensures p[0] in out[..last]
    decreases |p|
  {
    var k := |p| - 2;
    assert Joined(edges, p[k], p[k + 1]);
    assert p[k] in out[..last];
    if k > 0 {
      var mid: nat :| mid < last && out[mid] == p[k];
      var q := p[..k + 1];
      forall i | 0 <= i < |q| - 1 ensures Joined(edges, q[i], q[i + 1]) { assert Joined(edges, p[i], p[i + 1]); }
      PathAdvances(edges, out, q, mid);
      assert out[..mid] <= out[..last];
    }
  }

  // ------------------------------------------------------- main results

  function KeyList(nodes: seq<Node>): seq<string> {
    seq(|nodes|, i requires 0 <= i < |nodes| => nodes[i].key)
  }

  lemma {:induction false} DistinctCount(s: seq<string>)
    requires Distinct(s)
    ensures |SetOf(s)| == |s|
  {
    if s != [] {
      var init, last := s[..|s| - 1], s[|s| - 1];
      DistinctCount(init);
      assert SetOf(s) == SetOf(init) + {last};
      assert last !in SetOf(init);
    }
  }

  lemma {:induction false} SameMembersSameBag(s: seq<string>, t: seq<string>)
    requires Distinct(s) && Distinct(t) && SetOf(s) == SetOf(t)
    ensures multiset(s) == multiset(t)
  {
    forall x ensures multiset(s)[x] == multiset(t)[x] {
      OnceInDistinct(s, x);
      OnceInDistinct(t, x);
      assert x in SetOf(s) <==> x in SetOf(t);
    }
  }

  lemma {:induction false} OnceInDistinct(s: seq<string>, x: string)
    requires Distinct(s)
    ensures multiset(s)[x] == if x in s then 1 else 0
  {
    if s != [] {
      assert s == s[..|s| - 1] + [s[|s| - 1]];
      OnceInDistinct(s[..|s| - 1], x);
    }
  }

  lemma KeysAsList(wf: Workflow)
    ensures SetOf(KeyList(wf.nodes)) == Keys(wf)
    ensures WellFormed(wf) ==> |Keys(wf)| == |wf.nodes| && Tabled(wf) == Keys(wf)
  {
    var ks := KeyList(wf.nodes);
    forall x | x in Keys(wf) ensures x in SetOf(ks) {
      var i :| 0 <= i < |wf.nodes| && wf.nodes[i].key == x;
      assert ks[i] == x;
    }
    if WellFormed(wf) { DistinctCount(ks); }
  }

  /** Draining only ever extends what was emitted. */
  lemma {:induction false} DrainExtends(edges: seq<Edge>, indeg: map<string, nat>, ready: seq<string>, out: seq<string>)
    requires forall e :: e in edges ==> e.dst in indeg
    requires forall x :: x in ready ==> x in indeg
    ensures out <= Drain(edges, indeg, ready, out)
    decreases |indeg.Keys - SetOf(out)|, |ready|
  {
    if ready != [] {
      var n, rest := ready[|ready| - 1], ready[..|ready| - 1];
      if n in out {
        DrainExtends(edges, indeg, rest, out);
      } else {
        TargetsAreTargets(edges, n);
        ReleaseKeepsKeys(indeg, rest, Targets(edges, n));
        var next := Release(indeg, rest, Targets(edges, n));
        assert next.0.Keys == indeg.Keys;
        assert SetOf(out + [n]) == SetOf(out) + {n};
        assert n in indeg.Keys - SetOf(out);
        assert indeg.Keys - SetOf(out + [n]) == (indeg.Keys - SetOf(out)) - {n};
        DrainExtends(edges, next.0, next.1, out + [n]);
      }
    }
  }

  /** The vertex made ready last is emitted next. */
  lemma {:induction false} NewestIsEmittedNext(edges: seq<Edge>, indeg: map<string, nat>, ready: seq<string>, out: seq<string>)
    requires forall e :: e in edges ==> e.dst in indeg
    requires forall x :: x in ready ==> x in indeg
    requires ready != [] && ready[|ready| - 1] !in out
    ensures out + [ready[|ready| - 1]] <= Drain(edges, indeg, ready, out)
  {
    var n, rest := ready[|ready| - 1], ready[..|ready| - 1];
    TargetsAreTargets(edges, n);
    ReleaseKeepsKeys(indeg, rest, Targets(edges, n));
    var next := Release(indeg, rest, Targets(edges, n));
    assert next.0.Keys == indeg.Keys;
    DrainExtends(edges, next.0, next.1, out + [n]);
  }

  /** The vertices that are ready at first. */
  ghost function Roots(wf: Workflow): set<string> {
    set v | v in Tabled(wf) && InDegrees(wf)[v] == 0
  }

  lemma {:induction false} RootsAreUnentered(wf: Workflow, v: string)
    ensures v in Roots(wf) <==> v in Tabled(wf) && forall e :: e in wf.edges ==> e.dst != v
  {
    NothingWaits(wf.edges, v);
  }

  lemma GreatestIsLast(s: seq<string>, x: string)
    requires Ascending(s) && x in s
    ensures TextAtMost(x, s[|s| - 1])
  {
    var k :| 0 <= k < |s| && s[k] == x;
  }

  /** The first vertex of a sort is the greatest of those that no edge leads to. */
  lemma {:induction false} GreatestRootIsFirst(wf: Workflow, root: string)
    requires root in Tabled(wf) && forall e :: e in wf.edges ==> e.dst != root
    ensures Emitted(wf) != [] && TextAtMost(root, Emitted(wf)[0])
    ensures forall e :: e in wf.edges ==> e.dst != Emitted(wf)[0]
  {
    var ready := InOrder(Roots(wf));
    RootsAreUnentered(wf, root);
    GreatestIsLast(ready, root);
    var first := ready[|ready| - 1];
    RootsAreUnentered(wf, first);
    NewestIsEmittedNext(wf.edges, InDegrees(wf), ready, []);
    assert [] + [first] == [first];
    assert Emitted(wf) == Drain(wf.edges, InDegrees(wf), ready, []);
  }

  lemma {:induction false} NothingWaits(edges: seq<Edge>, v: string)
    ensures Waiting(edges, v, {}) == 0 <==> forall e :: e in edges ==> e.dst != v
  {
    if edges != [] {
      NothingWaits(edges[1..], v);
      assert edges == [edges[0]] + edges[1..];
    }
  }

  lemma EdgeGoesForward(edges: seq<Edge>, out: seq<string>, e: Edge)
    requires PredecessorsFirst(edges, out) && e in edges && e.dst in out
    ensures exists i, j :: 0 <= i < j < |out| && out[i] == e.src && out[j] == e.dst
  {
    var j :| 0 <= j < |out| && out[j] == e.dst;
    assert e.src in out[..j];
    var i :| 0 <= i < j && out[..j][i] == e.src;
    assert out[i] == e.src;
  }

  /** On a well-formed workflow an Ok order is a permutation of the node keys in which every
      edge, parallel ones included, points forward. */
  lemma OrderIsSound(wf: Workflow)
    requires WellFormed(wf) && Sorted(wf).Ok?
    ensures var out := Sorted(wf).value;
            && multiset(out) == multiset(KeyList(wf.nodes))
            && Distinct(out)
            && forall e :: e in wf.edges ==> exists i, j :: 0 <= i < j < |out| && out[i] == e.src && out[j] == e.dst
  {
    var out := Emitted(wf);
    EmittedIsMaximal(wf);
    KeysAsList(wf);
    DistinctCount(out);
    SubsetOfSameSize(SetOf(out), Keys(wf));
    assert Distinct(KeyList(wf.nodes));
    SameMembersSameBag(out, KeyList(wf.nodes));
    forall e | e in wf.edges ensures exists i, j :: 0 <= i < j < |out| && out[i] == e.src && out[j] == e.dst {
      assert e.dst in SetOf(out);
      EdgeGoesForward(wf.edges, out, e);
    }
  }

  lemma SubsetOfSameSize(a: set<string>, b: set<string>)
    requires a <= b && |a| == |b|
    ensures a == b
  {
    assert |b - a| == |b| - |a|;
  }

  lemma {:induction false} StuckMeansCycle(edges: seq<Edge>, stuck: set<string>) returns (c: seq<string>)
    requires stuck != {}
    requires AllFed(edges, stuck)
    ensures Cycle(edges, c)
  {
    var p := LongPath(edges, stuck, |stuck|);
    Pigeonhole(p, stuck);
    var i, j :| 0 <= i < j < |p| && p[i] == p[j];
    c := p[i..j + 1];
    forall k | 0 <= k < |c| - 1 ensures Joined(edges, c[k], c[k + 1]) {
      assert Joined(edges, p[i + k], p[i + k + 1]);
    }
  }

  lemma NoCycleInOrder(edges: seq<Edge>, out: seq<string>, p: seq<string>)
    requires Distinct(out) && PredecessorsFirst(edges, out) && p != [] && p[0] in out
    ensures !Cycle(edges, p)
  {
    var i :| 0 <= i < |out| && out[i] == p[0];
    if Cycle(edges, p) { PathAdvances(edges, out, p, i); }
  }

  lemma SmallerSubsetLeaves(a: set<string>, b: set<string>)
    requires a <= b && |a| != |b|
    ensures b - a != {}
  {
    assert |b - a| == |b| - |a|;
  }

  lemma LeftoverIsFed(edges: seq<Edge>, keys: set<string>, out: seq<string>)
    requires MaximalOrder(edges, keys, out)
    requires forall e :: e in edges ==> e.src in keys
    ensures AllFed(edges, keys - SetOf(out))
  {
    var stuck := keys - SetOf(out);
    forall v {:trigger Fed(edges, stuck, v)} | v in stuck ensures Fed(edges, stuck, v) {
      assert Blocked(edges, out, v);
      var e :| e in edges && e.dst == v && e.src !in out;
      assert e.src in stuck;
    }
  }

  lemma LeftoverMeansCycle(wf: Workflow) returns (c: seq<string>)
    requires WellFormed(wf) && Sorted(wf).Err?
    ensures Cycle(wf.edges, c)
  {
    var out := Emitted(wf);
    EmittedIsMaximal(wf);
    KeysAsList(wf);
    DistinctCount(out);
    SmallerSubsetLeaves(SetOf(out), Keys(wf));
    LeftoverIsFed(wf.edges, Keys(wf), out);
    c := StuckMeansCycle(wf.edges, Keys(wf) - SetOf(out));
  }

  lemma OrderedMeansAcyclic(wf: Workflow, p: seq<string>)
    requires WellFormed(wf) && Sorted(wf).Ok?
    ensures !Cycle(wf.edges, p)
  {
    var out := Emitted(wf);
    EmittedIsMaximal(wf);
    KeysAsList(wf);
    DistinctCount(out);
    SubsetOfSameSize(SetOf(out), Keys(wf));
    if Cycle(wf.edges, p) {
      assert Joined(wf.edges, p[0], p[1]);
      assert p[0] in Keys(wf) && p[0] in SetOf(out);
      NoCycleInOrder(wf.edges, out, p);
    }
  }

  /** On a well-formed workflow the sort fails exactly when the edges contain a cycle. */
  lemma ErrMeansCycle(wf: Workflow)
    requires WellFormed(wf)
    ensures Sorted(wf).Err? <==> exists p :: Cycle(wf.edges, p)
  {
    if Sorted(wf).Err? {
      var p := LeftoverMeansCycle(wf);
    } else {
      forall p ensures !Cycle(wf.edges, p) { OrderedMeansAcyclic(wf, p); }
    }
  }

  predicate DeclaredSources(wf: Workflow) {
    forall e :: e in wf.edges ==> e.src in Keys(wf)
  }

  predicate DeclaredTargets(wf: Workflow) {
    forall e :: e in wf.edges ==> e.dst in Keys(wf)
  }

  ghost predicate Acyclic(edges: seq<Edge>) {
    forall p :: !Cycle(edges, p)
  }

  lemma {:induction false} KeysAreNoMoreThanNodes(nodes: seq<Node>)
    ensures |KeysOf(nodes)| <= |nodes|
  {
    if nodes != [] {
      var init, last := nodes[..|nodes| - 1], nodes[|nodes| - 1];
      KeysAreNoMoreThanNodes(init);
      KeysExtend(init, last);
      assert nodes == init + [last];
    }
  }

  /** Without a cycle everything is emitted, undeclared targets included. */
  lemma {:induction false} AcyclicEmitsAll(wf: Workflow)
    requires DeclaredSources(wf) && Acyclic(wf.edges)
    ensures SetOf(Emitted(wf)) == Tabled(wf) && |Emitted(wf)| == |Tabled(wf)|
  {
    var out := Emitted(wf);
    EmittedIsMaximal(wf);
    DistinctCount(out);
    var stuck := Tabled(wf) - SetOf(out);
    LeftoverIsFed(wf.edges, Tabled(wf), out);
    if stuck != {} { var c := StuckMeansCycle(wf.edges, stuck); }
    assert forall v :: v in Tabled(wf) ==> v !in stuck;
  }

  /** On acyclic edges with declared sources the length test accepts exactly when there are as many
      nodes as distinct vertices. */
  lemma {:induction false} AcyclicIsAcceptedExactlyWhen(wf: Workflow)
    requires DeclaredSources(wf) && Acyclic(wf.edges)
    ensures Sorted(wf).Ok? <==> |Tabled(wf)| == |wf.nodes|
  {
    AcyclicEmitsAll(wf);
  }

  lemma {:induction false} CycleIsRefused(wf: Workflow, p: seq<string>)
    requires DeclaredSources(wf) && DeclaredTargets(wf) && Cycle(wf.edges, p)
    ensures Sorted(wf).Err?
  {
    var out := Emitted(wf);
    EmittedIsMaximal(wf);
    DistinctCount(out);
    assert Joined(wf.edges, p[0], p[1]);
    assert p[0] in Keys(wf);
    if p[0] in SetOf(out) { NoCycleInOrder(wf.edges, out, p); }
    assert SetOf(out) <= Keys(wf) - {p[0]};
    SubsetSize(SetOf(out), Keys(wf) - {p[0]});
    KeysAreNoMoreThanNodes(wf.nodes);
  }

  /** On edges between declared nodes the length test means "cyclic" exactly when the node keys are
      distinct or there is a cycle. */
  lemma {:induction false} LengthTestMeansCyclicExactlyWhen(wf: Workflow)
    requires DeclaredSources(wf) && DeclaredTargets(wf)
    ensures (Sorted(wf).Err? <==> !Acyclic(wf.edges)) <==> |Keys(wf)| == |wf.nodes| || !Acyclic(wf.edges)
  {
    assert Tabled(wf) == Keys(wf);
    if Acyclic(wf.edges) {
      AcyclicIsAcceptedExactlyWhen(wf);
    } else {
      var p :| Cycle(wf.edges, p);
      CycleIsRefused(wf, p);
    }
  }

  /** Without well-formedness the length test does not mean acyclic: a repeated key makes room
      for an undeclared target, and an acyclic pair of nodes sharing a key is refused. */
  lemma MalformedWorkflowsMislead()
    ensures var a := Node("a", Condition, None);
            && Sorted(Workflow("w", [a, a], [Edge("a", "x")])) == Ok(["a", "x"])
            && Sorted(Workflow("w", [a, a], [])).Err?
  {
    var a := Node("a", Condition, None);
    var one := Workflow("w", [a, a], [Edge("a", "x")]);
    var out := Emitted(one);
    EmittedIsMaximal(one);
    assert a in one.nodes && Edge("a", "x") in one.edges;
    assert Tabled(one) == {"a", "x"};
    TwoVertexOrder(out);

    var two := Workflow("w", [a, a], []);
    EmittedIsMaximal(two);
    assert Tabled(two) == {"a"};
    DistinctCount(Emitted(two));
    SubsetSize(SetOf(Emitted(two)), {"a"});
  }

  lemma TwoVertexOrder(out: seq<string>)
    requires MaximalOrder([Edge("a", "x")], {"a", "x"}, out)
    ensures out == ["a", "x"]
  {
    var edges := [Edge("a", "x")];
    assert !Blocked(edges, out, "a");
    assert "a" in out;
    assert !Blocked(edges, out, "x");
    assert "x" in out;
    DistinctCount(out);
    assert SetOf(out) == {"a", "x"};
    assert |{"a", "x"}| == 2;
    assert Edge("a", "x") in edges;
    assert out[..0] == [];
    assert Edge("a", "x").dst != out[0];
    assert out[0] in SetOf(out) && out[1] in SetOf(out);
  }

  lemma SubsetSize(a: set<string>, b: set<string>)
    requires a <= b
    ensures |a| <= |b|
  {
    assert b == a + (b - a);
  }
}
