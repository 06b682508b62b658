/** The workflow runner of crates/actant-flow/src/lib.rs: a host asks for the next action and
    reports results in whatever order it likes. */
module WorkflowRunner {
  import opened Common
  import opened Text
  import opened WorkflowGraph

  datatype StepStatus = Pending | Running | Succeeded | Failed | Skipped | AwaitingApproval

  datatype Output = Noop | Approved | Reported(json: string)

  datatype StepRun = StepRun(nodeKey: string, status: StepStatus, output: Option<Output>, error: Option<string>)

  datatype Run = Run(steps: map<string, StepRun>, status: StepStatus)

  /** `Panic` stands for the two `expect` calls of the runner. */
  datatype Action =
    | CallTool(nodeKey: string, tool: string, args: string)
    | CallModel(nodeKey: string, prompt: string)
    | AwaitApproval(nodeKey: string, summary: string)
    | Wait(nodeKey: string, seconds: nat)
    | Done(run: Run)
    | Panic

  datatype HostCall =
    | NextAction
    | CompleteStep(key: string, output: Output)
    | FailStep(key: string, error: string)
    | ResolveApproval(key: string, approved: bool)

  // ------------------------------------------------------ specification

  function Default<T>(o: Option<T>, d: T): T {
    match o
    case Some(v) => v
    case None => d
  }

  function Fresh(wf: Workflow): Run {
    Run(map k | k in Keys(wf) :: StepRun(k, Pending, None, None), Pending)
  }

  function Complete(run: Run, key: string, output: Output): Run {
    if key !in run.steps then run
    else run.(steps := run.steps[key := run.steps[key].(status := Succeeded, output := Some(output))])
  }

  function Fail(run: Run, key: string, error: string): Run {
    (if key !in run.steps then run
     else run.(steps := run.steps[key := run.steps[key].(status := Failed, error := Some(error))])).(status := Failed)
  }

  function Resolve(run: Run, key: string, approved: bool): Run {
    if key !in run.steps then run
    else if approved then Complete(run, key, Approved)
    else Fail(run, key, "denied")
  }

  function SetStatus(run: Run, key: string, status: StepStatus): Run
    requires key in run.steps
  {
    run.(steps := run.steps[key := run.steps[key].(status := status)])
  }

  function FindNode(nodes: seq<Node>, key: string): Option<Node> {
    if nodes == [] then None
    else if nodes[0].key == key then Some(nodes[0])
    else FindNode(nodes[1..], key)
  }

  const NO_CONFIG := Config(None, None, None, None, None)

  function ActionFor(wf: Workflow, run: Run, key: string): (Run, Action) {
    match FindNode(wf.nodes, key)
    case None => (run, Panic)
    case Some(node) =>
      var cfg := Default(node.config, NO_CONFIG);
      match node.nodeType
      case ToolCall => (run, CallTool(key, Default(cfg.tool, ""), Default(cfg.arguments, "{}")))
      case ModelCall => (run, CallModel(key, Default(cfg.prompt, "")))
      case ApprovalGate =>
        (if key in run.steps then SetStatus(run, key, StepStatus.AwaitingApproval) else run,
         AwaitApproval(key, Default(cfg.summary, "approval required")))
      case Delay => (run, Wait(key, Default(cfg.seconds, 0)))
      case _ => (Complete(run, key, Noop), CallTool(key, "noop", "{}"))
  }

  predicate Settled(steps: map<string, StepRun>, key: string) {
    key in steps && steps[key].status in {Succeeded, Failed, Skipped}
  }

  predicate Active(steps: map<string, StepRun>, key: string) {
    key in steps && steps[key].status in {Running, StepStatus.AwaitingApproval}
  }

  predicate Waiting(steps: map<string, StepRun>, key: string) {
    key in steps && steps[key].status == Pending
  }

  /** Position of the first step of the order that is not settled. */
  function FirstOpen(order: seq<string>, steps: map<string, StepRun>): (i: nat)
    ensures i <= |order|
    ensures forall j :: 0 <= j < i ==> Settled(steps, order[j])
    ensures i < |order| ==> !Settled(steps, order[i])
  {
    if order == [] || !Settled(steps, order[0]) then 0 else 1 + FirstOpen(order[1..], steps)
  }

  function Launch(wf: Workflow, run: Run, key: string): (Run, Action) {
    if key !in run.steps then (run, Panic)
    else ActionFor(wf, if run.steps[key].status == Pending then SetStatus(run, key, Running) else run, key)
  }

  function Next(wf: Workflow, order: seq<string>, run: Run): (Run, Action) {
    if run.status == Failed then (run, Done(run))
    else
      var i := FirstOpen(order, run.steps);
      if i < |order| then Launch(wf, run, order[i])
      else (run.(status := Succeeded), Done(run.(status := Succeeded)))
  }

  /** The steps after a next_action; none ever disappears. */
  function NextSteps(wf: Workflow, order: seq<string>, run: Run): (m: map<string, StepRun>)
    ensures run.steps.Keys <= m.Keys
  {
    Next(wf, order, run).0.steps
  }

  function Apply(wf: Workflow, order: seq<string>, run: Run, call: HostCall): Run {
    match call
    case NextAction => Next(wf, order, run).0
    case CompleteStep(key, output) => Complete(run, key, output)
    case FailStep(key, error) => Fail(run, key, error)
    case ResolveApproval(key, approved) => Resolve(run, key, approved)
  }

  function Drive(wf: Workflow, order: seq<string>, run: Run, calls: seq<HostCall>): Run {
    if calls == [] then run
    else Apply(wf, order, Drive(wf, order, run, calls[..|calls| - 1]), calls[|calls| - 1])
  }

  // -------------------------------------------------------- the runner

  class Runner {
    const workflow: Workflow
    const order: seq<string>
    var steps: map<string, StepRun>
    var status: StepStatus

    function State(): Run
      reads this
    {
      Run(steps, status)
    }

    constructor Sequenced(workflow: Workflow, order: seq<string>)
      ensures this.workflow == workflow && this.order == order
      ensures State() == Fresh(workflow)
    {
      this.workflow, this.order := workflow, order;
      steps := map k | k in Keys(workflow) :: StepRun(k, Pending, None, None);
      status := Pending;
    }

    static method New(workflow: Workflow) returns (r: Result<Runner>)
      ensures r.Ok? <==> Sorted(workflow).Ok?
      ensures r.Ok? ==> fresh(r.value) && r.value.workflow == workflow
      ensures r.Ok? ==> Sorted(workflow) == Ok(r.value.order) && r.value.State() == Fresh(workflow)
      ensures r.Ok? && WellFormed(workflow) ==> Ranked(workflow, r.value.order) && |r.value.order| == |workflow.nodes|
    {
      var order := TopologicalOrder(workflow);
      if order.Err? { return Err(order.error); }
      if WellFormed(workflow) { SortedIsRanked(workflow, order.value); }
      var runner := new Runner.Sequenced(workflow, order.value);
      return Ok(runner);
    }

    method NextAction() returns (action: Action)
      modifies this
      ensures (State(), action) == Next(workflow, order, old(State()))
    {
      if status == Failed { return Done(State()); }
      var i := 0;
      while i < |order|
        invariant i <= |order|
        invariant State() == old(State())
        invariant FirstOpen(order, steps) == i + FirstOpen(order[i..], steps)
      {
        var key := order[i];
        if key !in steps { return Panic; }
        var current := steps[key].status;
        if current == StepStatus.AwaitingApproval || current == Running {
          action := ActionForKey(key);
          return;
        }
        if current == Pending {
          steps := steps[key := steps[key].(status := Running)];
          action := ActionForKey(key);
          return;
        }
        assert order[i..][1..] == order[i + 1..];
        i := i + 1;
      }
      status := Succeeded;
      return Done(State());
    }

    method ActionForKey(key: string) returns (action: Action)
      modifies this
      ensures (State(), action) == ActionFor(workflow, old(State()), key)
    {
      var found := FindNode(workflow.nodes, key);
      if found.None? { return Panic; }
      var node := found.value;
      var cfg := Default(node.config, NO_CONFIG);
      match node.nodeType {
        case ToolCall => return CallTool(key, Default(cfg.tool, ""), Default(cfg.arguments, "{}"));
        case ModelCall => return CallModel(key, Default(cfg.prompt, ""));
        case ApprovalGate =>
          if key in steps {
            steps := steps[key := steps[key].(status := StepStatus.AwaitingApproval)];
          }
          return AwaitApproval(key, Default(cfg.summary, "approval required"));
        case Delay => return Wait(key, Default(cfg.seconds, 0));
        case _ =>
          CompleteStep(key, Noop);
          return CallTool(key, "noop", "{}");
      }
    }

    method CompleteStep(key: string, output: Output)
      modifies this
      ensures State() == Complete(old(State()), key, output)
    {
      if key in steps {
        steps := steps[key := steps[key].(status := Succeeded, output := Some(output))];
      }
    }

    method FailStep(key: string, error: string)
      modifies this
      ensures State() == Fail(old(State()), key, error)
    {
      if key in steps {
        steps := steps[key := steps[key].(status := Failed, error := Some(error))];
      }
      status := Failed;
    }

    method ResolveApproval(key: string, approved: bool)
      modifies this
      ensures State() == Resolve(old(State()), key, approved)
    {
      if key in steps {
        if approved {
          steps := steps[key := steps[key].(status := Succeeded, output := Some(Approved))];
        } else {
          steps := steps[key := steps[key].(status := Failed, error := Some("denied"))];
          status := Failed;
        }
      }
    }
  }

  // ---------------------------------------------------------- invariant

  /** What every reachable run keeps. */
  ghost predicate Inv(wf: Workflow, order: seq<string>, run: Run) {
    && run.steps.Keys == Keys(wf)
    && (forall k :: k in run.steps ==> run.steps[k].status != Skipped)
    && (forall k :: k in run.steps && run.steps[k].status == Failed ==> run.status == Failed)
    && (forall i, j :: 0 <= i < j < |order| && Active(run.steps, order[j]) ==> Settled(run.steps, order[i]))
  }

  /** What the runner needs of its order: every key once, predecessors first. */
  ghost predicate Ranked(wf: Workflow, order: seq<string>) {
    && Distinct(order)
    && (forall k :: k in order <==> k in Keys(wf))
    && PredecessorsFirst(wf.edges, order)
  }

  /** The sort gives a well-formed workflow such an order. */
  lemma SortedIsRanked(wf: Workflow, order: seq<string>)
    requires WellFormed(wf) && Sorted(wf) == Ok(order)
    ensures Ranked(wf, order) && |order| == |wf.nodes|
  {
    EmittedIsMaximal(wf);
    KeysAsList(wf);
    DistinctCount(order);
    SubsetOfSameSize(SetOf(order), Keys(wf));
  }

  lemma {:induction false} NodeIsFound(nodes: seq<Node>, key: string)
    requires key in KeysOf(nodes)
    ensures FindNode(nodes, key).Some?
  {
    if nodes[0].key != key {
      var n :| n in nodes && n.key == key;
      assert n in nodes[1..];
      NodeIsFound(nodes[1..], key);
    }
  }

  /** Launching touches one step, which ends up active or, for a no-op node, succeeded. */
  lemma LaunchEffect(wf: Workflow, run: Run, key: string)
    requires key in run.steps && key in Keys(wf) && !Settled(run.steps, key)
    ensures var r := Launch(wf, run, key);
            && r.1 != Panic && !r.1.Done? && r.1.nodeKey == key
            && r.0.status == run.status && r.0.steps.Keys == run.steps.Keys
            && (Active(r.0.steps, key) || r.0.steps[key].status == Succeeded)
            && (forall k :: k in run.steps && k != key ==> r.0.steps[k] == run.steps[k])
  {
    NodeIsFound(wf.nodes, key);
  }

  lemma NextKeepsInv(wf: Workflow, order: seq<string>, run: Run)
    requires Ranked(wf, order) && Inv(wf, order, run)
    ensures Inv(wf, order, Next(wf, order, run).0)
    ensures Next(wf, order, run).1 != Panic
  {
    var i := FirstOpen(order, run.steps);
    if run.status != Failed && i < |order| {
      assert order[i] in order;
      LaunchEffect(wf, run, order[i]);
      var run' := Next(wf, order, run).0;
      forall a, b | 0 <= a < b < |order| && Active(run'.steps, order[b]) ensures Settled(run'.steps, order[a]) {
        assert order[a] in order && order[b] in order;
        if b != i { assert Active(run.steps, order[b]); }
        assert a != i;
        assert run'.steps[order[a]] == run.steps[order[a]];
      }
    }
  }

  /** A host report only ever settles a step. */
  lemma ReportKeepsInv(wf: Workflow, order: seq<string>, run: Run, call: HostCall)
    requires Inv(wf, order, run) && !call.NextAction?
    ensures Inv(wf, order, Apply(wf, order, run, call))
  {
    var run' := Apply(wf, order, run, call);
    forall k
      ensures Active(run'.steps, k) ==> Active(run.steps, k)
      ensures Settled(run.steps, k) ==> Settled(run'.steps, k)
    {
    }
    forall i, j | 0 <= i < j < |order| && Active(run'.steps, order[j]) ensures Settled(run'.steps, order[i]) {
      assert Active(run.steps, order[j]);
      assert Settled(run.steps, order[i]);
    }
  }

  lemma {:induction false} DriveKeepsInv(wf: Workflow, order: seq<string>, calls: seq<HostCall>)
    requires Ranked(wf, order)
    ensures Inv(wf, order, Drive(wf, order, Fresh(wf), calls))
  {
    if calls != [] {
      DriveKeepsInv(wf, order, calls[..|calls| - 1]);
      var run, call := Drive(wf, order, Fresh(wf), calls[..|calls| - 1]), calls[|calls| - 1];
      if call.NextAction? {
        NextKeepsInv(wf, order, run);
      } else {
        ReportKeepsInv(wf, order, run, call);
      }
    }
  }

  // -------------------------------------------------------- main results

  /** Whatever the host does, at most one step is running or awaiting approval. */
  lemma AtMostOneActive(wf: Workflow, order: seq<string>, calls: seq<HostCall>, a: string, b: string)
    requires Ranked(wf, order)
    requires var steps := Drive(wf, order, Fresh(wf), calls).steps; Active(steps, a) && Active(steps, b)
    ensures a == b
  {
    DriveKeepsInv(wf, order, calls);
    var i :| 0 <= i < |order| && order[i] == a;
    var j :| 0 <= j < |order| && order[j] == b;
  }

  /** No sequence of host calls reaches an `expect` failure. */
  lemma NeverPanics(wf: Workflow, order: seq<string>, calls: seq<HostCall>)
    requires Ranked(wf, order)
    ensures Next(wf, order, Drive(wf, order, Fresh(wf), calls)).1 != Panic
  {
    DriveKeepsInv(wf, order, calls);
    NextKeepsInv(wf, order, Drive(wf, order, Fresh(wf), calls));
  }

  /** The host reports every step of the order done, without asking for it. */
  function ReportAll(order: seq<string>): (calls: seq<HostCall>)
    ensures |calls| == |order|
  {
    if order == [] then [] else ReportAll(order[..|order| - 1]) + [CompleteStep(order[|order| - 1], Noop)]
  }

  lemma {:induction false} ReportedStepsAreSettled(wf: Workflow, order: seq<string>, done: seq<string>)
    requires forall i :: 0 <= i < |done| ==> done[i] in Keys(wf)
    ensures var run := Drive(wf, order, Fresh(wf), ReportAll(done));
            && run.steps.Keys == Keys(wf) && run.status != Failed
            && (forall i :: 0 <= i < |done| ==> Settled(run.steps, done[i]))
  {
    if done != [] {
      var init, last := done[..|done| - 1], done[|done| - 1];
      ReportedStepsAreSettled(wf, order, init);
      var calls := ReportAll(done);
      assert calls[..|calls| - 1] == ReportAll(init);
      assert forall i :: 0 <= i < |init| ==> done[i] == init[i];
    }
  }

  lemma {:induction false} HostCallKeepsKeys(wf: Workflow, order: seq<string>, run: Run, call: HostCall)
    ensures Apply(wf, order, run, call).steps.Keys == run.steps.Keys || call.NextAction?
    ensures call.NextAction? && run.steps.Keys == Keys(wf) ==> Apply(wf, order, run, call).steps.Keys == Keys(wf)
  {
  }

  lemma {:induction false} DriveKeepsKeys(wf: Workflow, order: seq<string>, calls: seq<HostCall>)
    ensures Drive(wf, order, Fresh(wf), calls).steps.Keys == Keys(wf)
  {
    if calls != [] {
      var run := Drive(wf, order, Fresh(wf), calls[..|calls| - 1]);
      DriveKeepsKeys(wf, order, calls[..|calls| - 1]);
      HostCallKeepsKeys(wf, order, run, calls[|calls| - 1]);
    }
  }

  predicate Declared(wf: Workflow, order: seq<string>) {
    forall i :: 0 <= i < |order| ==> order[i] in Keys(wf)
  }

  lemma {:induction false} DeclaredOrderNeverPanics(wf: Workflow, order: seq<string>, calls: seq<HostCall>)
    requires Declared(wf, order)
    ensures Next(wf, order, Drive(wf, order, Fresh(wf), calls)).1 != Panic
  {
    DriveKeepsKeys(wf, order, calls);
    var run := Drive(wf, order, Fresh(wf), calls);
    var i := FirstOpen(order, run.steps);
    if i < |order| { NodeIsFound(wf.nodes, order[i]); }
  }

  function FirstUndeclared(wf: Workflow, order: seq<string>): (i: nat)
    requires !Declared(wf, order)
    ensures i < |order| && order[i] !in Keys(wf) && forall j :: 0 <= j < i ==> order[j] in Keys(wf)
  {
    if order[0] !in Keys(wf) then 0
    else
      assert forall j :: 1 <= j < |order| ==> order[j] == order[1..][j - 1];
      1 + FirstUndeclared(wf, order[1..])
  }

  lemma {:induction false} UndeclaredStepPanics(wf: Workflow, order: seq<string>)
    requires !Declared(wf, order)
    ensures Next(wf, order, Drive(wf, order, Fresh(wf), ReportAll(order[..FirstUndeclared(wf, order)]))).1 == Panic
  {
    var i := FirstUndeclared(wf, order);
    ReportedStepsAreSettled(wf, order, order[..i]);
    var run := Drive(wf, order, Fresh(wf), ReportAll(order[..i]));
    assert forall j :: 0 <= j < i ==> order[..i][j] == order[j];
    assert !Settled(run.steps, order[i]);
    assert FirstOpen(order, run.steps) == i;
  }

  /** Some sequence of host calls makes the runner panic exactly when its order holds a key that no
      node declares. */
  lemma {:induction false} PanicsExactlyWhen(wf: Workflow, order: seq<string>)
    ensures (exists calls :: Next(wf, order, Drive(wf, order, Fresh(wf), calls)).1 == Panic) <==> !Declared(wf, order)
  {
    if Declared(wf, order) {
      forall calls ensures Next(wf, order, Drive(wf, order, Fresh(wf), calls)).1 != Panic {
        DeclaredOrderNeverPanics(wf, order, calls);
      }
    } else {
      UndeclaredStepPanics(wf, order);
    }
  }

  /** On the workflow itself: if its sources are declared, its edges acyclic and the sort accepts
      it, the runner can be made to panic exactly when some edge leads to an undeclared key. */
  lemma {:induction false} AcceptedWorkflowPanicsExactlyWhen(wf: Workflow, order: seq<string>)
    requires DeclaredSources(wf) && Acyclic(wf.edges) && Sorted(wf) == Ok(order)
    ensures (exists calls :: Next(wf, order, Drive(wf, order, Fresh(wf), calls)).1 == Panic) <==> !DeclaredTargets(wf)
  {
    PanicsExactlyWhen(wf, order);
    AcyclicEmitsAll(wf);
    if DeclaredTargets(wf) {
      forall i | 0 <= i < |order| ensures order[i] in Keys(wf) { assert order[i] in SetOf(order); }
    } else {
      var e :| e in wf.edges && e.dst !in Keys(wf);
      assert e.dst in SetOf(order);
      var i :| 0 <= i < |order| && order[i] == e.dst;
    }
  }

  /** Without well-formedness it does panic: here the order names an undeclared target. */
  lemma MalformedWorkflowPanics()
    ensures Sorted(MALFORMED) == Ok(["a", "x"])
    ensures Next(MALFORMED, ["a", "x"], Drive(MALFORMED, ["a", "x"], Fresh(MALFORMED), [NextAction])).1 == Panic
  {
    MalformedWorkflowsMislead();
    SecondCallPanics();
  }

  const MALFORMED := Workflow("w", [Node("a", Condition, None), Node("a", Condition, None)], [Edge("a", "x")])

  lemma SecondCallPanics()
    ensures Next(MALFORMED, ["a", "x"], Drive(MALFORMED, ["a", "x"], Fresh(MALFORMED), [NextAction])).1 == Panic
  {
    var order, start := ["a", "x"], Fresh(MALFORMED);
    assert MALFORMED.nodes[0] in MALFORMED.nodes && Keys(MALFORMED) == {"a"};
    assert "a" != "x";
    assert FirstOpen(order, start.steps) == 0;
    assert FindNode(MALFORMED.nodes, "a") == Some(MALFORMED.nodes[0]);
    var one := Complete(SetStatus(start, "a", Running), "a", Noop);
    assert Next(MALFORMED, order, start).0 == one;
    assert [NextAction][..0] == [];
    assert Drive(MALFORMED, order, start, [NextAction]) == one;
    assert Settled(one.steps, order[0]) && !Settled(one.steps, order[1]);
    assert FirstOpen(order, one.steps) == 1;
  }

  /** While the first open step is pending, nothing is active and everything before it has succeeded. */
  lemma {:induction false} PendingFirstMeansIdle(wf: Workflow, order: seq<string>, run: Run)
    requires Ranked(wf, order) && Inv(wf, order, run) && run.status != Failed
    requires var i := FirstOpen(order, run.steps); i < |order| && Waiting(run.steps, order[i])
    ensures forall j :: 0 <= j < FirstOpen(order, run.steps) ==>
              order[j] in run.steps && run.steps[order[j]].status == Succeeded
    ensures forall k :: !Active(run.steps, k)
  {
    var i := FirstOpen(order, run.steps);
    forall j | 0 <= j < i ensures order[j] in run.steps && run.steps[order[j]].status == Succeeded {
      assert Settled(run.steps, order[j]);
    }
    forall k ensures !Active(run.steps, k) {
      if k in order {
        var j :| 0 <= j < |order| && order[j] == k;
        assert i < j ==> !Active(run.steps, order[j]);
      }
    }
  }

  /** The step that `next_action` starts, seen from the invariant alone. */
  lemma StartIsNextInOrder(wf: Workflow, order: seq<string>, run: Run, key: string) returns (i: nat)
    requires Ranked(wf, order) && Inv(wf, order, run)
    requires key in run.steps && run.steps[key].status == Pending
    requires NextSteps(wf, order, run)[key] != run.steps[key]
    ensures run.status != Failed && i < |order| && order[i] == key
    ensures forall j :: 0 <= j < i ==> order[j] in run.steps && run.steps[order[j]].status == Succeeded
    ensures forall k :: !Active(run.steps, k)
    ensures forall k :: k in run.steps && k != key ==> NextSteps(wf, order, run)[k] == run.steps[k]
  {
    i := FirstOpen(order, run.steps);
    assert order[i] in order;
    LaunchEffect(wf, run, order[i]);
    PendingFirstMeansIdle(wf, order, run);
  }

  /** `next_action` moves a step out of Pending only if nothing has failed, nothing is active,
      and every DAG predecessor has succeeded; it moves no other step. */
  lemma StartsAfterPredecessors(wf: Workflow, order: seq<string>, calls: seq<HostCall>, key: string)
    requires Ranked(wf, order)
    requires var run := Drive(wf, order, Fresh(wf), calls);
             && key in run.steps && run.steps[key].status == Pending
             && NextSteps(wf, order, run)[key].status != Pending
    ensures var run := Drive(wf, order, Fresh(wf), calls);
            && run.status != Failed
            && (forall k :: !Active(run.steps, k))
            && (forall e :: e in wf.edges && e.dst == key ==> e.src in run.steps && run.steps[e.src].status == Succeeded)
            && (forall k :: k in run.steps && k != key ==> NextSteps(wf, order, run)[k] == run.steps[k])
  {
    DriveKeepsInv(wf, order, calls);
    var run := Drive(wf, order, Fresh(wf), calls);
    var i := StartIsNextInOrder(wf, order, run, key);
    forall e | e in wf.edges && e.dst == key ensures e.src in run.steps && run.steps[e.src].status == Succeeded {
      assert e.src in order[..i];
    }
  }

  /** The same along whole DAG paths: everything upstream of a starting step has succeeded. */
  lemma StartsAfterAncestors(wf: Workflow, order: seq<string>, calls: seq<HostCall>, p: seq<string>)
    requires Ranked(wf, order) && |p| >= 2 && Path(wf.edges, p)
    requires var run := Drive(wf, order, Fresh(wf), calls);
             var key := p[|p| - 1];
             && key in run.steps && run.steps[key].status == Pending
             && NextSteps(wf, order, run)[key].status != Pending
    ensures var run := Drive(wf, order, Fresh(wf), calls);
            p[0] in run.steps && run.steps[p[0]].status == Succeeded
  {
    DriveKeepsInv(wf, order, calls);
    var i := StartIsNextInOrder(wf, order, Drive(wf, order, Fresh(wf), calls), p[|p| - 1]);
    PathAdvances(wf.edges, order, p, i);
    var first: nat :| first < i && order[first] == p[0];
  }

  /** Once a run has failed it stays failed, `next_action` changes nothing, and no step ever
      becomes active again. */
  lemma {:induction false} NothingStartsAfterFailure(wf: Workflow, order: seq<string>, calls: seq<HostCall>, more: seq<HostCall>)
    requires Drive(wf, order, Fresh(wf), calls).status == Failed
    ensures var before, after := Drive(wf, order, Fresh(wf), calls), Drive(wf, order, Fresh(wf), calls + more);
            && after.status == Failed
            && Next(wf, order, after) == (after, Done(after))
            && (forall k :: Active(after.steps, k) ==> Active(before.steps, k))
            && (forall k :: Waiting(after.steps, k) ==> Waiting(before.steps, k))
    decreases |more|
  {
    if more == [] {
      assert calls + more == calls;
    } else {
      var init := more[..|more| - 1];
      assert (calls + more)[..|calls + more| - 1] == calls + init;
      NothingStartsAfterFailure(wf, order, calls, init);
    }
  }

  /** `Done` with status Succeeded is returned exactly when nothing failed and every step succeeded. */
  lemma DoneMeansAllSucceeded(wf: Workflow, order: seq<string>, calls: seq<HostCall>)
    requires Ranked(wf, order)
    ensures var run := Drive(wf, order, Fresh(wf), calls);
            var action := Next(wf, order, run).1;
            (action.Done? && action.run.status == Succeeded)
            <==> (run.status != Failed && forall k :: k in Keys(wf) ==> k in run.steps && run.steps[k].status == Succeeded)
  {
    DriveKeepsInv(wf, order, calls);
    var run := Drive(wf, order, Fresh(wf), calls);
    var i := FirstOpen(order, run.steps);
    if run.status != Failed {
      if i < |order| {
        assert order[i] in order;
        LaunchEffect(wf, run, order[i]);
      } else {
        forall k | k in Keys(wf) ensures run.steps[k].status == Succeeded {
          assert k in order;
          var j :| 0 <= j < |order| && order[j] == k;
          assert Settled(run.steps, order[j]);
        }
      }
    }
  }

  // --------------------------------------------------------- completion

  /** A cooperative host: it carries out the action and reports success. */
  function Answer(run: Run, action: Action, reply: string -> Output): Run {
    match action
    case CallTool(key, _, _) => Complete(run, key, reply(key))
    case CallModel(key, _) => Complete(run, key, reply(key))
    case Wait(key, _) => Complete(run, key, reply(key))
    case AwaitApproval(key, _) => Resolve(run, key, true)
    case _ => run
  }

  function Rounds(wf: Workflow, order: seq<string>, run: Run, reply: string -> Output, n: nat): Run {
    if n == 0 then run
    else
      var r := Next(wf, order, Rounds(wf, order, run, reply, n - 1));
      Answer(r.0, r.1, reply)
  }

  /** The steps before position `n` have succeeded, the others are pending. */
  ghost predicate DoneUpTo(wf: Workflow, order: seq<string>, run: Run, n: nat) {
    && run.status == Pending && run.steps.Keys == Keys(wf)
    && (forall j :: 0 <= j < |order| ==>
         order[j] in run.steps && run.steps[order[j]].status == if j < n then Succeeded else Pending)
  }

  lemma DoneUpToIsFirstOpen(wf: Workflow, order: seq<string>, run: Run, n: nat)
    requires DoneUpTo(wf, order, run, n) && n <= |order|
    ensures FirstOpen(order, run.steps) == n
  {
    assert forall j :: 0 <= j < n ==> Settled(run.steps, order[j]);
    assert n < |order| ==> !Settled(run.steps, order[n]);
  }

  /** Launching an open step and reporting success settles that step and touches no other. */
  lemma AnsweredLaunchSucceeds(wf: Workflow, run: Run, reply: string -> Output, key: string)
    requires key in run.steps && key in Keys(wf) && !Settled(run.steps, key)
    ensures var r := Launch(wf, run, key);
            var run' := Answer(r.0, r.1, reply);
            && run'.status == run.status && run'.steps.Keys == run.steps.Keys
            && run'.steps[key].status == Succeeded
            && (forall k :: k in run.steps && k != key ==> run'.steps[k] == run.steps[k])
  {
    LaunchEffect(wf, run, key);
  }

  lemma RoundAdvances(wf: Workflow, order: seq<string>, run: Run, reply: string -> Output, n: nat)
    requires Ranked(wf, order) && n < |order| && DoneUpTo(wf, order, run, n)
    ensures var r := Next(wf, order, run);
            && !r.1.Done? && r.1 != Panic && r.1.nodeKey == order[n]
            && DoneUpTo(wf, order, Answer(r.0, r.1, reply), n + 1)
  {
    DoneUpToIsFirstOpen(wf, order, run, n);
    assert order[n] in order;
    LaunchEffect(wf, run, order[n]);
    AnsweredLaunchSucceeds(wf, run, reply, order[n]);
  }

  lemma {:induction false} RoundsAdvance(wf: Workflow, order: seq<string>, reply: string -> Output, n: nat)
    requires Ranked(wf, order) && n <= |order|
    ensures DoneUpTo(wf, order, Rounds(wf, order, Fresh(wf), reply, n), n)
  {
    if n == 0 {
      forall j | 0 <= j < |order| ensures order[j] in Keys(wf) { assert order[j] in order; }
    } else {
      RoundsAdvance(wf, order, reply, n - 1);
      RoundAdvances(wf, order, Rounds(wf, order, Fresh(wf), reply, n - 1), reply, n - 1);
    }
  }

  /** A host that answers every action gets one action per node, in order, and then `Done`
      with status Succeeded on the call after the last node. */
  lemma CooperativeHostFinishes(wf: Workflow, order: seq<string>, reply: string -> Output, n: nat)
    requires Ranked(wf, order) && n <= |order|
    ensures var action := Next(wf, order, Rounds(wf, order, Fresh(wf), reply, n)).1;
            if n < |order| then !action.Done? && action != Panic && action.nodeKey == order[n]
            else action.Done? && action.run.status == Succeeded
  {
    RoundsAdvance(wf, order, reply, n);
    var run := Rounds(wf, order, Fresh(wf), reply, n);
    if n < |order| {
      RoundAdvances(wf, order, run, reply, n);
    } else {
      DoneUpToIsFirstOpen(wf, order, run, n);
    }
  }

  // ------------------------------------------------- what each report does

  lemma DriveExtends(wf: Workflow, order: seq<string>, calls: seq<HostCall>, call: HostCall)
    ensures Drive(wf, order, Fresh(wf), calls + [call]) == Apply(wf, order, Drive(wf, order, Fresh(wf), calls), call)
  {
    assert (calls + [call])[..|calls|] == calls;
  }

  /** After any calls, a report about one key touches no other step. */
  lemma {:induction false} ReportsTouchOneStep(wf: Workflow, order: seq<string>, calls: seq<HostCall>, call: HostCall,
                                               k: string)
    requires !call.NextAction? && k in Keys(wf) && k != call.key
    ensures var run, run' := Drive(wf, order, Fresh(wf), calls), Drive(wf, order, Fresh(wf), calls + [call]);
            k in run.steps && k in run'.steps && run'.steps[k] == run.steps[k]
  {
    DriveExtends(wf, order, calls, call);
    DriveKeepsKeys(wf, order, calls);
  }

  /** A denied approval fails its step and the run, and the next action is the end of it. */
  lemma {:induction false} DenialEndsTheRun(wf: Workflow, order: seq<string>, calls: seq<HostCall>, key: string)
    requires key in Keys(wf)
    ensures var run := Drive(wf, order, Fresh(wf), calls + [ResolveApproval(key, false)]);
            && key in run.steps && run.steps[key].status == Failed && run.steps[key].error == Some("denied")
            && run.status == Failed && Next(wf, order, run) == (run, Done(run))
  {
    DriveExtends(wf, order, calls, ResolveApproval(key, false));
    DriveKeepsKeys(wf, order, calls);
  }

  /** A failure report ends the run whether or not its step is known, and is kept with a known step. */
  lemma {:induction false} FailureEndsTheRun(wf: Workflow, order: seq<string>, calls: seq<HostCall>, key: string, error: string)
    ensures var run := Drive(wf, order, Fresh(wf), calls + [FailStep(key, error)]);
            && run.status == Failed && Next(wf, order, run) == (run, Done(run))
            && (key in run.steps <==> key in Keys(wf))
            && (key in Keys(wf) ==> run.steps[key].status == Failed && run.steps[key].error == Some(error))
  {
    DriveExtends(wf, order, calls, FailStep(key, error));
    DriveKeepsKeys(wf, order, calls);
  }

  /** A completed step has succeeded with the output reported, and the run goes on as it was; an
      unknown key changes nothing. */
  lemma {:induction false} CompletionIsRecorded(wf: Workflow, order: seq<string>, calls: seq<HostCall>, key: string,
                                                output: Output)
    ensures var run, run' := Drive(wf, order, Fresh(wf), calls), Drive(wf, order, Fresh(wf), calls + [CompleteStep(key, output)]);
            && run'.status == run.status
            && (key !in Keys(wf) ==> run' == run)
            && (key in Keys(wf) ==>
                  key in run'.steps && run'.steps[key].status == Succeeded && run'.steps[key].output == Some(output))
  {
    DriveExtends(wf, order, calls, CompleteStep(key, output));
    DriveKeepsKeys(wf, order, calls);
  }

  /** An approval is a completion with the approval as its output; for an unknown key neither answer
      changes anything. */
  lemma {:induction false} ApprovalIsRecorded(wf: Workflow, order: seq<string>, calls: seq<HostCall>, key: string)
    ensures var run, run' := Drive(wf, order, Fresh(wf), calls), Drive(wf, order, Fresh(wf), calls + [ResolveApproval(key, true)]);
            && run'.status == run.status
            && (key in Keys(wf) ==>
                  key in run'.steps && run'.steps[key].status == Succeeded && run'.steps[key].output == Some(Approved))
    ensures key !in Keys(wf) ==> forall approved ::
              Drive(wf, order, Fresh(wf), calls + [ResolveApproval(key, approved)]) == Drive(wf, order, Fresh(wf), calls)
  {
    forall approved ensures Drive(wf, order, Fresh(wf), calls + [ResolveApproval(key, approved)])
                         == Apply(wf, order, Drive(wf, order, Fresh(wf), calls), ResolveApproval(key, approved))
    {
      DriveExtends(wf, order, calls, ResolveApproval(key, approved));
    }
    DriveKeepsKeys(wf, order, calls);
  }

  /** Asking again before reporting gives the same action and changes nothing. */
  lemma {:induction false} AskingAgainRepeats(wf: Workflow, order: seq<string>, run: Run)
    requires var (run', action) := Next(wf, order, run);
             action != Panic && !action.Done? && Active(run'.steps, action.nodeKey)
    ensures Next(wf, order, Next(wf, order, run).0) == Next(wf, order, run)
  {
    var i, run' := FirstOpen(order, run.steps), Next(wf, order, run).0;
    LaunchActs(wf, run, order[i]);
    assert Next(wf, order, run).1.nodeKey == order[i];
    forall j | 0 <= j < i ensures Settled(run'.steps, order[j]) { assert Settled(run.steps, order[j]) && order[j] != order[i]; }
    OpenAt(order, run'.steps, i);
    LaunchAgain(wf, run, order[i]);
  }

  lemma {:induction false} LaunchAgain(wf: Workflow, run: Run, key: string)
    requires key in run.steps && Launch(wf, run, key).1 != Panic
    requires key in Launch(wf, run, key).0.steps && Active(Launch(wf, run, key).0.steps, key)
    ensures Launch(wf, Launch(wf, run, key).0, key) == Launch(wf, run, key)
  {
    var run' := Launch(wf, run, key).0;
    assert run'.steps[key := run'.steps[key]] == run'.steps;
  }

  lemma {:induction false} LaunchActs(wf: Workflow, run: Run, key: string)
    requires key in run.steps && Launch(wf, run, key).1 != Panic
    ensures var (run', action) := Launch(wf, run, key);
            && !action.Done? && action.nodeKey == key && run'.status == run.status && run'.steps.Keys == run.steps.Keys
            && (forall k :: k in run.steps && k != key ==> run'.steps[k] == run.steps[k])
  {
  }

  lemma {:induction false} OpenAt(order: seq<string>, steps: map<string, StepRun>, i: nat)
    requires i < |order| && !Settled(steps, order[i]) && forall j :: 0 <= j < i ==> Settled(steps, order[j])
    ensures FirstOpen(order, steps) == i
  {
  }

  /** What the configuration says under a name, or the default where there is none. */
  ghost predicate Says<T>(node: Node, entry: Config -> Option<T>, default: T, value: T) {
    if node.config.Some? && entry(node.config.value).Some? then entry(node.config.value) == Some(value)
    else value == default
  }

  /** The action for a step carries what the configuration of its node says: a tool with its
      arguments, a prompt, a summary or a number of seconds; any other node is a no-op. */
  lemma {:induction false} ActionsCarryTheConfiguration(wf: Workflow, order: seq<string>, run: Run, node: Node)
    requires WellFormed(wf) && node in wf.nodes
    requires var action := Next(wf, order, run).1; action != Panic && !action.Done? && action.nodeKey == node.key
    ensures match Next(wf, order, run).1
            case CallTool(_, tool, args) =>
              if node.nodeType == ToolCall
              then Says(node, (c: Config) => c.tool, "", tool) && Says(node, (c: Config) => c.arguments, "{}", args)
              else node.nodeType !in {ModelCall, ApprovalGate, Delay} && tool == "noop" && args == "{}"
            case CallModel(_, prompt) => node.nodeType == ModelCall && Says(node, (c: Config) => c.prompt, "", prompt)
            case AwaitApproval(_, summary) =>
              node.nodeType == ApprovalGate && Says(node, (c: Config) => c.summary, "approval required", summary)
            case Wait(_, seconds) => node.nodeType == Delay && Says(node, (c: Config) => c.seconds, 0, seconds)
            case _ => false
  {
    var i := FirstOpen(order, run.steps);
    LaunchActs(wf, run, order[i]);
    NodeIsUnique(wf.nodes, node);
  }

  lemma {:induction false} NodeIsUnique(nodes: seq<Node>, node: Node)
    requires node in nodes && forall i, j :: 0 <= i < j < |nodes| ==> nodes[i].key != nodes[j].key
    ensures FindNode(nodes, node.key) == Some(node)
  {
    if nodes[0] != node {
      var k :| 0 <= k < |nodes| && nodes[k] == node;
      assert nodes[0].key != nodes[k].key && nodes[1..][k - 1] == node;
      NodeIsUnique(nodes[1..], node);
    }
  }

  /** A step that is asked about for the first time is left as its action says: a gate awaits its
      approval, a call or a delay is running, and a no-op has succeeded with the no-op output. */
  lemma {:induction false} FirstAskMovesTheStep(wf: Workflow, order: seq<string>, run: Run, node: Node)
    requires WellFormed(wf) && node in wf.nodes
    requires var action := Next(wf, order, run).1; action != Panic && !action.Done? && action.nodeKey == node.key
    requires node.key in run.steps && run.steps[node.key].status == Pending
    ensures var step := NextSteps(wf, order, run)[node.key];
            match node.nodeType
            case ApprovalGate => step == run.steps[node.key].(status := StepStatus.AwaitingApproval)
            case ToolCall => step == run.steps[node.key].(status := Running)
            case ModelCall => step == run.steps[node.key].(status := Running)
            case Delay => step == run.steps[node.key].(status := Running)
            case _ => step == run.steps[node.key].(status := Succeeded, output := Some(Noop))
  {
    var i := FirstOpen(order, run.steps);
    LaunchActs(wf, run, order[i]);
    NodeIsUnique(wf.nodes, node);
  }

  ghost predicate Carried(run: Run) {
    forall k :: k in run.steps ==> run.steps[k].nodeKey == k
  }

  /** Every step of every run carries the key it is kept under. */
  lemma {:induction false} StepsCarryTheirKeys(wf: Workflow, order: seq<string>, calls: seq<HostCall>)
    ensures Carried(Drive(wf, order, Fresh(wf), calls))
  {
    if calls != [] {
      StepsCarryTheirKeys(wf, order, calls[..|calls| - 1]);
      HostCallKeepsCarried(wf, order, Drive(wf, order, Fresh(wf), calls[..|calls| - 1]), calls[|calls| - 1]);
    }
  }

  lemma {:induction false} HostCallKeepsCarried(wf: Workflow, order: seq<string>, run: Run, call: HostCall)
    requires Carried(run)
    ensures Carried(Apply(wf, order, run, call))
  {
    if call.NextAction? && run.status != Failed {
      var i := FirstOpen(order, run.steps);
      if i < |order| { assert order[i] !in run.steps ==> Apply(wf, order, run, call) == run; }
    }
  }
}
