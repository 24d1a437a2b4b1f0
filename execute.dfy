/** `execute` (lines 1131-1225), run sequentially. After setup and the runtime check, the
    outport loop force-clears the output record, skips an outport whose static
    re-execution is not needed, resets it with `staticSave`, and queues the outports whose
    usage is the runtime: a pass-through outport reads its inport, any other runs its
    `execute` routine. Once the loop is over the queued results are saved in queue order,
    by `staticSave` at the static runtime and by `dynamicSave` at the dynamic one. */
module Execution {
  import opened Base
  import opened Graph
  import opened Components
  import opened Store
  import opened Resolution
  import opened Gates
  import opened Context
  import opened Updates
  import opened Staleness
  import opened Compilation

  /** The DAG operations `execute` calls: `effectiveOutportUsage`, `needsReexecution` at
      the static runtime, `staticSave`, `dynamicSave` and `getCachedInport`. The loop and
      the saves are stated over any such operations, so that their lemmas unfold only
      what they assume of them; `Execute` passes the DAG's own (`DagProbes`). */
  datatype Probes = Probes(usage: (DagState, string, string) -> Result<Usage>,
                           gate: (DagState, string, string) -> Result<bool>,
                           save: (DagState, string, string, Value) -> Outcome,
                           dsave: (DagState, string, string, Value) -> Outcome,
                           read: (DagState, string, string) -> Result<InportCache>)

  function StaticGate(st: DagState, node: string, outport: string): Result<bool> {
    NeedsReexecution(st, node, outport, Static)
  }

  function DagProbes(): Probes {
    Probes(EffectiveOutportUsage, StaticGate, StaticSave, DynamicSave, GetCachedInport)
  }

  /** What an `execute` routine does when it is called: it returns a value (or a promise
      that fulfils with one), throws, or returns a promise that rejects. A throw ends the
      outport loop; a rejection reaches only `Promise.all` (line 1213), so the loop goes
      on and the rejection is reported once the loop is over. */
  datatype Reply = Returned(value: Value) | Threw(error: Error) | Rejected(error: Error)

  /** The `execute` routines of the components: the component name, the outport and the
      context they are called with, and what they do. */
  type Routine = (string, string, Ctx) -> Reply

  /** A queued outport: a pass-through, whose value is read once the loop is over, the
      value its routine returned, or the rejection of the promise its routine returned. */
  datatype Job = Passed(outport: string) | Ran(outport: string, value: Value) | Failed(outport: string, error: Error)

  /** The state of the outport loop: the state, the queued jobs, the error thrown. */
  datatype ExecScan = ExecScan(st: DagState, jobs: seq<Job>, err: Option<Error>)

  /** The node has a cache holding an output record for every outport of `outs`. */
  predicate HasOutputs(st: DagState, node: string, outs: seq<string>) {
    MetaOf(st, node).cached.Some? && forall o :: o in outs ==> o in MetaOf(st, node).cached.value.outports
  }

  function RecordOf(st: DagState, node: string, o: string): OutportCache
    requires HasOutputs(st, node, [o])
  {
    MetaOf(st, node).cached.value.outports[o]
  }

  /** The output record of `o` is `rec`. */
  predicate RecordIs(st: DagState, node: string, o: string, rec: OutportRecord) {
    HasOutputs(st, node, [o]) && RecordOf(st, node, o) == rec
  }

  /** Between two states only the output records of the node named in `C` differ. */
  ghost predicate OutputsOnly(a: DagState, b: DagState, node: string, C: seq<string>) {
    && b.graph == a.graph && b.components == a.components && b.frame == a.frame
    && (forall x :: x != node ==> MetaOf(b, x) == MetaOf(a, x))
    && MetaOf(b, node).attached == MetaOf(a, node).attached
    && MetaOf(a, node).cached.Some? && MetaOf(b, node).cached.Some?
    && MetaOf(b, node).cached.value.inports == MetaOf(a, node).cached.value.inports
    && MetaOf(b, node).cached.value.compiled == MetaOf(a, node).cached.value.compiled
    && MetaOf(b, node).cached.value.outports.Keys == MetaOf(a, node).cached.value.outports.Keys
    && (forall o :: o in MetaOf(a, node).cached.value.outports && o !in C ==>
          MetaOf(b, node).cached.value.outports[o] == MetaOf(a, node).cached.value.outports[o])
  }

  lemma OutputsOnlyTrans(a: DagState, b: DagState, c: DagState, node: string, C1: seq<string>, C2: seq<string>)
    requires OutputsOnly(a, b, node, C1) && OutputsOnly(b, c, node, C2)
    ensures OutputsOnly(a, c, node, C1 + C2)
  {
  }

  lemma OutputsOnlyWeaken(a: DagState, b: DagState, node: string, C: seq<string>, D: seq<string>)
    requires OutputsOnly(a, b, node, C) && forall o :: o in C ==> o in D
    ensures OutputsOnly(a, b, node, D)
  {
  }

  /** A change to records of `C` from a state within `C` of `s0` stays within `C` of `s0`. */
  lemma OutputsOnlyExtend(s0: DagState, a: DagState, b: DagState, node: string, C: seq<string>, D: seq<string>)
    requires OutputsOnly(s0, a, node, C) && OutputsOnly(a, b, node, D) && forall o :: o in D ==> o in C
    ensures OutputsOnly(s0, b, node, C)
  {
  }

  lemma OutputsOnlyPrepend(a: DagState, b: DagState, c: DagState, node: string, o: string, rest: seq<string>)
    requires OutputsOnly(a, b, node, [o]) && OutputsOnly(b, c, node, rest)
    ensures OutputsOnly(a, c, node, [o] + rest)
  {
  }

  lemma OutputsOnlySetUp(a: DagState, b: DagState, node: string, C: seq<string>)
    requires SetUp(a, node) && OutputsOnly(a, b, node, C)
    ensures SetUp(b, node) && NodeComponent(b, node) == NodeComponent(a, node)
  {
    assert NodeComponent(b, node) == NodeComponent(a, node);
  }

  lemma SameRecordsOutputs(a: DagState, b: DagState, node: string, o: string)
    requires SetUp(a, node) && SetUp(b, node) && SameRecordsBut(a, b, node, {}, {}, {o})
    ensures OutputsOnly(a, b, node, [o])
  {
    assert CacheOf(b, node).inports == CacheOf(a, node).inports;
    assert CacheOf(b, node).compiled == CacheOf(a, node).compiled;
  }

  /** Replace one output record of the node. */
  function WriteOutput(st: DagState, node: string, o: string, c: OutportCache): (r: DagState)
    requires HasOutputs(st, node, [o])
    ensures OutputsOnly(st, r, node, [o]) && RecordIs(r, node, o, c)
  {
    var m := MetaOf(st, node);
    var cache := m.cached.value;
    var r := st.(meta := st.meta[node := m.(cached := Some(cache.(outports := cache.outports[o := c])))]);
    assert MetaOf(r, node) == m.(cached := Some(cache.(outports := cache.outports[o := c])));
    r
  }

  /** An output record with its value and both change stamps cleared, as `force` leaves it. */
  function ClearedOutput(c: OutportCache): OutportCache {
    c.(value := Undefined, valueChanged := None, staticChanged := None)
  }

  /** The `force` clearing of one iteration (lines 1154-1158): it writes into the
      record of the outport, so a missing record is a `TypeError`. */
  function ForceOutput(st: DagState, node: string, o: string, force: bool): (r: Result<DagState>)
    ensures !force ==> r == Ok(st)
    ensures force ==> (r.Ok? <==> HasOutputs(st, node, [o]))
    ensures r.Err? ==> r.error == TypeError
  {
    if !force then Ok(st)
    else if !HasOutputs(st, node, [o]) then Err(TypeError)
    else Ok(WriteOutput(st, node, o, ClearedOutput(RecordOf(st, node, o))))
  }

  /** The clearing writes only the record of its outport. */
  lemma ForceOutputFrame(st: DagState, node: string, o: string, force: bool)
    requires ForceOutput(st, node, o, force).Ok? && MetaOf(st, node).cached.Some?
    ensures OutputsOnly(st, ForceOutput(st, node, o, force).value, node, [o])
    ensures force ==> RecordIs(ForceOutput(st, node, o, force).value, node, o, ClearedOutput(RecordOf(st, node, o)))
  {
  }

  /** The end of an iteration (lines 1182-1211), once the outport is known to run at
      this runtime or not: the state does not change; an outport whose usage is the
      runtime is queued, or the missing dictionary or routine is thrown, or the routine's
      own throw. A routine whose promise rejects is queued with its rejection, and the
      loop goes on. */
  function Dispatch(s: DagState, node: string, info: ComponentInfo, component: string, o: string, pass: bool,
                    runtime: Usage, usage: Usage, jobs: seq<Job>, op: Routine): (r: ExecScan)
    ensures r.st == s
    ensures Appended(jobs, r.jobs, o)
    ensures runtime != usage ==> r == ExecScan(s, jobs, None)
    ensures runtime == usage && info.execute.None? ==> r == ExecScan(s, jobs, Some(NoExecuteDictionary))
    ensures runtime == usage && info.execute.Some? && pass ==> r == ExecScan(s, jobs + [Passed(o)], None)
    ensures runtime == usage && info.execute.Some? && !pass && o !in info.execute.value ==>
              r == ExecScan(s, jobs, Some(NoExecuteRoutine(o)))
    ensures runtime == usage && info.execute.Some? && !pass && o in info.execute.value ==>
              match op(component, o, Ctx(s, node, o, runtime))
              case Returned(v) => r == ExecScan(s, jobs + [Ran(o, v)], None)
              case Threw(e) => r == ExecScan(s, jobs, Some(e))
              case Rejected(e) => r == ExecScan(s, jobs + [Failed(o, e)], None)
  {
    if runtime != usage then ExecScan(s, jobs, None)
    else if info.execute.None? then ExecScan(s, jobs, Some(NoExecuteDictionary))
    else if pass then ExecScan(s, jobs + [Passed(o)], None)
    else if o !in info.execute.value then ExecScan(s, jobs, Some(NoExecuteRoutine(o)))
    else
      match op(component, o, Ctx(s, node, o, runtime))
      case Returned(v) => ExecScan(s, jobs + [Ran(o, v)], None)
      case Threw(e) => ExecScan(s, jobs, Some(e))
      case Rejected(e) => ExecScan(s, jobs + [Failed(o, e)], None)
  }

  /** `after` is `before`, or `before` with one job for the outport `o` appended. */
  predicate Appended(before: seq<Job>, after: seq<Job>, o: string) {
    after == before || (|after| == |before| + 1 && after[..|before|] == before && after[|before|].outport == o)
  }

  /** One iteration of the loop (lines 1143-1211): an error stops the loop. At the static
      runtime an outport whose re-execution is needed is reset by `staticSave` of
      `undefined`: the source asks the gate a second time for a dynamic usage, on the
      same state, so both usages reset. */
  function ExecStep(st: DagState, node: string, info: ComponentInfo, component: string, o: string, runtime: Usage,
                    force: bool, jobs: seq<Job>, op: Routine, p: Probes): (r: ExecScan)
    ensures forall j :: j in r.jobs ==> j in jobs || j.outport == o
    ensures Appended(jobs, r.jobs, o)
    ensures || r.st == st
            || (ForceOutput(st, node, o, force).Ok? && r.st == ForceOutput(st, node, o, force).value)
            || (ForceOutput(st, node, o, force).Ok? && r.st == p.save(ForceOutput(st, node, o, force).value, node, o, Undefined).st)
  {
    match ComponentOutportInfo(info, o)
    case Err(e) => ExecScan(st, jobs, Some(e))
    case Ok(port) =>
      match p.usage(st, node, o)
      case Err(e) => ExecScan(st, jobs, Some(e))
      case Ok(usage) =>
        match ForceOutput(st, node, o, force)
        case Err(e) => ExecScan(st, jobs, Some(e))
        case Ok(s) =>
          if runtime == Dynamic then Dispatch(s, node, info, component, o, Passes(port), runtime, usage, jobs, op)
          else
            match p.gate(s, node, o)
            case Err(e) => ExecScan(s, jobs, Some(e))
            case Ok(stale) =>
              if !stale then ExecScan(s, jobs, None)
              else
                var reset := p.save(s, node, o, Undefined);
                if reset.err.Some? then ExecScan(reset.st, jobs, reset.err)
                else Dispatch(reset.st, node, info, component, o, Passes(port), runtime, usage, jobs, op)
  }

  /** One iteration of the loop, from a state and the jobs queued so far, for an outport. */
  type Step = (DagState, seq<Job>, string) -> ExecScan

  /** The iteration of `execute` for a node at a runtime. */
  function StepOf(node: string, info: ComponentInfo, component: string, runtime: Usage, force: bool, op: Routine, p: Probes): Step {
    (s: DagState, jobs: seq<Job>, o: string) => ExecStep(s, node, info, component, o, runtime, force, jobs, op, p)
  }

  /** The loop over the outports `outs`, with `jobs` queued so far. It is stated over
      any iteration, so that its lemmas assume of the iteration only what they need. */
  function ScanExecute(st: DagState, outs: seq<string>, jobs: seq<Job>, step: Step): (r: ExecScan)
    decreases |outs|
  {
    if outs == [] then ExecScan(st, jobs, None)
    else
      var r := step(st, jobs, outs[0]);
      if r.err.Some? then r
      else ScanExecute(r.st, outs[1..], r.jobs, step)
  }

  /** The queued outports' values, once the loop is over (lines 1213-1214): a
      pass-through outport reads the cached record of the inport of the same name, and
      the first read that throws rejects them all. */
  function Resolve(st: DagState, node: string, jobs: seq<Job>, p: Probes): (r: Result<seq<(string, Value)>>)
    ensures r.Ok? ==> |r.value| == |jobs|
    ensures r.Ok? ==> forall k :: 0 <= k < |jobs| ==> ResolveJob(st, node, jobs[k], p) == Ok(r.value[k])
    ensures r.Err? ==> exists k :: 0 <= k < |jobs| && ResolveJob(st, node, jobs[k], p) == Err(r.error)
    ensures (forall k :: 0 <= k < |jobs| ==> ResolveJob(st, node, jobs[k], p).Ok?) ==> r.Ok?
  {
    if jobs == [] then Ok([])
    else
      var head := ResolveJob(st, node, jobs[0], p);
      var rest := Resolve(st, node, jobs[1..], p);
      assert forall k :: 1 <= k < |jobs| ==> jobs[k] == jobs[1..][k - 1];
      if head.Err? then Err(head.error)
      else if rest.Err? then
        ghost var k :| 0 <= k < |jobs[1..]| && ResolveJob(st, node, jobs[1..][k], p) == Err(rest.error);
        assert ResolveJob(st, node, jobs[k + 1], p) == Err(rest.error);
        Err(rest.error)
      else Ok([head.value] + rest.value)
  }

  /** The value of one queued outport, or the rejection that ends `Promise.all`. */
  function ResolveJob(st: DagState, node: string, j: Job, p: Probes): (r: Result<(string, Value)>)
    ensures r.Ok? ==> r.value.0 == j.outport
    ensures j.Ran? ==> r == Ok((j.outport, j.value))
    ensures j.Failed? ==> r == Err(j.error)
    ensures j.Passed? ==> (r.Ok? <==> p.read(st, node, j.outport).Ok?)
    ensures j.Passed? && r.Ok? ==> r.value.1 == p.read(st, node, j.outport).value.value
    ensures j.Passed? && r.Err? ==> r.error == p.read(st, node, j.outport).error
  {
    match j
    case Ran(o, v) => Ok((o, v))
    case Failed(_, e) => Err(e)
    case Passed(o) =>
      match p.read(st, node, o)
      case Err(e) => Err(e)
      case Ok(c) => Ok((o, c.value))
  }

  /** The first read that throws rejects the whole resolution with its error. */
  lemma {:induction false} ResolveFirstError(st: DagState, node: string, jobs: seq<Job>, p: Probes, k: int)
    requires 0 <= k < |jobs| && ResolveJob(st, node, jobs[k], p).Err?
    requires forall i :: 0 <= i < k ==> ResolveJob(st, node, jobs[i], p).Ok?
    ensures Resolve(st, node, jobs, p) == Err(ResolveJob(st, node, jobs[k], p).error)
    decreases k
  {
    if k > 0 {
      assert ResolveJob(st, node, jobs[0], p).Ok?;
      assert jobs[1..][k - 1] == jobs[k];
      ResolveFirstError(st, node, jobs[1..], p, k - 1);
    }
  }

  /** The outports of the resolved values. */
  function Names(results: seq<(string, Value)>): (r: seq<string>)
    ensures |r| == |results| && forall k :: 0 <= k < |results| ==> r[k] == results[k].0
  {
    if results == [] then [] else [results[0].0] + Names(results[1..])
  }

  /** The saves after the loop (lines 1215-1221), in queue order: `staticSave` at the
      static runtime, `dynamicSave` at the dynamic one; an error stops them. */
  function SaveAll(st: DagState, node: string, runtime: Usage, results: seq<(string, Value)>, p: Probes): (r: Outcome)
    decreases |results|
  {
    if results == [] then Outcome(st, None)
    else
      var s := if runtime == Static then p.save(st, node, results[0].0, results[0].1)
               else p.dsave(st, node, results[0].0, results[0].1);
      if s.err.Some? then s else SaveAll(s.st, node, runtime, results[1..], p)
  }

  /** `execute` over the given operations. */
  function ExecuteWith(st: DagState, node: string, runtime: string, force: bool, op: Routine, p: Probes): (r: Outcome)
  {
    match Setup(st, node)
    case Err(e) => Outcome(st, Some(e))
    case Ok(s) =>
      if runtime != "static" && runtime != "dynamic" then Outcome(s, Some(InvalidRuntime(runtime)))
      else
        var info := NodeComponent(s, node).value;
        var rt := if runtime == "static" then Static else Dynamic;
        var scan := ScanExecute(s, OutportNames(info.outports), [], StepOf(node, info, ComponentOf(s, node), rt, force, op, p));
        if scan.err.Some? then Outcome(scan.st, scan.err)
        else
          match Resolve(scan.st, node, scan.jobs, p)
          case Err(e) => Outcome(scan.st, Some(e))
          case Ok(results) => SaveAll(scan.st, node, rt, results, p)
  }

  /** `execute`: setup, the runtime check, the outport loop, then the saves of the
      queued values. */
  function Execute(st: DagState, node: string, runtime: string, force: bool, op: Routine): (r: Outcome)
    ensures NodeComponent(st, node).Err? ==> r == Outcome(st, Some(NodeComponent(st, node).error))
    ensures NodeComponent(st, node).Ok? && runtime != "static" && runtime != "dynamic" ==>
              r == Outcome(Setup(st, node).value, Some(InvalidRuntime(runtime)))
  {
    ExecuteWith(st, node, runtime, force, op, DagProbes())
  }

  /** `execute` of a node with a component at a valid runtime, read as its phases. */
  lemma ExecuteIs(st: DagState, node: string, runtime: string, force: bool, op: Routine)
    requires NodeComponent(st, node).Ok? && (runtime == "static" || runtime == "dynamic")
    ensures var s := Setup(st, node).value;
            var info := NodeComponent(s, node).value;
            var rt := if runtime == "static" then Static else Dynamic;
            var scan := ScanExecute(s, OutportNames(info.outports), [], StepOf(node, info, ComponentOf(s, node), rt, force, op, DagProbes()));
            Execute(st, node, runtime, force, op) ==
              if scan.err.Some? then Outcome(scan.st, scan.err)
              else match Resolve(scan.st, node, scan.jobs, DagProbes())
                   case Err(e) => Outcome(scan.st, Some(e))
                   case Ok(results) => SaveAll(scan.st, node, rt, results, DagProbes())
  {
  }

  // ---------------------------------------------------------------- what the loop assumes of the DAG

  /** From a state that differs from the start `s0` only in the output records `C`, a
      save of one of them writes at most that record. */
  ghost predicate Confined(save: (DagState, string, string, Value) -> Outcome, s0: DagState, node: string, C: seq<string>) {
    forall s: DagState, o: string, v: Value ::
      OutputsOnly(s0, s, node, C) && o in C ==> OutputsOnly(s, save(s, node, o, v).st, node, [o])
  }

  /** A static save of an outport whose usage resolves succeeds, and its record holds the
      value, that usage and the frame as all three stamps. */
  ghost predicate Stamps(p: Probes, s0: DagState, node: string, C: seq<string>) {
    forall s: DagState, o: string, v: Value ::
      OutputsOnly(s0, s, node, C) && o in C && p.usage(s, node, o).Ok? ==>
        && p.save(s, node, o, v).err.None?
        && RecordIs(p.save(s, node, o, v).st, node, o,
                    OutportRecord(v, Some(p.usage(s, node, o).value), Some(s.frame), Some(s.frame), Some(s.frame)))
  }

  /** A dynamic save succeeds, and its record holds the value stamped with the frame as
      its `valueChanged` and `checked`. */
  ghost predicate DynamicStamps(dsave: (DagState, string, string, Value) -> Outcome, s0: DagState, node: string, C: seq<string>) {
    forall s: DagState, o: string, v: Value ::
      OutputsOnly(s0, s, node, C) && o in C && HasOutputs(s, node, [o]) ==>
        && dsave(s, node, o, v).err.None?
        && RecordIs(dsave(s, node, o, v).st, node, o,
                    RecordOf(s, node, o).(value := v, valueChanged := Some(s.frame), checked := Some(s.frame)))
  }

  /** The usage of an outport does not change while only the node's output records do. */
  ghost predicate UsageFixed(usage: (DagState, string, string) -> Result<Usage>, s0: DagState, node: string, C: seq<string>) {
    forall s: DagState, o: string :: OutputsOnly(s0, s, node, C) ==> usage(s, node, o) == usage(s0, node, o)
  }

  /** The gate of an outport does not change while its own record and every inport
      record stay as they are. */
  ghost predicate GateFixed(gate: (DagState, string, string) -> Result<bool>, s0: DagState, node: string, C: seq<string>) {
    forall s: DagState, o: string ::
      OutputsOnly(s0, s, node, C) && HasOutputs(s0, node, [o]) && RecordIs(s, node, o, RecordOf(s0, node, o)) ==>
        gate(s, node, o) == gate(s0, node, o)
  }

  lemma StaticSaveConfined(s0: DagState, node: string, C: seq<string>)
    requires SetUp(s0, node) && HasOutputs(s0, node, C)
    ensures Confined(StaticSave, s0, node, C)
  {
    forall s: DagState, o: string, v: Value | OutputsOnly(s0, s, node, C) && o in C
      ensures OutputsOnly(s, StaticSave(s, node, o, v).st, node, [o])
    {
      OutputsOnlySetUp(s0, s, node, C);
      assert Setup(s, node) == Ok(s);
      var r := StaticSave(s, node, o, v);
      if r.err.None? {
        SameRecordsOutputs(s, r.st, node, o);
      }
    }
  }

  lemma DynamicSaveConfined(s0: DagState, node: string, C: seq<string>)
    requires SetUp(s0, node) && HasOutputs(s0, node, C)
    ensures Confined(DynamicSave, s0, node, C)
  {
    forall s: DagState, o: string, v: Value | OutputsOnly(s0, s, node, C) && o in C
      ensures OutputsOnly(s, DynamicSave(s, node, o, v).st, node, [o])
    {
      OutputsOnlySetUp(s0, s, node, C);
      assert Setup(s, node) == Ok(s);
      var r := DynamicSave(s, node, o, v);
      SameRecordsOutputs(s, r.st, node, o);
    }
  }

  lemma StaticSaveStamps(s0: DagState, node: string, C: seq<string>)
    requires SetUp(s0, node) && HasOutputs(s0, node, C)
    ensures Stamps(DagProbes(), s0, node, C)
  {
    forall s: DagState, o: string, v: Value | OutputsOnly(s0, s, node, C) && o in C && EffectiveOutportUsage(s, node, o).Ok?
      ensures StaticSave(s, node, o, v).err.None? &&
              RecordIs(StaticSave(s, node, o, v).st, node, o,
                       OutportRecord(v, Some(EffectiveOutportUsage(s, node, o).value), Some(s.frame), Some(s.frame), Some(s.frame)))
    {
      OutputsOnlySetUp(s0, s, node, C);
      assert Setup(s, node) == Ok(s);
    }
  }

  lemma DynamicSaveStamps(s0: DagState, node: string, C: seq<string>)
    requires SetUp(s0, node) && HasOutputs(s0, node, C)
    ensures DynamicStamps(DynamicSave, s0, node, C)
  {
    forall s: DagState, o: string, v: Value | OutputsOnly(s0, s, node, C) && o in C && HasOutputs(s, node, [o])
      ensures DynamicSave(s, node, o, v).err.None? &&
              RecordIs(DynamicSave(s, node, o, v).st, node, o,
                       RecordOf(s, node, o).(value := v, valueChanged := Some(s.frame), checked := Some(s.frame)))
    {
      OutputsOnlySetUp(s0, s, node, C);
      assert Setup(s, node) == Ok(s);
    }
  }

  /** Usage resolution reads attachments and the records of upstream nodes: when the node
      does not feed itself, its output records are not among them. */
  lemma DagUsageFixed(s0: DagState, node: string, C: seq<string>)
    requires NotFedBy(s0.graph, {node}, node)
    ensures UsageFixed(EffectiveOutportUsage, s0, node, C)
  {
    forall s: DagState, o: string | OutputsOnly(s0, s, node, C)
      ensures EffectiveOutportUsage(s, node, o) == EffectiveOutportUsage(s0, node, o)
    {
      AttachmentsKept(s0, s, node);
      forall x, q | x !in {node} ensures GetCachedOutport(s, x, q) == GetCachedOutport(s0, x, q) {
        OtherNodeKept(s0, s, node, x);
      }
      OutportUsageFrame(s0, s, {node}, node, o);
    }
  }

  /** `needsReexecution` at the static runtime reads the outport's record, its usage and
      the node's inport records. */
  lemma DagGateFixed(s0: DagState, node: string, C: seq<string>)
    requires SetUp(s0, node) && NotFedBy(s0.graph, {node}, node)
    ensures GateFixed(StaticGate, s0, node, C)
  {
    DagUsageFixed(s0, node, C);
    forall s: DagState, o: string | OutputsOnly(s0, s, node, C) && HasOutputs(s0, node, [o]) && RecordIs(s, node, o, RecordOf(s0, node, o))
      ensures StaticGate(s, node, o) == StaticGate(s0, node, o)
    {
      GateKept(s0, s, node, C, o);
    }
  }

  lemma GateKept(s0: DagState, s: DagState, node: string, C: seq<string>, o: string)
    requires SetUp(s0, node) && OutputsOnly(s0, s, node, C) && HasOutputs(s0, node, [o]) && RecordIs(s, node, o, RecordOf(s0, node, o))
    requires EffectiveOutportUsage(s, node, o) == EffectiveOutportUsage(s0, node, o)
    ensures NeedsReexecution(s, node, o, Static) == NeedsReexecution(s0, node, o, Static)
  {
    GateViews(s0, s, node, C, o);
    var rec := RecordOf(s0, node, o);
    if rec.staticChanged.Some? {
      match EffectiveOutportUsage(s0, node, o) {
        case Err(_) =>
        case Ok(u) =>
          if Some(u) == rec.usage {
            match NodeDepends(s0, node, o) {
              case Err(_) =>
              case Ok(deps) => AnyNewerSame(s0, s, node, deps, rec.staticChanged.value);
            }
          }
      }
    }
  }

  /** What the static gate reads is the same in both states. */
  lemma GateViews(s0: DagState, s: DagState, node: string, C: seq<string>, o: string)
    requires SetUp(s0, node) && OutputsOnly(s0, s, node, C) && HasOutputs(s0, node, [o]) && RecordIs(s, node, o, RecordOf(s0, node, o))
    ensures SetupView(s0, node) == Ok(MetaOf(s0, node)) && SetupView(s, node) == Ok(MetaOf(s, node))
    ensures o in MetaOf(s, node).cached.value.outports && MetaOf(s, node).cached.value.outports[o] == MetaOf(s0, node).cached.value.outports[o]
    ensures NodeDepends(s, node, o) == NodeDepends(s0, node, o)
    ensures forall i :: GetCachedInport(s, node, i) == GetCachedInport(s0, node, i)
  {
    OutputsOnlySetUp(s0, s, node, C);
    assert forall i :: GetCachedInport(s, node, i) == GetCachedInport(s0, node, i);
  }

  // ---------------------------------------------------------------- the loop and the saves

  /** An iteration writes at most the record of its outport. */
  lemma StepFrame(s0: DagState, C: seq<string>, st: DagState, node: string, info: ComponentInfo, component: string, o: string,
                  runtime: Usage, force: bool, jobs: seq<Job>, op: Routine, p: Probes)
    requires OutputsOnly(s0, st, node, C) && HasOutputs(s0, node, C) && o in C && Confined(p.save, s0, node, C)
    ensures OutputsOnly(st, ExecStep(st, node, info, component, o, runtime, force, jobs, op, p).st, node, [o])
  {
    var r := ExecStep(st, node, info, component, o, runtime, force, jobs, op, p);
    var f := ForceOutput(st, node, o, force);
    if r.st == st {
      assert OutputsOnly(st, st, node, [o]);
    } else {
      var s := f.value;
      ForceOutputFrame(st, node, o, force);
      if r.st != s {
        OutputsOnlyExtend(s0, st, s, node, C, [o]);
        var reset := p.save(s, node, o, Undefined);
        assert OutputsOnly(s, reset.st, node, [o]);
        OutputsOnlyTrans(st, s, reset.st, node, [o], [o]);
        OutputsOnlyWeaken(st, reset.st, node, [o] + [o], [o]);
      }
    }
  }

  /** The iteration writes at most the record of its outport. */
  ghost predicate StepConfined(step: Step, s0: DagState, node: string, C: seq<string>) {
    forall s: DagState, jobs: seq<Job>, o: string ::
      OutputsOnly(s0, s, node, C) && o in C ==> OutputsOnly(s, step(s, jobs, o).st, node, [o])
  }

  /** The iteration queues jobs only for its outport. */
  ghost predicate StepQueues(step: Step) {
    forall s: DagState, jobs: seq<Job>, o: string, j: Job :: j in step(s, jobs, o).jobs ==> j in jobs || j.outport == o
  }

  lemma ExecStepConfined(s0: DagState, C: seq<string>, node: string, info: ComponentInfo, component: string,
                         runtime: Usage, force: bool, op: Routine, p: Probes)
    requires HasOutputs(s0, node, C) && Confined(p.save, s0, node, C)
    ensures StepConfined(StepOf(node, info, component, runtime, force, op, p), s0, node, C)
    ensures StepQueues(StepOf(node, info, component, runtime, force, op, p))
  {
    forall s: DagState, jobs: seq<Job>, o: string | OutputsOnly(s0, s, node, C) && o in C
      ensures OutputsOnly(s, StepOf(node, info, component, runtime, force, op, p)(s, jobs, o).st, node, [o])
    {
      StepFrame(s0, C, s, node, info, component, o, runtime, force, jobs, op, p);
    }
  }

  /** The loop writes at most the records of the outports it visits. */
  lemma {:induction false} ScanFrame(s0: DagState, C: seq<string>, node: string, st: DagState, outs: seq<string>, jobs: seq<Job>, step: Step)
    requires OutputsOnly(s0, st, node, C) && StepConfined(step, s0, node, C)
    requires forall o :: o in outs ==> o in C
    ensures OutputsOnly(st, ScanExecute(st, outs, jobs, step).st, node, outs)
    decreases |outs|
  {
    if outs == [] {
    } else {
      var r := step(st, jobs, outs[0]);
      if r.err.Some? {
        OutputsOnlyWeaken(st, r.st, node, [outs[0]], outs);
      } else {
        OutputsOnlyExtend(s0, st, r.st, node, C, [outs[0]]);
        ScanFrame(s0, C, node, r.st, outs[1..], r.jobs, step);
        OutputsOnlyPrepend(st, r.st, ScanExecute(r.st, outs[1..], r.jobs, step).st, node, outs[0], outs[1..]);
        assert [outs[0]] + outs[1..] == outs;
      }
    }
  }

  /** The loop queues jobs only for the outports it visits. */
  lemma {:induction false} ScanQueues(st: DagState, outs: seq<string>, jobs: seq<Job>, step: Step)
    requires StepQueues(step)
    ensures forall j :: j in ScanExecute(st, outs, jobs, step).jobs ==> j in jobs || j.outport in outs
    decreases |outs|
  {
    if outs != [] {
      var r := step(st, jobs, outs[0]);
      if r.err.None? {
        ScanQueues(r.st, outs[1..], r.jobs, step);
      }
    }
  }

  /** The saves write at most the records of the outports they save. */
  lemma {:induction false} SaveAllFrame(s0: DagState, C: seq<string>, st: DagState, node: string, runtime: Usage,
                                        results: seq<(string, Value)>, p: Probes)
    requires OutputsOnly(s0, st, node, C) && HasOutputs(s0, node, C)
    requires runtime == Static ==> Confined(p.save, s0, node, C)
    requires runtime == Dynamic ==> Confined(p.dsave, s0, node, C)
    requires forall o :: o in Names(results) ==> o in C
    ensures OutputsOnly(st, SaveAll(st, node, runtime, results, p).st, node, Names(results))
    decreases |results|
  {
    if results != [] {
      var o := results[0].0;
      assert o in Names(results);
      var s := if runtime == Static then p.save(st, node, o, results[0].1) else p.dsave(st, node, o, results[0].1);
      if s.err.Some? {
        OutputsOnlyWeaken(st, s.st, node, [o], Names(results));
      } else {
        assert Names(results) == [o] + Names(results[1..]);
        OutputsOnlyExtend(s0, st, s.st, node, C, [o]);
        SaveAllFrame(s0, C, s.st, node, runtime, results[1..], p);
        OutputsOnlyPrepend(st, s.st, SaveAll(s.st, node, runtime, results[1..], p).st, node, o, Names(results[1..]));
      }
    }
  }

  // ---------------------------------------------------------------- the static runtime

  /** The output record of `o` is stamped with the frame and holds the usage `u`. */
  predicate Stamped(st: DagState, node: string, o: string, u: Usage) {
    HasOutputs(st, node, [o]) && RecordOf(st, node, o).staticChanged == Some(st.frame) && RecordOf(st, node, o).usage == Some(u)
  }

  /** At the static runtime without `force`, an iteration that meets the outport's record
      as it was at the start `s0` and throws nothing has found the gate answered there:
      a closed gate leaves the state alone, an open one stamps the record with the
      frame and the outport's usage, and only an open gate queues a job. */
  ghost predicate StaticStep(step: Step, p: Probes, s0: DagState, node: string, C: seq<string>) {
    forall s: DagState, jobs: seq<Job>, o: string ::
      (OutputsOnly(s0, s, node, C) && o in C && HasOutputs(s0, node, [o]) && RecordIs(s, node, o, RecordOf(s0, node, o)) &&
       step(s, jobs, o).err.None?) ==>
        && p.gate(s0, node, o).Ok?
        && (p.gate(s0, node, o) == Ok(false) ==> step(s, jobs, o).st == s && step(s, jobs, o).jobs == jobs)
        && (p.gate(s0, node, o) == Ok(true) ==> p.usage(s0, node, o).Ok? && Stamped(step(s, jobs, o).st, node, o, p.usage(s0, node, o).value))
  }

  lemma StaticStepHolds(s0: DagState, C: seq<string>, node: string, info: ComponentInfo, component: string, op: Routine, p: Probes)
    requires HasOutputs(s0, node, C) && Confined(p.save, s0, node, C) && Stamps(p, s0, node, C)
    requires UsageFixed(p.usage, s0, node, C) && GateFixed(p.gate, s0, node, C)
    ensures StaticStep(StepOf(node, info, component, Static, false, op, p), p, s0, node, C)
  {
    var step := StepOf(node, info, component, Static, false, op, p);
    forall s: DagState, jobs: seq<Job>, o: string |
      OutputsOnly(s0, s, node, C) && o in C && HasOutputs(s0, node, [o]) && RecordIs(s, node, o, RecordOf(s0, node, o)) &&
      step(s, jobs, o).err.None?
      ensures && p.gate(s0, node, o).Ok?
              && (p.gate(s0, node, o) == Ok(false) ==> step(s, jobs, o).st == s && step(s, jobs, o).jobs == jobs)
              && (p.gate(s0, node, o) == Ok(true) ==> p.usage(s0, node, o).Ok? && Stamped(step(s, jobs, o).st, node, o, p.usage(s0, node, o).value))
    {
      StaticStepAt(s0, C, s, jobs, o, node, info, component, op, p);
    }
  }

  lemma StaticStepAt(s0: DagState, C: seq<string>, s: DagState, jobs: seq<Job>, o: string, node: string, info: ComponentInfo,
                     component: string, op: Routine, p: Probes)
    requires HasOutputs(s0, node, C) && Confined(p.save, s0, node, C) && Stamps(p, s0, node, C)
    requires UsageFixed(p.usage, s0, node, C) && GateFixed(p.gate, s0, node, C)
    requires OutputsOnly(s0, s, node, C) && o in C && RecordIs(s, node, o, RecordOf(s0, node, o))
    requires ExecStep(s, node, info, component, o, Static, false, jobs, op, p).err.None?
    ensures var r := ExecStep(s, node, info, component, o, Static, false, jobs, op, p);
            && p.gate(s0, node, o).Ok?
            && (p.gate(s0, node, o) == Ok(false) ==> r.st == s && r.jobs == jobs)
            && (p.gate(s0, node, o) == Ok(true) ==> p.usage(s0, node, o).Ok? && Stamped(r.st, node, o, p.usage(s0, node, o).value))
  {
    assert p.usage(s, node, o) == p.usage(s0, node, o);
    assert p.gate(s, node, o) == p.gate(s0, node, o);
    if p.gate(s0, node, o) == Ok(true) {
      var reset := p.save(s, node, o, Undefined);
      assert OutputsOnly(s, reset.st, node, [o]);
    }
  }

  /** What the static loop leaves for an outport: its gate at the start answered, and a
      closed gate kept the record while an open one stamped it. */
  ghost predicate StaticOutcome(p: Probes, s0: DagState, node: string, b: DagState, o: string)
    requires HasOutputs(s0, node, [o])
  {
    && p.gate(s0, node, o).Ok?
    && (p.gate(s0, node, o) == Ok(false) ==> RecordIs(b, node, o, RecordOf(s0, node, o)))
    && (p.gate(s0, node, o) == Ok(true) ==> p.usage(s0, node, o).Ok? && Stamped(b, node, o, p.usage(s0, node, o).value))
  }

  /** A change outside `o`'s record keeps what the loop left for `o`. */
  lemma StaticOutcomeKept(p: Probes, s0: DagState, node: string, a: DagState, b: DagState, D: seq<string>, o: string)
    requires HasOutputs(s0, node, [o]) && OutputsOnly(a, b, node, D) && o !in D && StaticOutcome(p, s0, node, a, o)
    ensures StaticOutcome(p, s0, node, b, o)
  {
  }

  /** At the static runtime without `force`, a loop that throws nothing has asked every
      outport's gate as it was at the start: a closed gate keeps the record, an open one
      leaves it stamped with the frame and the outport's usage. */
  lemma {:induction false} ScanStatic(s0: DagState, C: seq<string>, node: string, st: DagState, outs: seq<string>, jobs: seq<Job>,
                                      step: Step, p: Probes)
    requires OutputsOnly(s0, st, node, C) && HasOutputs(s0, node, C) && StepConfined(step, s0, node, C) && StaticStep(step, p, s0, node, C)
    requires (forall o :: o in outs ==> o in C) && Distinct(outs)
    requires forall o :: o in outs ==> RecordOf(st, node, o) == RecordOf(s0, node, o)
    ensures ScanExecute(st, outs, jobs, step).err.None? ==>
              forall o :: o in outs ==> StaticOutcome(p, s0, node, ScanExecute(st, outs, jobs, step).st, o)
    decreases |outs|
  {
    if outs != [] {
      var o := outs[0];
      var r := step(st, jobs, o);
      if r.err.None? {
        var fin := ScanExecute(r.st, outs[1..], r.jobs, step);
        assert OutputsOnly(st, r.st, node, [o]);
        assert StaticOutcome(p, s0, node, r.st, o);
        OutputsOnlyExtend(s0, st, r.st, node, C, [o]);
        assert forall x :: x in outs[1..] ==> x in outs && x != o;
        ScanStatic(s0, C, node, r.st, outs[1..], r.jobs, step, p);
        ScanFrame(s0, C, node, r.st, outs[1..], r.jobs, step);
        StaticOutcomeKept(p, s0, node, r.st, fin.st, outs[1..], o);
      }
    }
  }

  /** At the static runtime without `force`, the loop queues jobs only for outports whose
      gate was open at the start and whose usage resolves. */
  lemma {:induction false} ScanStaticJobs(s0: DagState, C: seq<string>, node: string, st: DagState, outs: seq<string>, jobs: seq<Job>,
                                          step: Step, p: Probes)
    requires OutputsOnly(s0, st, node, C) && HasOutputs(s0, node, C) && StepConfined(step, s0, node, C)
    requires StaticStep(step, p, s0, node, C) && StepQueues(step)
    requires (forall o :: o in outs ==> o in C) && Distinct(outs)
    requires forall o :: o in outs ==> RecordOf(st, node, o) == RecordOf(s0, node, o)
    ensures ScanExecute(st, outs, jobs, step).err.None? ==>
              forall j :: j in ScanExecute(st, outs, jobs, step).jobs ==>
                j in jobs || (j.outport in outs && p.gate(s0, node, j.outport) == Ok(true) && p.usage(s0, node, j.outport).Ok?)
    decreases |outs|
  {
    if outs != [] {
      var o := outs[0];
      var r := step(st, jobs, o);
      if r.err.None? {
        assert OutputsOnly(st, r.st, node, [o]);
        assert HasOutputs(s0, node, [o]) && RecordIs(st, node, o, RecordOf(s0, node, o));
        assert p.gate(s0, node, o).Ok?;
        assert p.gate(s0, node, o) == Ok(false) ==> r.jobs == jobs;
        forall j | j in r.jobs && j !in jobs
          ensures j.outport == o && p.gate(s0, node, o) == Ok(true) && p.usage(s0, node, o).Ok?
        {
          assert j.outport == o;
          assert r.jobs != jobs;
          assert p.gate(s0, node, o).value;
        }
        OutputsOnlyExtend(s0, st, r.st, node, C, [o]);
        assert forall x :: x in outs[1..] ==> x in outs && x != o;
        ScanStaticJobs(s0, C, node, r.st, outs[1..], r.jobs, step, p);
      }
    }
  }

  /** A change outside `o`'s record keeps its stamp. */
  lemma StampedKept(a: DagState, b: DagState, node: string, D: seq<string>, o: string, u: Usage)
    requires OutputsOnly(a, b, node, D) && o !in D && Stamped(a, node, o, u)
    ensures Stamped(b, node, o, u)
  {
  }

  /** One static save after the loop. */
  lemma SaveStaticOne(s0: DagState, C: seq<string>, node: string, st: DagState, o: string, v: Value, p: Probes)
    requires OutputsOnly(s0, st, node, C) && HasOutputs(s0, node, C) && Confined(p.save, s0, node, C)
    requires Stamps(p, s0, node, C) && UsageFixed(p.usage, s0, node, C)
    requires o in C && p.usage(s0, node, o).Ok?
    ensures p.save(st, node, o, v).err.None?
    ensures Stamped(p.save(st, node, o, v).st, node, o, p.usage(s0, node, o).value)
    ensures OutputsOnly(st, p.save(st, node, o, v).st, node, [o]) && OutputsOnly(s0, p.save(st, node, o, v).st, node, C)
  {
    var s := p.save(st, node, o, v);
    assert p.usage(st, node, o) == p.usage(s0, node, o);
    assert OutputsOnly(st, s.st, node, [o]);
    OutputsOnlyExtend(s0, st, s.st, node, C, [o]);
  }

  /** The static saves after the loop succeed for outports whose usage resolves, and
      leave each saved record stamped with the frame and the outport's usage. */
  lemma {:induction false} SaveStatic(s0: DagState, C: seq<string>, node: string, st: DagState, results: seq<(string, Value)>, p: Probes)
    requires OutputsOnly(s0, st, node, C) && HasOutputs(s0, node, C) && Confined(p.save, s0, node, C)
    requires Stamps(p, s0, node, C) && UsageFixed(p.usage, s0, node, C)
    requires forall o :: o in Names(results) ==> o in C && p.usage(s0, node, o).Ok?
    ensures SaveAll(st, node, Static, results, p).err.None?
    ensures forall o :: o in Names(results) ==> Stamped(SaveAll(st, node, Static, results, p).st, node, o, p.usage(s0, node, o).value)
    decreases |results|
  {
    if results != [] {
      var o := results[0].0;
      assert o in Names(results);
      assert Names(results) == [o] + Names(results[1..]);
      SaveStaticOne(s0, C, node, st, o, results[0].1, p);
      var s := p.save(st, node, o, results[0].1);
      SaveStatic(s0, C, node, s.st, results[1..], p);
      if o !in Names(results[1..]) {
        SaveAllFrame(s0, C, s.st, node, Static, results[1..], p);
        StampedKept(s.st, SaveAll(s.st, node, Static, results[1..], p).st, node, Names(results[1..]), o, p.usage(s0, node, o).value);
      }
    }
  }

  // ---------------------------------------------------------------- what execute writes

  /** Whatever its runtime, `force` flag and routines, `execute` writes only the output
      records of the node: the graph, the frame, the attachments, the inport and compiled
      records and every other node stay as setup left them. */
  lemma ExecuteFrame(st: DagState, node: string, runtime: string, force: bool, op: Routine, r: Outcome)
    requires r == Execute(st, node, runtime, force, op)
    ensures r.st.graph == st.graph && r.st.components == st.components && r.st.frame == st.frame
    ensures NodeComponent(st, node).Ok? ==>
              OutputsOnly(Setup(st, node).value, r.st, node, OutportNames(NodeComponent(st, node).value.outports))
  {
    if NodeComponent(st, node).Ok? {
      var s0 := Setup(st, node).value;
      var info := NodeComponent(s0, node).value;
      var outs := OutportNames(info.outports);
      var p := DagProbes();
      SetUpOutputs(s0, node);
      assert OutputsOnly(s0, s0, node, outs);
      if runtime == "static" || runtime == "dynamic" {
        var rt := if runtime == "static" then Static else Dynamic;
        var step := StepOf(node, info, ComponentOf(s0, node), rt, force, op, p);
        StaticSaveConfined(s0, node, outs);
        DynamicSaveConfined(s0, node, outs);
        ExecStepConfined(s0, outs, node, info, ComponentOf(s0, node), rt, force, op, p);
        ScanFrame(s0, outs, node, s0, outs, [], step);
        var scan := ScanExecute(s0, outs, [], step);
        if scan.err.None? && Resolve(scan.st, node, scan.jobs, p).Ok? {
          var results := Resolve(scan.st, node, scan.jobs, p).value;
          ScanQueues(s0, outs, [], step);
          ResolvedNames(scan.st, node, scan.jobs, p);
          SaveAllFrame(s0, outs, scan.st, node, rt, results, p);
          OutputsOnlyExtend(s0, scan.st, SaveAll(scan.st, node, rt, results, p).st, node, outs, Names(results));
        }
      }
    }
  }

  // ---------------------------------------------------------------- execute at the static runtime

  /** A set-up node has an output record for every outport. */
  lemma SetUpOutputs(st: DagState, node: string)
    requires SetUp(st, node)
    ensures HasOutputs(st, node, OutportNames(NodeComponent(st, node).value.outports))
  {
    var outs := OutportNames(NodeComponent(st, node).value.outports);
    forall o | o in outs ensures o in MetaOf(st, node).cached.value.outports {
      assert o in Members(outs);
    }
  }

  /** What the DAG's own operations guarantee the loop and the saves, from a set-up node
      that does not feed itself. */
  lemma DagProbesFit(s0: DagState, node: string)
    requires SetUp(s0, node) && NotFedBy(s0.graph, {node}, node)
    ensures var C := OutportNames(NodeComponent(s0, node).value.outports);
            && HasOutputs(s0, node, C) && OutputsOnly(s0, s0, node, C)
            && Confined(DagProbes().save, s0, node, C) && Confined(DagProbes().dsave, s0, node, C)
            && Stamps(DagProbes(), s0, node, C) && DynamicStamps(DagProbes().dsave, s0, node, C)
            && UsageFixed(DagProbes().usage, s0, node, C) && GateFixed(DagProbes().gate, s0, node, C)
  {
    var C := OutportNames(NodeComponent(s0, node).value.outports);
    SetUpOutputs(s0, node);
    StaticSaveConfined(s0, node, C);
    DynamicSaveConfined(s0, node, C);
    StaticSaveStamps(s0, node, C);
    DynamicSaveStamps(s0, node, C);
    DagUsageFixed(s0, node, C);
    DagGateFixed(s0, node, C);
  }

  /** The results of a loop that threw nothing, and the saves that follow. */
  lemma ExecuteSteps(st: DagState, node: string, runtime: string, force: bool, op: Routine, r: Outcome)
    requires r == Execute(st, node, runtime, force, op) && r.err.None?
    ensures NodeComponent(st, node).Ok? && (runtime == "static" || runtime == "dynamic")
    ensures var s0 := Setup(st, node).value;
            var info := NodeComponent(s0, node).value;
            var rt := if runtime == "static" then Static else Dynamic;
            var scan := ScanExecute(s0, OutportNames(info.outports), [], StepOf(node, info, ComponentOf(s0, node), rt, force, op, DagProbes()));
            && scan.err.None? && Resolve(scan.st, node, scan.jobs, DagProbes()).Ok?
            && r == SaveAll(scan.st, node, rt, Resolve(scan.st, node, scan.jobs, DagProbes()).value, DagProbes())
  {
  }

  /** The outports of the resolved values are those of the jobs. */
  lemma ResolvedNames(st: DagState, node: string, jobs: seq<Job>, p: Probes)
    requires Resolve(st, node, jobs, p).Ok?
    ensures forall o :: o in Names(Resolve(st, node, jobs, p).value) ==> exists j :: j in jobs && j.outport == o
  {
    var results := Resolve(st, node, jobs, p).value;
    forall o | o in Names(results) ensures exists j :: j in jobs && j.outport == o {
      var k :| 0 <= k < |Names(results)| && Names(results)[k] == o;
      assert jobs[k] in jobs && jobs[k].outport == o;
    }
  }

  /** The static loop and the saves after it, composed. */
  lemma StaticRun(s0: DagState, node: string, outs: seq<string>, step: Step, p: Probes)
    requires HasOutputs(s0, node, outs) && OutputsOnly(s0, s0, node, outs) && Distinct(outs)
    requires Confined(p.save, s0, node, outs) && Stamps(p, s0, node, outs) && UsageFixed(p.usage, s0, node, outs)
    requires StepConfined(step, s0, node, outs) && StaticStep(step, p, s0, node, outs) && StepQueues(step)
    requires ScanExecute(s0, outs, [], step).err.None?
    requires Resolve(ScanExecute(s0, outs, [], step).st, node, ScanExecute(s0, outs, [], step).jobs, p).Ok?
    ensures var scan := ScanExecute(s0, outs, [], step);
            var fin := SaveAll(scan.st, node, Static, Resolve(scan.st, node, scan.jobs, p).value, p);
            && fin.err.None? && OutputsOnly(s0, fin.st, node, outs)
            && forall o :: o in outs ==> HasOutputs(s0, node, [o]) && StaticOutcome(p, s0, node, fin.st, o)
  {
    var scan := ScanExecute(s0, outs, [], step);
    ScanFrame(s0, outs, node, s0, outs, [], step);
    ScanStatic(s0, outs, node, s0, outs, [], step, p);
    ScanStaticJobs(s0, outs, node, s0, outs, [], step, p);
    var results := Resolve(scan.st, node, scan.jobs, p).value;
    ResolvedNames(scan.st, node, scan.jobs, p);
    assert forall o :: o in Names(results) ==> o in outs && p.gate(s0, node, o) == Ok(true) && p.usage(s0, node, o).Ok?;
    SaveStatic(s0, outs, node, scan.st, results, p);
    SaveAllFrame(s0, outs, scan.st, node, Static, results, p);
    var fin := SaveAll(scan.st, node, Static, results, p);
    OutputsOnlyExtend(s0, scan.st, fin.st, node, outs, Names(results));
    forall o | o in outs ensures HasOutputs(s0, node, [o]) && StaticOutcome(p, s0, node, fin.st, o) {
      if o !in Names(results) {
        StaticOutcomeKept(p, s0, node, scan.st, fin.st, Names(results), o);
      }
    }
  }

  /** Without `force`, a static `execute` that throws nothing asked every outport's gate
      on the set-up node: an outport whose gate was closed keeps its record, one whose gate
      was open ends stamped with the frame and its usage; nothing else changes. */
  lemma ExecuteStaticRecords(st: DagState, node: string, op: Routine, r: Outcome)
    requires r == Execute(st, node, "static", false, op) && r.err.None?
    requires NotFedBy(st.graph, {node}, node) && DistinctOutports(st, node)
    ensures var s0 := Setup(st, node).value;
            var outs := OutportNames(NodeComponent(st, node).value.outports);
            && OutputsOnly(s0, r.st, node, outs)
            && forall o :: o in outs ==> HasOutputs(s0, node, [o]) && StaticOutcome(DagProbes(), s0, node, r.st, o)
  {
    ExecuteSteps(st, node, "static", false, op, r);
    var s0 := Setup(st, node).value;
    var info := NodeComponent(s0, node).value;
    var outs := OutportNames(info.outports);
    var p := DagProbes();
    DagProbesFit(s0, node);
    ExecStepConfined(s0, outs, node, info, ComponentOf(s0, node), Static, false, op, p);
    StaticStepHolds(s0, outs, node, info, ComponentOf(s0, node), op, p);
    StaticRun(s0, node, outs, StepOf(node, info, ComponentOf(s0, node), Static, false, op, p), p);
  }

  /** An output record stamped with the frame and the outport's usage, read back by the
      static gate: it compares the dependencies with the frame. */
  lemma StampedReexecution(s0: DagState, b: DagState, node: string, C: seq<string>, o: string)
    requires SetUp(s0, node) && NotFedBy(s0.graph, {node}, node) && OutputsOnly(s0, b, node, C)
    requires EffectiveOutportUsage(s0, node, o).Ok? && Stamped(b, node, o, EffectiveOutportUsage(s0, node, o).value)
    requires NodeDepends(s0, node, o).Ok?
    ensures NeedsReexecution(b, node, o, Static) == AnyNewer(s0, node, NodeDepends(s0, node, o).value, b.frame)
  {
    OutputsOnlySetUp(s0, b, node, C);
    DagUsageFixed(s0, node, C);
    assert EffectiveOutportUsage(b, node, o) == EffectiveOutportUsage(s0, node, o);
    assert forall i :: GetCachedInport(b, node, i) == GetCachedInport(s0, node, i);
    assert NodeDepends(b, node, o) == NodeDepends(s0, node, o);
    AnyNewerSame(s0, b, node, NodeDepends(s0, node, o).value, b.frame);
  }

  /** Without `force`, after a static `execute` that throws nothing, an outport whose gate
      was closed on the set-up node keeps its record and its closed gate; one whose gate
      was open is stamped with the frame and its usage, so its gate opens again only when
      a dependency's cached inport changed statically after the frame of the execution. */
  lemma ExecuteStatic(st: DagState, node: string, op: Routine, o: string, r: Outcome)
    requires r == Execute(st, node, "static", false, op) && r.err.None?
    requires NotFedBy(st.graph, {node}, node) && DistinctOutports(st, node)
    requires o in OutportNames(NodeComponent(st, node).value.outports)
    ensures var s0 := Setup(st, node).value;
            && HasOutputs(s0, node, [o]) && NeedsReexecution(s0, node, o, Static).Ok?
            && (NeedsReexecution(s0, node, o, Static) == Ok(false) ==>
                  RecordIs(r.st, node, o, RecordOf(s0, node, o)) && NeedsReexecution(r.st, node, o, Static) == Ok(false))
            && (NeedsReexecution(s0, node, o, Static) == Ok(true) ==>
                  EffectiveOutportUsage(s0, node, o).Ok? && Stamped(r.st, node, o, EffectiveOutportUsage(s0, node, o).value))
            && (NeedsReexecution(s0, node, o, Static) == Ok(true) && NodeDepends(st, node, o).Ok? ==>
                  NeedsReexecution(r.st, node, o, Static) == AnyNewer(st, node, NodeDepends(st, node, o).value, st.frame))
  {
    var s0 := Setup(st, node).value;
    var outs := OutportNames(NodeComponent(st, node).value.outports);
    ExecuteStaticRecords(st, node, op, r);
    assert StaticOutcome(DagProbes(), s0, node, r.st, o);
    if NeedsReexecution(s0, node, o, Static) == Ok(false) {
      DagGateFixed(s0, node, outs);
      assert StaticGate(r.st, node, o) == StaticGate(s0, node, o);
    } else if NodeDepends(st, node, o).Ok? {
      assert NodeDepends(s0, node, o) == NodeDepends(st, node, o);
      StampedReexecution(s0, r.st, node, outs, o);
      SetupInports(st, node);
      AnyNewerSame(st, s0, node, NodeDepends(st, node, o).value, st.frame);
    }
  }

  // ---------------------------------------------------------------- the values the static runtime saves

  /** The output record a static save of `v` leaves: the value, the usage and the frame as
      all three stamps. */
  function StaticRecord(v: Value, u: Usage, frame: int): OutportRecord {
    OutportRecord(v, Some(u), Some(frame), Some(frame), Some(frame))
  }

  /** The job the static loop queues for an outport of static usage behind an open gate,
      from the state `s` the loop has reached: a pass-through, or what its routine did on
      the context of the state the reset left. */
  function StaticJob(s: DagState, node: string, info: ComponentInfo, component: string, o: string, op: Routine, p: Probes): (j: Job)
    ensures j.outport == o
  {
    if ComponentOutportInfo(info, o).Ok? && Passes(ComponentOutportInfo(info, o).value) then Passed(o)
    else
      match op(component, o, Ctx(p.save(s, node, o, Undefined).st, node, o, Static))
      case Returned(v) => Ran(o, v)
      case Threw(e) => Failed(o, e)
      case Rejected(e) => Failed(o, e)
  }

  function StaticJobOf(node: string, info: ComponentInfo, component: string, op: Routine, p: Probes): (DagState, string) -> Job {
    (s: DagState, o: string) => StaticJob(s, node, info, component, o, op, p)
  }

  /** At the static runtime without `force`, an iteration that meets `o`'s record as it
      was at the start `s0`, finds its gate open there and throws nothing, resets the
      record with `undefined`, and queues `job(s, o)` exactly when the usage is static. */
  ghost predicate StaticQueue(step: Step, p: Probes, s0: DagState, node: string, C: seq<string>, job: (DagState, string) -> Job) {
    forall s: DagState, jobs: seq<Job>, o: string ::
      (OutputsOnly(s0, s, node, C) && o in C && HasOutputs(s0, node, [o]) && RecordIs(s, node, o, RecordOf(s0, node, o)) &&
       step(s, jobs, o).err.None? && p.gate(s0, node, o) == Ok(true)) ==>
        && p.usage(s0, node, o).Ok?
        && RecordIs(step(s, jobs, o).st, node, o, StaticRecord(Undefined, p.usage(s0, node, o).value, s0.frame))
        && step(s, jobs, o).jobs == jobs + (if p.usage(s0, node, o) == Ok(Static) then [job(s, o)] else [])
  }

  lemma StaticQueueHolds(s0: DagState, C: seq<string>, node: string, info: ComponentInfo, component: string, op: Routine, p: Probes)
    requires HasOutputs(s0, node, C) && Confined(p.save, s0, node, C) && Stamps(p, s0, node, C)
    requires UsageFixed(p.usage, s0, node, C) && GateFixed(p.gate, s0, node, C)
    ensures StaticQueue(StepOf(node, info, component, Static, false, op, p), p, s0, node, C, StaticJobOf(node, info, component, op, p))
  {
    var step := StepOf(node, info, component, Static, false, op, p);
    forall s: DagState, jobs: seq<Job>, o: string |
      OutputsOnly(s0, s, node, C) && o in C && HasOutputs(s0, node, [o]) && RecordIs(s, node, o, RecordOf(s0, node, o)) &&
      step(s, jobs, o).err.None? && p.gate(s0, node, o) == Ok(true)
      ensures && p.usage(s0, node, o).Ok?
              && RecordIs(step(s, jobs, o).st, node, o, StaticRecord(Undefined, p.usage(s0, node, o).value, s0.frame))
              && step(s, jobs, o).jobs == jobs + (if p.usage(s0, node, o) == Ok(Static) then [StaticJobOf(node, info, component, op, p)(s, o)] else [])
    {
      StaticQueueAt(s0, C, s, jobs, o, node, info, component, op, p);
    }
  }

  lemma StaticQueueAt(s0: DagState, C: seq<string>, s: DagState, jobs: seq<Job>, o: string, node: string, info: ComponentInfo,
                      component: string, op: Routine, p: Probes)
    requires HasOutputs(s0, node, C) && Confined(p.save, s0, node, C) && Stamps(p, s0, node, C)
    requires UsageFixed(p.usage, s0, node, C) && GateFixed(p.gate, s0, node, C)
    requires OutputsOnly(s0, s, node, C) && o in C && RecordIs(s, node, o, RecordOf(s0, node, o))
    requires ExecStep(s, node, info, component, o, Static, false, jobs, op, p).err.None? && p.gate(s0, node, o) == Ok(true)
    ensures var r := ExecStep(s, node, info, component, o, Static, false, jobs, op, p);
            && p.usage(s0, node, o).Ok?
            && RecordIs(r.st, node, o, StaticRecord(Undefined, p.usage(s0, node, o).value, s0.frame))
            && r.jobs == jobs + (if p.usage(s0, node, o) == Ok(Static) then [StaticJob(s, node, info, component, o, op, p)] else [])
  {
    assert p.usage(s, node, o) == p.usage(s0, node, o);
    assert p.gate(s, node, o) == p.gate(s0, node, o);
    StaticStepOpen(s, node, info, component, o, jobs, op, p);
    var reset := p.save(s, node, o, Undefined);
    assert RecordIs(reset.st, node, o, StaticRecord(Undefined, p.usage(s, node, o).value, s.frame));
    DispatchStatic(reset.st, s, node, info, component, o, p.usage(s, node, o).value, jobs, op, p);
  }

  /** An iteration behind an open gate at the static runtime, without `force`, that throws
      nothing: the reset succeeded and the dispatch ran on the state it left. */
  lemma StaticStepOpen(s: DagState, node: string, info: ComponentInfo, component: string, o: string, jobs: seq<Job>, op: Routine, p: Probes)
    requires ExecStep(s, node, info, component, o, Static, false, jobs, op, p).err.None? && p.gate(s, node, o) == Ok(true)
    ensures ComponentOutportInfo(info, o).Ok? && p.usage(s, node, o).Ok? && p.save(s, node, o, Undefined).err.None?
    ensures ExecStep(s, node, info, component, o, Static, false, jobs, op, p) ==
              Dispatch(p.save(s, node, o, Undefined).st, node, info, component, o, Passes(ComponentOutportInfo(info, o).value),
                       Static, p.usage(s, node, o).value, jobs, op)
  {
  }

  /** A static dispatch that throws nothing, from the state `t` the reset of `o` left in
      `s`, queues the static job exactly when the usage is static. */
  lemma DispatchStatic(t: DagState, s: DagState, node: string, info: ComponentInfo, component: string, o: string, usage: Usage,
                       jobs: seq<Job>, op: Routine, p: Probes)
    requires t == p.save(s, node, o, Undefined).st && ComponentOutportInfo(info, o).Ok?
    requires Dispatch(t, node, info, component, o, Passes(ComponentOutportInfo(info, o).value), Static, usage, jobs, op).err.None?
    ensures Dispatch(t, node, info, component, o, Passes(ComponentOutportInfo(info, o).value), Static, usage, jobs, op).jobs ==
              jobs + (if usage == Static then [StaticJob(s, node, info, component, o, op, p)] else [])
  {
  }

  /** An iteration only appends, at most one job for its own outport. */
  ghost predicate StepAppends(step: Step) {
    forall s: DagState, jobs: seq<Job>, o: string :: Appended(jobs, step(s, jobs, o).jobs, o)
  }

  lemma ExecStepAppends(node: string, info: ComponentInfo, component: string, runtime: Usage, force: bool, op: Routine, p: Probes)
    ensures StepAppends(StepOf(node, info, component, runtime, force, op, p))
  {
    forall s: DagState, jobs: seq<Job>, o: string
      ensures Appended(jobs, StepOf(node, info, component, runtime, force, op, p)(s, jobs, o).jobs, o)
    {
      var r := ExecStep(s, node, info, component, o, runtime, force, jobs, op, p);
    }
  }

  /** A loop that throws nothing comes to its k-th outport after the first k, and goes
      on from what that iteration left. */
  lemma {:induction false} ScanAt(st: DagState, outs: seq<string>, jobs: seq<Job>, step: Step, k: int)
    requires ScanExecute(st, outs, jobs, step).err.None? && 0 <= k < |outs|
    ensures var pre := ScanExecute(st, outs[..k], jobs, step);
            var r := step(pre.st, pre.jobs, outs[k]);
            && pre.err.None? && r.err.None?
            && ScanExecute(st, outs, jobs, step) == ScanExecute(r.st, outs[k + 1..], r.jobs, step)
    decreases k
  {
    var r0 := step(st, jobs, outs[0]);
    if k == 0 {
      assert outs[..0] == [] && outs[1..] == outs[k + 1..];
    } else {
      ScanAt(r0.st, outs[1..], r0.jobs, step, k - 1);
      assert outs[..k][0] == outs[0] && outs[..k][1..] == outs[1..][..k - 1];
      assert outs[1..][k - 1] == outs[k] && outs[1..][k..] == outs[k + 1..];
    }
  }

  /** The loop keeps the jobs it started with as a prefix. */
  lemma {:induction false} ScanExtends(st: DagState, outs: seq<string>, jobs: seq<Job>, step: Step)
    requires StepAppends(step)
    ensures |ScanExecute(st, outs, jobs, step).jobs| >= |jobs| && ScanExecute(st, outs, jobs, step).jobs[..|jobs|] == jobs
    decreases |outs|
  {
    if outs != [] {
      var r := step(st, jobs, outs[0]);
      assert Appended(jobs, r.jobs, outs[0]);
      if r.err.None? {
        ScanExtends(r.st, outs[1..], r.jobs, step);
        var fin := ScanExecute(r.st, outs[1..], r.jobs, step).jobs;
        assert fin[..|jobs|] == fin[..|r.jobs|][..|jobs|];
      }
    }
  }

  /** The outports of a sequence of jobs. */
  function JobNames(jobs: seq<Job>): (r: seq<string>)
    ensures |r| == |jobs| && forall k :: 0 <= k < |jobs| ==> r[k] == jobs[k].outport
  {
    if jobs == [] then [] else [jobs[0].outport] + JobNames(jobs[1..])
  }

  /** One appended job for the first of distinct outports keeps the job outports distinct
      and clear of the remaining outports. */
  lemma AppendedDistinct(jobs: seq<Job>, after: seq<Job>, outs: seq<string>)
    requires outs != [] && Appended(jobs, after, outs[0]) && Distinct(outs)
    requires Distinct(JobNames(jobs)) && forall j :: j in jobs ==> j.outport !in outs
    ensures Distinct(JobNames(after)) && forall j :: j in after ==> j.outport !in outs[1..]
  {
    if after != jobs {
      forall i | 0 <= i < |jobs| ensures after[i] == jobs[i] {
        assert after[..|jobs|][i] == jobs[i];
      }
      assert after[|jobs|].outport !in outs[1..];
      forall j | j in after ensures j.outport !in outs[1..] {
        var i :| 0 <= i < |after| && after[i] == j;
        if i < |jobs| {
          assert jobs[i] in jobs;
        }
      }
      forall i, i' | 0 <= i < i' < |after| ensures JobNames(after)[i] != JobNames(after)[i'] {
        if i' == |jobs| {
          assert jobs[i] in jobs;
        }
      }
    }
  }

  /** Over distinct outports, the loop queues at most one job per outport. */
  lemma {:induction false} ScanDistinct(st: DagState, outs: seq<string>, jobs: seq<Job>, step: Step)
    requires StepAppends(step) && Distinct(outs)
    requires Distinct(JobNames(jobs)) && forall j :: j in jobs ==> j.outport !in outs
    ensures Distinct(JobNames(ScanExecute(st, outs, jobs, step).jobs))
    decreases |outs|
  {
    if outs != [] {
      var r := step(st, jobs, outs[0]);
      AppendedDistinct(jobs, r.jobs, outs);
      if r.err.None? {
        ScanDistinct(r.st, outs[1..], r.jobs, step);
      }
    }
  }

  /** A change outside `o`'s record keeps that record. */
  lemma RecordKept(a: DagState, b: DagState, node: string, D: seq<string>, o: string, rec: OutportRecord)
    requires OutputsOnly(a, b, node, D) && o !in D && RecordIs(a, node, o, rec)
    ensures RecordIs(b, node, o, rec)
  {
  }

  /** The static saves after the loop, of distinct outports whose usage resolves, leave
      each saved record holding its value, the usage and the frame as its stamps. */
  lemma {:induction false} SaveStaticValues(s0: DagState, C: seq<string>, node: string, st: DagState, results: seq<(string, Value)>, p: Probes)
    requires OutputsOnly(s0, st, node, C) && HasOutputs(s0, node, C) && Confined(p.save, s0, node, C)
    requires Stamps(p, s0, node, C) && UsageFixed(p.usage, s0, node, C)
    requires (forall o :: o in Names(results) ==> o in C && p.usage(s0, node, o).Ok?) && Distinct(Names(results))
    ensures forall k :: 0 <= k < |results| ==>
              p.usage(s0, node, results[k].0).Ok? &&
              RecordIs(SaveAll(st, node, Static, results, p).st, node, results[k].0,
                       StaticRecord(results[k].1, p.usage(s0, node, results[k].0).value, s0.frame))
    decreases |results|
  {
    if results != [] {
      var o := results[0].0;
      assert o in Names(results);
      assert Names(results) == [o] + Names(results[1..]);
      SaveStaticOne(s0, C, node, st, o, results[0].1, p);
      var s := p.save(st, node, o, results[0].1);
      assert p.usage(st, node, o) == p.usage(s0, node, o);
      assert RecordIs(s.st, node, o, StaticRecord(results[0].1, p.usage(s0, node, o).value, s0.frame));
      assert forall x :: x in Names(results[1..]) ==> x in Names(results) && x != o;
      SaveStaticValues(s0, C, node, s.st, results[1..], p);
      SaveAllFrame(s0, C, s.st, node, Static, results[1..], p);
      var fin := SaveAll(s.st, node, Static, results[1..], p);
      RecordKept(s.st, fin.st, node, Names(results[1..]), o, StaticRecord(results[0].1, p.usage(s0, node, o).value, s0.frame));
      forall k | 0 < k < |results|
        ensures p.usage(s0, node, results[k].0).Ok? &&
                RecordIs(fin.st, node, results[k].0, StaticRecord(results[k].1, p.usage(s0, node, results[k].0).value, s0.frame))
      {
        assert results[k] == results[1..][k - 1];
      }
    }
  }

  /** What the static run assumes of the iteration and the DAG's operations. */
  ghost predicate StaticFit(s0: DagState, node: string, outs: seq<string>, step: Step, p: Probes, job: (DagState, string) -> Job) {
    && HasOutputs(s0, node, outs) && OutputsOnly(s0, s0, node, outs) && Distinct(outs)
    && Confined(p.save, s0, node, outs) && Stamps(p, s0, node, outs) && UsageFixed(p.usage, s0, node, outs)
    && StepConfined(step, s0, node, outs) && StaticStep(step, p, s0, node, outs) && StepQueues(step) && StepAppends(step)
    && StaticQueue(step, p, s0, node, outs, job) && (forall s: DagState, o: string :: job(s, o).outport == o)
  }

  /** The iteration of the k-th outport behind an open gate, within a static loop that
      throws nothing: the loop goes on from what it left, that record is reset, and the
      jobs queued before it are for earlier outports. */
  lemma StaticIteration(s0: DagState, node: string, outs: seq<string>, step: Step, p: Probes, job: (DagState, string) -> Job, k: int)
    requires StaticFit(s0, node, outs, step, p, job) && ScanExecute(s0, outs, [], step).err.None?
    requires 0 <= k < |outs| && p.gate(s0, node, outs[k]) == Ok(true)
    ensures var pre := ScanExecute(s0, outs[..k], [], step);
            var r := step(pre.st, pre.jobs, outs[k]);
            && p.usage(s0, node, outs[k]).Ok? && r.err.None?
            && ScanExecute(s0, outs, [], step) == ScanExecute(r.st, outs[k + 1..], r.jobs, step)
            && OutputsOnly(s0, r.st, node, outs)
            && RecordIs(r.st, node, outs[k], StaticRecord(Undefined, p.usage(s0, node, outs[k]).value, s0.frame))
            && r.jobs == pre.jobs + (if p.usage(s0, node, outs[k]) == Ok(Static) then [job(pre.st, outs[k])] else [])
            && forall j :: j in pre.jobs ==> j.outport in outs[..k]
  {
    var o := outs[k];
    ScanAt(s0, outs, [], step, k);
    var pre := ScanExecute(s0, outs[..k], [], step);
    assert forall x :: x in outs[..k] ==> x in outs;
    ScanFrame(s0, outs, node, s0, outs[..k], [], step);
    ScanQueues(s0, outs[..k], [], step);
    OutputsOnlyWeaken(s0, pre.st, node, outs[..k], outs);
    assert o !in outs[..k];
    assert o in outs;
    assert RecordIs(pre.st, node, o, RecordOf(s0, node, o));
    var r := step(pre.st, pre.jobs, o);
    assert OutputsOnly(pre.st, r.st, node, [o]);
    OutputsOnlyExtend(s0, pre.st, r.st, node, outs, [o]);
  }

  /** The k-th outport, behind an open gate and of dynamic usage, ends with the record the
      reset left: `undefined`, stamped with the frame. */
  lemma StaticValueReset(s0: DagState, node: string, outs: seq<string>, step: Step, p: Probes, job: (DagState, string) -> Job, k: int)
    requires StaticFit(s0, node, outs, step, p, job) && ScanExecute(s0, outs, [], step).err.None?
    requires Resolve(ScanExecute(s0, outs, [], step).st, node, ScanExecute(s0, outs, [], step).jobs, p).Ok?
    requires 0 <= k < |outs| && p.gate(s0, node, outs[k]) == Ok(true) && p.usage(s0, node, outs[k]) == Ok(Dynamic)
    ensures var scan := ScanExecute(s0, outs, [], step);
            RecordIs(SaveAll(scan.st, node, Static, Resolve(scan.st, node, scan.jobs, p).value, p).st, node, outs[k],
                     StaticRecord(Undefined, Dynamic, s0.frame))
  {
    var o := outs[k];
    StaticIteration(s0, node, outs, step, p, job, k);
    var pre := ScanExecute(s0, outs[..k], [], step);
    var r := step(pre.st, pre.jobs, o);
    var scan := ScanExecute(s0, outs, [], step);
    assert forall x :: x in outs[k + 1..] ==> x in outs && x != o;
    ScanFrame(s0, outs, node, r.st, outs[k + 1..], r.jobs, step);
    RecordKept(r.st, scan.st, node, outs[k + 1..], o, StaticRecord(Undefined, Dynamic, s0.frame));
    ScanQueues(r.st, outs[k + 1..], r.jobs, step);
    assert o !in outs[..k];
    var results := Resolve(scan.st, node, scan.jobs, p).value;
    ResolvedNames(scan.st, node, scan.jobs, p);
    assert o !in Names(results);
    ScanFrame(s0, outs, node, s0, outs, [], step);
    ScanQueues(s0, outs, [], step);
    SaveAllFrame(s0, outs, scan.st, node, Static, results, p);
    RecordKept(scan.st, SaveAll(scan.st, node, Static, results, p).st, node, Names(results), o, StaticRecord(Undefined, Dynamic, s0.frame));
  }

  /** The k-th outport, behind an open gate and of static usage, ends holding the value of
      the job its iteration queued, stamped with the frame. */
  lemma StaticValueSaved(s0: DagState, node: string, outs: seq<string>, step: Step, p: Probes, job: (DagState, string) -> Job, k: int)
    requires StaticFit(s0, node, outs, step, p, job) && ScanExecute(s0, outs, [], step).err.None?
    requires Resolve(ScanExecute(s0, outs, [], step).st, node, ScanExecute(s0, outs, [], step).jobs, p).Ok?
    requires 0 <= k < |outs| && p.gate(s0, node, outs[k]) == Ok(true) && p.usage(s0, node, outs[k]) == Ok(Static)
    ensures var scan := ScanExecute(s0, outs, [], step);
            var pre := ScanExecute(s0, outs[..k], [], step);
            var v := ResolveJob(scan.st, node, job(pre.st, outs[k]), p);
            && v.Ok?
            && RecordIs(SaveAll(scan.st, node, Static, Resolve(scan.st, node, scan.jobs, p).value, p).st, node, outs[k],
                        StaticRecord(v.value.1, Static, s0.frame))
  {
    var o := outs[k];
    StaticIteration(s0, node, outs, step, p, job, k);
    var pre := ScanExecute(s0, outs[..k], [], step);
    var r := step(pre.st, pre.jobs, o);
    var scan := ScanExecute(s0, outs, [], step);
    var J := job(pre.st, o);
    ScanExtends(r.st, outs[k + 1..], r.jobs, step);
    var i0 := |pre.jobs|;
    assert scan.jobs[..|r.jobs|] == r.jobs;
    assert scan.jobs[i0] == r.jobs[i0] == J;
    var results := Resolve(scan.st, node, scan.jobs, p).value;
    assert results[i0] == ResolveJob(scan.st, node, J, p).value && results[i0].0 == o;
    ScanDistinct(s0, outs, [], step);
    assert Names(results) == JobNames(scan.jobs);
    ScanFrame(s0, outs, node, s0, outs, [], step);
    ScanStaticJobs(s0, outs, node, s0, outs, [], step, p);
    ResolvedNames(scan.st, node, scan.jobs, p);
    SaveStaticValues(s0, outs, node, scan.st, results, p);
  }

  /** The DAG's own iteration and operations fit the static run, from a set-up node with
      distinct outports that does not feed itself. */
  lemma DagStaticFit(s0: DagState, node: string, op: Routine)
    requires SetUp(s0, node) && NotFedBy(s0.graph, {node}, node) && Distinct(OutportNames(NodeComponent(s0, node).value.outports))
    ensures var info := NodeComponent(s0, node).value;
            StaticFit(s0, node, OutportNames(info.outports), StepOf(node, info, ComponentOf(s0, node), Static, false, op, DagProbes()),
                      DagProbes(), StaticJobOf(node, info, ComponentOf(s0, node), op, DagProbes()))
  {
    var info := NodeComponent(s0, node).value;
    var outs := OutportNames(info.outports);
    var p := DagProbes();
    DagProbesFit(s0, node);
    ExecStepConfined(s0, outs, node, info, ComponentOf(s0, node), Static, false, op, p);
    ExecStepAppends(node, info, ComponentOf(s0, node), Static, false, op, p);
    StaticStepHolds(s0, outs, node, info, ComponentOf(s0, node), op, p);
    StaticQueueHolds(s0, outs, node, info, ComponentOf(s0, node), op, p);
  }

  /** The state the static loop of `execute` without `force` has reached when it comes to
      the k-th outport of the node. */
  function StaticReached(st: DagState, node: string, op: Routine, k: int): DagState
    requires NodeComponent(st, node).Ok? && 0 <= k <= |OutportNames(NodeComponent(st, node).value.outports)|
  {
    var s0 := Setup(st, node).value;
    assert NodeComponent(s0, node) == NodeComponent(st, node);
    var info := NodeComponent(s0, node).value;
    ScanExecute(s0, OutportNames(info.outports)[..k], [], StepOf(node, info, ComponentOf(s0, node), Static, false, op, DagProbes())).st
  }

  /** What the static run from the set-up node `s0` assumes, stated of the DAG's own loop. */
  ghost predicate DagStaticRun(s0: DagState, node: string, op: Routine, k: int) {
    && SetUp(s0, node) && NotFedBy(s0.graph, {node}, node) && Distinct(OutportNames(NodeComponent(s0, node).value.outports))
    && 0 <= k < |OutportNames(NodeComponent(s0, node).value.outports)|
    && var info := NodeComponent(s0, node).value;
       var outs := OutportNames(info.outports);
       var scan := ScanExecute(s0, outs, [], StepOf(node, info, ComponentOf(s0, node), Static, false, op, DagProbes()));
       scan.err.None? && Resolve(scan.st, node, scan.jobs, DagProbes()).Ok? && StaticGate(s0, node, outs[k]) == Ok(true)
  }

  /** The DAG's static run from `s0` leaves the gated outport's usage readable and changes
      only the node's output records. */
  lemma StaticRunFrame(s0: DagState, node: string, op: Routine, k: int)
    requires DagStaticRun(s0, node, op, k)
    ensures var info := NodeComponent(s0, node).value;
            var outs := OutportNames(info.outports);
            var scan := ScanExecute(s0, outs, [], StepOf(node, info, ComponentOf(s0, node), Static, false, op, DagProbes()));
            EffectiveOutportUsage(s0, node, outs[k]).Ok? && OutputsOnly(s0, scan.st, node, outs)
  {
    var info := NodeComponent(s0, node).value;
    var outs := OutportNames(info.outports);
    var step := StepOf(node, info, ComponentOf(s0, node), Static, false, op, DagProbes());
    DagStaticFit(s0, node, op);
    StaticIteration(s0, node, outs, step, DagProbes(), StaticJobOf(node, info, ComponentOf(s0, node), op, DagProbes()), k);
    ScanFrame(s0, outs, node, s0, outs, [], step);
  }

  /** The usage of the gated outport of the DAG's static run from `s0` is readable. */
  lemma StaticRunUsage(s0: DagState, node: string, op: Routine, k: int)
    requires DagStaticRun(s0, node, op, k)
    ensures EffectiveOutportUsage(s0, node, OutportNames(NodeComponent(s0, node).value.outports)[k]).Ok?
  {
    StaticRunFrame(s0, node, op, k);
  }

  /** The DAG's static run from `s0` leaves a gated outport of dynamic usage reset. */
  lemma StaticRunReset(s0: DagState, node: string, op: Routine, k: int)
    requires DagStaticRun(s0, node, op, k)
    requires EffectiveOutportUsage(s0, node, OutportNames(NodeComponent(s0, node).value.outports)[k]) == Ok(Dynamic)
    ensures var info := NodeComponent(s0, node).value;
            var outs := OutportNames(info.outports);
            var scan := ScanExecute(s0, outs, [], StepOf(node, info, ComponentOf(s0, node), Static, false, op, DagProbes()));
            var fin := SaveAll(scan.st, node, Static, Resolve(scan.st, node, scan.jobs, DagProbes()).value, DagProbes());
            RecordIs(fin.st, node, outs[k], StaticRecord(Undefined, Dynamic, s0.frame))
  {
    var info := NodeComponent(s0, node).value;
    var p := DagProbes();
    DagStaticFit(s0, node, op);
    StaticValueReset(s0, node, OutportNames(info.outports), StepOf(node, info, ComponentOf(s0, node), Static, false, op, p), p,
                     StaticJobOf(node, info, ComponentOf(s0, node), op, p), k);
  }

  /** The DAG's static run from `s0` leaves a gated outport of static usage holding the
      value of its job, queued from the state the loop had reached. */
  lemma StaticRunSaved(s0: DagState, node: string, op: Routine, k: int)
    requires DagStaticRun(s0, node, op, k)
    requires EffectiveOutportUsage(s0, node, OutportNames(NodeComponent(s0, node).value.outports)[k]) == Ok(Static)
    ensures var info := NodeComponent(s0, node).value;
            var outs := OutportNames(info.outports);
            var step := StepOf(node, info, ComponentOf(s0, node), Static, false, op, DagProbes());
            var scan := ScanExecute(s0, outs, [], step);
            var fin := SaveAll(scan.st, node, Static, Resolve(scan.st, node, scan.jobs, DagProbes()).value, DagProbes());
            var pre := ScanExecute(s0, outs[..k], [], step);
            var v := ResolveJob(scan.st, node, StaticJob(pre.st, node, info, ComponentOf(s0, node), outs[k], op, DagProbes()), DagProbes());
            v.Ok? && RecordIs(fin.st, node, outs[k], StaticRecord(v.value.1, Static, s0.frame))
  {
    var info := NodeComponent(s0, node).value;
    var p := DagProbes();
    DagStaticFit(s0, node, op);
    StaticValueSaved(s0, node, OutportNames(info.outports), StepOf(node, info, ComponentOf(s0, node), Static, false, op, p), p,
                     StaticJobOf(node, info, ComponentOf(s0, node), op, p), k);
  }

  /** The value a static job resolves to, read back: a pass-through's is the cached value
      of its same-named inport, a routine's is what it returned. */
  lemma StaticJobRead(st: DagState, s0: DagState, b: DagState, node: string, info: ComponentInfo, component: string, o: string,
                      op: Routine, s: DagState, C: seq<string>)
    requires NodeComponent(st, node).Ok? && s0 == Setup(st, node).value && OutputsOnly(s0, b, node, C)
    requires ResolveJob(b, node, StaticJob(s, node, info, component, o, op, DagProbes()), DagProbes()).Ok?
    ensures var v := ResolveJob(b, node, StaticJob(s, node, info, component, o, op, DagProbes()), DagProbes()).value.1;
            var run := op(component, o, Ctx(StaticSave(s, node, o, Undefined).st, node, o, Static));
            && (ComponentOutportInfo(info, o).Ok? && Passes(ComponentOutportInfo(info, o).value) ==>
                  GetCachedInport(st, node, o).Ok? && v == GetCachedInport(st, node, o).value.value)
            && (!(ComponentOutportInfo(info, o).Ok? && Passes(ComponentOutportInfo(info, o).value)) ==>
                  run.Returned? && v == run.value)
  {
    if ComponentOutportInfo(info, o).Ok? && Passes(ComponentOutportInfo(info, o).value) {
      OutputsOnlySetUp(s0, b, node, C);
      assert GetCachedInport(b, node, o) == GetCachedInport(s0, node, o);
      SetupInports(st, node);
    }
  }

  /** The static loop from the set-up node, followed by its saves, leaves the k-th outport
      behind an open gate as `ExecuteStaticValues` states of `execute`. */
  lemma StaticValuesFrom(st: DagState, node: string, op: Routine, k: int, t: DagState)
    requires NodeComponent(st, node).Ok? && Setup(st, node).Ok?
    requires NotFedBy(st.graph, {node}, node) && DistinctOutports(st, node)
    requires 0 <= k < |OutportNames(NodeComponent(st, node).value.outports)|
    requires var s0 := Setup(st, node).value;
             var info := NodeComponent(s0, node).value;
             var scan := ScanExecute(s0, OutportNames(info.outports), [], StepOf(node, info, ComponentOf(s0, node), Static, false, op, DagProbes()));
             && scan.err.None? && Resolve(scan.st, node, scan.jobs, DagProbes()).Ok?
             && t == SaveAll(scan.st, node, Static, Resolve(scan.st, node, scan.jobs, DagProbes()).value, DagProbes()).st
    ensures
            var s0 := Setup(st, node).value;
            var info := NodeComponent(st, node).value;
            var o := OutportNames(info.outports)[k];
            var reset := StaticSave(StaticReached(st, node, op, k), node, o, Undefined).st;
            var run := op(ComponentOf(st, node), o, Ctx(reset, node, o, Static));
            NeedsReexecution(s0, node, o, Static) == Ok(true) ==>
              && EffectiveOutportUsage(s0, node, o).Ok?
              && (EffectiveOutportUsage(s0, node, o) == Ok(Dynamic) ==>
                    RecordIs(t, node, o, StaticRecord(Undefined, Dynamic, st.frame)))
              && (EffectiveOutportUsage(s0, node, o) == Ok(Static) && Passes(ComponentOutportInfo(info, o).value) ==>
                    GetCachedInport(st, node, o).Ok? &&
                    RecordIs(t, node, o, StaticRecord(GetCachedInport(st, node, o).value.value, Static, st.frame)))
              && (EffectiveOutportUsage(s0, node, o) == Ok(Static) && !Passes(ComponentOutportInfo(info, o).value) ==>
                    run.Returned? && RecordIs(t, node, o, StaticRecord(run.value, Static, st.frame)))
  {
    var s0 := Setup(st, node).value;
    var o := OutportNames(NodeComponent(st, node).value.outports)[k];
    if NeedsReexecution(s0, node, o, Static) == Ok(true) {
      StaticRunOpen(st, node, op, k, t);
      match EffectiveOutportUsage(s0, node, o).value {
        case Dynamic => StaticValuesReset(st, node, op, k, t);
        case Static => StaticValuesSaved(st, node, op, k, t);
      }
    }
  }

  /** Behind an open gate, the static loop of `StaticValuesFrom` is the DAG's static run
      from the set-up node, and the outport's usage is readable there. */
  lemma StaticRunOpen(st: DagState, node: string, op: Routine, k: int, t: DagState)
    requires NodeComponent(st, node).Ok? && Setup(st, node).Ok?
    requires NotFedBy(st.graph, {node}, node) && DistinctOutports(st, node)
    requires 0 <= k < |OutportNames(NodeComponent(st, node).value.outports)|
    requires var s0 := Setup(st, node).value;
             var info := NodeComponent(s0, node).value;
             var scan := ScanExecute(s0, OutportNames(info.outports), [], StepOf(node, info, ComponentOf(s0, node), Static, false, op, DagProbes()));
             && scan.err.None? && Resolve(scan.st, node, scan.jobs, DagProbes()).Ok?
    requires NeedsReexecution(Setup(st, node).value, node, OutportNames(NodeComponent(st, node).value.outports)[k], Static) == Ok(true)
    ensures DagStaticRun(Setup(st, node).value, node, op, k)
    ensures EffectiveOutportUsage(Setup(st, node).value, node, OutportNames(NodeComponent(st, node).value.outports)[k]).Ok?
  {
    var s0 := Setup(st, node).value;
    assert NodeComponent(s0, node) == NodeComponent(st, node);
    assert DagStaticRun(s0, node, op, k);
    StaticRunUsage(s0, node, op, k);
  }

  /** The case of `StaticValuesFrom` where the gated outport's usage is dynamic. */
  lemma StaticValuesReset(st: DagState, node: string, op: Routine, k: int, t: DagState)
    requires NodeComponent(st, node).Ok? && Setup(st, node).Ok?
    requires 0 <= k < |OutportNames(NodeComponent(st, node).value.outports)|
    requires DagStaticRun(Setup(st, node).value, node, op, k)
    requires var s0 := Setup(st, node).value;
             var info := NodeComponent(s0, node).value;
             var scan := ScanExecute(s0, OutportNames(info.outports), [], StepOf(node, info, ComponentOf(s0, node), Static, false, op, DagProbes()));
             && EffectiveOutportUsage(s0, node, OutportNames(info.outports)[k]) == Ok(Dynamic)
             && t == SaveAll(scan.st, node, Static, Resolve(scan.st, node, scan.jobs, DagProbes()).value, DagProbes()).st
    ensures RecordIs(t, node, OutportNames(NodeComponent(st, node).value.outports)[k], StaticRecord(Undefined, Dynamic, st.frame))
  {
    var s0 := Setup(st, node).value;
    assert NodeComponent(s0, node) == NodeComponent(st, node);
    StaticRunReset(s0, node, op, k);
  }

  /** The case of `StaticValuesFrom` where the gated outport's usage is static. */
  lemma StaticValuesSaved(st: DagState, node: string, op: Routine, k: int, t: DagState)
    requires NodeComponent(st, node).Ok? && Setup(st, node).Ok?
    requires 0 <= k < |OutportNames(NodeComponent(st, node).value.outports)|
    requires DagStaticRun(Setup(st, node).value, node, op, k)
    requires var s0 := Setup(st, node).value;
             var info := NodeComponent(s0, node).value;
             var scan := ScanExecute(s0, OutportNames(info.outports), [], StepOf(node, info, ComponentOf(s0, node), Static, false, op, DagProbes()));
             && EffectiveOutportUsage(s0, node, OutportNames(info.outports)[k]) == Ok(Static)
             && t == SaveAll(scan.st, node, Static, Resolve(scan.st, node, scan.jobs, DagProbes()).value, DagProbes()).st
    ensures var s0 := Setup(st, node).value;
            var info := NodeComponent(st, node).value;
            var o := OutportNames(info.outports)[k];
            var reset := StaticSave(StaticReached(st, node, op, k), node, o, Undefined).st;
            var run := op(ComponentOf(st, node), o, Ctx(reset, node, o, Static));
            && (Passes(ComponentOutportInfo(info, o).value) ==>
                  GetCachedInport(st, node, o).Ok? &&
                  RecordIs(t, node, o, StaticRecord(GetCachedInport(st, node, o).value.value, Static, st.frame)))
            && (!Passes(ComponentOutportInfo(info, o).value) ==>
                  run.Returned? && RecordIs(t, node, o, StaticRecord(run.value, Static, st.frame)))
  {
    var s0 := Setup(st, node).value;
    var info := NodeComponent(s0, node).value;
    assert NodeComponent(s0, node) == NodeComponent(st, node);
    assert ComponentOf(s0, node) == ComponentOf(st, node);
    var outs := OutportNames(info.outports);
    var o := outs[k];
    StaticRunFrame(s0, node, op, k);
    StaticRunSaved(s0, node, op, k);
    var step := StepOf(node, info, ComponentOf(s0, node), Static, false, op, DagProbes());
    var scan := ScanExecute(s0, outs, [], step);
    var pre := ScanExecute(s0, outs[..k], [], step);
    assert pre.st == StaticReached(st, node, op, k);
    StaticJobRead(st, s0, scan.st, node, info, ComponentOf(s0, node), o, op, pre.st, outs);
  }

  /** Without `force`, after a static `execute` that throws nothing, the k-th outport whose
      gate was open on the set-up node holds, stamped with the frame and its usage: when
      its usage is dynamic, the `undefined` of the reset; when static and a pass-through,
      the cached value of its same-named inport; otherwise the value its routine returned
      on the context of the state the loop had reached, once the reset was saved. */
  lemma ExecuteStaticValues(st: DagState, node: string, op: Routine, k: int, r: Outcome)
    requires r == Execute(st, node, "static", false, op) && r.err.None?
    requires NotFedBy(st.graph, {node}, node) && DistinctOutports(st, node)
    requires 0 <= k < |OutportNames(NodeComponent(st, node).value.outports)|
    ensures
            var s0 := Setup(st, node).value;
            var info := NodeComponent(st, node).value;
            var o := OutportNames(info.outports)[k];
            var reset := StaticSave(StaticReached(st, node, op, k), node, o, Undefined).st;
            var run := op(ComponentOf(st, node), o, Ctx(reset, node, o, Static));
            NeedsReexecution(s0, node, o, Static) == Ok(true) ==>
              && EffectiveOutportUsage(s0, node, o).Ok?
              && (EffectiveOutportUsage(s0, node, o) == Ok(Dynamic) ==>
                    RecordIs(r.st, node, o, StaticRecord(Undefined, Dynamic, st.frame)))
              && (EffectiveOutportUsage(s0, node, o) == Ok(Static) && Passes(ComponentOutportInfo(info, o).value) ==>
                    GetCachedInport(st, node, o).Ok? &&
                    RecordIs(r.st, node, o, StaticRecord(GetCachedInport(st, node, o).value.value, Static, st.frame)))
              && (EffectiveOutportUsage(s0, node, o) == Ok(Static) && !Passes(ComponentOutportInfo(info, o).value) ==>
                    run.Returned? && RecordIs(r.st, node, o, StaticRecord(run.value, Static, st.frame)))
  {
    ExecuteSteps(st, node, "static", false, op, r);
    StaticValuesFrom(st, node, op, k, r.st);
  }

  // ---------------------------------------------------------------- execute at the dynamic runtime

  /** The job the dynamic loop queues for an outport whose usage is dynamic: a
      pass-through, or what the routine did on the set-up state. */
  function Queued(s0: DagState, node: string, info: ComponentInfo, component: string, o: string, op: Routine): Job {
    if ComponentOutportInfo(info, o).Ok? && Passes(ComponentOutportInfo(info, o).value) then Passed(o)
    else
      match op(component, o, Ctx(s0, node, o, Dynamic))
      case Returned(v) => Ran(o, v)
      case Threw(e) => Failed(o, e)
      case Rejected(e) => Failed(o, e)
  }

  function QueuedOf(s0: DagState, node: string, info: ComponentInfo, component: string, op: Routine): string -> Job {
    (o: string) => Queued(s0, node, info, component, o, op)
  }

  /** The outports of `outs` whose usage at `s0` is dynamic. */
  function DynamicOuts(p: Probes, s0: DagState, node: string, outs: seq<string>): (r: seq<string>)
    ensures forall o :: o in r <==> o in outs && p.usage(s0, node, o) == Ok(Dynamic)
    ensures Distinct(outs) ==> Distinct(r)
  {
    if outs == [] then []
    else
      var rest := DynamicOuts(p, s0, node, outs[1..]);
      assert forall o :: o in outs <==> o == outs[0] || o in outs[1..];
      if p.usage(s0, node, outs[0]) == Ok(Dynamic) then [outs[0]] + rest else rest
  }

  /** The jobs of a sequence of outports. */
  function JobsFor(outs: seq<string>, job: string -> Job): (r: seq<Job>)
    ensures |r| == |outs| && forall k :: 0 <= k < |outs| ==> r[k] == job(outs[k])
  {
    if outs == [] then [] else [job(outs[0])] + JobsFor(outs[1..], job)
  }

  /** Whether the routine of an outport, if it has one, did not throw on the set-up state. */
  function NoThrow(s0: DagState, node: string, info: ComponentInfo, component: string, op: Routine): string -> bool {
    (o: string) => (ComponentOutportInfo(info, o).Ok? && Passes(ComponentOutportInfo(info, o).value)) ||
                   !op(component, o, Ctx(s0, node, o, Dynamic)).Threw?
  }

  /** At the dynamic runtime without `force`, an iteration from the start state that
      throws nothing leaves the state alone, has resolved the outport's usage, and queues
      `job` of the outport exactly when that usage is dynamic, after `fine` held of it. */
  ghost predicate DynamicIteration(step: Step, p: Probes, s0: DagState, node: string, C: seq<string>,
                                   job: string -> Job, fine: string -> bool) {
    forall jobs: seq<Job>, o: string ::
      o in C && step(s0, jobs, o).err.None? ==>
        && step(s0, jobs, o).st == s0
        && p.usage(s0, node, o).Ok?
        && (p.usage(s0, node, o) == Ok(Dynamic) ==> fine(o))
        && step(s0, jobs, o).jobs == jobs + (if p.usage(s0, node, o) == Ok(Dynamic) then [job(o)] else [])
  }

  lemma DynamicIterationHolds(s0: DagState, C: seq<string>, node: string, info: ComponentInfo, component: string, op: Routine, p: Probes)
    ensures DynamicIteration(StepOf(node, info, component, Dynamic, false, op, p), p, s0, node, C,
                             QueuedOf(s0, node, info, component, op), NoThrow(s0, node, info, component, op))
  {
    var step := StepOf(node, info, component, Dynamic, false, op, p);
    forall jobs: seq<Job>, o: string | o in C && step(s0, jobs, o).err.None?
      ensures && step(s0, jobs, o).st == s0
              && p.usage(s0, node, o).Ok?
              && (p.usage(s0, node, o) == Ok(Dynamic) ==> NoThrow(s0, node, info, component, op)(o))
              && step(s0, jobs, o).jobs == jobs + (if p.usage(s0, node, o) == Ok(Dynamic) then [QueuedOf(s0, node, info, component, op)(o)] else [])
    {
      var r := ExecStep(s0, node, info, component, o, Dynamic, false, jobs, op, p);
      assert r.st == s0;
    }
  }

  lemma AssociativeJobs(a: seq<Job>, b: seq<Job>, c: seq<Job>)
    ensures a + (b + c) == (a + b) + c
  {
  }

  /** At the dynamic runtime without `force`, a loop that throws nothing changes nothing,
      and queues the jobs of the outports whose usage is dynamic, in outport order. */
  lemma {:induction false} ScanDynamic(s0: DagState, C: seq<string>, node: string, outs: seq<string>, jobs: seq<Job>,
                                       step: Step, p: Probes, job: string -> Job, fine: string -> bool)
    requires (forall o :: o in outs ==> o in C) && DynamicIteration(step, p, s0, node, C, job, fine)
    ensures var scan := ScanExecute(s0, outs, jobs, step);
            scan.err.None? ==>
              && scan.st == s0
              && scan.jobs == jobs + JobsFor(DynamicOuts(p, s0, node, outs), job)
              && forall o :: o in outs ==> p.usage(s0, node, o).Ok? && (p.usage(s0, node, o) == Ok(Dynamic) ==> fine(o))
    decreases |outs|
  {
    if outs == [] {
      assert jobs + [] == jobs;
    } else {
      var o := outs[0];
      var r := step(s0, jobs, o);
      if r.err.None? {
        ScanDynamic(s0, C, node, outs[1..], r.jobs, step, p, job, fine);
        var head := if p.usage(s0, node, o) == Ok(Dynamic) then [job(o)] else [];
        var rest := JobsFor(DynamicOuts(p, s0, node, outs[1..]), job);
        assert JobsFor(DynamicOuts(p, s0, node, outs), job) == head + rest;
        AssociativeJobs(jobs, head, rest);
      }
    }
  }

  /** The record of `o` holds `v`, with both dynamic stamps set to the start frame and the
      rest as it was at the start. */
  ghost predicate DynamicWritten(s0: DagState, b: DagState, node: string, o: string, v: Value) {
    HasOutputs(s0, node, [o]) &&
    RecordIs(b, node, o, RecordOf(s0, node, o).(value := v, valueChanged := Some(s0.frame), checked := Some(s0.frame)))
  }

  /** A change outside `o`'s record keeps what was written there. */
  lemma DynamicWrittenKept(s0: DagState, a: DagState, b: DagState, node: string, D: seq<string>, o: string, v: Value)
    requires OutputsOnly(a, b, node, D) && o !in D && DynamicWritten(s0, a, node, o, v)
    ensures DynamicWritten(s0, b, node, o, v)
  {
  }

  /** One dynamic save after the loop, of an outport still as it was at the start. */
  lemma SaveDynamicOne(s0: DagState, C: seq<string>, node: string, st: DagState, o: string, v: Value, p: Probes)
    requires OutputsOnly(s0, st, node, C) && HasOutputs(s0, node, C)
    requires Confined(p.dsave, s0, node, C) && DynamicStamps(p.dsave, s0, node, C)
    requires o in C && RecordOf(st, node, o) == RecordOf(s0, node, o)
    ensures p.dsave(st, node, o, v).err.None? && DynamicWritten(s0, p.dsave(st, node, o, v).st, node, o, v)
    ensures OutputsOnly(st, p.dsave(st, node, o, v).st, node, [o]) && OutputsOnly(s0, p.dsave(st, node, o, v).st, node, C)
  {
    var s := p.dsave(st, node, o, v);
    assert OutputsOnly(st, s.st, node, [o]);
    OutputsOnlyExtend(s0, st, s.st, node, C, [o]);
  }

  /** The dynamic saves after the loop, of distinct outports still as they were at the
      start, succeed and write each value stamped with the frame. */
  lemma {:induction false} SaveDynamic(s0: DagState, C: seq<string>, node: string, st: DagState, results: seq<(string, Value)>, p: Probes)
    requires OutputsOnly(s0, st, node, C) && HasOutputs(s0, node, C)
    requires Confined(p.dsave, s0, node, C) && DynamicStamps(p.dsave, s0, node, C)
    requires (forall o :: o in Names(results) ==> o in C) && Distinct(Names(results))
    requires forall o :: o in Names(results) ==> RecordOf(st, node, o) == RecordOf(s0, node, o)
    ensures SaveAll(st, node, Dynamic, results, p).err.None?
    ensures forall k :: 0 <= k < |results| ==> DynamicWritten(s0, SaveAll(st, node, Dynamic, results, p).st, node, results[k].0, results[k].1)
    decreases |results|
  {
    if results != [] {
      var o := results[0].0;
      assert o in Names(results);
      assert Names(results) == [o] + Names(results[1..]);
      SaveDynamicOne(s0, C, node, st, o, results[0].1, p);
      var s := p.dsave(st, node, o, results[0].1);
      assert forall x :: x in Names(results[1..]) ==> x in Names(results) && x != o;
      SaveDynamic(s0, C, node, s.st, results[1..], p);
      SaveAllFrame(s0, C, s.st, node, Dynamic, results[1..], p);
      var fin := SaveAll(s.st, node, Dynamic, results[1..], p);
      DynamicWrittenKept(s0, s.st, fin.st, node, Names(results[1..]), o, results[0].1);
      forall k | 0 < k < |results|
        ensures DynamicWritten(s0, fin.st, node, results[k].0, results[k].1)
      {
        assert results[k] == results[1..][k - 1];
      }
    }
  }

  /** What the dynamic run leaves for one outport, given its job and whether its routine
      returned: its usage resolved; a static one keeps the record, a dynamic one holds the
      job's value. */
  ghost predicate DynamicOutcome(p: Probes, s0: DagState, b: DagState, node: string, o: string, j: Job, fine: bool) {
    && p.usage(s0, node, o).Ok?
    && (p.usage(s0, node, o) == Ok(Static) ==> HasOutputs(s0, node, [o]) && RecordIs(b, node, o, RecordOf(s0, node, o)))
    && (p.usage(s0, node, o) == Ok(Dynamic) ==>
          fine && ResolveJob(s0, node, j, p).Ok? && DynamicWritten(s0, b, node, o, ResolveJob(s0, node, j, p).value.1))
  }

  /** What the dynamic run assumes of the iteration and the DAG's operations. */
  ghost predicate DynamicFit(s0: DagState, node: string, outs: seq<string>, step: Step, p: Probes, job: string -> Job, fine: string -> bool) {
    && HasOutputs(s0, node, outs) && OutputsOnly(s0, s0, node, outs) && Distinct(outs)
    && Confined(p.dsave, s0, node, outs) && DynamicStamps(p.dsave, s0, node, outs)
    && DynamicIteration(step, p, s0, node, outs, job, fine) && (forall o :: job(o).outport == o)
  }

  /** The DAG's own iteration and operations fit the dynamic run, from a set-up node with
      distinct outports. */
  lemma DagDynamicFit(s0: DagState, node: string, op: Routine)
    requires SetUp(s0, node) && Distinct(OutportNames(NodeComponent(s0, node).value.outports))
    ensures var info := NodeComponent(s0, node).value;
            var component := ComponentOf(s0, node);
            DynamicFit(s0, node, OutportNames(info.outports), StepOf(node, info, component, Dynamic, false, op, DagProbes()),
                       DagProbes(), QueuedOf(s0, node, info, component, op), NoThrow(s0, node, info, component, op))
  {
    var info := NodeComponent(s0, node).value;
    var outs := OutportNames(info.outports);
    var component := ComponentOf(s0, node);
    SetUpOutputs(s0, node);
    assert OutputsOnly(s0, s0, node, outs);
    DynamicSaveConfined(s0, node, outs);
    DynamicSaveStamps(s0, node, outs);
    DynamicIterationHolds(s0, outs, node, info, component, op, DagProbes());
    var job := QueuedOf(s0, node, info, component, op);
    assert forall x :: job(x).outport == x;
  }

  /** The dynamic loop and the saves after it, composed. */
  lemma DynamicRun(s0: DagState, node: string, outs: seq<string>, step: Step, p: Probes, job: string -> Job, fine: string -> bool)
    requires DynamicFit(s0, node, outs, step, p, job, fine)
    requires ScanExecute(s0, outs, [], step).err.None?
    requires Resolve(ScanExecute(s0, outs, [], step).st, node, ScanExecute(s0, outs, [], step).jobs, p).Ok?
    ensures var scan := ScanExecute(s0, outs, [], step);
            var fin := SaveAll(scan.st, node, Dynamic, Resolve(scan.st, node, scan.jobs, p).value, p);
            && fin.err.None? && OutputsOnly(s0, fin.st, node, outs)
            && forall o :: o in outs ==> DynamicOutcome(p, s0, fin.st, node, o, job(o), fine(o))
  {
    var scan := ScanExecute(s0, outs, [], step);
    ScanDynamic(s0, outs, node, outs, [], step, p, job, fine);
    var dyn := DynamicOuts(p, s0, node, outs);
    assert scan.st == s0 && scan.jobs == JobsFor(dyn, job);
    SaveJobs(s0, outs, node, dyn, job, p);
    var results := Resolve(s0, node, scan.jobs, p).value;
    SaveAllFrame(s0, outs, s0, node, Dynamic, results, p);
    var fin := SaveAll(s0, node, Dynamic, results, p);
    OutputsOnlyExtend(s0, s0, fin.st, node, outs, dyn);
    forall o | o in outs ensures DynamicOutcome(p, s0, fin.st, node, o, job(o), fine(o)) {
      assert p.usage(s0, node, o) == Ok(Dynamic) <==> o in dyn;
      DynamicOutcomeOne(p, s0, fin.st, node, o, job(o), fine(o), dyn);
    }
  }

  lemma DynamicOutcomeOne(p: Probes, s0: DagState, b: DagState, node: string, o: string, j: Job, fine: bool, D: seq<string>)
    requires HasOutputs(s0, node, [o]) && OutputsOnly(s0, b, node, D)
    requires p.usage(s0, node, o).Ok? && (p.usage(s0, node, o) == Ok(Static) ==> o !in D)
    requires p.usage(s0, node, o) == Ok(Dynamic) ==>
               fine && ResolveJob(s0, node, j, p).Ok? && DynamicWritten(s0, b, node, o, ResolveJob(s0, node, j, p).value.1)
    ensures DynamicOutcome(p, s0, b, node, o, j, fine)
  {
  }

  /** The resolved jobs of distinct outports, saved at the dynamic runtime from the start. */
  lemma SaveJobs(s0: DagState, C: seq<string>, node: string, outs: seq<string>, job: string -> Job, p: Probes)
    requires OutputsOnly(s0, s0, node, C) && HasOutputs(s0, node, C)
    requires Confined(p.dsave, s0, node, C) && DynamicStamps(p.dsave, s0, node, C)
    requires (forall o :: o in outs ==> o in C) && Distinct(outs)
    requires Resolve(s0, node, JobsFor(outs, job), p).Ok? && forall o :: job(o).outport == o
    ensures var results := Resolve(s0, node, JobsFor(outs, job), p).value;
            && Names(results) == outs
            && SaveAll(s0, node, Dynamic, results, p).err.None?
            && forall o :: o in outs ==>
                 ResolveJob(s0, node, job(o), p).Ok? &&
                 DynamicWritten(s0, SaveAll(s0, node, Dynamic, results, p).st, node, o, ResolveJob(s0, node, job(o), p).value.1)
  {
    var results := Resolve(s0, node, JobsFor(outs, job), p).value;
    assert Names(results) == outs;
    SaveDynamic(s0, C, node, s0, results, p);
    WrittenJobs(s0, SaveAll(s0, node, Dynamic, results, p).st, node, outs, job, p);
  }

  /** The value each job resolved to is the one saved for its outport. */
  lemma WrittenJobs(s0: DagState, b: DagState, node: string, outs: seq<string>, job: string -> Job, p: Probes)
    requires Resolve(s0, node, JobsFor(outs, job), p).Ok? && forall o :: job(o).outport == o
    requires var results := Resolve(s0, node, JobsFor(outs, job), p).value;
             forall k :: 0 <= k < |results| ==> DynamicWritten(s0, b, node, results[k].0, results[k].1)
    ensures forall o :: o in outs ==>
              ResolveJob(s0, node, job(o), p).Ok? && DynamicWritten(s0, b, node, o, ResolveJob(s0, node, job(o), p).value.1)
  {
    var results := Resolve(s0, node, JobsFor(outs, job), p).value;
    forall o | o in outs
      ensures ResolveJob(s0, node, job(o), p).Ok? && DynamicWritten(s0, b, node, o, ResolveJob(s0, node, job(o), p).value.1)
    {
      var k :| 0 <= k < |outs| && outs[k] == o;
      assert JobsFor(outs, job)[k] == job(o);
      assert results[k] == ResolveJob(s0, node, job(o), p).value;
    }
  }

  /** Without `force`, after a dynamic `execute` that throws nothing, every outport's usage
      resolved on the set-up node. An outport of static usage keeps its record. One of
      dynamic usage holds the value of its pass-through inport or of its routine, with
      both dynamic stamps set to the frame and the rest of its record as before. */
  lemma ExecuteDynamicRecords(st: DagState, node: string, op: Routine, r: Outcome)
    requires r == Execute(st, node, "dynamic", false, op) && r.err.None?
    requires NotFedBy(st.graph, {node}, node) && DistinctOutports(st, node)
    ensures NodeComponent(st, node).Ok?
    ensures var s0 := Setup(st, node).value;
            var info := NodeComponent(st, node).value;
            var outs := OutportNames(info.outports);
            var component := ComponentOf(s0, node);
            && OutputsOnly(s0, r.st, node, outs)
            && forall o :: o in outs ==>
                 DynamicOutcome(DagProbes(), s0, r.st, node, o, Queued(s0, node, info, component, o, op),
                                NoThrow(s0, node, info, component, op)(o))
  {
    ExecuteSteps(st, node, "dynamic", false, op, r);
    var s0 := Setup(st, node).value;
    assert NodeComponent(s0, node) == NodeComponent(st, node);
    DagDynamicRun(s0, node, op);
  }

  /** The DAG's dynamic run from the set-up node `s0`, composed. */
  lemma DagDynamicRun(s0: DagState, node: string, op: Routine)
    requires SetUp(s0, node) && NotFedBy(s0.graph, {node}, node) && Distinct(OutportNames(NodeComponent(s0, node).value.outports))
    requires var info := NodeComponent(s0, node).value;
             var scan := ScanExecute(s0, OutportNames(info.outports), [], StepOf(node, info, ComponentOf(s0, node), Dynamic, false, op, DagProbes()));
             scan.err.None? && Resolve(scan.st, node, scan.jobs, DagProbes()).Ok?
    ensures var info := NodeComponent(s0, node).value;
            var outs := OutportNames(info.outports);
            var component := ComponentOf(s0, node);
            var scan := ScanExecute(s0, outs, [], StepOf(node, info, component, Dynamic, false, op, DagProbes()));
            var fin := SaveAll(scan.st, node, Dynamic, Resolve(scan.st, node, scan.jobs, DagProbes()).value, DagProbes());
            && OutputsOnly(s0, fin.st, node, outs)
            && forall o :: o in outs ==>
                 DynamicOutcome(DagProbes(), s0, fin.st, node, o, Queued(s0, node, info, component, o, op),
                                NoThrow(s0, node, info, component, op)(o))
  {
    var info := NodeComponent(s0, node).value;
    var outs := OutportNames(info.outports);
    var component := ComponentOf(s0, node);
    var p := DagProbes();
    DagDynamicFit(s0, node, op);
    var job := QueuedOf(s0, node, info, component, op);
    DynamicRun(s0, node, outs, StepOf(node, info, component, Dynamic, false, op, p), p, job, NoThrow(s0, node, info, component, op));
  }

  /** Without `force`, after a dynamic `execute` that throws nothing, every outport's usage
      resolved on the set-up node. An outport of static usage keeps its record. One of
      dynamic usage holds the value of its pass-through inport or of its routine, with
      both dynamic stamps set to the frame and the rest of its record as before. */
  lemma ExecuteDynamic(st: DagState, node: string, op: Routine, o: string, r: Outcome)
    requires r == Execute(st, node, "dynamic", false, op) && r.err.None?
    requires NotFedBy(st.graph, {node}, node) && DistinctOutports(st, node)
    requires o in OutportNames(NodeComponent(st, node).value.outports)
    ensures var s0 := Setup(st, node).value;
            var info := NodeComponent(st, node).value;
            var pass := Passes(ComponentOutportInfo(info, o).value);
            var run := op(ComponentOf(st, node), o, Ctx(s0, node, o, Dynamic));
            && EffectiveOutportUsage(s0, node, o).Ok?
            && (EffectiveOutportUsage(s0, node, o) == Ok(Static) ==>
                  HasOutputs(s0, node, [o]) && RecordIs(r.st, node, o, RecordOf(s0, node, o)))
            && (EffectiveOutportUsage(s0, node, o) == Ok(Dynamic) && pass ==>
                  GetCachedInport(st, node, o).Ok? && DynamicWritten(s0, r.st, node, o, GetCachedInport(st, node, o).value.value))
            && (EffectiveOutportUsage(s0, node, o) == Ok(Dynamic) && !pass ==>
                  run.Returned? && DynamicWritten(s0, r.st, node, o, run.value))
  {
    var s0 := Setup(st, node).value;
    var info := NodeComponent(st, node).value;
    ExecuteDynamicRecords(st, node, op, r);
    assert NodeComponent(s0, node) == NodeComponent(st, node);
    assert ComponentOf(s0, node) == ComponentOf(st, node);
    DynamicValues(st, r.st, node, o, op);
  }

  /** Without `force`, a dynamic `execute` in which the routine of an outport of dynamic
      usage that is not a pass-through returns a promise that rejects does not succeed:
      the rejection reaches `Promise.all` (line 1213) even though the loop went on. */
  lemma ExecuteDynamicRejected(st: DagState, node: string, op: Routine, o: string, r: Outcome)
    requires r == Execute(st, node, "dynamic", false, op)
    requires NotFedBy(st.graph, {node}, node) && DistinctOutports(st, node)
    requires NodeComponent(st, node).Ok? && Setup(st, node).Ok?
    requires o in OutportNames(NodeComponent(st, node).value.outports)
    requires var s0 := Setup(st, node).value;
             var info := NodeComponent(st, node).value;
             && EffectiveOutportUsage(s0, node, o) == Ok(Dynamic)
             && ComponentOutportInfo(info, o).Ok? && !Passes(ComponentOutportInfo(info, o).value)
             && op(ComponentOf(st, node), o, Ctx(s0, node, o, Dynamic)).Rejected?
    ensures r.err.Some?
  {
    if r.err.None? {
      ExecuteDynamic(st, node, op, o, r);
    }
  }

  /** The outcome of one outport, read back in terms of the pass-through inport and the routine. */
  lemma DynamicValues(st: DagState, b: DagState, node: string, o: string, op: Routine)
    requires NodeComponent(st, node).Ok? && o in OutportNames(NodeComponent(st, node).value.outports)
    requires var s0 := Setup(st, node).value;
             var info := NodeComponent(st, node).value;
             DynamicOutcome(DagProbes(), s0, b, node, o, Queued(s0, node, info, ComponentOf(st, node), o, op),
                            NoThrow(s0, node, info, ComponentOf(st, node), op)(o))
    ensures var s0 := Setup(st, node).value;
            var info := NodeComponent(st, node).value;
            var pass := Passes(ComponentOutportInfo(info, o).value);
            var run := op(ComponentOf(st, node), o, Ctx(s0, node, o, Dynamic));
            && EffectiveOutportUsage(s0, node, o).Ok?
            && (EffectiveOutportUsage(s0, node, o) == Ok(Static) ==>
                  HasOutputs(s0, node, [o]) && RecordIs(b, node, o, RecordOf(s0, node, o)))
            && (EffectiveOutportUsage(s0, node, o) == Ok(Dynamic) && pass ==>
                  GetCachedInport(st, node, o).Ok? && DynamicWritten(s0, b, node, o, GetCachedInport(st, node, o).value.value))
            && (EffectiveOutportUsage(s0, node, o) == Ok(Dynamic) && !pass ==>
                  run.Returned? && DynamicWritten(s0, b, node, o, run.value))
  {
    SetupInports(st, node);
  }
}
