/** The `DAG` class of regl-pipeline.js: the noflo graph it reads, the per-node metadata
    it updates in place, and the frame counter. Each method does what the source does to
    these fields, and its contract ties the new fields to the state function of the
    `Updates`, `Compilation` and `Execution` modules, whose properties are proved there;
    the level-ordering methods run the `Levels` algorithms on the graph. */
module Dag {
  import opened Base
  import opened Levels
  import opened Graph
  import opened Components
  import opened Store
  import opened Updates
  import opened Resolution
  import opened Gates
  import opened Context
  import opened Compilation
  import opened Execution

  /** The node ids of the graph, in graph order. */
  function NodeIds(nodes: seq<GNode>): (r: seq<string>)
    ensures |r| == |nodes| && forall k :: 0 <= k < |nodes| ==> r[k] == nodes[k].id
  {
    if nodes == [] then [] else [nodes[0].id] + NodeIds(nodes[1..])
  }

  /** The `[from.node, to.node]` pairs of the graph's edges, in graph order. */
  function EdgePairs(edges: seq<Edge>): (r: seq<(string, string)>)
    ensures |r| == |edges| && forall k :: 0 <= k < |edges| ==> r[k] == (edges[k].fromNode, edges[k].toNode)
  {
    if edges == [] then [] else [(edges[0].fromNode, edges[0].toNode)] + EdgePairs(edges[1..])
  }

  /** Some edge of the graph leads into node `v`. */
  predicate Fed(g: Graph, v: string) {
    exists e :: e in EdgePairs(g.edges) && e.1 == v
  }

  /** Every edge of the graph joins two of its nodes. */
  predicate EdgesJoinNodes(g: Graph) {
    forall e :: e in EdgePairs(g.edges) ==> e.0 in NodeIds(g.nodes) && e.1 in NodeIds(g.nodes)
  }

  /** An order of nodes in which the source of every edge comes before its target. */
  predicate Topological(g: Graph, order: seq<string>) {
    forall i, j :: 0 <= i < |order| && 0 <= j < |order| && (order[i], order[j]) in EdgePairs(g.edges) ==> i < j
  }

  /** Some ranking of the node ids strictly increases along every edge of the graph. */
  ghost predicate GraphRanked(g: Graph, rank: string -> nat) {
    forall e :: e in EdgePairs(g.edges) ==> rank(e.0) < rank(e.1)
  }

  /** The graph's edges form no cycle. */
  ghost predicate GraphAcyclic(g: Graph) {
    exists rank: string -> nat :: GraphRanked(g, rank)
  }

  /** The nodes some edge of the graph leads into. */
  ghost function FedNodes(g: Graph): set<string> {
    set e | e in EdgePairs(g.edges) :: e.1
  }

  /** Every edge of the graph leads from a level to a strictly later one. */
  ghost predicate LevelsForward(g: Graph, levels: seq<seq<string>>) {
    forall k1, k2, e ::
      0 <= k1 < |levels| && 0 <= k2 < |levels| && e in EdgePairs(g.edges) && e.0 in levels[k1] && e.1 in levels[k2]
      ==> k1 < k2
  }

  class DAG {
    /** The graph `getNofloGraph` returns; the editor changes it between calls. */
    var graph: Graph
    /** The pipeline's component table. */
    const components: Components
    /** The per-node `metadata` records. */
    var meta: map<string, Metadata>
    var frame: int

    function State(): DagState
      reads this
    {
      DagState(graph, components, meta, frame)
    }

    /** A DAG over a graph and a component table starts at frame 0 with no metadata. */
    constructor (graph: Graph, components: Components)
      ensures State() == DagState(graph, components, map[], 0)
    {
      this.graph := graph;
      this.components := components;
      meta := map[];
      frame := 0;
    }

    /** `incFrame` (lines 969-973): returns the old frame and advances the counter with
        32-bit wrap-around. */
    method IncFrame() returns (f: int)
      modifies this
      ensures (f, State()) == Updates.IncFrame(old(State()))
    {
      f := ToInt32(frame);
      frame := ToInt32(frame + 1);
    }

    /** `metadata({node, setup: true})` (lines 437-477): persists the set-up metadata. */
    method Setup(node: string) returns (err: Option<Error>)
      modifies this
      ensures Store.Setup(old(State()), node).Err? ==> State() == old(State()) && err == Some(Store.Setup(old(State()), node).error)
      ensures Store.Setup(old(State()), node).Ok? ==> State() == Store.Setup(old(State()), node).value && err.None?
    {
      var s := Store.Setup(State(), node);
      if s.Err? {
        return Some(s.error);
      }
      meta := s.value.meta;
      return None;
    }

    /** `pullStatic` (lines 679-731): setup, then each inport's record is replaced in
        turn; a throw leaves the records written before it. */
    method PullStatic(node: string) returns (err: Option<Error>)
      modifies this
      ensures Outcome(State(), err) == Updates.PullStatic(old(State()), node)
    {
      err := Setup(node);
      if err.None? {
        err := PullStaticLoop(node, InportNames(NodeComponent(State(), node).value.inports));
      }
    }

    /** The inport loop of `pullStatic` (lines 682-730). */
    method PullStaticLoop(node: string, ins: seq<string>) returns (err: Option<Error>)
      requires SetUp(State(), node) && forall i :: i in ins ==> i in MetaOf(State(), node).cached.value.inports
      modifies this
      ensures Outcome(State(), err) == PullStaticFrom(old(State()), node, ins)
    {
      assert ins[0..] == ins;
      for k := 0 to |ins|
        invariant SetUp(State(), node) && forall i :: i in ins ==> i in MetaOf(State(), node).cached.value.inports
        invariant PullStaticFrom(State(), node, ins[k..]) == PullStaticFrom(old(State()), node, ins)
      {
        var c := PullStaticEntry(State(), node, ins[k]);
        assert ins[k..][1..] == ins[k + 1..];
        if c.Err? {
          return Some(c.error);
        }
        WriteInport(node, ins[k], c.value);
      }
      return None;
    }

    /** `pullDynamic` (lines 733-776): setup, then the record of each inport of dynamic
        usage gets the current value; inports of static usage are skipped. */
    method PullDynamic(node: string) returns (err: Option<Error>)
      modifies this
      ensures Outcome(State(), err) == Updates.PullDynamic(old(State()), node)
    {
      err := Setup(node);
      if err.None? {
        err := PullDynamicLoop(node, InportNames(NodeComponent(State(), node).value.inports));
      }
    }

    /** The inport loop of `pullDynamic` (lines 736-775). */
    method PullDynamicLoop(node: string, ins: seq<string>) returns (err: Option<Error>)
      requires SetUp(State(), node) && forall i :: i in ins ==> i in MetaOf(State(), node).cached.value.inports
      modifies this
      ensures Outcome(State(), err) == PullDynamicFrom(old(State()), node, ins)
    {
      assert ins[0..] == ins;
      for k := 0 to |ins|
        invariant SetUp(State(), node) && forall i :: i in ins ==> i in MetaOf(State(), node).cached.value.inports
        invariant PullDynamicFrom(State(), node, ins[k..]) == PullDynamicFrom(old(State()), node, ins)
      {
        var c := PullDynamicEntry(State(), node, ins[k]);
        assert ins[k..][1..] == ins[k + 1..];
        if c.Err? {
          return Some(c.error);
        }
        if c.value.Some? {
          WriteInport(node, ins[k], c.value.value);
        }
      }
      return None;
    }

    /** `metadata.cached.inports[inport] = c`: one inport record replaced in place. */
    method WriteInport(node: string, inport: string, c: InportCache)
      requires SetUp(State(), node) && inport in MetaOf(State(), node).cached.value.inports
      modifies this
      ensures State() == WithInport(old(State()), node, inport, c)
    {
      var m := meta[node];
      meta := meta[node := m.(cached := Some(m.cached.value.(inports := m.cached.value.inports[inport := c])))];
    }

    /** `clearCache` (lines 878-884). */
    method ClearCache(node: string) returns (err: Option<Error>)
      modifies this
      ensures Outcome(State(), err) == Updates.ClearCache(old(State()), node)
    {
      var r := Updates.ClearCache(State(), node);
      if r.err.Some? {
        return r.err;
      }
      meta := meta[node := MetaOf(State(), node).(cached := None)];
      assert State() == r.st;
      return None;
    }

    /** `saveCompiled` (lines 886-892). The metadata map is assigned, in one step, from
        the value `Updates.SaveCompiled` computes: the setup, the record and its stamp are
        written out there, not field by field here. */
    method SaveCompiled(node: string, outport: string, v: Value) returns (err: Option<Error>)
      modifies this
      ensures Outcome(State(), err) == Updates.SaveCompiled(old(State()), node, outport, v)
    {
      var r := Updates.SaveCompiled(State(), node, outport, v);
      meta := r.st.meta;
      assert State() == r.st;
      return r.err;
    }

    /** `staticSave` (lines 894-904). The metadata map is assigned, in one step, from the
        value `Updates.StaticSave` computes: the setup, the usage resolution and the record
        are written out there, not field by field here. */
    method StaticSave(node: string, outport: string, v: Value) returns (err: Option<Error>)
      modifies this
      ensures Outcome(State(), err) == Updates.StaticSave(old(State()), node, outport, v)
    {
      var r := Updates.StaticSave(State(), node, outport, v);
      meta := r.st.meta;
      assert State() == r.st;
      return r.err;
    }

    /** `dynamicSave` (lines 906-914). The metadata map is assigned, in one step, from the
        value `Updates.DynamicSave` computes: the setup and the record are written out
        there, not field by field here. */
    method DynamicSave(node: string, outport: string, v: Value) returns (err: Option<Error>)
      modifies this
      ensures Outcome(State(), err) == Updates.DynamicSave(old(State()), node, outport, v)
    {
      var r := Updates.DynamicSave(State(), node, outport, v);
      meta := r.st.meta;
      assert State() == r.st;
      return r.err;
    }

    /** `setAttached` (lines 334-373): the attachment record and the graph's initializer.
        The graph and the metadata map are assigned, in one step, from the value
        `Updates.SetAttached` computes, where the checks and the stamps are written out. */
    method SetAttached(node: string, inport: string, value: Value, usage: string) returns (err: Option<Error>)
      modifies this
      ensures Outcome(State(), err) == Updates.SetAttached(old(State()), node, inport, value, usage)
    {
      var r := Updates.SetAttached(State(), node, inport, value, usage);
      graph, meta := r.st.graph, r.st.meta;
      assert State() == r.st;
      return r.err;
    }

    /** `removeAttached` (lines 392-399). The graph and the metadata map are assigned, in
        one step, from the value `Updates.RemoveAttached` computes. */
    method RemoveAttached(node: string, inport: string) returns (err: Option<Error>)
      modifies this
      ensures Outcome(State(), err) == Updates.RemoveAttached(old(State()), node, inport)
    {
      var r := Updates.RemoveAttached(State(), node, inport);
      graph, meta := r.st.graph, r.st.meta;
      assert State() == r.st;
      return r.err;
    }

    /** `compile` (lines 916-967), its routines run one after another: setup, the outport
        loop, the routines it queued, then the saves of their results. */
    method Compile(node: string, force: bool, op: Operation) returns (err: Option<Error>)
      modifies this
      ensures Outcome(State(), err) == Compilation.Compile(old(State()), node, force, op)
    {
      ghost var st0 := State();
      err := Setup(node);
      if err.Some? {
        return;
      }
      var info := NodeComponent(State(), node).value;
      var component := FindNode(graph.nodes, node).value.component;
      SetUpRecords(State(), node);
      var todo, scanErr := CompileLoop(node, info, OutportNames(info.outports), force, NeedsRecompilation);
      ghost var scan := AfterScan(st0, node, force);
      assert CompileScan(State(), todo, scanErr) == scan;
      var results := CompileRoutines(node, component, todo, op);
      assert component == ComponentOf(Store.Setup(st0, node).value, node);
      SaveCompiledResults(node, todo, results);
      err := if scanErr.Some? then scanErr else FirstError(results);
      CompileIs(st0, node, force, op);
    }

    /** The outport loop of `compile` (lines 924-962): the missing `compile` dictionary
        throws, `force` clears the compiled record in place, and an outport with a routine
        whose gate is open is queued. */
    method CompileLoop(node: string, info: ComponentInfo, outs: seq<string>, force: bool, gate: Gate)
      returns (todo: seq<string>, err: Option<Error>)
      requires HasRecords(State(), node, outs)
      modifies this
      ensures CompileScan(State(), todo, err) == ScanCompile(old(State()), node, info, outs, force, [], gate)
    {
      todo := [];
      assert outs[0..] == outs;
      for k := 0 to |outs|
        invariant HasRecords(State(), node, outs)
        invariant ScanCompile(State(), node, info, outs[k..], force, todo, gate) == ScanCompile(old(State()), node, info, outs, force, [], gate)
      {
        assert outs[k..][1..] == outs[k + 1..];
        var o := outs[k];
        if info.compile.None? {
          return todo, Some(NoCompileDictionary);
        }
        if force {
          ClearCompiled(node, o);
        }
        var stale := gate(State(), node, o);
        if stale.Err? {
          return todo, Some(stale.error);
        }
        if stale.value && HasCompile(info, o) {
          todo := todo + [o];
        }
      }
      return todo, None;
    }

    /** `compiled[outport].staticChanged = undefined` and `.value = undefined`. */
    method ClearCompiled(node: string, o: string)
      requires HasRecords(State(), node, [o])
      modifies this
      ensures State() == WriteCompiled(old(State()), node, o, Cleared(MetaOf(old(State()), node).cached.value.compiled[o]))
    {
      var m := meta[node];
      var cache := m.cached.value;
      meta := meta[node := m.(cached := Some(cache.(compiled := cache.compiled[o := Cleared(cache.compiled[o])])))];
    }

    /** The queued routines, each run with a static context on the state the loop left. */
    method CompileRoutines(node: string, component: string, todo: seq<string>, op: Operation)
      returns (results: seq<Result<Value>>)
      ensures results == CompileResults(State(), node, component, todo, op)
    {
      results := [];
      for k := 0 to |todo|
        invariant |results| == k
        invariant forall i :: 0 <= i < k ==> results[i] == op(component, todo[i], Ctx(State(), node, todo[i], Static))
      {
        results := results + [op(component, todo[k], Ctx(State(), node, todo[k], Static))];
      }
    }

    /** `saveCompiled` of each successful result, in queue order. */
    method SaveCompiledResults(node: string, todo: seq<string>, results: seq<Result<Value>>)
      requires SetUp(State(), node) && |results| == |todo| && forall o :: o in todo ==> o in CacheOf(State(), node).compiled
      modifies this
      ensures State() == SaveResults(old(State()), node, todo, results)
    {
      assert todo[0..] == todo && results[0..] == results;
      for k := 0 to |todo|
        invariant SetUp(State(), node) && forall o :: o in todo ==> o in CacheOf(State(), node).compiled
        invariant SaveResults(State(), node, todo[k..], results[k..]) == SaveResults(old(State()), node, todo, results)
      {
        assert todo[k..][1..] == todo[k + 1..] && results[k..][1..] == results[k + 1..];
        if results[k].Ok? {
          assert Store.Setup(State(), node) == Ok(State());
          var _ := SaveCompiled(node, todo[k], results[k].value);
        }
      }
    }

    /** `execute` (lines 1131-1225), its routines run one after another: setup, the
        runtime check, the outport loop, the reads of the pass-through outports, then the
        saves of the queued values. */
    method Execute(node: string, runtime: string, force: bool, op: Routine) returns (err: Option<Error>)
      modifies this
      ensures Outcome(State(), err) == Execution.Execute(old(State()), node, runtime, force, op)
    {
      ghost var st0 := State();
      err := Setup(node);
      if err.Some? {
        return;
      }
      if runtime != "static" && runtime != "dynamic" {
        return Some(InvalidRuntime(runtime));
      }
      var info := NodeComponent(State(), node).value;
      var rt := if runtime == "static" then Static else Dynamic;
      var component := FindNode(graph.nodes, node).value.component;
      var jobs, scanErr := ExecuteLoop(node, info, component, OutportNames(info.outports), rt, force, op);
      if scanErr.Some? {
        ExecuteIs(st0, node, runtime, force, op);
        return scanErr;
      }
      var results, readErr := ResolveJobs(node, jobs, DagProbes());
      if readErr.Some? {
        ExecuteIs(st0, node, runtime, force, op);
        return readErr;
      }
      err := SaveOutputs(node, rt, results);
      ExecuteIs(st0, node, runtime, force, op);
    }

    /** The outport loop of `execute` (lines 1143-1211). */
    method ExecuteLoop(node: string, info: ComponentInfo, component: string, outs: seq<string>, rt: Usage, force: bool, op: Routine)
      returns (jobs: seq<Job>, err: Option<Error>)
      modifies this
      ensures ExecScan(State(), jobs, err) == ScanExecute(old(State()), outs, [], StepOf(node, info, component, rt, force, op, DagProbes()))
    {
      ghost var step := StepOf(node, info, component, rt, force, op, DagProbes());
      jobs := [];
      assert outs[0..] == outs;
      for k := 0 to |outs|
        invariant ScanExecute(State(), outs[k..], jobs, step) == ScanExecute(old(State()), outs, [], step)
      {
        assert outs[k..][1..] == outs[k + 1..];
        var r := ExecuteOutport(node, info, component, outs[k], rt, force, op, jobs);
        jobs := r.jobs;
        if r.err.Some? {
          return jobs, r.err;
        }
      }
      return jobs, None;
    }

    /** One iteration of the outport loop: the usage, the `force` clearing, the static
        gate and reset, then the queueing of a pass-through or the routine's result. */
    method ExecuteOutport(node: string, info: ComponentInfo, component: string, o: string, rt: Usage, force: bool,
                          op: Routine, jobs0: seq<Job>) returns (r: ExecScan)
      modifies this
      ensures r == ExecStep(old(State()), node, info, component, o, rt, force, jobs0, op, DagProbes())
      ensures r.st == State()
    {
      var port := ComponentOutportInfo(info, o);
      if port.Err? {
        return ExecScan(State(), jobs0, Some(port.error));
      }
      var usage := EffectiveOutportUsage(State(), node, o);
      if usage.Err? {
        return ExecScan(State(), jobs0, Some(usage.error));
      }
      if force {
        if !HasOutputs(State(), node, [o]) {
          return ExecScan(State(), jobs0, Some(TypeError));
        }
        ClearOutput(node, o);
      }
      if rt == Static {
        var stale := NeedsReexecution(State(), node, o, Static);
        if stale.Err? {
          return ExecScan(State(), jobs0, Some(stale.error));
        }
        if !stale.value {
          return ExecScan(State(), jobs0, None);
        }
        var reset := StaticSave(node, o, Undefined);
        if reset.Some? {
          return ExecScan(State(), jobs0, reset);
        }
      }
      r := DispatchOutport(node, info, component, o, Passes(port.value), rt, usage.value, jobs0, op);
    }

    /** The end of an iteration: an outport whose usage is the runtime is queued, as a
        pass-through or with its routine's result, once the dictionary and the routine
        are found. */
    method DispatchOutport(node: string, info: ComponentInfo, component: string, o: string, pass: bool, rt: Usage,
                           usage: Usage, jobs0: seq<Job>, op: Routine) returns (r: ExecScan)
      ensures r == Dispatch(State(), node, info, component, o, pass, rt, usage, jobs0, op)
    {
      if rt != usage {
        return ExecScan(State(), jobs0, None);
      }
      if info.execute.None? {
        return ExecScan(State(), jobs0, Some(NoExecuteDictionary));
      }
      if pass {
        return ExecScan(State(), jobs0 + [Passed(o)], None);
      }
      if o !in info.execute.value {
        return ExecScan(State(), jobs0, Some(NoExecuteRoutine(o)));
      }
      var reply := op(component, o, Ctx(State(), node, o, rt));
      match reply {
        case Returned(v) =>
          return ExecScan(State(), jobs0 + [Ran(o, v)], None);
        case Threw(e) =>
          return ExecScan(State(), jobs0, Some(e));
        case Rejected(e) =>
          return ExecScan(State(), jobs0 + [Failed(o, e)], None);
      }
    }

    /** `outports[outport].staticChanged`, `.valueChanged` and `.value = undefined`. */
    method ClearOutput(node: string, o: string)
      requires HasOutputs(State(), node, [o])
      modifies this
      ensures State() == WriteOutput(old(State()), node, o, ClearedOutput(RecordOf(old(State()), node, o)))
    {
      var m := meta[node];
      var cache := m.cached.value;
      meta := meta[node := m.(cached := Some(cache.(outports := cache.outports[o := ClearedOutput(cache.outports[o])])))];
    }

    /** The values of the queued outports (lines 1213-1214): a pass-through outport reads
        the cached record of its same-named inport; the first read that throws ends it. */
    method ResolveJobs(node: string, jobs: seq<Job>, p: Probes) returns (results: seq<(string, Value)>, err: Option<Error>)
      ensures err.None? ==> Resolve(State(), node, jobs, p) == Ok(results)
      ensures err.Some? ==> Resolve(State(), node, jobs, p) == Err(err.value)
    {
      results := [];
      for k := 0 to |jobs|
        invariant |results| == k
        invariant forall i :: 0 <= i < k ==> ResolveJob(State(), node, jobs[i], p) == Ok(results[i])
      {
        var value: Value;
        match jobs[k] {
          case Ran(_, v) =>
            value := v;
          case Failed(_, e) =>
            ResolveFirstError(State(), node, jobs, p, k);
            return results, Some(e);
          case Passed(o) =>
            var c := p.read(State(), node, o);
            if c.Err? {
              ResolveFirstError(State(), node, jobs, p, k);
              return results, Some(c.error);
            }
            value := c.value.value;
        }
        assert ResolveJob(State(), node, jobs[k], p) == Ok((jobs[k].outport, value));
        results := results + [(jobs[k].outport, value)];
      }
      var r := Resolve(State(), node, jobs, p);
      assert r.Ok? && r.value == results;
      return results, None;
    }

    /** The saves of the queued values (lines 1215-1221), in queue order. */
    method SaveOutputs(node: string, rt: Usage, results: seq<(string, Value)>) returns (err: Option<Error>)
      modifies this
      ensures Outcome(State(), err) == SaveAll(old(State()), node, rt, results, DagProbes())
    {
      assert results[0..] == results;
      for k := 0 to |results|
        invariant SaveAll(State(), node, rt, results[k..], DagProbes()) == SaveAll(old(State()), node, rt, results, DagProbes())
      {
        assert results[k..][1..] == results[k + 1..];
        if rt == Static {
          err := StaticSave(node, results[k].0, results[k].1);
        } else {
          err := DynamicSave(node, results[k].0, results[k].1);
        }
        if err.Some? {
          return;
        }
      }
      return None;
    }

    /** `levelOrdering` (lines 981-989): the level order of the graph's nodes, each node
        id once in order of first occurrence, over the graph's edges. It throws 'Graph has
        no roots!' exactly when every node has an incoming edge. A successful order holds
        every node once, ends with an empty level, and puts each edge's source on an
        earlier level than its target; level 0 holds the nodes no edge leads into, in
        graph order. When every edge joins two nodes of the graph it succeeds exactly
        when the graph is acyclic and not empty: a cycle leaves its nodes unreached and
        fails the count check of lines 119-121. */
    method LevelOrdering() returns (r: Result<seq<seq<string>>>)
      ensures var V := Dedup(NodeIds(graph.nodes));
              && (r == Err(NoRoots) <==> forall v :: v in V ==> Fed(graph, v))
              && (r.Err? ==> r.error in {NoRoots, BadGraph, TypeError})
              && (r.Ok? ==> && Distinct(Flatten(r.value)) && |Flatten(r.value)| == |V|
                            && |r.value| >= 1 && r.value[0] == Without(V, FedNodes(graph))
                            && r.value[|r.value| - 1] == []
                            && LevelsForward(graph, r.value)
                            && Topological(graph, Flatten(r.value)))
              && (r.Ok? && EdgesJoinNodes(graph) ==> forall x :: x in Flatten(r.value) <==> x in V)
              && (EdgesJoinNodes(graph) ==> (r.Ok? <==> V != [] && GraphAcyclic(graph)))
    {
      var V := Dedup(NodeIds(graph.nodes));
      var pairs := EdgePairs(graph.edges);
      var E := ComputeEdgesToMap(V, pairs);
      r := ComputeLevelOrder(V, E);
      RootsFed(V, E, pairs, graph);
      if r.Ok? {
        GraphLevels(V, E, pairs, graph, r.value);
      }
      if EdgesJoinNodes(graph) {
        JoinedClosed(V, E, pairs, graph);
        GraphLevelsExist(V, E, pairs, graph, r);
      }
    }

    /** `ordering` (lines 991-1001): the levels of `levelOrdering`, concatenated by a
        loop that pushes each node of each level in turn. */
    method Ordering() returns (r: Result<seq<string>>)
      ensures var V := Dedup(NodeIds(graph.nodes));
              && (r == Err(NoRoots) <==> forall v :: v in V ==> Fed(graph, v))
              && (r.Ok? ==> Distinct(r.value) && |r.value| == |V| && Topological(graph, r.value))
              && (r.Ok? && EdgesJoinNodes(graph) ==> forall x :: x in r.value <==> x in V)
              && (EdgesJoinNodes(graph) ==> (r.Ok? <==> V != [] && GraphAcyclic(graph)))
    {
      var levelOrder := LevelOrdering();
      if levelOrder.Err? {
        return Err(levelOrder.error);
      }
      var order := Concatenate(levelOrder.value);
      return Ok(order);
    }
  }

  /** The loops of `ordering` (lines 994-999): each node of each level pushed in turn. */
  method Concatenate(levels: seq<seq<string>>) returns (order: seq<string>)
    ensures order == Flatten(levels)
  {
    order := [];
    for k := 0 to |levels|
      invariant order == Flatten(levels[..k])
    {
      for j := 0 to |levels[k]|
        invariant order == Flatten(levels[..k]) + levels[k][..j]
      {
        order := order + [levels[k][j]];
      }
      assert levels[..k + 1][..k] == levels[..k];
    }
    assert levels[..|levels|] == levels;
  }

  /** A node of the deduplicated ids is a root of the edge map exactly when no edge of
      the graph leads into it. */
  lemma RootsFed(V: seq<string>, E: EdgeMap, pairs: seq<(string, string)>, g: Graph)
    requires pairs == EdgePairs(g.edges)
    requires E.Keys == (set v | v in V) + (set e | e in pairs :: e.0)
    requires forall u, v :: u in E ==> (v in E[u] <==> (u, v) in pairs)
    ensures Roots(V, E) == [] <==> forall v :: v in V ==> Fed(g, v)
  {
    forall v | v in V ensures HasParent(E, v) <==> Fed(g, v) {
      if Fed(g, v) {
        var e :| e in pairs && e.1 == v;
        assert e.0 in E && v in E[e.0];
      }
    }
    RootsEmpty(V, E);
  }

  /** When every edge joins two nodes of the graph, the edge map's edges join nodes of V. */
  lemma JoinedClosed(V: seq<string>, E: EdgeMap, pairs: seq<(string, string)>, g: Graph)
    requires EdgesJoinNodes(g) && V == Dedup(NodeIds(g.nodes))
    requires pairs == EdgePairs(g.edges)
    requires E.Keys == (set v | v in V) + (set e | e in pairs :: e.0)
    requires forall u, v :: u in E ==> (v in E[u] <==> (u, v) in pairs)
    ensures Closed(V, E)
  {
    forall u | u in (set e | e in pairs :: e.0) ensures u in V {
      var e :| e in pairs && e.0 == u;
    }
    forall u, v | u in E && v in E[u] ensures v in V {
      assert (u, v) in pairs;
    }
  }

  /** A level order of the edge map the graph's edges build, read on the graph. */
  lemma GraphLevels(V: seq<string>, E: EdgeMap, pairs: seq<(string, string)>, g: Graph, levels: seq<seq<string>>)
    requires pairs == EdgePairs(g.edges)
    requires E.Keys >= (set e | e in pairs :: e.0)
    requires forall u, v :: u in E ==> (v in E[u] <==> (u, v) in pairs)
    requires IsLevelOrder(V, E, levels)
    ensures levels[0] == Without(V, FedNodes(g))
    ensures LevelsForward(g, levels) && Topological(g, Flatten(levels))
  {
    FlattenTopological(E, levels);
    EdgesTopological(E, pairs, g, Flatten(levels));
    EdgeMapRoots(V, E, pairs, g);
    EdgeMapForward(E, pairs, g, levels);
  }

  /** For a graph whose edges join its nodes, the level order exists exactly when the
      graph is acyclic and not empty. */
  lemma GraphLevelsExist(V: seq<string>, E: EdgeMap, pairs: seq<(string, string)>, g: Graph,
                         r: Result<seq<seq<string>>>)
    requires pairs == EdgePairs(g.edges)
    requires E.Keys == (set v | v in V) + (set e | e in pairs :: e.0)
    requires forall u, v :: u in E ==> (v in E[u] <==> (u, v) in pairs)
    requires Closed(V, E)
    requires r == Err(NoRoots) <==> Roots(V, E) == []
    requires r.Ok? ==> IsLevelOrder(V, E, r.value)
    requires r.Ok? ==> Acyclic(E)
    requires Acyclic(E) && V != [] && (forall v :: v in V ==> v in E) ==> r.Ok?
    ensures r.Ok? <==> V != [] && GraphAcyclic(g)
  {
    EdgeMapAcyclic(E, pairs, g);
  }

  /** Under the edge map the graph's edges build, the map is acyclic exactly when the
      graph is. */
  lemma EdgeMapAcyclic(E: EdgeMap, pairs: seq<(string, string)>, g: Graph)
    requires pairs == EdgePairs(g.edges)
    requires E.Keys >= (set e | e in pairs :: e.0)
    requires forall u, v :: u in E ==> (v in E[u] <==> (u, v) in pairs)
    ensures Acyclic(E) <==> GraphAcyclic(g)
  {
    if Acyclic(E) {
      var rank: string -> nat :| Ranked(E, rank);
      forall e | e in pairs ensures rank(e.0) < rank(e.1) {
        assert e.0 in E && e.1 in E[e.0];
      }
      assert GraphRanked(g, rank);
    }
    if GraphAcyclic(g) {
      var rank: string -> nat :| GraphRanked(g, rank);
      forall u, v | u in E && v in E[u] ensures rank(u) < rank(v) {
        assert (u, v) in pairs;
      }
      assert Ranked(E, rank);
    }
  }

  /** The roots of the edge map are the nodes of V that no edge of the graph leads
      into, in V's order. */
  lemma EdgeMapRoots(V: seq<string>, E: EdgeMap, pairs: seq<(string, string)>, g: Graph)
    requires pairs == EdgePairs(g.edges)
    requires E.Keys >= (set e | e in pairs :: e.0)
    requires forall u, v :: u in E ==> (v in E[u] <==> (u, v) in pairs)
    ensures Roots(V, E) == Without(V, FedNodes(g))
  {
    forall v ensures v in TargetsOf(E, E.Keys) <==> v in FedNodes(g) {
      if v in FedNodes(g) {
        var e :| e in pairs && e.1 == v;
        assert e.0 in E && v in E[e.0];
      }
    }
    assert TargetsOf(E, E.Keys) == FedNodes(g);
  }

  /** Levels on which the edge map's edges go forward have the graph's edges go forward. */
  lemma EdgeMapForward(E: EdgeMap, pairs: seq<(string, string)>, g: Graph, levels: seq<seq<string>>)
    requires pairs == EdgePairs(g.edges)
    requires E.Keys >= (set e | e in pairs :: e.0)
    requires forall u, v :: u in E ==> (v in E[u] <==> (u, v) in pairs)
    requires EdgesForward(E, levels)
    ensures LevelsForward(g, levels)
  {
    forall k1, k2, e | 0 <= k1 < |levels| && 0 <= k2 < |levels| && e in pairs && e.0 in levels[k1] && e.1 in levels[k2]
      ensures k1 < k2
    {
      assert e.0 in E && e.1 in E[e.0];
    }
  }

  /** The roots of an edge map are the nodes without a parent. */
  lemma RootsEmpty(V: seq<string>, E: EdgeMap)
    ensures Roots(V, E) == [] <==> forall v :: v in V ==> HasParent(E, v)
  {
    if Roots(V, E) != [] {
      assert Roots(V, E)[0] in Roots(V, E);
    }
  }

  /** An order topological for the edge map is topological for the graph's edges. */
  lemma EdgesTopological(E: EdgeMap, pairs: seq<(string, string)>, g: Graph, order: seq<string>)
    requires pairs == EdgePairs(g.edges)
    requires E.Keys >= (set e | e in pairs :: e.0)
    requires forall u, v :: u in E ==> (v in E[u] <==> (u, v) in pairs)
    requires forall i, j :: 0 <= i < |order| && 0 <= j < |order| && order[i] in E && order[j] in E[order[i]] ==> i < j
    ensures Topological(g, order)
  {
    forall i, j | 0 <= i < |order| && 0 <= j < |order| && (order[i], order[j]) in pairs ensures i < j {
      assert order[i] in E;
    }
  }
}
