/** `compile` (lines 916-967), run sequentially. The outport loop checks the `compile`
    dictionary, force-clears the compiled record, asks `needsRecompilation` and queues
    the outports that have a routine. The queued routines run once the loop is over, on
    the state it left, and each successful result is saved by `saveCompiled`. */
module Compilation {
  import opened Base
  import opened Graph
  import opened Components
  import opened Store
  import opened Gates
  import opened Context
  import opened Updates
  import opened Staleness

  /** A component routine, opaque to the model: from the component's name, the outport
      and the read context to the value it returns or the error it throws. */
  type Operation = (string, string, Ctx) -> Result<Value>

  /** The name of the node's component. */
  function ComponentOf(st: DagState, node: string): string
    requires NodeComponent(st, node).Ok?
  {
    FindNode(st.graph.nodes, node).value.component
  }

  /** The outport has a `compile` routine. */
  predicate HasCompile(info: ComponentInfo, outport: string) {
    info.compile.Some? && outport in info.compile.value
  }

  /** A compiled record with its value and its `staticChanged` stamp cleared, as `force`
      leaves it. */
  function Cleared(c: CompiledCache): CompiledCache {
    c.(value := Undefined, staticChanged := None)
  }

  /** The staleness gate the outport loop asks about each outport: `needsRecompilation`
      in `compile`. The loop is stated over any gate so that its lemmas that do not
      depend on the gate's answer do not unfold it. */
  type Gate = (DagState, string, string) -> Result<bool>

  /** The state of the outport loop: the state, the queued outports, the error thrown. */
  datatype CompileScan = CompileScan(st: DagState, todo: seq<string>, err: Option<Error>)

  /** The node has a cache holding a compiled record for every outport of `outs`. */
  predicate HasRecords(st: DagState, node: string, outs: seq<string>) {
    MetaOf(st, node).cached.Some? && forall o :: o in outs ==> o in MetaOf(st, node).cached.value.compiled
  }

  /** Replace one compiled record of the node. */
  function WriteCompiled(st: DagState, node: string, o: string, c: CompiledCache): (r: DagState)
    requires HasRecords(st, node, [o])
    ensures CompiledOnly(st, r, node, [o])
    ensures MetaOf(r, node).cached.value.compiled[o] == c
  {
    var m := MetaOf(st, node);
    var cache := m.cached.value;
    var r := st.(meta := st.meta[node := m.(cached := Some(cache.(compiled := cache.compiled[o := c])))]);
    assert MetaOf(r, node) == m.(cached := Some(cache.(compiled := cache.compiled[o := c])));
    r
  }

  /** The state after the `force` clearing of one iteration: the loop throws before it
      when the `compile` dictionary is missing. */
  function ForceStep(st: DagState, node: string, info: ComponentInfo, o: string, force: bool): (r: DagState)
    requires HasRecords(st, node, [o])
    ensures CompiledOnly(st, r, node, [o])
    ensures (info.compile.None? || !force) ==> r == st
    ensures info.compile.Some? && force ==> MetaOf(r, node).cached.value.compiled[o] == Cleared(MetaOf(st, node).cached.value.compiled[o])
  {
    if info.compile.Some? && force then WriteCompiled(st, node, o, Cleared(MetaOf(st, node).cached.value.compiled[o]))
    else st
  }

  /** One iteration of the loop (lines 925-962): an error stops the loop. */
  function CompileStep(st: DagState, node: string, info: ComponentInfo, o: string, force: bool, todo: seq<string>, gate: Gate): (r: CompileScan)
    requires HasRecords(st, node, [o])
    ensures r.st == ForceStep(st, node, info, o, force)
    ensures r.todo == todo || r.todo == todo + [o]
  {
    if info.compile.None? then CompileScan(st, todo, Some(NoCompileDictionary))
    else
      var s := ForceStep(st, node, info, o, force);
      match gate(s, node, o)
      case Err(e) => CompileScan(s, todo, Some(e))
      case Ok(stale) =>
        if stale && HasCompile(info, o) then CompileScan(s, todo + [o], None)
        else CompileScan(s, todo, None)
  }

  /** The loop over the outports `outs`, with `todo` queued so far. */
  function ScanCompile(st: DagState, node: string, info: ComponentInfo, outs: seq<string>, force: bool, todo: seq<string>, gate: Gate): (r: CompileScan)
    requires HasRecords(st, node, outs)
    ensures MetaOf(r.st, node).cached.Some? && MetaOf(r.st, node).cached.value.compiled.Keys == MetaOf(st, node).cached.value.compiled.Keys
    ensures forall o :: o in r.todo ==> o in todo || o in outs
    decreases |outs|
  {
    if outs == [] then CompileScan(st, todo, None)
    else
      var r := CompileStep(st, node, info, outs[0], force, todo, gate);
      if r.err.Some? then r
      else
        ScanCompile(r.st, node, info, outs[1..], force, r.todo, gate)
  }

  /** Between two states only the compiled records of the node named in `C` differ. */
  ghost predicate CompiledOnly(a: DagState, b: DagState, node: string, C: seq<string>) {
    && b.graph == a.graph && b.components == a.components && b.frame == a.frame
    && (forall x :: x != node ==> MetaOf(b, x) == MetaOf(a, x))
    && MetaOf(b, node).attached == MetaOf(a, node).attached
    && MetaOf(a, node).cached.Some? && MetaOf(b, node).cached.Some?
    && MetaOf(b, node).cached.value.inports == MetaOf(a, node).cached.value.inports
    && MetaOf(b, node).cached.value.outports == MetaOf(a, node).cached.value.outports
    && MetaOf(b, node).cached.value.compiled.Keys == MetaOf(a, node).cached.value.compiled.Keys
    && (forall o :: o in MetaOf(a, node).cached.value.compiled && o !in C ==>
          MetaOf(b, node).cached.value.compiled[o] == MetaOf(a, node).cached.value.compiled[o])
  }

  lemma CompiledOnlyTrans(a: DagState, b: DagState, c: DagState, node: string, C1: seq<string>, C2: seq<string>)
    requires CompiledOnly(a, b, node, C1) && CompiledOnly(b, c, node, C2)
    ensures CompiledOnly(a, c, node, C1 + C2)
  {
  }

  lemma CompiledOnlyCons(a: DagState, b: DagState, c: DagState, node: string, C: seq<string>)
    requires C != [] && CompiledOnly(a, b, node, [C[0]]) && CompiledOnly(b, c, node, C[1..])
    ensures CompiledOnly(a, c, node, C)
  {
    CompiledOnlyTrans(a, b, c, node, [C[0]], C[1..]);
    assert [C[0]] + C[1..] == C;
  }

  lemma CompiledOnlyWeaken(a: DagState, b: DagState, node: string, C: seq<string>, D: seq<string>)
    requires CompiledOnly(a, b, node, C) && forall o :: o in C ==> o in D
    ensures CompiledOnly(a, b, node, D)
  {
  }

  lemma CompiledOnlySetUp(a: DagState, b: DagState, node: string, C: seq<string>)
    requires SetUp(a, node) && CompiledOnly(a, b, node, C)
    ensures SetUp(b, node) && NodeComponent(b, node) == NodeComponent(a, node)
  {
    assert NodeComponent(b, node) == NodeComponent(a, node);
  }

  lemma SameRecordsCompiled(a: DagState, b: DagState, node: string, o: string)
    requires SetUp(a, node) && SetUp(b, node) && SameRecordsBut(a, b, node, {}, {o}, {})
    ensures CompiledOnly(a, b, node, [o])
  {
    assert CacheOf(b, node).inports == CacheOf(a, node).inports;
    assert CacheOf(b, node).outports == CacheOf(a, node).outports;
  }

  /** The routines run after the loop, on the state it left, in queue order. */
  function CompileResults(st: DagState, node: string, component: string, todo: seq<string>, op: Operation): (r: seq<Result<Value>>)
    ensures |r| == |todo|
    ensures forall k :: 0 <= k < |todo| ==> r[k] == op(component, todo[k], Ctx(st, node, todo[k], Static))
  {
    if todo == [] then []
    else [op(component, todo[0], Ctx(st, node, todo[0], Static))] + CompileResults(st, node, component, todo[1..], op)
  }

  /** `saveCompiled` of each successful result, in queue order. */
  function SaveResults(st: DagState, node: string, todo: seq<string>, results: seq<Result<Value>>): (r: DagState)
    requires SetUp(st, node) && |results| == |todo| && forall o :: o in todo ==> o in CacheOf(st, node).compiled
    ensures SetUp(r, node) && CompiledOnly(st, r, node, todo)
    decreases |todo|
  {
    if todo == [] then st
    else
      var s := SaveOne(st, node, todo[0], results[0]);
      var r := SaveResults(s, node, todo[1..], results[1..]);
      CompiledOnlyCons(st, s, r, node, todo);
      r
  }

  /** `saveCompiled` of one result, when the routine succeeded. */
  function SaveOne(st: DagState, node: string, o: string, result: Result<Value>): (r: DagState)
    requires SetUp(st, node) && o in CacheOf(st, node).compiled
    ensures SetUp(r, node) && CompiledOnly(st, r, node, [o])
    ensures result.Ok? ==> CacheOf(r, node).compiled[o] == CompiledCache(result.value, Some(st.frame), Some(st.frame))
    ensures result.Err? ==> r == st
  {
    if result.Ok? then
      assert Setup(st, node) == Ok(st);
      var r := SaveCompiled(st, node, o, result.value).st;
      SameRecordsCompiled(st, r, node, o);
      r
    else st
  }

  /** The first error among the routines' results, in queue order. */
  function FirstError(results: seq<Result<Value>>): (r: Option<Error>)
    ensures r.None? <==> forall k :: 0 <= k < |results| ==> results[k].Ok?
  {
    if results == [] then None
    else if results[0].Err? then Some(results[0].error)
    else FirstError(results[1..])
  }

  /** A set-up node has a compiled record for every outport. */
  lemma SetUpRecords(st: DagState, node: string)
    requires SetUp(st, node)
    ensures HasRecords(st, node, OutportNames(NodeComponent(st, node).value.outports))
  {
    var outs := OutportNames(NodeComponent(st, node).value.outports);
    forall o | o in outs ensures o in MetaOf(st, node).cached.value.compiled {
      assert o in Members(outs);
    }
  }

  /** The outport loop of `compile` from the set-up node. */
  function AfterScan(st: DagState, node: string, force: bool): (r: CompileScan)
    requires NodeComponent(st, node).Ok?
    ensures SetUp(r.st, node) && NodeComponent(r.st, node) == NodeComponent(st, node)
    ensures r.st.graph == st.graph && r.st.frame == st.frame
    ensures forall o :: o in r.todo ==> o in CacheOf(r.st, node).compiled
  {
    var s := Setup(st, node).value;
    var info := NodeComponent(s, node).value;
    var outs := OutportNames(info.outports);
    SetUpRecords(s, node);
    var scan := ScanCompile(s, node, info, outs, force, [], NeedsRecompilation);
    ScanFrame(s, node, info, outs, force, [], NeedsRecompilation);
    CompiledOnlySetUp(s, scan.st, node, outs);
    scan
  }

  /** `compile`: setup, the outport loop, then the queued routines and their saves. An
      error thrown by the loop wins over the routines' errors; the routines queued
      before it still run and their results are still saved. */
  function Compile(st: DagState, node: string, force: bool, op: Operation): (r: Outcome)
    ensures NodeComponent(st, node).Err? ==> r == Outcome(st, Some(NodeComponent(st, node).error))
    ensures NodeComponent(st, node).Ok? ==> SetUp(r.st, node)
  {
    match Setup(st, node)
    case Err(e) => Outcome(st, Some(e))
    case Ok(s) =>
      var scan := AfterScan(st, node, force);
      var results := CompileResults(scan.st, node, ComponentOf(s, node), scan.todo, op);
      Outcome(SaveResults(scan.st, node, scan.todo, results), if scan.err.Some? then scan.err else FirstError(results))
  }

  /** `compile` of a node with a component, read as its three phases. */
  lemma CompileIs(st: DagState, node: string, force: bool, op: Operation)
    requires NodeComponent(st, node).Ok?
    ensures var scan := AfterScan(st, node, force);
            var results := CompileResults(scan.st, node, ComponentOf(Setup(st, node).value, node), scan.todo, op);
            Compile(st, node, force, op) ==
              Outcome(SaveResults(scan.st, node, scan.todo, results), if scan.err.Some? then scan.err else FirstError(results))
  {
  }

  /** `compile` writes only the node's compiled records: the inport and outport records,
      the attachments, the other nodes, the graph and the frame stay as setup left them. */
  lemma CompileFrame(st: DagState, node: string, force: bool, op: Operation, r: Outcome)
    requires r == Compile(st, node, force, op) && NodeComponent(st, node).Ok?
    ensures CompiledOnly(Setup(st, node).value, r.st, node, OutportNames(NodeComponent(st, node).value.outports))
  {
    var s := Setup(st, node).value;
    var info := NodeComponent(s, node).value;
    var outs := OutportNames(info.outports);
    var scan := AfterScan(st, node, force);
    SetUpRecords(s, node);
    ScanFrame(s, node, info, outs, force, [], NeedsRecompilation);
    var results := CompileResults(scan.st, node, ComponentOf(s, node), scan.todo, op);
    CompiledOnlyTrans(s, scan.st, r.st, node, outs, scan.todo);
    CompiledOnlyWeaken(s, r.st, node, outs + scan.todo, outs);
  }

  /** The outport loop writes only the compiled records of the outports it visits. */
  lemma {:induction false} ScanFrame(st: DagState, node: string, info: ComponentInfo, outs: seq<string>, force: bool, todo: seq<string>, gate: Gate)
    requires HasRecords(st, node, outs)
    ensures CompiledOnly(st, ScanCompile(st, node, info, outs, force, todo, gate).st, node, outs)
    decreases |outs|
  {
    if outs != [] {
      var r := CompileStep(st, node, info, outs[0], force, todo, gate);
      if r.err.Some? {
        CompiledOnlyWeaken(st, r.st, node, [outs[0]], outs);
      } else {
        ScanFrame(r.st, node, info, outs[1..], force, r.todo, gate);
        CompiledOnlyTrans(st, r.st, ScanCompile(st, node, info, outs, force, todo, gate).st, node, [outs[0]], outs[1..]);
        assert [outs[0]] + outs[1..] == outs;
      }
    }
  }

  /** A component without outports compiles to setup alone; one without a `compile`
      dictionary throws 'Component is malformed' at its first outport, before any change. */
  lemma CompileDictionary(st: DagState, node: string, force: bool, op: Operation, r: Outcome)
    requires r == Compile(st, node, force, op) && NodeComponent(st, node).Ok?
    ensures NodeComponent(st, node).value.outports == [] ==> r == Outcome(Setup(st, node).value, None)
    ensures NodeComponent(st, node).value.compile.None? && NodeComponent(st, node).value.outports != [] ==>
              r == Outcome(Setup(st, node).value, Some(NoCompileDictionary))
  {
  }

  // ---------------------------------------------------------------- what compile computes

  /** The gate of an outport reads only its compiled record and the node's inport records. */
  lemma GateFrame(a: DagState, b: DagState, node: string, C: seq<string>, o: string)
    requires SetUp(a, node) && CompiledOnly(a, b, node, C)
    requires o in CacheOf(a, node).compiled
    requires MetaOf(b, node).cached.value.compiled[o] == CacheOf(a, node).compiled[o]
    ensures NeedsRecompilation(b, node, o) == NeedsRecompilation(a, node, o)
  {
    CompiledOnlySetUp(a, b, node, C);
    assert forall i :: GetCachedInport(b, node, i) == GetCachedInport(a, node, i);
    if NodeDepends(a, node, o).Ok? && CacheOf(a, node).compiled[o].staticChanged.Some? {
      AnyNewerSame(a, b, node, NodeDepends(a, node, o).value, CacheOf(a, node).compiled[o].staticChanged.value);
    }
  }

  /** The gate does not depend on whether setup has been persisted. */
  lemma GateSetup(st: DagState, node: string, o: string)
    requires NodeComponent(st, node).Ok?
    ensures NeedsRecompilation(Setup(st, node).value, node, o) == NeedsRecompilation(st, node, o)
  {
    var s := Setup(st, node).value;
    SetupInports(st, node);
    assert NodeDepends(s, node, o) == NodeDepends(st, node, o);
    if SetupView(st, node).value.cached.value.compiled.Keys >= {o} && CompiledStamp(st, node, o).Some? && NodeDepends(st, node, o).Ok? {
      AnyNewerSame(st, s, node, NodeDepends(st, node, o).value, CompiledStamp(st, node, o).value);
    }
  }

  /** The gate answers true for a record whose stamp was cleared. */
  ghost predicate OpensWhenCleared(gate: Gate, node: string) {
    forall s: DagState, o: string ::
      (NodeComponent(s, node).Ok? && MetaOf(s, node).cached.Some? && o in MetaOf(s, node).cached.value.compiled &&
       MetaOf(s, node).cached.value.compiled[o].staticChanged.None?) ==> gate(s, node, o) == Ok(true)
  }

  /** `needsRecompilation` is such a gate: setup keeps the cleared record. */
  lemma RecompilationOpens(node: string)
    ensures OpensWhenCleared(NeedsRecompilation, node)
  {
    forall s: DagState, o: string | NodeComponent(s, node).Ok? && MetaOf(s, node).cached.Some? && o in MetaOf(s, node).cached.value.compiled &&
                                   MetaOf(s, node).cached.value.compiled[o].staticChanged.None?
      ensures NeedsRecompilation(s, node, o) == Ok(true)
    {
      assert SetupView(s, node).value.cached.value.compiled[o] == MetaOf(s, node).cached.value.compiled[o];
    }
  }

  /** The outports of `outs` with a `compile` routine whose gate is open in `st`. */
  function StaleRouted(st: DagState, node: string, info: ComponentInfo, outs: seq<string>, gate: Gate): (r: seq<string>)
    ensures forall o :: o in r <==> o in outs && HasCompile(info, o) && gate(st, node, o) == Ok(true)
    ensures Distinct(outs) ==> Distinct(r)
  {
    if outs == [] then []
    else
      var rest := StaleRouted(st, node, info, outs[1..], gate);
      assert forall o :: o in outs <==> o == outs[0] || o in outs[1..];
      if HasCompile(info, outs[0]) && gate(st, node, outs[0]) == Ok(true) then [outs[0]] + rest else rest
  }

  /** The outports of `outs` with a `compile` routine. */
  function Routed(info: ComponentInfo, outs: seq<string>): (r: seq<string>)
    ensures forall o :: o in r <==> o in outs && HasCompile(info, o)
    ensures Distinct(outs) ==> Distinct(r)
  {
    if outs == [] then []
    else
      var rest := Routed(info, outs[1..]);
      assert forall o :: o in outs <==> o == outs[0] || o in outs[1..];
      if HasCompile(info, outs[0]) then [outs[0]] + rest else rest
  }

  lemma Associative(a: seq<string>, b: seq<string>, c: seq<string>)
    ensures a + (b + c) == (a + b) + c
  {
  }

  /** Without `force` the loop changes nothing. */
  lemma {:induction false} ScanUnforcedState(st: DagState, node: string, info: ComponentInfo, outs: seq<string>, todo: seq<string>, gate: Gate)
    requires HasRecords(st, node, outs)
    ensures ScanCompile(st, node, info, outs, false, todo, gate).st == st
    decreases |outs|
  {
    if outs != [] {
      var r := CompileStep(st, node, info, outs[0], false, todo, gate);
      if r.err.None? {
        ScanUnforcedState(st, node, info, outs[1..], r.todo, gate);
      }
    }
  }

  /** Without `force`, a loop that does not throw queues exactly the outports with a
      routine whose gate is open, in outport order. */
  lemma {:induction false} ScanUnforced(st: DagState, node: string, info: ComponentInfo, outs: seq<string>, todo: seq<string>, gate: Gate)
    requires HasRecords(st, node, outs)
    ensures ScanCompile(st, node, info, outs, false, todo, gate).err.None? ==>
              ScanCompile(st, node, info, outs, false, todo, gate).todo == todo + StaleRouted(st, node, info, outs, gate)
    decreases |outs|
  {
    if outs != [] {
      var r := CompileStep(st, node, info, outs[0], false, todo, gate);
      StepUnforced(st, node, info, outs[0], todo, gate);
      if r.err.None? {
        ScanUnforced(st, node, info, outs[1..], r.todo, gate);
        var head := if HasCompile(info, outs[0]) && gate(st, node, outs[0]) == Ok(true) then [outs[0]] else [];
        assert StaleRouted(st, node, info, outs, gate) == head + StaleRouted(st, node, info, outs[1..], gate);
        Associative(todo, head, StaleRouted(st, node, info, outs[1..], gate));
      }
    }
  }

  lemma StepUnforced(st: DagState, node: string, info: ComponentInfo, o: string, todo: seq<string>, gate: Gate)
    requires HasRecords(st, node, [o])
    ensures CompileStep(st, node, info, o, false, todo, gate).st == st
    ensures CompileStep(st, node, info, o, false, todo, gate).err.None? ==>
              CompileStep(st, node, info, o, false, todo, gate).todo ==
                todo + if HasCompile(info, o) && gate(st, node, o) == Ok(true) then [o] else []
  {
  }

  /** With `force` and a `compile` dictionary, an iteration clears the record, finds the
      gate open and queues the outport when it has a routine. */
  lemma StepForced(st: DagState, node: string, info: ComponentInfo, o: string, todo: seq<string>, gate: Gate)
    requires HasRecords(st, node, [o]) && NodeComponent(st, node).Ok? && info.compile.Some? && OpensWhenCleared(gate, node)
    ensures var r := CompileStep(st, node, info, o, true, todo, gate);
            && r.err.None?
            && r.todo == todo + (if HasCompile(info, o) then [o] else [])
            && NodeComponent(r.st, node) == NodeComponent(st, node)
  {
    var s := ForceStep(st, node, info, o, true);
    assert NodeComponent(s, node) == NodeComponent(st, node);
  }

  /** With `force` the loop throws only when the `compile` dictionary is missing. */
  lemma {:induction false} ScanForcedErr(st: DagState, node: string, info: ComponentInfo, outs: seq<string>, todo: seq<string>, gate: Gate)
    requires HasRecords(st, node, outs) && NodeComponent(st, node).Ok? && OpensWhenCleared(gate, node)
    ensures ScanCompile(st, node, info, outs, true, todo, gate).err.None? <==> outs == [] || info.compile.Some?
    decreases |outs|
  {
    if outs != [] && info.compile.Some? {
      var r := CompileStep(st, node, info, outs[0], true, todo, gate);
      StepForced(st, node, info, outs[0], todo, gate);
      ScanForcedErr(r.st, node, info, outs[1..], r.todo, gate);
    }
  }

  /** With `force` a loop that does not throw queues every outport with a routine. */
  lemma {:induction false} ScanForcedTodo(st: DagState, node: string, info: ComponentInfo, outs: seq<string>, todo: seq<string>, gate: Gate)
    requires HasRecords(st, node, outs) && NodeComponent(st, node).Ok? && OpensWhenCleared(gate, node)
    ensures ScanCompile(st, node, info, outs, true, todo, gate).err.None? ==>
              ScanCompile(st, node, info, outs, true, todo, gate).todo == todo + Routed(info, outs)
    decreases |outs|
  {
    if outs != [] && info.compile.Some? {
      var r := CompileStep(st, node, info, outs[0], true, todo, gate);
      StepForced(st, node, info, outs[0], todo, gate);
      ScanForcedTodo(r.st, node, info, outs[1..], r.todo, gate);
      var head := if HasCompile(info, outs[0]) then [outs[0]] else [];
      assert Routed(info, outs) == head + Routed(info, outs[1..]);
      Associative(todo, head, Routed(info, outs[1..]));
    }
  }

  /** With `force` and a `compile` dictionary the loop clears every visited compiled record. */
  lemma {:induction false} ScanForcedCleared(st: DagState, node: string, info: ComponentInfo, outs: seq<string>, todo: seq<string>, gate: Gate)
    requires HasRecords(st, node, outs) && NodeComponent(st, node).Ok? && info.compile.Some? && OpensWhenCleared(gate, node)
    ensures forall o :: o in outs ==>
              MetaOf(ScanCompile(st, node, info, outs, true, todo, gate).st, node).cached.value.compiled[o] ==
                Cleared(MetaOf(st, node).cached.value.compiled[o])
    decreases |outs|
  {
    if outs != [] {
      var r := CompileStep(st, node, info, outs[0], true, todo, gate);
      StepForced(st, node, info, outs[0], todo, gate);
      ScanForcedCleared(r.st, node, info, outs[1..], r.todo, gate);
      ScanFrame(r.st, node, info, outs[1..], true, r.todo, gate);
    }
  }

  /** The saves write each successful result into its outport's compiled record, stamped
      with the frame, and leave the records of failed routines as they were. */
  lemma {:induction false} SavedResults(st: DagState, node: string, todo: seq<string>, results: seq<Result<Value>>, k: nat)
    requires SetUp(st, node) && |results| == |todo| && forall o :: o in todo ==> o in CacheOf(st, node).compiled
    requires Distinct(todo) && k < |todo| && todo[k] in CacheOf(st, node).compiled
    ensures CacheOf(SaveResults(st, node, todo, results), node).compiled[todo[k]] ==
            if results[k].Ok? then CompiledCache(results[k].value, Some(st.frame), Some(st.frame)) else CacheOf(st, node).compiled[todo[k]]
    decreases |todo|
  {
    var s := SaveOne(st, node, todo[0], results[0]);
    assert SaveResults(st, node, todo, results) == SaveResults(s, node, todo[1..], results[1..]);
    if k == 0 {
      SavedHead(st, node, todo, results);
    } else {
      SavedStep(st, node, todo, results, k);
      SavedResults(s, node, todo[1..], results[1..], k - 1);
    }
  }

  /** The first save's record is kept by the saves after it. */
  lemma SavedHead(st: DagState, node: string, todo: seq<string>, results: seq<Result<Value>>)
    requires SetUp(st, node) && |results| == |todo| && forall o :: o in todo ==> o in CacheOf(st, node).compiled
    requires Distinct(todo) && 0 < |todo|
    ensures var s := SaveOne(st, node, todo[0], results[0]);
            CacheOf(SaveResults(s, node, todo[1..], results[1..]), node).compiled[todo[0]] ==
            if results[0].Ok? then CompiledCache(results[0].value, Some(st.frame), Some(st.frame)) else CacheOf(st, node).compiled[todo[0]]
  {
    assert todo[0] !in todo[1..];
  }

  /** After the first save, a later outport's record and the frame are as before, and the
      rest of the saves meet the conditions of `SavedResults`. */
  lemma SavedStep(st: DagState, node: string, todo: seq<string>, results: seq<Result<Value>>, k: nat)
    requires SetUp(st, node) && |results| == |todo| && forall o :: o in todo ==> o in CacheOf(st, node).compiled
    requires Distinct(todo) && 0 < k < |todo|
    ensures var s := SaveOne(st, node, todo[0], results[0]);
            && Distinct(todo[1..]) && todo[1..][k - 1] == todo[k] && results[1..][k - 1] == results[k]
            && (forall o :: o in todo[1..] ==> o in CacheOf(s, node).compiled)
            && CacheOf(s, node).compiled[todo[k]] == CacheOf(st, node).compiled[todo[k]] && s.frame == st.frame
  {
    assert todo[k] != todo[0];
  }

  // ---------------------------------------------------------------- compile, end to end

  /** The component declares each outport name once; the `outports` array may repeat a
      name, and the end-to-end lemmas assume it does not. */
  predicate DistinctOutports(st: DagState, node: string) {
    NodeComponent(st, node).Ok? && Distinct(OutportNames(NodeComponent(st, node).value.outports))
  }

  /** Without `force`, a `compile` that throws nothing runs the routine of each outport
      whose gate was open, on the set-up state, and saves its value stamped with the
      frame; every other compiled record stays as setup left it. */
  lemma CompileUnforced(st: DagState, node: string, op: Operation, o: string, r: Outcome)
    requires r == Compile(st, node, false, op) && r.err.None? && DistinctOutports(st, node)
    requires o in OutportNames(NodeComponent(st, node).value.outports)
    ensures var s := Setup(st, node).value;
            var result := op(ComponentOf(st, node), o, Ctx(s, node, o, Static));
            && (HasCompile(NodeComponent(st, node).value, o) && NeedsRecompilation(st, node, o) == Ok(true) ==>
                  result.Ok? && CacheOf(r.st, node).compiled[o] == CompiledCache(result.value, Some(st.frame), Some(st.frame)))
            && (!(HasCompile(NodeComponent(st, node).value, o) && NeedsRecompilation(st, node, o) == Ok(true)) ==>
                  CacheOf(r.st, node).compiled[o] == CacheOf(s, node).compiled[o])
  {
    var s := Setup(st, node).value;
    var info := NodeComponent(s, node).value;
    var scan := AfterScan(st, node, false);
    UnforcedScan(st, node);
    GateSetup(st, node, o);
    var results := CompileResults(s, node, ComponentOf(s, node), scan.todo, op);
    assert r.st == SaveResults(s, node, scan.todo, results);
    if o in scan.todo {
      var k :| 0 <= k < |scan.todo| && scan.todo[k] == o;
      SavedResults(s, node, scan.todo, results, k);
    }
  }

  /** Without `force` the loop of `compile` leaves the set-up state as it is and, when it
      does not throw, queues the outports with a routine whose gate is open. */
  lemma UnforcedScan(st: DagState, node: string)
    requires NodeComponent(st, node).Ok?
    ensures var s := Setup(st, node).value;
            var info := NodeComponent(s, node).value;
            var scan := AfterScan(st, node, false);
            && scan.st == s
            && (scan.err.None? ==> scan.todo == StaleRouted(s, node, info, OutportNames(info.outports), NeedsRecompilation))
  {
    var s := Setup(st, node).value;
    var info := NodeComponent(s, node).value;
    var outs := OutportNames(info.outports);
    SetUpRecords(s, node);
    ScanUnforcedState(s, node, info, outs, [], NeedsRecompilation);
    ScanUnforced(s, node, info, outs, [], NeedsRecompilation);
    assert [] + StaleRouted(s, node, info, outs, NeedsRecompilation) == StaleRouted(s, node, info, outs, NeedsRecompilation);
  }

  /** With `force` the loop of `compile` throws only when the `compile` dictionary is
      missing; otherwise it clears every compiled record and queues every outport with a
      routine, whatever the gates said before. */
  lemma ForcedScan(st: DagState, node: string)
    requires NodeComponent(st, node).Ok?
    ensures var s := Setup(st, node).value;
            var info := NodeComponent(s, node).value;
            var outs := OutportNames(info.outports);
            var scan := AfterScan(st, node, true);
            && (scan.err.None? <==> outs == [] || info.compile.Some?)
            && (scan.err.None? ==> scan.todo == Routed(info, outs))
            && (info.compile.Some? ==> forall o :: o in outs ==> CacheOf(scan.st, node).compiled[o] == Cleared(CacheOf(s, node).compiled[o]))
  {
    var s := Setup(st, node).value;
    var info := NodeComponent(s, node).value;
    var outs := OutportNames(info.outports);
    SetUpRecords(s, node);
    RecompilationOpens(node);
    ScanForcedErr(s, node, info, outs, [], NeedsRecompilation);
    ScanForcedTodo(s, node, info, outs, [], NeedsRecompilation);
    assert [] + Routed(info, outs) == Routed(info, outs);
    if info.compile.Some? {
      ScanForcedCleared(s, node, info, outs, [], NeedsRecompilation);
    }
  }

  /** With `force`, a `compile` that throws nothing runs every routine on the cleared
      state the loop left and saves its value stamped with the frame; an outport without
      a routine keeps its cleared record. */
  lemma CompileForced(st: DagState, node: string, op: Operation, o: string, r: Outcome)
    requires r == Compile(st, node, true, op) && r.err.None? && DistinctOutports(st, node)
    requires o in OutportNames(NodeComponent(st, node).value.outports)
    ensures NodeComponent(st, node).value.compile.Some?
    ensures var sc := AfterScan(st, node, true).st;
            var result := op(ComponentOf(st, node), o, Ctx(sc, node, o, Static));
            && (HasCompile(NodeComponent(st, node).value, o) ==>
                  result.Ok? && CacheOf(r.st, node).compiled[o] == CompiledCache(result.value, Some(st.frame), Some(st.frame)))
            && (!HasCompile(NodeComponent(st, node).value, o) ==>
                  CacheOf(r.st, node).compiled[o] == Cleared(CacheOf(Setup(st, node).value, node).compiled[o]))
  {
    var s := Setup(st, node).value;
    var info := NodeComponent(s, node).value;
    var scan := AfterScan(st, node, true);
    ForcedScan(st, node);
    assert NodeComponent(s, node) == NodeComponent(st, node);
    assert ComponentOf(s, node) == ComponentOf(st, node);
    assert scan.err.None?;
    var results := CompileResults(scan.st, node, ComponentOf(st, node), scan.todo, op);
    assert r.st == SaveResults(scan.st, node, scan.todo, results);
    assert FirstError(results).None?;
    if o in scan.todo {
      var k :| 0 <= k < |scan.todo| && scan.todo[k] == o;
      assert results[k] == op(ComponentOf(st, node), o, Ctx(scan.st, node, o, Static)) && results[k].Ok?;
      SavedResults(scan.st, node, scan.todo, results, k);
    }
  }

  /** A compiled record stamped with `f`, between states that differ only in compiled
      records: the gate compares the dependencies with `f`. */
  lemma StampedGate(a: DagState, b: DagState, node: string, C: seq<string>, o: string, f: int)
    requires SetUp(a, node) && CompiledOnly(a, b, node, C) && o in CacheOf(a, node).compiled
    requires MetaOf(b, node).cached.value.compiled[o].staticChanged == Some(f) && NodeDepends(a, node, o).Ok?
    ensures NeedsRecompilation(b, node, o) == AnyNewer(a, node, NodeDepends(a, node, o).value, f)
  {
    CompiledOnlySetUp(a, b, node, C);
    assert forall i :: GetCachedInport(b, node, i) == GetCachedInport(a, node, i);
    AnyNewerSame(a, b, node, NodeDepends(a, node, o).value, f);
  }

  /** After a `compile` that throws nothing, an outport whose routine ran is fresh: its
      gate is open again only when a dependency's cached inport changed statically after
      the frame of the compilation. Without `force` the routine ran when the gate was open. */
  lemma CompileFresh(st: DagState, node: string, op: Operation, o: string, r: Outcome)
    requires r == Compile(st, node, false, op) && r.err.None? && DistinctOutports(st, node)
    requires o in OutportNames(NodeComponent(st, node).value.outports) && HasCompile(NodeComponent(st, node).value, o)
    requires NeedsRecompilation(st, node, o) == Ok(true)
    ensures NodeDepends(st, node, o).Ok? ==>
              NeedsRecompilation(r.st, node, o) == AnyNewer(st, node, NodeDepends(st, node, o).value, st.frame)
  {
    StampedAndFramed(st, node, false, op, o, r);
    StampedFresh(st, r.st, node, o);
  }

  /** With `force` every outport with a routine is fresh after a `compile` that throws nothing. */
  lemma CompileForcedFresh(st: DagState, node: string, op: Operation, o: string, r: Outcome)
    requires r == Compile(st, node, true, op) && r.err.None? && DistinctOutports(st, node)
    requires o in OutportNames(NodeComponent(st, node).value.outports) && HasCompile(NodeComponent(st, node).value, o)
    ensures NodeDepends(st, node, o).Ok? ==>
              NeedsRecompilation(r.st, node, o) == AnyNewer(st, node, NodeDepends(st, node, o).value, st.frame)
  {
    StampedAndFramed(st, node, true, op, o, r);
    StampedFresh(st, r.st, node, o);
  }

  lemma StampedAndFramed(st: DagState, node: string, force: bool, op: Operation, o: string, r: Outcome)
    requires r == Compile(st, node, force, op) && r.err.None? && DistinctOutports(st, node)
    requires o in OutportNames(NodeComponent(st, node).value.outports) && HasCompile(NodeComponent(st, node).value, o)
    requires force || NeedsRecompilation(st, node, o) == Ok(true)
    ensures CompiledOnly(Setup(st, node).value, r.st, node, OutportNames(NodeComponent(st, node).value.outports))
    ensures MetaOf(r.st, node).cached.value.compiled[o].staticChanged == Some(st.frame)
  {
    CompileStamped(st, node, force, op, o, r);
    CompileFrame(st, node, force, op, r);
  }

  lemma StampedFresh(st: DagState, b: DagState, node: string, o: string)
    requires NodeComponent(st, node).Ok? && o in OutportNames(NodeComponent(st, node).value.outports)
    requires CompiledOnly(Setup(st, node).value, b, node, OutportNames(NodeComponent(st, node).value.outports))
    requires MetaOf(b, node).cached.value.compiled[o].staticChanged == Some(st.frame)
    ensures NodeDepends(st, node, o).Ok? ==>
              NeedsRecompilation(b, node, o) == AnyNewer(st, node, NodeDepends(st, node, o).value, st.frame)
  {
    var s := Setup(st, node).value;
    var outs := OutportNames(NodeComponent(st, node).value.outports);
    SetUpRecords(s, node);
    assert NodeDepends(s, node, o) == NodeDepends(st, node, o);
    if NodeDepends(st, node, o).Ok? {
      StampedGate(s, b, node, outs, o, st.frame);
      SetupInports(st, node);
      AnyNewerSame(st, s, node, NodeDepends(st, node, o).value, st.frame);
    }
  }

  /** After a `compile` that throws nothing, the compiled record of an outport whose
      routine ran carries the frame of the compilation. */
  lemma CompileStamped(st: DagState, node: string, force: bool, op: Operation, o: string, r: Outcome)
    requires r == Compile(st, node, force, op) && r.err.None? && DistinctOutports(st, node)
    requires o in OutportNames(NodeComponent(st, node).value.outports) && HasCompile(NodeComponent(st, node).value, o)
    requires force || NeedsRecompilation(st, node, o) == Ok(true)
    ensures CacheOf(r.st, node).compiled[o].staticChanged == Some(st.frame)
  {
    if force {
      CompileForced(st, node, op, o, r);
    } else {
      CompileUnforced(st, node, op, o, r);
    }
  }

  /** Without `force`, an outport whose routine did not run keeps its gate's answer. */
  lemma CompileKeepsGate(st: DagState, node: string, op: Operation, o: string, r: Outcome)
    requires r == Compile(st, node, false, op) && r.err.None? && DistinctOutports(st, node)
    requires o in OutportNames(NodeComponent(st, node).value.outports)
    requires !(HasCompile(NodeComponent(st, node).value, o) && NeedsRecompilation(st, node, o) == Ok(true))
    ensures NeedsRecompilation(r.st, node, o) == NeedsRecompilation(st, node, o)
  {
    var s := Setup(st, node).value;
    var info := NodeComponent(s, node).value;
    var outs := OutportNames(info.outports);
    CompileUnforced(st, node, op, o, r);
    CompileFrame(st, node, false, op, r);
    SetUpRecords(s, node);
    GateFrame(s, r.st, node, outs, o);
    GateSetup(st, node, o);
  }
}
