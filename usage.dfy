/** Usage resolution: how the DAG classifies an inport or an outport as static or
    dynamic (`connectedInportUsage`, `effectiveInportUsage`, `effectiveOutportUsage`),
    and the source fingerprint of an inport (`evaluateInportSource`). */
module Resolution {
  import opened Base
  import opened Graph
  import opened Components
  import opened Store

  /** `connectedInportUsage` (lines 487-498): the cached usage of the outport wired into
      the inport. Without a connection the destructuring of `undefined` throws. The
      'No cached output usage!' error is never thrown, because an outport record that
      holds data always holds a usage. */
  function ConnectedInportUsage(st: DagState, node: string, inport: string): (r: Result<Usage>)
    ensures GetInportConnection(st.graph, node, inport).None? ==> r == Err(TypeError)
    ensures GetInportConnection(st.graph, node, inport).Some? ==>
              var (n, p) := GetInportConnection(st.graph, node, inport).value;
              (r.Ok? <==> GetCachedOutport(st, n, p).Ok?) &&
              (r.Ok? ==> Some(r.value) == GetCachedOutport(st, n, p).value.usage) &&
              (r.Err? ==> r.error == GetCachedOutport(st, n, p).error)
    ensures r != Err(NoCachedOutputUsage(inport))
  {
    var conn := GetInportConnection(st.graph, node, inport);
    if conn.None? then Err(TypeError)
    else
      var c :- GetCachedOutport(st, conn.value.0, conn.value.1);
      if c.usage.None? then Err(NoCachedOutputUsage(inport)) else Ok(c.usage.value)
  }

  /** The inport carries an attached value: `hasAttached` holds. */
  predicate Attached(st: DagState, node: string, inport: string) {
    HasAttached(st, node, inport) == Ok(true)
  }

  /** `effectiveInportUsage` (lines 500-525). A declared 'static' or 'dynamic' usage is
      returned as declared. An 'inherit' or undeclared usage takes the attachment's usage
      when a value is attached (checked before the edge), else the cached usage of the
      connected outport, else 'static'. Any other declared usage throws. */
  function EffectiveInportUsage(st: DagState, node: string, inport: string): (r: Result<Usage>)
    ensures r.Ok? ==> CheckInport(st, node, inport).Ok?
    ensures CheckInport(st, node, inport).Err? ==> r == Err(CheckInport(st, node, inport).error)
    ensures CheckInport(st, node, inport).Ok? ==>
              var declared := CheckInport(st, node, inport).value.usage;
              && (declared == Some("static") ==> r == Ok(Static))
              && (declared == Some("dynamic") ==> r == Ok(Dynamic))
              && (declared.Some? && declared.value !in {"static", "dynamic", "inherit"} ==> r == Err(InvalidUsage(declared.value)))
              && (declared.None? || declared == Some("inherit") ==>
                    && (Attached(st, node, inport) ==>
                          r == (var u := GetAttached(st, node, inport).value.usage; if u.Some? then Ok(u.value) else Err(AssertionFailed)))
                    && (!Attached(st, node, inport) && HasInportConnection(st.graph, node, inport) ==>
                          r == ConnectedInportUsage(st, node, inport))
                    && (!Attached(st, node, inport) && !HasInportConnection(st.graph, node, inport) ==> r == Ok(Static)))
  {
    var info :- CheckInport(st, node, inport);
    if info.usage == Some("static") then Ok(Static)
    else if info.usage == Some("dynamic") then Ok(Dynamic)
    else if info.usage.None? || info.usage == Some("inherit") then
      if HasAttached(st, node, inport).value then
        var a := GetAttached(st, node, inport).value;
        if a.usage.None? then Err(AssertionFailed) else Ok(a.usage.value)
      else if HasInportConnection(st.graph, node, inport) then
        ConnectedInportUsage(st, node, inport)
      else Ok(Static)
    else Err(InvalidUsage(info.usage.value))
  }

  /** A dependency that makes an inheriting outport dynamic: it is attached with usage
      'dynamic', or it is connected and its effective usage is 'dynamic'. A dependency
      with neither an attachment nor a connection never does, whatever its declared usage. */
  ghost predicate DynamicDep(st: DagState, node: string, inport: string) {
    || (Attached(st, node, inport) && GetAttached(st, node, inport).Ok? && GetAttached(st, node, inport).value.usage == Some(Dynamic))
    || (HasInportConnection(st.graph, node, inport) && EffectiveInportUsage(st, node, inport) == Ok(Dynamic))
  }

  /** The queries the dependency loop makes about one dependency all succeed. */
  ghost predicate DepReadable(st: DagState, node: string, inport: string) {
    HasAttached(st, node, inport).Ok? &&
    (HasInportConnection(st.graph, node, inport) ==> EffectiveInportUsage(st, node, inport).Ok?)
  }

  /** The loop of lines 541-559: 'dynamic' as soon as one dependency is dynamic, 'static'
      when none is. */
  function DependsUsage(st: DagState, node: string, deps: seq<string>): (r: Result<Usage>)
    ensures r == Ok(Dynamic) ==> exists k :: 0 <= k < |deps| && DynamicDep(st, node, deps[k])
    ensures r == Ok(Static) ==> forall k :: 0 <= k < |deps| ==> !DynamicDep(st, node, deps[k])
    ensures (forall k :: 0 <= k < |deps| ==> DepReadable(st, node, deps[k])) ==> r.Ok?
    decreases |deps|, 1
  {
    if deps == [] then Ok(Static)
    else
      var inport := deps[0];
      var attached :- HasAttached(st, node, inport);
      var a := GetAttached(st, node, inport);
      if attached && a.Ok? && a.value.usage == Some(Dynamic) then
        Ok(Dynamic)
      else if HasInportConnection(st.graph, node, inport) then
        var u :- EffectiveInportUsage(st, node, inport);
        if u == Dynamic then Ok(Dynamic) else DependsUsageRest(st, node, deps)
      else DependsUsageRest(st, node, deps)
  }

  /** The rest of the loop once the first dependency turned out not to be dynamic. */
  function DependsUsageRest(st: DagState, node: string, deps: seq<string>): (r: Result<Usage>)
    requires deps != [] && !DynamicDep(st, node, deps[0])
    ensures r == Ok(Dynamic) ==> exists k :: 0 <= k < |deps| && DynamicDep(st, node, deps[k])
    ensures r == Ok(Static) ==> forall k :: 0 <= k < |deps| ==> !DynamicDep(st, node, deps[k])
    ensures (forall k :: 1 <= k < |deps| ==> DepReadable(st, node, deps[k])) ==> r.Ok?
    decreases |deps|, 0
  {
    var r := DependsUsage(st, node, deps[1..]);
    assert forall k :: 1 <= k < |deps| ==> deps[k] == deps[1..][k - 1];
    if r == Ok(Dynamic) then
      ghost var k :| 0 <= k < |deps[1..]| && DynamicDep(st, node, deps[1..][k]);
      assert DynamicDep(st, node, deps[k + 1]);
      r
    else r
  }

  /** `effectiveOutportUsage` (lines 527-562). A declared 'static' or 'dynamic' usage is
      returned as declared; an 'inherit' or undeclared usage with no dependency throws;
      otherwise the usage is 'dynamic' exactly when some dependency is (DynamicDep). */
  function EffectiveOutportUsage(st: DagState, node: string, outport: string): (r: Result<Usage>)
    ensures NodeComponent(st, node).Err? ==> r == Err(NodeComponent(st, node).error)
    ensures NodeComponent(st, node).Ok? ==>
              var info := NodeComponent(st, node).value;
              && (ComponentOutportInfo(info, outport).Err? ==> r == Err(NoSuchOutport(outport)))
              && (ComponentOutportInfo(info, outport).Ok? ==>
                    var declared := ComponentOutportInfo(info, outport).value.usage;
                    && (declared == Some("static") ==> r == Ok(Static))
                    && (declared == Some("dynamic") ==> r == Ok(Dynamic))
                    && (declared.Some? && declared.value !in {"static", "dynamic", "inherit"} ==> r == Err(InvalidUsage(declared.value)))
                    && (declared.None? || declared == Some("inherit") ==>
                          && (Depends(info, outport) == Ok([]) ==> r == Err(InheritWithoutDepends(outport)))
                          && (Depends(info, outport).Ok? && Depends(info, outport).value != [] ==>
                                var deps := Depends(info, outport).value;
                                && (r == Ok(Dynamic) ==> exists k :: 0 <= k < |deps| && DynamicDep(st, node, deps[k]))
                                && (r == Ok(Static) ==> forall k :: 0 <= k < |deps| ==> !DynamicDep(st, node, deps[k]))
                                && ((forall k :: 0 <= k < |deps| ==> DepReadable(st, node, deps[k])) ==> r.Ok?))))
  {
    var info :- NodeComponent(st, node);
    var o :- ComponentOutportInfo(info, outport);
    if o.usage == Some("static") then Ok(Static)
    else if o.usage == Some("dynamic") then Ok(Dynamic)
    else if o.usage.None? || o.usage == Some("inherit") then
      var deps :- Depends(info, outport);
      if deps == [] then Err(InheritWithoutDepends(outport))
      else DependsUsage(st, node, deps)
    else Err(InvalidUsage(o.usage.value))
  }

  /** `evaluateInportSource` (lines 651-661): a fingerprint of where the inport's value
      comes from. The edge is checked before the attachment. */
  function EvaluateInportSource(st: DagState, node: string, inport: string): (r: Result<string>)
    ensures GetInportConnection(st.graph, node, inport).Some? ==>
              var (n, p) := GetInportConnection(st.graph, node, inport).value;
              r == Ok("-" + n + "-" + p + "-" + node + "-" + inport)
    ensures !HasInportConnection(st.graph, node, inport) ==>
              r == (match HasAttached(st, node, inport)
                    case Err(e) => Err(e)
                    case Ok(b) => Ok(if b then "attached-" + node + "-" + inport else "none"))
    ensures r == Ok("none") <==> !HasInportConnection(st.graph, node, inport) && HasAttached(st, node, inport) == Ok(false)
  {
    var conn := GetInportConnection(st.graph, node, inport);
    if conn.Some? then
      var s := "-" + conn.value.0 + "-" + conn.value.1 + "-" + node + "-" + inport;
      assert s[0] == '-';
      Ok(s)
    else
      var attached :- HasAttached(st, node, inport);
      if attached then
        var s := "attached-" + node + "-" + inport;
        assert s[0] == 'a';
        Ok(s)
      else Ok("none")
  }

  /** The inputs usage resolution reads are the same in two states: the graph, the
      components, every attachment view, and the cached outports of every node outside
      `changed`. */
  ghost predicate SameInputs(st: DagState, st': DagState, changed: set<string>) {
    && st'.graph == st.graph && st'.components == st.components
    && (forall x, i :: GetAttached(st', x, i) == GetAttached(st, x, i))
    && (forall x, p :: x !in changed ==> GetCachedOutport(st', x, p) == GetCachedOutport(st, x, p))
  }

  /** No edge into `node` leaves a node of `changed`. */
  predicate NotFedBy(g: Graph, changed: set<string>, node: string) {
    forall k :: 0 <= k < |g.edges| && g.edges[k].toNode == node ==> g.edges[k].fromNode !in changed
  }

  lemma InportUsageFrame(st: DagState, st': DagState, changed: set<string>, node: string, inport: string)
    requires SameInputs(st, st', changed) && NotFedBy(st.graph, changed, node)
    ensures EffectiveInportUsage(st', node, inport) == EffectiveInportUsage(st, node, inport)
  {
    assert NodeComponent(st', node) == NodeComponent(st, node);
    assert CheckInport(st', node, inport) == CheckInport(st, node, inport);
    assert HasAttached(st', node, inport) == HasAttached(st, node, inport);
    assert GetAttached(st', node, inport) == GetAttached(st, node, inport);
    ConnectedFrame(st, st', changed, node, inport);
  }

  lemma ConnectedFrame(st: DagState, st': DagState, changed: set<string>, node: string, inport: string)
    requires SameInputs(st, st', changed) && NotFedBy(st.graph, changed, node)
    ensures ConnectedInportUsage(st', node, inport) == ConnectedInportUsage(st, node, inport)
  {
    var k := FirstEdgeInto(st.graph.edges, node, inport);
    if k < |st.graph.edges| {
      var e := st.graph.edges[k];
      assert e.toNode == node;
      assert GetCachedOutport(st', e.fromNode, e.fromPort) == GetCachedOutport(st, e.fromNode, e.fromPort);
    }
  }

  lemma {:induction false} DependsUsageFrame(st: DagState, st': DagState, changed: set<string>, node: string, deps: seq<string>)
    requires SameInputs(st, st', changed) && NotFedBy(st.graph, changed, node)
    ensures DependsUsage(st', node, deps) == DependsUsage(st, node, deps)
    decreases |deps|
  {
    if deps != [] {
      assert NodeComponent(st', node) == NodeComponent(st, node);
      assert GetAttached(st', node, deps[0]) == GetAttached(st, node, deps[0]);
      InportUsageFrame(st, st', changed, node, deps[0]);
      DependsUsageFrame(st, st', changed, node, deps[1..]);
    }
  }

  /** Usage resolution of a node reads nothing that changes outside SameInputs, and
      only the cached outports of nodes wired into it. */
  lemma OutportUsageFrame(st: DagState, st': DagState, changed: set<string>, node: string, outport: string)
    requires SameInputs(st, st', changed) && NotFedBy(st.graph, changed, node)
    ensures EffectiveOutportUsage(st', node, outport) == EffectiveOutportUsage(st, node, outport)
  {
    assert NodeComponent(st', node) == NodeComponent(st, node);
    if NodeComponent(st, node).Ok? {
      var deps := Depends(NodeComponent(st, node).value, outport);
      if deps.Ok? {
        DependsUsageFrame(st, st', changed, node, deps.value);
      }
    }
  }

  lemma SourceFrame(st: DagState, st': DagState, changed: set<string>, node: string, inport: string)
    requires SameInputs(st, st', changed)
    ensures EvaluateInportSource(st', node, inport) == EvaluateInportSource(st, node, inport)
  {
    assert NodeComponent(st', node) == NodeComponent(st, node);
  }
}
