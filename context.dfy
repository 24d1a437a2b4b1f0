/** `NodeExecutionContext` (lines 126-236): what a component operation may read while
    a node's outport is compiled or executed. Every inport read goes through
    `checkInport`, so an operation can read only the declared dependencies of its outport. */
module Context {
  import opened Base
  import opened Components
  import Graph
  import opened Store
  import opened Resolution

  /** The context of one outport of one node, at the static or dynamic runtime. */
  datatype Ctx = Ctx(st: DagState, node: string, outport: string, runtime: Usage)

  /** The read is allowed: the outport's `depends` can be computed, the component has the
      inport, and the inport is one of the dependencies. */
  predicate ReadAllowed(ctx: Ctx, inport: string) {
    && NodeDepends(ctx.st, ctx.node, ctx.outport).Ok?
    && inport in NodeDepends(ctx.st, ctx.node, ctx.outport).value
    && HasInport(NodeComponent(ctx.st, ctx.node).value, inport)
  }

  /** `checkInport` of the context (lines 152-165). */
  function CheckRead(ctx: Ctx, inport: string): (r: Result<()>)
    ensures r.Ok? <==> ReadAllowed(ctx, inport)
    ensures r.Ok? ==> GetCachedInport(ctx.st, ctx.node, inport).Ok?
    ensures NodeDepends(ctx.st, ctx.node, ctx.outport).Err? ==> r == Err(NodeDepends(ctx.st, ctx.node, ctx.outport).error)
    ensures NodeDepends(ctx.st, ctx.node, ctx.outport).Ok? && !HasInport(NodeComponent(ctx.st, ctx.node).value, inport) ==>
              r == Err(ContextNoSuchInport(inport))
    ensures (NodeDepends(ctx.st, ctx.node, ctx.outport).Ok? && HasInport(NodeComponent(ctx.st, ctx.node).value, inport) &&
             inport !in NodeDepends(ctx.st, ctx.node, ctx.outport).value) ==> r == Err(ContextNotDependent(inport))
  {
    var deps :- NodeDepends(ctx.st, ctx.node, ctx.outport);
    var info := NodeComponent(ctx.st, ctx.node).value;
    if !HasInport(info, inport) then Err(ContextNoSuchInport(inport))
    else if inport !in deps then Err(ContextNotDependent(inport))
    else Ok(())
  }

  /** The cached inport record a permitted read sees. */
  function Cached(ctx: Ctx, inport: string): InportCache
    requires ReadAllowed(ctx, inport)
  {
    assert CheckRead(ctx, inport).Ok?;
    GetCachedInport(ctx.st, ctx.node, inport).value
  }

  /** `usage` (lines 167-176): the cached usage of a dependency. */
  function ReadUsage(ctx: Ctx, inport: string): (r: Result<Option<Usage>>)
    ensures r.Ok? <==> ReadAllowed(ctx, inport)
    ensures r.Ok? ==> r.value == Cached(ctx, inport).usage
  {
    var _ :- CheckRead(ctx, inport);
    Ok(Cached(ctx, inport).usage)
  }

  /** `connected` (lines 178-187): the cached source is not 'none'. A record never
      pulled (source `undefined`) counts as connected. */
  function Connected(ctx: Ctx, inport: string): (r: Result<bool>)
    ensures r.Ok? <==> ReadAllowed(ctx, inport)
    ensures r.Ok? ==> (r.value <==> Cached(ctx, inport).source != Some("none"))
  {
    var _ :- CheckRead(ctx, inport);
    Ok(Cached(ctx, inport).source != Some("none"))
  }

  /** `evaluate` (lines 222-236): the cached value, except that at the static runtime an
      inport cached as dynamic reads as `undefined`. */
  function Evaluate(ctx: Ctx, inport: string): (r: Result<Value>)
    ensures r.Ok? <==> ReadAllowed(ctx, inport)
    ensures r.Ok? && ctx.runtime == Static && Cached(ctx, inport).usage == Some(Dynamic) ==> r.value == Undefined
    ensures r.Ok? && !(ctx.runtime == Static && Cached(ctx, inport).usage == Some(Dynamic)) ==> r.value == Cached(ctx, inport).value
  {
    var _ :- CheckRead(ctx, inport);
    var c := Cached(ctx, inport);
    if ctx.runtime == Static && c.usage == Some(Dynamic) then Ok(Undefined) else Ok(c.value)
  }

  /** `require` (lines 189-200): evaluate a dependency that must be connected. */
  function Require(ctx: Ctx, inport: string): (r: Result<Value>)
    ensures r.Ok? ==> ReadAllowed(ctx, inport) && Cached(ctx, inport).source != Some("none")
    ensures !ReadAllowed(ctx, inport) ==> r == Err(CheckRead(ctx, inport).error)
    ensures ReadAllowed(ctx, inport) && Cached(ctx, inport).source == Some("none") ==> r == Err(NotConnected(inport))
    ensures r.Ok? ==> r == Evaluate(ctx, inport)
  {
    var _ :- CheckRead(ctx, inport);
    if !Connected(ctx, inport).value then Err(NotConnected(inport))
    else Evaluate(ctx, inport)
  }

  /** `statically` (lines 205-220): like `require`, and the inport's effective usage must
      be 'static'. */
  function Statically(ctx: Ctx, inport: string): (r: Result<Value>)
    ensures r.Ok? ==> ReadAllowed(ctx, inport) && Cached(ctx, inport).source != Some("none")
    ensures r.Ok? ==> EffectiveInportUsage(ctx.st, ctx.node, inport) == Ok(Static)
    ensures !ReadAllowed(ctx, inport) ==> r == Err(CheckRead(ctx, inport).error)
    ensures ReadAllowed(ctx, inport) && Cached(ctx, inport).source == Some("none") ==> r == Err(NotConnected(inport))
    ensures (ReadAllowed(ctx, inport) && Cached(ctx, inport).source != Some("none") &&
             EffectiveInportUsage(ctx.st, ctx.node, inport).Ok? && EffectiveInportUsage(ctx.st, ctx.node, inport) != Ok(Static)) ==>
              r == Err(NotStatic(inport))
    ensures r.Ok? ==> r == Evaluate(ctx, inport)
  {
    var _ :- CheckRead(ctx, inport);
    if !Connected(ctx, inport).value then Err(NotConnected(inport))
    else
      var usage :- EffectiveInportUsage(ctx.st, ctx.node, inport);
      if usage != Static then Err(NotStatic(inport))
      else Evaluate(ctx, inport)
  }

  /** `compiled` (lines 136-150): the compiled value of an outport of the node (the
      context's own by default), read from the metadata without setup. */
  function Compiled(ctx: Ctx, outport: Option<string>): (r: Result<Value>)
    ensures var o := if outport.None? then ctx.outport else outport.value;
            var m := MetaOf(ctx.st, ctx.node);
            && (r.Ok? <==> Graph.FindNode(ctx.st.graph.nodes, ctx.node).Some? && m.cached.Some? && o in m.cached.value.compiled)
            && (r.Ok? ==> r.value == m.cached.value.compiled[o].value)
  {
    var o := if outport.None? then ctx.outport else outport.value;
    if Graph.FindNode(ctx.st.graph.nodes, ctx.node).None? then Err(NoSuchNode(ctx.node))
    else
      var m := MetaOf(ctx.st, ctx.node);
      if m.cached.None? || o !in m.cached.value.compiled then Err(NoCompiledValue(o))
      else Ok(m.cached.value.compiled[o].value)
  }
}
