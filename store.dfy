/** The per-node metadata of the DAG: the cached inport, compiled and outport records,
    the attachment records, the `metadata({node, setup})` view, and the lookups that read
    them (`getCachedOutport`, `getCachedInport`, `getAttached`, `hasAttached`). */
module Store {
  import opened Base
  import opened Graph
  import opened Components

  /** `metadata.cached.inports[inport]`; a field JavaScript leaves `undefined` is `None`. */
  datatype InportCache = InportCache(usage: Option<Usage>, source: Option<string>, value: Value,
                                     staticChanged: Option<int>, valueChanged: Option<int>, checked: Option<int>)

  const BlankInport := InportCache(None, None, Undefined, None, None, None)

  /** `metadata.cached.compiled[outport]`. */
  datatype CompiledCache = CompiledCache(value: Value, staticChanged: Option<int>, checked: Option<int>)

  const BlankCompiled := CompiledCache(Undefined, None, None)

  datatype OutportRecord = OutportRecord(value: Value, usage: Option<Usage>, valueChanged: Option<int>,
                                         staticChanged: Option<int>, checked: Option<int>)

  /** `metadata.cached.outports[outport]`. Every writer that sets `staticChanged`
      (staticSave) also sets `usage` and `valueChanged`, and the only writers that clear
      `usage` or `valueChanged` (the `force` reset) clear `staticChanged` too. */
  type OutportCache = c: OutportRecord | c.staticChanged.Some? ==> c.usage.Some? && c.valueChanged.Some?
    witness OutportRecord(Undefined, None, None, None, None)

  const BlankOutport: OutportCache := OutportRecord(Undefined, None, None, None, None)

  /** `metadata.attached[inport]`: the empty record `{}` setup creates, or the record
      `setAttached` writes. */
  datatype AttachRec = Blank | Attach(value: Value, usage: Usage, valueChanged: int, staticChanged: int)

  datatype Cache = Cache(inports: map<string, InportCache>, compiled: map<string, CompiledCache>,
                         outports: map<string, OutportCache>)

  /** A node's `metadata`: `cached` and `attached` are `None` while `undefined`. */
  datatype Metadata = Metadata(cached: Option<Cache>, attached: Option<map<string, AttachRec>>)

  /** The state the DAG object reads and writes: the graph, the component table, each
      node's metadata and the frame counter. A node without an entry in `meta` has the
      empty metadata `{}`. */
  datatype DagState = DagState(graph: Graph, components: Components, meta: map<string, Metadata>, frame: int)

  function MetaOf(st: DagState, node: string): Metadata {
    if node in st.meta then st.meta[node] else Metadata(None, None)
  }

  /** `componentInfo({node})`: the node's component, throwing when the node or the
      component is unknown. */
  function NodeComponent(st: DagState, node: string): (r: Result<ComponentInfo>)
    ensures FindNode(st.graph.nodes, node).None? ==> r == Err(NoSuchNode(node))
    ensures r.Ok? <==> FindNode(st.graph.nodes, node).Some? && FindNode(st.graph.nodes, node).value.component in st.components
    ensures r.Ok? ==> r.value == st.components[FindNode(st.graph.nodes, node).value.component]
  {
    var n := FindNode(st.graph.nodes, node);
    if n.None? then Err(NoSuchNode(node))
    else if n.value.component !in st.components then Err(NoSuchComponent(n.value.component))
    else Ok(st.components[n.value.component])
  }

  /** A map with a `blank` entry added for every name it lacks. */
  function Fill<V>(m: map<string, V>, names: seq<string>, blank: V): (r: map<string, V>)
    ensures r.Keys == m.Keys + Members(names)
    ensures forall k :: k in m ==> r[k] == m[k]
    ensures forall k :: k in r && k !in m ==> r[k] == blank
    ensures Members(names) <= m.Keys ==> r == m
  {
    map k | k in m.Keys + Members(names) :: if k in m then m[k] else blank
  }

  /** Metadata that setup would leave as it is: `cached` and `attached` exist and hold an
      entry for every port of the component. */
  predicate Prepared(m: Metadata, info: ComponentInfo) {
    && m.cached.Some? && m.attached.Some?
    && Members(InportNames(info.inports)) <= m.attached.value.Keys
    && Members(InportNames(info.inports)) <= m.cached.value.inports.Keys
    && Members(OutportNames(info.outports)) <= m.cached.value.compiled.Keys
    && Members(OutportNames(info.outports)) <= m.cached.value.outports.Keys
  }

  /** Every record of `m` is still in `r`, unchanged. */
  predicate Kept(m: Metadata, r: Metadata) {
    && (m.cached.Some? ==> && r.cached.Some?
                           && SubMap(m.cached.value.inports, r.cached.value.inports)
                           && SubMap(m.cached.value.compiled, r.cached.value.compiled)
                           && SubMap(m.cached.value.outports, r.cached.value.outports))
    && (m.attached.Some? ==> r.attached.Some? && SubMap(m.attached.value, r.attached.value))
  }

  predicate SubMap<V(==)>(a: map<string, V>, b: map<string, V>) {
    forall k :: k in a ==> k in b && b[k] == a[k]
  }

  /** `metadata({node, setup: true})` (lines 437-477) on one node's metadata: it creates
      the missing containers and an empty record for every missing port. */
  function SetupMeta(m: Metadata, info: ComponentInfo): (r: Metadata)
    ensures Prepared(r, info)
    ensures Prepared(m, info) ==> r == m
    ensures Kept(m, r)
  {
    var c := if m.cached.Some? then m.cached.value else Cache(map[], map[], map[]);
    var a := if m.attached.Some? then m.attached.value else map[];
    var ins := InportNames(info.inports);
    var outs := OutportNames(info.outports);
    Metadata(Some(Cache(Fill(c.inports, ins, BlankInport), Fill(c.compiled, outs, BlankCompiled),
                        Fill(c.outports, outs, BlankOutport))),
             Some(Fill(a, ins, Blank)))
  }

  /** The node's metadata as `metadata({node, setup: true})` returns it. */
  function SetupView(st: DagState, node: string): (r: Result<Metadata>)
    ensures r.Ok? <==> NodeComponent(st, node).Ok?
    ensures r.Ok? ==> Prepared(r.value, NodeComponent(st, node).value)
  {
    var info :- NodeComponent(st, node);
    Ok(SetupMeta(MetaOf(st, node), info))
  }

  /** The node is set up: setup would change nothing. */
  predicate SetUp(st: DagState, node: string) {
    NodeComponent(st, node).Ok? && Prepared(MetaOf(st, node), NodeComponent(st, node).value)
  }

  /** The state after `metadata({node, setup: true})`: only that node's metadata changes,
      and the node is then set up; on a node already set up it changes nothing. */
  function Setup(st: DagState, node: string): (r: Result<DagState>)
    ensures r.Ok? <==> NodeComponent(st, node).Ok?
    ensures r.Ok? ==> SetUp(r.value, node) && SetupView(r.value, node) == SetupView(st, node)
    ensures r.Ok? ==> r.value.graph == st.graph && r.value.components == st.components && r.value.frame == st.frame
    ensures r.Ok? ==> forall x :: x != node ==> MetaOf(r.value, x) == MetaOf(st, x)
    ensures SetUp(st, node) ==> r == Ok(st)
  {
    var m :- SetupView(st, node);
    var st' := st.(meta := st.meta[node := m]);
    assert MetaOf(st', node) == m;
    if SetUp(st, node) then
      assert st'.meta == st.meta;
      Ok(st')
    else Ok(st')
  }

  /** `getCachedOutport` (lines 663-677): the set-up record of the outport, which must
      hold data (a `staticChanged` stamp). A missing record is read from `undefined`. */
  function GetCachedOutport(st: DagState, node: string, outport: string): (r: Result<OutportCache>)
    ensures r.Ok? ==> r.value.staticChanged.Some? && r.value.usage.Some? && r.value.valueChanged.Some?
    ensures SetUp(st, node) && outport in MetaOf(st, node).cached.value.outports ==>
              r == (var c := MetaOf(st, node).cached.value.outports[outport];
                    if c.staticChanged.Some? then Ok(c) else Err(OutportDoesNotContainData(node, outport)))
    ensures NodeComponent(st, node).Ok? && outport in OutportNames(NodeComponent(st, node).value.outports) ==>
              r.Ok? || r == Err(OutportDoesNotContainData(node, outport))
  {
    var m :- SetupView(st, node);
    if outport !in m.cached.value.outports then Err(TypeError)
    else
      var c := m.cached.value.outports[outport];
      if c.staticChanged.None? then Err(OutportDoesNotContainData(node, outport)) else Ok(c)
  }

  /** `getCachedInport` (lines 778-795): the set-up record of the inport. */
  function GetCachedInport(st: DagState, node: string, inport: string): (r: Result<InportCache>)
    ensures SetUp(st, node) ==>
              r == if inport in MetaOf(st, node).cached.value.inports then Ok(MetaOf(st, node).cached.value.inports[inport])
                   else Err(InportDoesNotContainCache(node, inport))
    ensures NodeComponent(st, node).Ok? && inport in InportNames(NodeComponent(st, node).value.inports) ==> r.Ok?
    ensures NodeComponent(st, node).Err? ==> r.Err?
  {
    var m :- SetupView(st, node);
    if inport !in m.cached.value.inports then Err(InportDoesNotContainCache(node, inport))
    else Ok(m.cached.value.inports[inport])
  }

  /** What `getAttached` returns. */
  datatype AttachedView = AttachedView(value: Value, usage: Option<Usage>, valueChanged: Option<int>, staticChanged: Option<int>)

  /** `getAttached` (lines 375-390): the graph's initial value, and the usage and stamps of
      the attachment record read without setup; with no record the usage is 'static'. */
  function GetAttached(st: DagState, node: string, inport: string): (r: Result<AttachedView>)
    ensures r.Ok? <==> FindNode(st.graph.nodes, node).Some?
    ensures r.Ok? ==> r.value.value == GetInitialValue(st.graph, node, inport)
    ensures r.Ok? && (MetaOf(st, node).attached.None? || inport !in MetaOf(st, node).attached.value) ==>
              r.value.usage == Some(Static) && r.value.valueChanged.None? && r.value.staticChanged.None?
    ensures r.Ok? && MetaOf(st, node).attached.Some? && inport in MetaOf(st, node).attached.value ==>
              match MetaOf(st, node).attached.value[inport]
              case Blank => r.value.usage.None? && r.value.valueChanged.None? && r.value.staticChanged.None?
              case Attach(_, u, vc, sc) => r.value.usage == Some(u) && r.value.valueChanged == Some(vc) && r.value.staticChanged == Some(sc)
  {
    var value := GetInitialValue(st.graph, node, inport);
    if FindNode(st.graph.nodes, node).None? then Err(NoSuchNode(node))
    else
      var m := MetaOf(st, node);
      if m.attached.Some? && inport in m.attached.value then
        match m.attached.value[inport]
        case Blank => Ok(AttachedView(value, None, None, None))
        case Attach(_, u, vc, sc) => Ok(AttachedView(value, Some(u), Some(vc), Some(sc)))
      else Ok(AttachedView(value, Some(Static), None, None))
  }

  /** `checkInport` (lines 317-320): the inport's descriptor, or the error that its
      component lookup throws. */
  function CheckInport(st: DagState, node: string, inport: string): (r: Result<InportInfo>)
    ensures r.Ok? <==> NodeComponent(st, node).Ok? && inport in InportNames(NodeComponent(st, node).value.inports)
    ensures r.Ok? ==> r == ComponentInportInfo(NodeComponent(st, node).value, inport)
  {
    var info :- NodeComponent(st, node);
    ComponentInportInfo(info, inport)
  }

  /** `hasAttached` (lines 327-332): the inport exists and the graph holds a defined
      initial value for it. */
  function HasAttached(st: DagState, node: string, inport: string): (r: Result<bool>)
    ensures r.Ok? <==> CheckInport(st, node, inport).Ok?
    ensures r.Err? ==> r.error == CheckInport(st, node, inport).error
    ensures r.Ok? ==> (r.value <==> GetInitialValue(st.graph, node, inport) != Undefined)
  {
    var _ :- CheckInport(st, node, inport);
    Ok(GetInitialValue(st.graph, node, inport) != Undefined)
  }

  /** `depends({node, outport})`. */
  function NodeDepends(st: DagState, node: string, outport: string): (r: Result<seq<string>>)
    ensures NodeComponent(st, node).Ok? ==> r == Depends(NodeComponent(st, node).value, outport)
    ensures NodeComponent(st, node).Err? ==> r.Err? && r.error == NodeComponent(st, node).error
  {
    var info :- NodeComponent(st, node);
    Depends(info, outport)
  }
}
