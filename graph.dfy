/** The noflo graph as far as regl-pipeline.js reads it: a node list, an edge list and
    an initializer list (the attached values), searched front to back. */
module Graph {
  import opened Base

  datatype GNode = GNode(id: string, component: string)

  /** An edge `from.node:from.port -> to.node:to.port`. */
  datatype Edge = Edge(fromNode: string, fromPort: string, toNode: string, toPort: string)

  /** An initializer: the constant `data` placed on inport `toPort` of `toNode`. */
  datatype Initial = Initial(data: Value, toNode: string, toPort: string)

  datatype Graph = Graph(nodes: seq<GNode>, edges: seq<Edge>, initializers: seq<Initial>)

  predicate EdgeInto(e: Edge, node: string, inport: string) {
    e.toNode == node && e.toPort == inport
  }

  predicate InitialInto(i: Initial, node: string, inport: string) {
    i.toNode == node && i.toPort == inport
  }

  /** `getNode`: the first node with this id. */
  function FindNode(nodes: seq<GNode>, id: string): (r: Option<GNode>)
    ensures r.None? <==> forall k :: 0 <= k < |nodes| ==> nodes[k].id != id
    ensures r.Some? ==> r.value.id == id && r.value in nodes
    ensures r.Some? ==> exists k :: 0 <= k < |nodes| && nodes[k] == r.value && forall j :: 0 <= j < k ==> nodes[j].id != id
  {
    if nodes == [] then None
    else if nodes[0].id == id then Some(nodes[0])
    else
      var r := FindNode(nodes[1..], id);
      if r.Some? then
        ghost var k :| 0 <= k < |nodes[1..]| && nodes[1..][k] == r.value && forall j :: 0 <= j < k ==> nodes[1..][j].id != id;
        assert nodes[k + 1] == r.value;
        r
      else r
  }

  /** Position of the first edge into `node:inport`, or |edges| when there is none. */
  function FirstEdgeInto(edges: seq<Edge>, node: string, inport: string): (k: nat)
    ensures k <= |edges|
    ensures forall j :: 0 <= j < k ==> !EdgeInto(edges[j], node, inport)
    ensures k < |edges| ==> EdgeInto(edges[k], node, inport)
  {
    if edges == [] then 0
    else if EdgeInto(edges[0], node, inport) then 0
    else 1 + FirstEdgeInto(edges[1..], node, inport)
  }

  /** `hasInportConnection` (lines 401-408). */
  function HasInportConnection(g: Graph, node: string, inport: string): (r: bool)
    ensures r <==> exists k :: 0 <= k < |g.edges| && EdgeInto(g.edges[k], node, inport)
  {
    AnyEdgeInto(g.edges, node, inport)
  }

  function AnyEdgeInto(edges: seq<Edge>, node: string, inport: string): (r: bool)
    ensures r <==> exists k :: 0 <= k < |edges| && EdgeInto(edges[k], node, inport)
  {
    if edges == [] then false
    else if EdgeInto(edges[0], node, inport) then true
    else
      var r := AnyEdgeInto(edges[1..], node, inport);
      assert r ==> exists k :: 0 <= k < |edges[1..]| && EdgeInto(edges[1..][k], node, inport);
      assert (exists k :: 0 <= k < |edges| && EdgeInto(edges[k], node, inport)) ==> exists k :: 0 <= k < |edges[1..]| && EdgeInto(edges[1..][k], node, inport) by {
        if exists k :: 0 <= k < |edges| && EdgeInto(edges[k], node, inport) {
          var k :| 0 <= k < |edges| && EdgeInto(edges[k], node, inport);
          assert k != 0;
          assert EdgeInto(edges[1..][k - 1], node, inport);
        }
      }
      r
  }

  /** `getInportConnection` (lines 410-417): the source `(outnode, outport)` of the first
      edge into `node:inport`. */
  function GetInportConnection(g: Graph, node: string, inport: string): (r: Option<(string, string)>)
    ensures r.None? <==> forall k :: 0 <= k < |g.edges| ==> !EdgeInto(g.edges[k], node, inport)
    ensures r.Some? ==> exists k :: 0 <= k < |g.edges| && EdgeInto(g.edges[k], node, inport)
                          && r.value == (g.edges[k].fromNode, g.edges[k].fromPort)
                          && forall j :: 0 <= j < k ==> !EdgeInto(g.edges[j], node, inport)
  {
    var k := FirstEdgeInto(g.edges, node, inport);
    if k < |g.edges| then Some((g.edges[k].fromNode, g.edges[k].fromPort)) else None
  }

  /** Position of the first initializer on `node:inport`, or |inits|. */
  function FirstInitialInto(inits: seq<Initial>, node: string, inport: string): (k: nat)
    ensures k <= |inits|
    ensures forall j :: 0 <= j < k ==> !InitialInto(inits[j], node, inport)
    ensures k < |inits| ==> InitialInto(inits[k], node, inport)
  {
    if inits == [] then 0
    else if InitialInto(inits[0], node, inport) then 0
    else 1 + FirstInitialInto(inits[1..], node, inport)
  }

  /** `_nofloGetInitialValue` (lines 419-426): the data of the first initializer on the
      port, `undefined` when there is none. */
  function GetInitialValue(g: Graph, node: string, inport: string): (r: Value)
    ensures (forall k :: 0 <= k < |g.initializers| ==> !InitialInto(g.initializers[k], node, inport)) ==> r == Undefined
    ensures r != Undefined ==> exists k :: 0 <= k < |g.initializers| && InitialInto(g.initializers[k], node, inport)
                                && r == g.initializers[k].data
                                && forall j :: 0 <= j < k ==> !InitialInto(g.initializers[j], node, inport)
  {
    var k := FirstInitialInto(g.initializers, node, inport);
    if k < |g.initializers| then g.initializers[k].data else Undefined
  }

  /** noflo `removeInitial(node, port)`: drop every initializer on the port. */
  function RemoveInitial(inits: seq<Initial>, node: string, inport: string): (r: seq<Initial>)
    ensures forall i :: i in r <==> i in inits && !InitialInto(i, node, inport)
    ensures |r| <= |inits|
  {
    if inits == [] then []
    else if InitialInto(inits[0], node, inport) then RemoveInitial(inits[1..], node, inport)
    else [inits[0]] + RemoveInitial(inits[1..], node, inport)
  }

  /** `removeInitial` followed by `addInitial(value, node, port)`, as `setAttached` does. */
  function ReplaceInitial(g: Graph, value: Value, node: string, inport: string): Graph {
    g.(initializers := RemoveInitial(g.initializers, node, inport) + [Initial(value, node, inport)])
  }

  /** Removing the initializers of a port leaves it without an attached value, and the
      value of every other port as it was. */
  lemma {:induction false} RemoveInitialValue(inits: seq<Initial>, node: string, inport: string, n: string, p: string)
    ensures FirstInitialInto(RemoveInitial(inits, node, inport), n, p) < |RemoveInitial(inits, node, inport)| <==>
            (n, p) != (node, inport) && FirstInitialInto(inits, n, p) < |inits|
    ensures (n, p) != (node, inport) && FirstInitialInto(inits, n, p) < |inits| ==>
            RemoveInitial(inits, node, inport)[FirstInitialInto(RemoveInitial(inits, node, inport), n, p)] == inits[FirstInitialInto(inits, n, p)]
  {
    if inits != [] {
      RemoveInitialValue(inits[1..], node, inport, n, p);
    }
  }

  /** After `removeInitial`, the port's initial value is `undefined`; other ports keep theirs. */
  lemma RemovedValue(g: Graph, node: string, inport: string, n: string, p: string)
    ensures GetInitialValue(g.(initializers := RemoveInitial(g.initializers, node, inport)), n, p)
         == if (n, p) == (node, inport) then Undefined else GetInitialValue(g, n, p)
  {
    RemoveInitialValue(g.initializers, node, inport, n, p);
  }

  /** After replacing, the port's initial value is the new value; other ports keep theirs. */
  lemma ReplacedValue(g: Graph, value: Value, node: string, inport: string, n: string, p: string)
    ensures GetInitialValue(ReplaceInitial(g, value, node, inport), n, p)
         == if (n, p) == (node, inport) then value else GetInitialValue(g, n, p)
  {
    var rest := RemoveInitial(g.initializers, node, inport);
    var inits := rest + [Initial(value, node, inport)];
    RemoveInitialValue(g.initializers, node, inport, n, p);
    FirstInitialAppend(rest, [Initial(value, node, inport)], n, p);
  }

  lemma {:induction false} FirstInitialAppend(a: seq<Initial>, b: seq<Initial>, n: string, p: string)
    ensures FirstInitialInto(a, n, p) < |a| ==> FirstInitialInto(a + b, n, p) == FirstInitialInto(a, n, p)
    ensures FirstInitialInto(a, n, p) == |a| ==> FirstInitialInto(a + b, n, p) == |a| + FirstInitialInto(b, n, p)
  {
    if a != [] {
      assert (a + b)[1..] == a[1..] + b;
      FirstInitialAppend(a[1..], b, n, p);
    } else {
      assert a + b == b;
    }
  }
}
