/** Component descriptors (the `pipeline.components` table): inport and outport
    descriptors, the port lookups of DAG, `depends`, and `componentSanity`. */
module Components {
  import opened Base

  /** `{name, usage}`; `usage` is the raw declared string, `None` when absent. */
  datatype InportInfo = InportInfo(name: string, usage: Option<string>)

  /** The `pass` property of an outport descriptor: absent or falsy, `true`, or a truthy
      value other than `true` (`1`, `'yes'`). */
  datatype PassField = NoPass | PassTrue | PassTruthy

  /** `{name, usage, depends, pass}`. */
  datatype OutportInfo = OutportInfo(name: string, usage: Option<string>, depends: Option<seq<string>>, pass: PassField)

  /** `if (componentOutportInfo.pass)`, the test `depends` and `execute` make. */
  predicate Passes(o: OutportInfo) {
    o.pass != NoPass
  }

  /** `componentOutportInfo.pass === true`, the test `componentSanity` makes. */
  predicate PassesStrictly(o: OutportInfo) {
    o.pass == PassTrue
  }

  /** A component: its port descriptors and the outports that have a `compile` or an
      `execute` routine (`None` when the dictionary itself is missing). */
  datatype ComponentInfo = ComponentInfo(inports: seq<InportInfo>, outports: seq<OutportInfo>,
                                         compile: Option<set<string>>, execute: Option<set<string>>)

  type Components = map<string, ComponentInfo>

  /** `inports({node})`: the inport names in declaration order. */
  function InportNames(ports: seq<InportInfo>): (r: seq<string>)
    ensures |r| == |ports| && forall k :: 0 <= k < |ports| ==> r[k] == ports[k].name
  {
    if ports == [] then [] else [ports[0].name] + InportNames(ports[1..])
  }

  /** `outports({node})`: the outport names in declaration order. */
  function OutportNames(ports: seq<OutportInfo>): (r: seq<string>)
    ensures |r| == |ports| && forall k :: 0 <= k < |ports| ==> r[k] == ports[k].name
  {
    if ports == [] then [] else [ports[0].name] + OutportNames(ports[1..])
  }

  /** Position of the first inport descriptor with this name, or |ports|. */
  function FirstInport(ports: seq<InportInfo>, name: string): (k: nat)
    ensures k <= |ports|
    ensures forall j :: 0 <= j < k ==> ports[j].name != name
    ensures k < |ports| ==> ports[k].name == name
  {
    if ports == [] then 0
    else if ports[0].name == name then 0
    else 1 + FirstInport(ports[1..], name)
  }

  function FirstOutport(ports: seq<OutportInfo>, name: string): (k: nat)
    ensures k <= |ports|
    ensures forall j :: 0 <= j < k ==> ports[j].name != name
    ensures k < |ports| ==> ports[k].name == name
  {
    if ports == [] then 0
    else if ports[0].name == name then 0
    else 1 + FirstOutport(ports[1..], name)
  }

  /** `componentInportInfo` (lines 293-303): the first descriptor named `inport`. */
  function ComponentInportInfo(info: ComponentInfo, inport: string): (r: Result<InportInfo>)
    ensures r.Ok? <==> inport in InportNames(info.inports)
    ensures r.Ok? ==> r.value.name == inport && r.value in info.inports
    ensures r.Err? ==> r.error == NoSuchInport(inport)
  {
    var k := FirstInport(info.inports, inport);
    if k < |info.inports| then Ok(info.inports[k]) else Err(NoSuchInport(inport))
  }

  /** `componentOutportInfo` (lines 305-315): the first descriptor named `outport`. */
  function ComponentOutportInfo(info: ComponentInfo, outport: string): (r: Result<OutportInfo>)
    ensures r.Ok? <==> outport in OutportNames(info.outports)
    ensures r.Ok? ==> r.value.name == outport && r.value in info.outports
    ensures r.Err? ==> r.error == NoSuchOutport(outport)
  {
    var k := FirstOutport(info.outports, outport);
    if k < |info.outports| then Ok(info.outports[k]) else Err(NoSuchOutport(outport))
  }

  /** `componentHasInport` (lines 564-574), its own search over the inports. */
  function HasInport(info: ComponentInfo, inport: string): (r: bool)
    ensures r <==> inport in InportNames(info.inports)
  {
    AnyInportNamed(info.inports, inport)
  }

  function AnyInportNamed(ports: seq<InportInfo>, name: string): (r: bool)
    ensures r <==> name in InportNames(ports)
  {
    if ports == [] then false
    else if ports[0].name == name then true
    else
      assert InportNames(ports) == [ports[0].name] + InportNames(ports[1..]);
      AnyInportNamed(ports[1..], name)
  }

  /** `depends` (lines 278-291): a pass outport depends on exactly its same-named
      inport; an outport without `depends` on nothing; otherwise on its list. */
  function Depends(info: ComponentInfo, outport: string): (r: Result<seq<string>>)
    ensures ComponentOutportInfo(info, outport).Err? ==> r == Err(NoSuchOutport(outport))
    ensures r.Ok? ==> ComponentOutportInfo(info, outport).Ok?
    ensures r.Ok? && Passes(ComponentOutportInfo(info, outport).value) ==> r.value == [outport] && HasInport(info, outport)
    ensures ComponentOutportInfo(info, outport).Ok? && Passes(ComponentOutportInfo(info, outport).value) ==>
              (r.Ok? <==> HasInport(info, outport))
    ensures ComponentOutportInfo(info, outport).Ok? && !Passes(ComponentOutportInfo(info, outport).value) ==>
              r == Ok(DeclaredDepends(ComponentOutportInfo(info, outport).value))
  {
    var o :- ComponentOutportInfo(info, outport);
    if Passes(o) then
      var i :- ComponentInportInfo(info, outport);
      Ok([i.name])
    else if o.depends.None? then Ok([])
    else Ok(o.depends.value)
  }

  /** The `depends` list of a non-pass outport, the empty list when it has none. */
  function DeclaredDepends(o: OutportInfo): seq<string> {
    if o.depends.None? then [] else o.depends.value
  }

  /** The declared usage of an inport, `None` for an undeclared usage or inport. */
  function InportUsage(info: ComponentInfo, inport: string): Option<string> {
    var i := ComponentInportInfo(info, inport);
    if i.Ok? then i.value.usage else None
  }

  /** The first dependency that is not an inport of the component. */
  function FirstUnknown(info: ComponentInfo, deps: seq<string>): (r: Option<string>)
    ensures r.None? <==> forall d :: d in deps ==> HasInport(info, d)
    ensures r.Some? ==> r.value in deps && !HasInport(info, r.value)
  {
    if deps == [] then None
    else if !HasInport(info, deps[0]) then Some(deps[0])
    else FirstUnknown(info, deps[1..])
  }

  /** The first dependency whose declared usage is not 'static'. */
  function FirstNonStatic(info: ComponentInfo, deps: seq<string>): (r: Option<string>)
    ensures r.None? <==> forall d :: d in deps ==> InportUsage(info, d) == Some("static")
    ensures r.Some? ==> r.value in deps && InportUsage(info, r.value) != Some("static")
  {
    if deps == [] then None
    else if InportUsage(info, deps[0]) != Some("static") then Some(deps[0])
    else FirstNonStatic(info, deps[1..])
  }

  /** The rules componentSanity checks on one outport: a pass outport mirrors a
      same-named inport and declares neither `depends` nor `usage`; any other outport
      has dependencies when it is 'inherit', depends only on inports, and when it is
      'static' depends only on 'static' inports. */
  predicate OutportSane(info: ComponentInfo, o: OutportInfo) {
    if PassesStrictly(o) then
      HasInport(info, o.name) && o.depends.None? && o.usage.None?
    else
      && !(DeclaredDepends(o) == [] && o.usage == Some("inherit"))
      && (forall d :: d in DeclaredDepends(o) ==> HasInport(info, d))
      && (o.usage == Some("static") ==> forall d :: d in DeclaredDepends(o) ==> InportUsage(info, d) == Some("static"))
  }

  /** The checks componentSanity makes on a non-pass outport, in the order it makes them. */
  function CheckPlain(info: ComponentInfo, o: OutportInfo): (r: Result<()>)
    requires !PassesStrictly(o)
    ensures r.Ok? <==> OutportSane(info, o)
  {
    var deps := DeclaredDepends(o);
    if deps == [] && o.usage == Some("inherit") then Err(InheritWithoutDependencies(o.name))
    else if FirstUnknown(info, deps).Some? then Err(UnknownDependency(FirstUnknown(info, deps).value))
    else if o.usage == Some("static") && FirstNonStatic(info, deps).Some? then
      Err(StaticDependsOnNonStatic(FirstNonStatic(info, deps).value))
    else Ok(())
  }

  /** The three explicit checks componentSanity makes on a pass outport. */
  function CheckPass(info: ComponentInfo, o: OutportInfo): (r: Result<()>)
    requires PassesStrictly(o)
    ensures r.Ok? <==> OutportSane(info, o)
  {
    if !HasInport(info, o.name) then Err(PassWithoutInport(o.name))
    else if o.depends.Some? then Err(PassWithDepends(o.name))
    else if o.usage.Some? then Err(PassWithUsage(o.name))
    else Ok(())
  }

  /** componentSanity as written (lines 584-643): after the three checks on a pass
      outport it iterates that outport's `depends`, which those checks have just
      established to be `undefined`, so it throws a TypeError; the `return` after that
      loop is never reached. */
  function SanityAsWritten(info: ComponentInfo, outs: seq<OutportInfo>): (r: Result<()>)
    ensures r.Ok? <==> forall k :: 0 <= k < |outs| ==> !PassesStrictly(outs[k]) && OutportSane(info, outs[k])
  {
    if outs == [] then Ok(())
    else if PassesStrictly(outs[0]) then
      var _ :- CheckPass(info, outs[0]);
      Err(TypeError)
    else
      var _ :- CheckPlain(info, outs[0]);
      var r := SanityAsWritten(info, outs[1..]);
      assert r.Ok? <==> forall k :: 1 <= k < |outs| ==> !PassesStrictly(outs[k]) && OutportSane(info, outs[k]) by {
        forall k | 1 <= k < |outs| ensures outs[k] == outs[1..][k - 1] { }
      }
      r
  }

  function ComponentSanityAsWritten(info: ComponentInfo): Result<()> {
    SanityAsWritten(info, info.outports)
  }

  /** componentSanity with the pass branch corrected: the undefined `depends` is not
      iterated and the check goes on to the next outport instead of returning. */
  function Sanity(info: ComponentInfo, outs: seq<OutportInfo>): (r: Result<()>)
    ensures r.Ok? <==> forall k :: 0 <= k < |outs| ==> OutportSane(info, outs[k])
    ensures r.Err? ==> exists k :: FirstFailure(info, outs, k) && r == Check(info, outs[k])
  {
    if outs == [] then Ok(())
    else
      var _ :- Check(info, outs[0]);
      var r := Sanity(info, outs[1..]);
      assert forall k :: 1 <= k < |outs| ==> outs[k] == outs[1..][k - 1];
      if r.Err? then
        ghost var k :| FirstFailure(info, outs[1..], k) && r == Check(info, outs[1..][k]);
        assert FirstFailure(info, outs, k + 1);
        r
      else r
  }

  /** The check componentSanity applies to one outport. */
  function Check(info: ComponentInfo, o: OutportInfo): (r: Result<()>)
    ensures r.Ok? <==> OutportSane(info, o)
  {
    if PassesStrictly(o) then CheckPass(info, o) else CheckPlain(info, o)
  }

  /** Outport k is the first one that breaks a rule. */
  ghost predicate FirstFailure(info: ComponentInfo, outs: seq<OutportInfo>, k: int) {
    0 <= k < |outs| && !OutportSane(info, outs[k]) && forall j :: 0 <= j < k ==> OutportSane(info, outs[j])
  }

  function ComponentSanity(info: ComponentInfo): Result<()> {
    Sanity(info, info.outports)
  }

  /** The corrected check reports exactly the first outport that breaks a rule. */
  lemma SanityReportsFirstFailure(info: ComponentInfo, outs: seq<OutportInfo>, k: int)
    requires FirstFailure(info, outs, k)
    ensures Sanity(info, outs) == Check(info, outs[k])
  {
    assert Sanity(info, outs).Err?;
    ghost var j :| FirstFailure(info, outs, j) && Sanity(info, outs) == Check(info, outs[j]);
    assert !OutportSane(info, outs[j]) && !OutportSane(info, outs[k]);
    assert j == k;
  }

  /** The smallest component the written check rejects: one inport `x` and one pass
      outport `x`, which satisfies every rule. */
  const PassThrough := ComponentInfo([InportInfo("x", None)], [OutportInfo("x", None, None, PassTrue)], Some({}), Some({}))

  /** The written check rejects it with a TypeError; the corrected check accepts it. */
  lemma PassThroughRejected()
    ensures ComponentSanityAsWritten(PassThrough) == Err(TypeError)
    ensures ComponentSanity(PassThrough) == Ok(())
  {
    assert InportNames(PassThrough.inports) == ["x"];
  }

  /** A `pass` that is truthy but not `true` is read two ways: `depends` (and so
      `execute`) treats the outport as a pass-through of its same-named inport, while
      componentSanity checks it as a plain outport. */
  lemma TruthyPassReadTwoWays(info: ComponentInfo, o: OutportInfo)
    requires ComponentOutportInfo(info, o.name) == Ok(o) && o.pass == PassTruthy && HasInport(info, o.name)
    ensures Passes(o) && !PassesStrictly(o)
    ensures Depends(info, o.name) == Ok([o.name])
    ensures Check(info, o) == CheckPlain(info, o)
  {
  }
}
