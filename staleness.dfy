/** What the staleness gates answer right after the state changes of the `Updates`
    module: a save makes its record fresh for the frame, `clearCache` makes every record
    stale, and `setAttached` fixes the usage an inheriting inport resolves to. */
module Staleness {
  import opened Base
  import opened Graph
  import opened Components
  import opened Store
  import opened Resolution
  import opened Gates
  import opened Updates

  /** The dependency loop reads only the cached inport records, so two states that agree
      on them agree on its answer. */
  lemma {:induction false} AnyNewerSame(st: DagState, st': DagState, node: string, deps: seq<string>, stamp: int)
    requires forall i :: i in deps ==> GetCachedInport(st', node, i) == GetCachedInport(st, node, i)
    ensures AnyNewer(st', node, deps, stamp) == AnyNewer(st, node, deps, stamp)
  {
    if deps != [] {
      AnyNewerSame(st, st', node, deps[1..], stamp);
    }
  }

  /** A change that keeps every inport record of a set-up node keeps what
      `getCachedInport` reads. */
  lemma InportsKept(s: DagState, r: DagState, node: string, comp: set<string>, outs: set<string>)
    requires SetUp(s, node) && SetUp(r, node)
    requires SameRecordsBut(s, r, node, {}, comp, outs)
    ensures forall i :: GetCachedInport(r, node, i) == GetCachedInport(s, node, i)
  {
    assert NodeComponent(r, node) == NodeComponent(s, node);
  }

  /** Setup does not change what `getCachedInport` reads. */
  lemma SetupInports(st: DagState, node: string)
    requires NodeComponent(st, node).Ok?
    ensures forall i :: GetCachedInport(Setup(st, node).value, node, i) == GetCachedInport(st, node, i)
  {
    var s := Setup(st, node).value;
    assert SetupView(s, node) == SetupView(st, node);
  }

  /** After `saveCompiled` at frame f, `needsRecompilation` of that outport is false unless a
      dependency's cached inport changed statically after f. */
  lemma FreshAfterSaveCompiled(st: DagState, node: string, outport: string, v: Value, r: Outcome)
    requires r == SaveCompiled(st, node, outport, v) && r.err.None?
    ensures NodeDepends(st, node, outport).Err? ==> NeedsRecompilation(r.st, node, outport) == Err(NodeDepends(st, node, outport).error)
    ensures NodeDepends(st, node, outport).Ok? ==>
              NeedsRecompilation(r.st, node, outport) == AnyNewer(st, node, NodeDepends(st, node, outport).value, st.frame)
    ensures NodeDepends(st, node, outport).Ok? && NeedsRecompilation(r.st, node, outport).Ok? ==>
              (NeedsRecompilation(r.st, node, outport).value <==> SomeDepNewer(st, node, NodeDepends(st, node, outport).value, st.frame))
  {
    var s := Setup(st, node).value;
    InportsKept(s, r.st, node, {outport}, {});
    SetupInports(st, node);
    assert NodeComponent(r.st, node) == NodeComponent(st, node);
    assert SetupView(r.st, node) == Ok(MetaOf(r.st, node));
    assert CompiledStamp(r.st, node, outport) == Some(st.frame);
    if NodeDepends(st, node, outport).Ok? {
      AnyNewerSame(st, r.st, node, NodeDepends(st, node, outport).value, st.frame);
    }
  }

  /** A change confined to one set-up node's cache records keeps every attachment and
      every other node's outport record, so usage resolution sees the same inputs. */
  lemma RecordsSameInputs(s: DagState, r: DagState, node: string, comp: set<string>, outs: set<string>)
    requires SetUp(s, node) && SetUp(r, node)
    requires SameRecordsBut(s, r, node, {}, comp, outs)
    ensures SameInputs(s, r, {node})
  {
    AttachmentsKept(s, r, node);
    forall x, p | x !in {node} ensures GetCachedOutport(r, x, p) == GetCachedOutport(s, x, p) {
      OtherNodeKept(s, r, node, x);
    }
  }

  lemma AttachmentsKept(s: DagState, r: DagState, node: string)
    requires r.graph == s.graph && MetaOf(r, node).attached == MetaOf(s, node).attached
    requires forall x :: x != node ==> MetaOf(r, x) == MetaOf(s, x)
    ensures forall x, i :: GetAttached(r, x, i) == GetAttached(s, x, i)
  {
    forall x, i ensures GetAttached(r, x, i) == GetAttached(s, x, i) {
      assert MetaOf(r, x).attached == MetaOf(s, x).attached;
    }
  }

  lemma OtherNodeKept(s: DagState, r: DagState, node: string, x: string)
    requires x != node && r.graph == s.graph && r.components == s.components && MetaOf(r, x) == MetaOf(s, x)
    ensures SetupView(r, x) == SetupView(s, x)
  {
    assert NodeComponent(r, x) == NodeComponent(s, x);
  }

  /** `staticSave` changes no attachment and no other node's outport record. */
  lemma StaticSaveInputs(st: DagState, node: string, outport: string, v: Value, r: Outcome)
    requires r == StaticSave(st, node, outport, v) && r.err.None?
    ensures NodeComponent(st, node).Ok?
    ensures SameInputs(Setup(st, node).value, r.st, {node})
    ensures SameRecordsBut(Setup(st, node).value, r.st, node, {}, {}, {outport})
    ensures OutportWritten(Setup(st, node).value, r.st, node, outport,
                           OutportRecord(v, Some(EffectiveOutportUsage(Setup(st, node).value, node, outport).value),
                                         Some(st.frame), Some(st.frame), Some(st.frame)))
  {
    var s := Setup(st, node).value;
    RecordsSameInputs(s, r.st, node, {}, {outport});
  }

  /** After `staticSave` at frame f, `needsReexecution` of that outport at the static
      runtime is false unless a dependency's cached inport changed statically after f. */
  lemma FreshAfterStaticSave(st: DagState, node: string, outport: string, v: Value, r: Outcome)
    requires r == StaticSave(st, node, outport, v) && r.err.None?
    requires NotFedBy(st.graph, {node}, node)
    ensures NodeDepends(st, node, outport).Ok? ==>
              NeedsReexecution(r.st, node, outport, Static) == AnyNewer(st, node, NodeDepends(st, node, outport).value, st.frame)
    ensures NodeDepends(st, node, outport).Ok? && NeedsReexecution(r.st, node, outport, Static).Ok? ==>
              (NeedsReexecution(r.st, node, outport, Static).value <==> SomeDepNewer(st, node, NodeDepends(st, node, outport).value, st.frame))
  {
    SavedRecord(st, node, outport, v, r);
    if NodeDepends(st, node, outport).Ok? {
      assert NodeDepends(r.st, node, outport) == NodeDepends(st, node, outport);
      FreshRecord(st, r.st, node, outport, NodeDepends(st, node, outport).value);
    }
  }

  /** A set-up output record stamped with the frame and holding the usage its outport
      resolves to, over the inport records of `st`, opens the static gate exactly when a
      dependency changed after that frame. */
  lemma FreshRecord(st: DagState, s: DagState, node: string, outport: string, deps: seq<string>)
    requires SetupView(s, node) == Ok(MetaOf(s, node)) && outport in MetaOf(s, node).cached.value.outports
    requires OutputRecord(s, node, outport).staticChanged == Some(st.frame)
    requires EffectiveOutportUsage(s, node, outport).Ok?
    requires Some(EffectiveOutportUsage(s, node, outport).value) == OutputRecord(s, node, outport).usage
    requires NodeDepends(s, node, outport) == Ok(deps)
    requires forall i :: GetCachedInport(s, node, i) == GetCachedInport(st, node, i)
    ensures NeedsReexecution(s, node, outport, Static) == AnyNewer(st, node, deps, st.frame)
  {
    AnyNewerSame(st, s, node, deps, st.frame);
  }

  /** The record `staticSave` wrote, read back at the static runtime: stamped with the
      frame and holding the usage the outport still resolves to. */
  lemma SavedRecord(st: DagState, node: string, outport: string, v: Value, r: Outcome)
    requires r == StaticSave(st, node, outport, v) && r.err.None?
    requires NotFedBy(st.graph, {node}, node)
    ensures NodeComponent(r.st, node) == NodeComponent(st, node)
    ensures SetupView(r.st, node) == Ok(MetaOf(r.st, node)) && outport in MetaOf(r.st, node).cached.value.outports
    ensures OutputRecord(r.st, node, outport).staticChanged == Some(st.frame)
    ensures EffectiveOutportUsage(r.st, node, outport).Ok?
    ensures Some(EffectiveOutportUsage(r.st, node, outport).value) == OutputRecord(r.st, node, outport).usage
    ensures forall i :: GetCachedInport(r.st, node, i) == GetCachedInport(st, node, i)
  {
    var s := Setup(st, node).value;
    StaticSaveInputs(st, node, outport, v, r);
    OutportUsageFrame(s, r.st, {node}, node, outport);
    InportsKept(s, r.st, node, {}, {outport});
    SetupInports(st, node);
    assert NodeComponent(r.st, node) == NodeComponent(st, node);
  }

  /** After `clearCache`, every outport of the node needs recompilation and static
      re-execution: both gates see the empty records setup recreates. */
  lemma StaleAfterClear(st: DagState, node: string, outport: string, r: Outcome)
    requires r == ClearCache(st, node) && r.err.None?
    requires NodeComponent(st, node).Ok? && outport in OutportNames(NodeComponent(st, node).value.outports)
    ensures NeedsRecompilation(r.st, node, outport) == Ok(true)
    ensures NeedsReexecution(r.st, node, outport, Static) == Ok(true)
  {
    assert NodeComponent(r.st, node) == NodeComponent(st, node);
    var info := NodeComponent(st, node).value;
    assert outport in Members(OutportNames(info.outports));
    var m := SetupView(r.st, node).value;
    assert m == SetupMeta(MetaOf(st, node).(cached := None), info);
    assert m.cached.value.compiled[outport] == BlankCompiled;
    assert m.cached.value.outports[outport] == BlankOutport;
  }

  /** After `setAttached`, the inport counts as attached exactly when the value is defined:
      attaching `undefined` leaves `hasAttached` false. */
  lemma AttachedAfterSetAttached(st: DagState, node: string, inport: string, value: Value, usage: string, r: Outcome)
    requires r == SetAttached(st, node, inport, value, usage) && r.err.None?
    ensures HasAttached(r.st, node, inport) == Ok(value != Undefined)
  {
    AttachedFacts(st, node, inport, value, usage, r);
  }

  /** After `setAttached` of a defined value, an inport declared 'inherit' or without a
      usage resolves to the attachment's usage, even when it is also connected. */
  lemma UsageAfterSetAttached(st: DagState, node: string, inport: string, value: Value, usage: string, r: Outcome)
    requires r == SetAttached(st, node, inport, value, usage) && r.err.None?
    requires value != Undefined && CheckInport(st, node, inport).Ok?
    requires CheckInport(st, node, inport).value.usage in {None, Some("inherit")}
    ensures EffectiveInportUsage(r.st, node, inport) == Ok(UsageNamed(usage))
  {
    AttachedFacts(st, node, inport, value, usage, r);
  }

  /** What `setAttached` leaves for usage resolution to read. */
  lemma AttachedFacts(st: DagState, node: string, inport: string, value: Value, usage: string, r: Outcome)
    requires r == SetAttached(st, node, inport, value, usage) && r.err.None?
    ensures CheckInport(st, node, inport).Ok?
    ensures CheckInport(r.st, node, inport) == CheckInport(st, node, inport)
    ensures GetAttached(r.st, node, inport).Ok? && GetAttached(r.st, node, inport).value.usage == Some(UsageNamed(usage))
    ensures GetInitialValue(r.st.graph, node, inport) == value
  {
    var s := Setup(st, node).value;
    assert AttachWritten(s, r.st, node, inport, value, UsageNamed(usage));
    assert NodeComponent(r.st, node) == NodeComponent(st, node);
    ReplacedValue(s.graph, value, node, inport, node, inport);
  }
}
