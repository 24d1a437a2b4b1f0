/** The state changes of the DAG as functions from the old state to the new one:
    `pullStatic`, `pullDynamic`, `saveCompiled`, `staticSave`, `dynamicSave`,
    `clearCache`, `setAttached`, `removeAttached` and `incFrame`. A change that throws
    part-way keeps what it wrote before the throw, so each returns an Outcome: the new
    state and the error, if any. */
module Updates {
  import opened Base
  import opened Graph
  import opened Components
  import opened Store
  import opened Resolution

  /** The state after a call, and the error it threw. */
  datatype Outcome = Outcome(st: DagState, err: Option<Error>)

  /** The cached records of the node other than its inport records are as they were,
      and so is everything outside the node's metadata. */
  ghost predicate InportsOnly(st: DagState, st': DagState, node: string) {
    && st'.graph == st.graph && st'.components == st.components && st'.frame == st.frame
    && (forall x :: x != node ==> MetaOf(st', x) == MetaOf(st, x))
    && MetaOf(st', node).attached == MetaOf(st, node).attached
    && MetaOf(st', node).cached.Some? == MetaOf(st, node).cached.Some?
    && (MetaOf(st, node).cached.Some? ==>
          && MetaOf(st', node).cached.value.compiled == MetaOf(st, node).cached.value.compiled
          && MetaOf(st', node).cached.value.outports == MetaOf(st, node).cached.value.outports
          && MetaOf(st', node).cached.value.inports.Keys == MetaOf(st, node).cached.value.inports.Keys)
  }

  /** Replace one cached inport record of a set-up node. */
  function WithInport(st: DagState, node: string, inport: string, c: InportCache): (r: DagState)
    requires SetUp(st, node) && inport in MetaOf(st, node).cached.value.inports
    ensures SetUp(r, node) && InportsOnly(st, r, node)
    ensures GetCachedInport(r, node, inport) == Ok(c)
    ensures forall i :: i != inport ==> GetCachedInport(r, node, i) == GetCachedInport(st, node, i)
  {
    var m := MetaOf(st, node);
    var m' := m.(cached := Some(m.cached.value.(inports := m.cached.value.inports[inport := c])));
    var r := st.(meta := st.meta[node := m']);
    assert MetaOf(r, node) == m';
    r
  }

  /** An inport record that changes only in place keeps the node set up, and the usage
      of every port of every node reads the same. */
  lemma InportsOnlyInputs(st: DagState, st': DagState, node: string)
    requires SetUp(st, node) && InportsOnly(st, st', node)
    ensures SetUp(st', node)
    ensures SameInputs(st, st', {})
  {
    InportsOnlySetUp(st, st', node);
    forall x, p ensures GetCachedOutport(st', x, p) == GetCachedOutport(st, x, p) {
      OutportKept(st, st', node, x, p);
    }
    forall x, i ensures GetAttached(st', x, i) == GetAttached(st, x, i) {
      assert MetaOf(st', x).attached == MetaOf(st, x).attached;
    }
  }

  lemma InportsOnlySetUp(st: DagState, st': DagState, node: string)
    requires SetUp(st, node) && InportsOnly(st, st', node)
    ensures SetUp(st', node)
  {
    assert NodeComponent(st', node) == NodeComponent(st, node);
  }

  lemma OutportKept(st: DagState, st': DagState, node: string, x: string, p: string)
    requires SetUp(st, node) && SetUp(st', node) && InportsOnly(st, st', node)
    ensures GetCachedOutport(st', x, p) == GetCachedOutport(st, x, p)
  {
    assert NodeComponent(st', x) == NodeComponent(st, x);
    if x == node {
      assert SetupView(st', x) == Ok(MetaOf(st', x));
    }
  }

  // ---------------------------------------------------------------- pullStatic

  /** The old stamp of an inport record as the pull starts from it: `-1` when unset. */
  function OldStamp(st: DagState, node: string, inport: string): int {
    var c := GetCachedInport(st, node, inport);
    if c.Ok? && c.value.staticChanged.Some? then c.value.staticChanged.value else -1
  }

  /** The new record's usage or source differs from the cached one: the inport was
      rewired, attached, detached, or changed usage. */
  predicate Refingerprinted(st: DagState, node: string, inport: string, c: InportCache) {
    GetCachedInport(st, node, inport).Ok? &&
    (GetCachedInport(st, node, inport).value.usage != c.usage || GetCachedInport(st, node, inport).value.source != c.source)
  }

  /** The cached record of the outport wired into the inport. */
  function Upstream(st: DagState, node: string, inport: string): Result<OutportCache>
    requires HasInportConnection(st.graph, node, inport)
  {
    var conn := GetInportConnection(st.graph, node, inport).value;
    GetCachedOutport(st, conn.0, conn.1)
  }

  /** The record `pullStatic` (lines 679-733) writes for one inport. For a connected inport
      the usage is the upstream record's usage and the stamp is at least the upstream
      stamp; for an attached one the attachment must have the effective usage, and its
      stamps (its value stamp too when static) are folded in; the stamp is forced to the
      frame when the fingerprint changes. The value is kept only when static, and the
      value stamp is dropped. */
  function PullStaticEntry(st: DagState, node: string, inport: string): (r: Result<InportCache>)
    requires SetUp(st, node)
    ensures r.Ok? ==> CheckInport(st, node, inport).Ok? && r.value.checked == Some(st.frame)
  {
    var usage :- EffectiveInportUsage(st, node, inport);
    assert HasAttached(st, node, inport).Ok?;
    var source := EvaluateInportSource(st, node, inport).value;
    var cached := GetCachedInport(st, node, inport).value;
    var sc0 := OldStamp(st, node, inport);
    var pulled :- PulledStatic(st, node, inport, usage, sc0);
    var (u, value, sc) := pulled;
    var sc' := if cached.usage != Some(u) || cached.source != Some(source) then st.frame else sc;
    Ok(InportCache(Some(u), Some(source), value, Some(sc'), None, Some(st.frame)))
  }

  /** What every record `pullStatic` writes holds: it is stamped as checked at the frame,
      its source is the inport's fingerprint, it has no value stamp, and a dynamic
      record no value. A changed fingerprint forces the stamp to the frame; otherwise
      the stamp never goes back. */
  lemma PullStaticRecord(st: DagState, node: string, inport: string, r: Result<InportCache>)
    requires SetUp(st, node) && r == PullStaticEntry(st, node, inport)
    ensures r.Ok? ==> && EffectiveInportUsage(st, node, inport).Ok? && EvaluateInportSource(st, node, inport).Ok?
                      && r.value.valueChanged.None? && r.value.usage.Some? && r.value.staticChanged.Some?
                      && r.value.source == Some(EvaluateInportSource(st, node, inport).value)
                      && (r.value.usage == Some(Dynamic) ==> r.value.value == Undefined)
    ensures r.Ok? && Refingerprinted(st, node, inport, r.value) ==> r.value.staticChanged == Some(st.frame)
    ensures r.Ok? && !Refingerprinted(st, node, inport, r.value) ==> r.value.staticChanged.value >= OldStamp(st, node, inport)
  {
  }

  /** A connected inport: the pull throws exactly when the upstream record holds no data;
      it takes the upstream usage and, when static, the upstream value; unless the
      fingerprint changed, its stamp is the larger of the old stamp and the upstream
      stamp, so it stays as it was when the upstream stamp is not newer. */
  lemma PullStaticConnected(st: DagState, node: string, inport: string, r: Result<InportCache>)
    requires SetUp(st, node) && r == PullStaticEntry(st, node, inport)
    requires HasInportConnection(st.graph, node, inport) && EffectiveInportUsage(st, node, inport).Ok?
    ensures r.Ok? <==> Upstream(st, node, inport).Ok?
    ensures r.Ok? ==> var up := Upstream(st, node, inport).value;
                      && r.value.usage == up.usage
                      && (r.value.usage == Some(Static) ==> r.value.value == up.value)
                      && (!Refingerprinted(st, node, inport, r.value) ==>
                            && r.value.staticChanged == Some(Max(OldStamp(st, node, inport), up.staticChanged.value))
                            && r.value.staticChanged.value >= up.staticChanged.value
                            && (up.staticChanged.value <= OldStamp(st, node, inport) ==>
                                  r.value.staticChanged == Some(OldStamp(st, node, inport))))
  {
  }

  /** An inport with an attached value and no edge: the pull throws exactly when the
      attachment's usage is not the inport's effective usage; it takes the attached value
      when static; unless the fingerprint changed, its stamp is the largest of the old
      stamp, the attachment's `staticChanged` and, when static, its `valueChanged`, so it
      stays as it was when neither is newer. */
  lemma PullStaticAttached(st: DagState, node: string, inport: string, r: Result<InportCache>)
    requires SetUp(st, node) && r == PullStaticEntry(st, node, inport)
    requires !HasInportConnection(st.graph, node, inport) && Attached(st, node, inport)
    requires EffectiveInportUsage(st, node, inport).Ok?
    ensures var a := GetAttached(st, node, inport).value;
            && (r.Ok? <==> a.usage == Some(EffectiveInportUsage(st, node, inport).value))
            && (r.Ok? ==> && r.value.usage == a.usage && a.staticChanged.Some? && a.valueChanged.Some?
                          && (r.value.usage == Some(Static) ==> r.value.value == GetInitialValue(st.graph, node, inport))
                          && (!Refingerprinted(st, node, inport, r.value) ==>
                                && r.value.staticChanged == Some(if r.value.usage == Some(Static)
                                     then Max(Max(OldStamp(st, node, inport), a.valueChanged.value), a.staticChanged.value)
                                     else Max(OldStamp(st, node, inport), a.staticChanged.value))
                                && r.value.staticChanged.value >= a.staticChanged.value
                                && (r.value.usage == Some(Static) ==> r.value.staticChanged.value >= a.valueChanged.value)
                                && ((a.staticChanged.value <= OldStamp(st, node, inport) &&
                                     (r.value.usage == Some(Static) ==> a.valueChanged.value <= OldStamp(st, node, inport))) ==>
                                      r.value.staticChanged == Some(OldStamp(st, node, inport)))))
  {
  }

  /** An inport with neither an edge nor an attached value: no value, the effective
      usage, and the old stamp unless the fingerprint changed. */
  lemma PullStaticUnwired(st: DagState, node: string, inport: string, r: Result<InportCache>)
    requires SetUp(st, node) && r == PullStaticEntry(st, node, inport)
    requires !HasInportConnection(st.graph, node, inport) && !Attached(st, node, inport)
    ensures r.Ok? <==> EffectiveInportUsage(st, node, inport).Ok?
    ensures r.Ok? ==> && r.value.usage == Some(EffectiveInportUsage(st, node, inport).value) && r.value.value == Undefined
                      && (!Refingerprinted(st, node, inport, r.value) ==> r.value.staticChanged == Some(OldStamp(st, node, inport)))
  {
  }

  /** The usage, value and stamp the pull reads from the inport's source, before the
      fingerprint check. */
  function PulledStatic(st: DagState, node: string, inport: string, usage: Usage, sc0: int): (r: Result<(Usage, Value, int)>)
    requires SetUp(st, node) && CheckInport(st, node, inport).Ok?
    ensures r.Ok? ==> r.value.2 >= sc0 && (r.value.0 == Dynamic ==> r.value.1 == Undefined)
    ensures HasInportConnection(st.graph, node, inport) ==> r == PulledConnected(st, node, inport, sc0)
    ensures !HasInportConnection(st.graph, node, inport) && Attached(st, node, inport) ==>
              r == PulledAttached(st, node, inport, usage, sc0)
    ensures !HasInportConnection(st.graph, node, inport) && !Attached(st, node, inport) ==> r == Ok((usage, Undefined, sc0))
  {
    if HasInportConnection(st.graph, node, inport) then PulledConnected(st, node, inport, sc0)
    else if HasAttached(st, node, inport).value then PulledAttached(st, node, inport, usage, sc0)
    else Ok((usage, Undefined, sc0))
  }

  /** A connected inport takes the upstream record's usage, its value when static, and
      the larger of the old stamp and the upstream stamp. */
  function PulledConnected(st: DagState, node: string, inport: string, sc0: int): (r: Result<(Usage, Value, int)>)
    requires HasInportConnection(st.graph, node, inport)
    ensures r.Ok? <==> Upstream(st, node, inport).Ok?
    ensures r.Ok? ==> var up := Upstream(st, node, inport).value;
                      && Some(r.value.0) == up.usage && r.value.1 == (if r.value.0 == Static then up.value else Undefined)
                      && r.value.2 == Max(sc0, up.staticChanged.value)
                      && r.value.2 >= sc0 && r.value.2 >= up.staticChanged.value
                      && (up.staticChanged.value <= sc0 ==> r.value.2 == sc0)
  {
    var c :- Upstream(st, node, inport);
    var u := c.usage.value;
    Ok((u, if u == Static then c.value else Undefined, Max(sc0, c.staticChanged.value)))
  }

  /** An attached inport must carry an attachment of the effective usage; its stamp is
      the largest of the old stamp, the attachment's `staticChanged` and, when static,
      its `valueChanged`. */
  function PulledAttached(st: DagState, node: string, inport: string, usage: Usage, sc0: int): (r: Result<(Usage, Value, int)>)
    requires SetUp(st, node) && CheckInport(st, node, inport).Ok?
    ensures var a := GetAttached(st, node, inport).value;
            && (r.Ok? <==> a.usage == Some(usage))
            && (r.Ok? ==> && a.staticChanged.Some? && a.valueChanged.Some?
                          && r.value.0 == usage && r.value.1 == (if usage == Static then a.value else Undefined)
                          && r.value.2 == (if usage == Static then Max(Max(sc0, a.valueChanged.value), a.staticChanged.value)
                                           else Max(sc0, a.staticChanged.value))
                          && r.value.2 >= sc0 && r.value.2 >= a.staticChanged.value
                          && (usage == Static ==> r.value.2 >= a.valueChanged.value)
                          && ((a.staticChanged.value <= sc0 && (usage == Static ==> a.valueChanged.value <= sc0)) ==> r.value.2 == sc0))
  {
    assert inport in Members(InportNames(NodeComponent(st, node).value.inports));
    var a := GetAttached(st, node, inport).value;
    if a.usage != Some(usage) then Err(AssertionFailed)
    else if usage == Static then Ok((usage, a.value, Max(Max(sc0, a.valueChanged.value), a.staticChanged.value)))
    else Ok((usage, Undefined, Max(sc0, a.staticChanged.value)))
  }

  /** The loop of `pullStatic` over the inports `ins`: each record is replaced in turn,
      and the first throw ends the loop, keeping the records written before it. */
  function PullStaticFrom(st: DagState, node: string, ins: seq<string>): (r: Outcome)
    requires SetUp(st, node)
    ensures SetUp(r.st, node) && InportsOnly(st, r.st, node)
    ensures forall i :: i !in ins ==> GetCachedInport(r.st, node, i) == GetCachedInport(st, node, i)
    decreases |ins|
  {
    if ins == [] then Outcome(st, None)
    else
      match PullStaticEntry(st, node, ins[0])
      case Err(e) => Outcome(st, Some(e))
      case Ok(c) =>
        assert ins[0] in Members(InportNames(NodeComponent(st, node).value.inports));
        var s1 := WithInport(st, node, ins[0], c);
        var r := PullStaticFrom(s1, node, ins[1..]);
        InportsOnlyTrans(st, s1, r.st, node);
        r
  }

  lemma InportsOnlyTrans(st: DagState, s1: DagState, s2: DagState, node: string)
    requires InportsOnly(st, s1, node) && InportsOnly(s1, s2, node)
    ensures InportsOnly(st, s2, node)
  {
  }

  /** `pullStatic({node})`: setup, then the loop over the component's inports. */
  function PullStatic(st: DagState, node: string): (r: Outcome)
    ensures NodeComponent(st, node).Err? ==> r == Outcome(st, Some(NodeComponent(st, node).error))
    ensures NodeComponent(st, node).Ok? ==> SetUp(r.st, node) && InportsOnly(Setup(st, node).value, r.st, node)
  {
    match Setup(st, node)
    case Err(e) => Outcome(st, Some(e))
    case Ok(s) => PullStaticFrom(s, node, InportNames(NodeComponent(s, node).value.inports))
  }

  /** Writing other inport records does not change what the pull computes for an inport. */
  lemma EntryFrame(st: DagState, st': DagState, node: string, inport: string)
    requires SetUp(st, node) && InportsOnly(st, st', node)
    requires GetCachedInport(st', node, inport) == GetCachedInport(st, node, inport)
    ensures PullStaticEntry(st', node, inport) == PullStaticEntry(st, node, inport)
  {
    InportsOnlyInputs(st, st', node);
    ReadsFrame(st, st', node, inport);
    assert OldStamp(st', node, inport) == OldStamp(st, node, inport);
    if CheckInport(st, node, inport).Ok? {
      PulledFrame(st, st', node, inport, OldStamp(st, node, inport));
    }
  }

  lemma ReadsFrame(st: DagState, st': DagState, node: string, inport: string)
    requires SameInputs(st, st', {})
    ensures EffectiveInportUsage(st', node, inport) == EffectiveInportUsage(st, node, inport)
    ensures EvaluateInportSource(st', node, inport) == EvaluateInportSource(st, node, inport)
    ensures CheckInport(st', node, inport) == CheckInport(st, node, inport)
  {
    InportUsageFrame(st, st', {}, node, inport);
    SourceFrame(st, st', {}, node, inport);
    assert NodeComponent(st', node) == NodeComponent(st, node);
  }

  lemma PulledFrame(st: DagState, st': DagState, node: string, inport: string, sc0: int)
    requires SetUp(st, node) && SetUp(st', node) && SameInputs(st, st', {}) && CheckInport(st, node, inport).Ok?
    ensures CheckInport(st', node, inport).Ok?
    ensures forall u :: PulledStatic(st', node, inport, u, sc0) == PulledStatic(st, node, inport, u, sc0)
  {
    assert NodeComponent(st', node) == NodeComponent(st, node);
    assert HasAttached(st', node, inport) == HasAttached(st, node, inport);
    assert GetAttached(st', node, inport) == GetAttached(st, node, inport);
    if HasInportConnection(st.graph, node, inport) {
      var conn := GetInportConnection(st.graph, node, inport).value;
      assert GetCachedOutport(st', conn.0, conn.1) == GetCachedOutport(st, conn.0, conn.1);
    }
  }

  /** With distinct inport names, a pull that throws nothing leaves each inport with the
      record PullStaticEntry computes from the state the loop started from. */
  lemma {:induction false} PullStaticAll(st: DagState, node: string, ins: seq<string>)
    requires SetUp(st, node) && Distinct(ins)
    ensures PullStaticFrom(st, node, ins).err.None? ==>
              forall i :: i in ins ==> GetCachedInport(PullStaticFrom(st, node, ins).st, node, i) == PullStaticEntry(st, node, i)
    decreases |ins|
  {
    if ins != [] && PullStaticEntry(st, node, ins[0]).Ok? {
      var s1 := PullStep(st, node, ins);
      PullStaticAll(s1, node, ins[1..]);
    }
  }

  /** Inport k of `ins` is the first whose record cannot be computed from `st`, and the
      pull throws `e` there. */
  ghost predicate FailsFirst(st: DagState, node: string, ins: seq<string>, k: int, e: Error)
    requires SetUp(st, node)
  {
    0 <= k < |ins| && PullStaticEntry(st, node, ins[k]) == Err(e) &&
    forall j :: 0 <= j < k ==> PullStaticEntry(st, node, ins[j]).Ok?
  }

  /** The error of the first inport whose record cannot be computed from `st`. */
  function FirstEntryError(st: DagState, node: string, ins: seq<string>): (r: Option<Error>)
    requires SetUp(st, node)
    ensures r.None? <==> forall k :: 0 <= k < |ins| ==> PullStaticEntry(st, node, ins[k]).Ok?
    ensures r.Some? ==> exists k :: FailsFirst(st, node, ins, k, r.value)
  {
    if ins == [] then None
    else if PullStaticEntry(st, node, ins[0]).Err? then
      var e := PullStaticEntry(st, node, ins[0]).error;
      assert FailsFirst(st, node, ins, 0, e);
      Some(e)
    else
      var r := FirstEntryError(st, node, ins[1..]);
      if r.Some? then
        ghost var k :| FailsFirst(st, node, ins[1..], k, r.value);
        FailsFirstShift(st, node, ins, k, r.value);
        r
      else
        EntriesShift(st, node, ins);
        r
  }

  /** An inport failing first after the head fails first in the whole list, once the head succeeds. */
  lemma FailsFirstShift(st: DagState, node: string, ins: seq<string>, k: int, e: Error)
    requires SetUp(st, node) && |ins| > 0 && PullStaticEntry(st, node, ins[0]).Ok? && FailsFirst(st, node, ins[1..], k, e)
    ensures FailsFirst(st, node, ins, k + 1, e)
  {
    assert forall j :: 1 <= j < |ins| ==> ins[j] == ins[1..][j - 1];
  }

  /** Every inport's record can be computed when the head's and the rest's can. */
  lemma EntriesShift(st: DagState, node: string, ins: seq<string>)
    requires SetUp(st, node) && |ins| > 0 && PullStaticEntry(st, node, ins[0]).Ok?
    requires forall k :: 0 <= k < |ins[1..]| ==> PullStaticEntry(st, node, ins[1..][k]).Ok?
    ensures forall k :: 0 <= k < |ins| ==> PullStaticEntry(st, node, ins[k]).Ok?
  {
    assert forall j :: 1 <= j < |ins| ==> ins[j] == ins[1..][j - 1];
  }

  lemma {:induction false} FirstEntryErrorSame(st: DagState, st': DagState, node: string, ins: seq<string>)
    requires SetUp(st, node) && SetUp(st', node)
    requires forall i :: i in ins ==> PullStaticEntry(st', node, i) == PullStaticEntry(st, node, i)
    ensures FirstEntryError(st', node, ins) == FirstEntryError(st, node, ins)
    decreases |ins|
  {
    if ins != [] {
      FirstEntryErrorSame(st, st', node, ins[1..]);
    }
  }

  /** With distinct inport names, a pull that throws reports the first inport whose
      record cannot be computed from the state the loop started from. */
  lemma {:induction false} PullStaticFirstError(st: DagState, node: string, ins: seq<string>)
    requires SetUp(st, node) && Distinct(ins)
    ensures PullStaticFrom(st, node, ins).err == FirstEntryError(st, node, ins)
    decreases |ins|
  {
    if ins != [] && PullStaticEntry(st, node, ins[0]).Ok? {
      var s1 := PullStep(st, node, ins);
      PullStaticFirstError(s1, node, ins[1..]);
      FirstEntryErrorSame(st, s1, node, ins[1..]);
    }
  }

  /** One step of the loop: the state after the first inport's record is written, from
      which the rest of the inports pull what they would have pulled before it. */
  lemma PullStep(st: DagState, node: string, ins: seq<string>) returns (s1: DagState)
    requires SetUp(st, node) && Distinct(ins) && ins != [] && PullStaticEntry(st, node, ins[0]).Ok?
    ensures SetUp(s1, node) && Distinct(ins[1..]) && ins[0] !in ins[1..]
    ensures PullStaticFrom(st, node, ins) == PullStaticFrom(s1, node, ins[1..])
    ensures GetCachedInport(s1, node, ins[0]) == PullStaticEntry(st, node, ins[0])
    ensures forall i :: i in ins[1..] ==> PullStaticEntry(s1, node, i) == PullStaticEntry(st, node, i)
  {
    assert ins[0] in Members(InportNames(NodeComponent(st, node).value.inports));
    s1 := WithInport(st, node, ins[0], PullStaticEntry(st, node, ins[0]).value);
    forall i | i in ins[1..] ensures PullStaticEntry(s1, node, i) == PullStaticEntry(st, node, i) {
      assert i != ins[0];
      EntryFrame(st, s1, node, i);
    }
  }

  // ---------------------------------------------------------------- pullDynamic

  /** The old value stamp of an inport record as the pull starts from it: `-1` when unset. */
  function OldValueStamp(st: DagState, node: string, inport: string): int {
    var c := GetCachedInport(st, node, inport);
    if c.Ok? && c.value.valueChanged.Some? then c.value.valueChanged.value else -1
  }

  /** The new record differs from the old one in the value and the value stamp at most,
      and has a value stamp. */
  predicate ValueOnly(was: InportCache, c: InportCache) {
    && c.usage == was.usage && c.source == was.source
    && c.staticChanged == was.staticChanged && c.checked == was.checked && c.valueChanged.Some?
  }

  /** The record `pullDynamic` (lines 735-776) writes for one inport, `None` for an inport
      whose effective usage is static, which it skips. Only the value and the value
      stamp change. */
  function PullDynamicEntry(st: DagState, node: string, inport: string): (r: Result<Option<InportCache>>)
    requires SetUp(st, node)
    ensures EffectiveInportUsage(st, node, inport).Err? ==> r == Err(EffectiveInportUsage(st, node, inport).error)
    ensures EffectiveInportUsage(st, node, inport) == Ok(Static) ==> r == Ok(None)
    ensures r.Ok? && r.value.Some? ==>
              && EffectiveInportUsage(st, node, inport) == Ok(Dynamic) && GetCachedInport(st, node, inport).Ok?
              && ValueOnly(GetCachedInport(st, node, inport).value, r.value.value)
              && r.value.value.valueChanged.value >= OldValueStamp(st, node, inport)
  {
    match EffectiveInportUsage(st, node, inport)
    case Err(e) => Err(e)
    case Ok(Static) => Ok(None)
    case Ok(Dynamic) =>
      assert inport in InportNames(NodeComponent(st, node).value.inports);
      var cached := GetCachedInport(st, node, inport).value;
      var pulled :- PulledDynamic(st, node, inport, OldValueStamp(st, node, inport));
      Ok(Some(cached.(value := pulled.0, valueChanged := Some(pulled.1))))
  }

  /** The value and value stamp the dynamic pull reads from the inport's source. */
  function PulledDynamic(st: DagState, node: string, inport: string, vc0: int): (r: Result<(Value, int)>)
    requires SetUp(st, node) && CheckInport(st, node, inport).Ok?
    ensures r.Ok? ==> r.value.1 >= vc0
    ensures HasInportConnection(st.graph, node, inport) ==>
              && (r.Ok? <==> Upstream(st, node, inport).Ok?)
              && (r.Ok? ==> var up := Upstream(st, node, inport).value;
                            && r.value.0 == up.value && r.value.1 >= up.valueChanged.value
                            && (r.value.1 == vc0 || r.value.1 == up.valueChanged.value))
    ensures !HasInportConnection(st.graph, node, inport) && Attached(st, node, inport) ==>
              var a := GetAttached(st, node, inport).value;
              && (r.Ok? <==> a.usage == Some(Dynamic))
              && (r.Ok? ==> && a.valueChanged.Some? && r.value.0 == a.value && r.value.1 >= a.valueChanged.value
                            && (r.value.1 == vc0 || r.value.1 == a.valueChanged.value))
    ensures !HasInportConnection(st.graph, node, inport) && !Attached(st, node, inport) ==> r == Ok((Undefined, vc0))
  {
    if HasInportConnection(st.graph, node, inport) then
      var c :- Upstream(st, node, inport);
      Ok((c.value, Max(vc0, c.valueChanged.value)))
    else if HasAttached(st, node, inport).value then
      assert inport in Members(InportNames(NodeComponent(st, node).value.inports));
      var a := GetAttached(st, node, inport).value;
      if a.usage != Some(Dynamic) then Err(AssertionFailed)
      else Ok((a.value, Max(vc0, a.valueChanged.value)))
    else Ok((Undefined, vc0))
  }

  /** The dynamic pull of a dynamic inport: from an edge, the upstream value and a value
      stamp that is the larger of the old one and the upstream one; from an attachment,
      which must be dynamic, the attached value and the larger of the two value stamps;
      from nothing, no value and the old stamp. */
  lemma PullDynamicSource(st: DagState, node: string, inport: string, r: Result<Option<InportCache>>)
    requires SetUp(st, node) && r == PullDynamicEntry(st, node, inport)
    requires EffectiveInportUsage(st, node, inport) == Ok(Dynamic)
    ensures HasInportConnection(st.graph, node, inport) ==>
              && (r.Ok? <==> Upstream(st, node, inport).Ok?)
              && (r.Ok? ==> && r.value.Some? && r.value.value.value == Upstream(st, node, inport).value.value
                            && r.value.value.valueChanged == Some(Max(OldValueStamp(st, node, inport),
                                                                      Upstream(st, node, inport).value.valueChanged.value)))
    ensures !HasInportConnection(st.graph, node, inport) && Attached(st, node, inport) ==>
              && (r.Ok? <==> GetAttached(st, node, inport).value.usage == Some(Dynamic))
              && (r.Ok? ==> && r.value.Some? && r.value.value.value == GetInitialValue(st.graph, node, inport)
                            && GetAttached(st, node, inport).value.valueChanged.Some?
                            && r.value.value.valueChanged == Some(Max(OldValueStamp(st, node, inport),
                                                                      GetAttached(st, node, inport).value.valueChanged.value)))
    ensures !HasInportConnection(st.graph, node, inport) && !Attached(st, node, inport) ==>
              && r.Ok? && r.value.Some? && r.value.value.value == Undefined
              && r.value.value.valueChanged == Some(OldValueStamp(st, node, inport))
  {
  }

  /** The loop of `pullDynamic` over the inports `ins`. */
  function PullDynamicFrom(st: DagState, node: string, ins: seq<string>): (r: Outcome)
    requires SetUp(st, node)
    ensures SetUp(r.st, node) && InportsOnly(st, r.st, node)
    ensures forall i :: i !in ins ==> GetCachedInport(r.st, node, i) == GetCachedInport(st, node, i)
    decreases |ins|
  {
    if ins == [] then Outcome(st, None)
    else
      match PullDynamicEntry(st, node, ins[0])
      case Err(e) => Outcome(st, Some(e))
      case Ok(None) => PullDynamicFrom(st, node, ins[1..])
      case Ok(Some(c)) =>
        assert ins[0] in Members(InportNames(NodeComponent(st, node).value.inports));
        var s1 := WithInport(st, node, ins[0], c);
        var r := PullDynamicFrom(s1, node, ins[1..]);
        InportsOnlyTrans(st, s1, r.st, node);
        r
  }

  /** `pullDynamic({node})`: setup, then the loop over the component's inports. */
  function PullDynamic(st: DagState, node: string): (r: Outcome)
    ensures NodeComponent(st, node).Err? ==> r == Outcome(st, Some(NodeComponent(st, node).error))
    ensures NodeComponent(st, node).Ok? ==> SetUp(r.st, node) && InportsOnly(Setup(st, node).value, r.st, node)
  {
    match Setup(st, node)
    case Err(e) => Outcome(st, Some(e))
    case Ok(s) => PullDynamicFrom(s, node, InportNames(NodeComponent(s, node).value.inports))
  }

  lemma DynamicEntryFrame(st: DagState, st': DagState, node: string, inport: string)
    requires SetUp(st, node) && InportsOnly(st, st', node)
    requires GetCachedInport(st', node, inport) == GetCachedInport(st, node, inport)
    ensures PullDynamicEntry(st', node, inport) == PullDynamicEntry(st, node, inport)
  {
    InportsOnlyInputs(st, st', node);
    ReadsFrame(st, st', node, inport);
    assert OldValueStamp(st', node, inport) == OldValueStamp(st, node, inport);
    if CheckInport(st, node, inport).Ok? {
      DynamicPulledFrame(st, st', node, inport, OldValueStamp(st, node, inport));
    }
  }

  lemma DynamicPulledFrame(st: DagState, st': DagState, node: string, inport: string, vc0: int)
    requires SetUp(st, node) && SetUp(st', node) && SameInputs(st, st', {}) && CheckInport(st, node, inport).Ok?
    ensures CheckInport(st', node, inport).Ok?
    ensures PulledDynamic(st', node, inport, vc0) == PulledDynamic(st, node, inport, vc0)
  {
    assert NodeComponent(st', node) == NodeComponent(st, node);
    assert HasAttached(st', node, inport) == HasAttached(st, node, inport);
    assert GetAttached(st', node, inport) == GetAttached(st, node, inport);
    if HasInportConnection(st.graph, node, inport) {
      var conn := GetInportConnection(st.graph, node, inport).value;
      assert GetCachedOutport(st', conn.0, conn.1) == GetCachedOutport(st, conn.0, conn.1);
    }
  }

  /** What a dynamic pull leaves in the record of an inport: the record it computed, or
      the old record when it skipped the inport as static. */
  ghost predicate DynamicPulled(st: DagState, st': DagState, node: string, inport: string)
    requires SetUp(st, node)
  {
    match PullDynamicEntry(st, node, inport)
    case Ok(Some(c)) => GetCachedInport(st', node, inport) == Ok(c)
    case Ok(None) => GetCachedInport(st', node, inport) == GetCachedInport(st, node, inport)
    case Err(_) => true
  }

  /** With distinct inport names, a dynamic pull that throws nothing rewrites exactly the
      records of the dynamic inports, each as PullDynamicEntry computes it from the state
      the loop started from, and leaves the static ones as they were. */
  lemma PullDynamicAll(st: DagState, node: string, ins: seq<string>)
    requires SetUp(st, node) && Distinct(ins)
    ensures PullDynamicFrom(st, node, ins).err.None? ==>
              forall i :: i in ins ==> PullDynamicEntry(st, node, i).Ok? && DynamicPulled(st, PullDynamicFrom(st, node, ins).st, node, i)
  {
    forall i | i in ins && PullDynamicFrom(st, node, ins).err.None?
      ensures PullDynamicEntry(st, node, i).Ok? && DynamicPulled(st, PullDynamicFrom(st, node, ins).st, node, i)
    {
      PullDynamicAt(st, node, ins, i);
    }
  }

  lemma {:induction false} PullDynamicAt(st: DagState, node: string, ins: seq<string>, i: string)
    requires SetUp(st, node) && Distinct(ins) && i in ins && PullDynamicFrom(st, node, ins).err.None?
    ensures PullDynamicEntry(st, node, i).Ok? && DynamicPulled(st, PullDynamicFrom(st, node, ins).st, node, i)
    decreases |ins|
  {
    var e := PullDynamicEntry(st, node, ins[0]);
    assert Distinct(ins[1..]) && ins[0] !in ins[1..];
    if e == Ok(None) {
      if i != ins[0] {
        PullDynamicAt(st, node, ins[1..], i);
      }
    } else {
      var s1 := DynamicStep(st, node, ins);
      if i != ins[0] {
        PullDynamicAt(s1, node, ins[1..], i);
      }
    }
  }

  lemma DynamicStep(st: DagState, node: string, ins: seq<string>) returns (s1: DagState)
    requires SetUp(st, node) && Distinct(ins) && ins != [] && PullDynamicEntry(st, node, ins[0]).Ok?
    requires PullDynamicEntry(st, node, ins[0]).value.Some?
    ensures SetUp(s1, node)
    ensures PullDynamicFrom(st, node, ins) == PullDynamicFrom(s1, node, ins[1..])
    ensures GetCachedInport(s1, node, ins[0]) == Ok(PullDynamicEntry(st, node, ins[0]).value.value)
    ensures forall i :: i in ins[1..] ==> PullDynamicEntry(s1, node, i) == PullDynamicEntry(st, node, i)
    ensures forall i :: i in ins[1..] ==> GetCachedInport(s1, node, i) == GetCachedInport(st, node, i)
  {
    assert ins[0] in Members(InportNames(NodeComponent(st, node).value.inports));
    s1 := WithInport(st, node, ins[0], PullDynamicEntry(st, node, ins[0]).value.value);
    assert Distinct(ins[1..]) && ins[0] !in ins[1..];
    forall i | i in ins[1..] ensures PullDynamicEntry(s1, node, i) == PullDynamicEntry(st, node, i) {
      assert i != ins[0];
      DynamicEntryFrame(st, s1, node, i);
    }
  }

  // ---------------------------------------------------------------- saves

  /** The cache of a set-up node. */
  function CacheOf(st: DagState, node: string): Cache
    requires SetUp(st, node)
  {
    MetaOf(st, node).cached.value
  }

  /** Two caches with the same records' names. */
  predicate SameKeys(c: Cache, c': Cache) {
    c'.inports.Keys == c.inports.Keys && c'.compiled.Keys == c.compiled.Keys && c'.outports.Keys == c.outports.Keys
  }

  /** Replace the cache of a set-up node by one with the same record names. */
  function WithCache(st: DagState, node: string, c: Cache): (r: DagState)
    requires SetUp(st, node) && SameKeys(CacheOf(st, node), c)
    ensures SetUp(r, node) && CacheOf(r, node) == c
    ensures MetaOf(r, node).attached == MetaOf(st, node).attached
    ensures r.graph == st.graph && r.components == st.components && r.frame == st.frame
    ensures forall x :: x != node ==> MetaOf(r, x) == MetaOf(st, x)
  {
    var r := st.(meta := st.meta[node := MetaOf(st, node).(cached := Some(c))]);
    assert MetaOf(r, node) == MetaOf(st, node).(cached := Some(c));
    assert NodeComponent(r, node) == NodeComponent(st, node);
    r
  }

  /** Replace one compiled record of a set-up node. */
  function WithCompiled(st: DagState, node: string, outport: string, c: CompiledCache): (r: DagState)
    requires SetUp(st, node) && outport in CacheOf(st, node).compiled
    ensures SetUp(r, node) && outport in CacheOf(r, node).compiled && CacheOf(r, node).compiled[outport] == c
    ensures SameRecordsBut(st, r, node, {}, {outport}, {})
  {
    var cache := CacheOf(st, node);
    WithCache(st, node, cache.(compiled := cache.compiled[outport := c]))
  }

  /** Replace one outport record of a set-up node. */
  function WithOutport(st: DagState, node: string, outport: string, c: OutportCache): (r: DagState)
    requires SetUp(st, node) && outport in CacheOf(st, node).outports
    ensures SetUp(r, node) && outport in CacheOf(r, node).outports && CacheOf(r, node).outports[outport] == c
    ensures SameRecordsBut(st, r, node, {}, {}, {outport})
  {
    var cache := CacheOf(st, node);
    WithCache(st, node, cache.(outports := cache.outports[outport := c]))
  }

  /** `saveCompiled` (lines 886-892): setup, then the compiled record of the outport holds
      the value, stamped with the frame. */
  function SaveCompiled(st: DagState, node: string, outport: string, v: Value): (r: Outcome)
    ensures NodeComponent(st, node).Err? ==> r == Outcome(st, Some(NodeComponent(st, node).error))
    ensures NodeComponent(st, node).Ok? && outport in OutportNames(NodeComponent(st, node).value.outports) ==> r.err.None?
    ensures r.err.None? ==> && NodeComponent(st, node).Ok? && SetUp(r.st, node)
                            && outport in CacheOf(r.st, node).compiled
                            && CacheOf(r.st, node).compiled[outport] == CompiledCache(v, Some(st.frame), Some(st.frame))
                            && SameRecordsBut(Setup(st, node).value, r.st, node, {}, {outport}, {})
  {
    match Setup(st, node)
    case Err(e) => Outcome(st, Some(e))
    case Ok(s) =>
      var c := CacheOf(s, node);
      if outport !in c.compiled then Outcome(s, Some(TypeError))
      else Outcome(WithCompiled(s, node, outport, CompiledCache(v, Some(s.frame), Some(s.frame))), None)
  }

  /** Between two states of a set-up node only the node's inport, compiled and outport
      records named in `ins`, `comp` and `outs` differ. */
  ghost predicate SameRecordsBut(st: DagState, st': DagState, node: string, ins: set<string>, comp: set<string>, outs: set<string>)
    requires SetUp(st, node) && SetUp(st', node)
  {
    && st'.graph == st.graph && st'.components == st.components && st'.frame == st.frame
    && (forall x :: x != node ==> MetaOf(st', x) == MetaOf(st, x))
    && MetaOf(st', node).attached == MetaOf(st, node).attached
    && SameKeys(CacheOf(st, node), CacheOf(st', node))
    && (forall i :: i in CacheOf(st, node).inports && i !in ins ==> CacheOf(st', node).inports[i] == CacheOf(st, node).inports[i])
    && (forall o :: o in CacheOf(st, node).compiled && o !in comp ==> CacheOf(st', node).compiled[o] == CacheOf(st, node).compiled[o])
    && (forall o :: o in CacheOf(st, node).outports && o !in outs ==> CacheOf(st', node).outports[o] == CacheOf(st, node).outports[o])
  }

  /** `staticSave` (lines 894-904): setup, then the outport record holds the value, the
      outport's effective usage, and the frame as all three stamps. */
  function StaticSave(st: DagState, node: string, outport: string, v: Value): (r: Outcome)
    ensures NodeComponent(st, node).Err? ==> r == Outcome(st, Some(NodeComponent(st, node).error))
    ensures NodeComponent(st, node).Ok? ==>
              var u := EffectiveOutportUsage(Setup(st, node).value, node, outport);
              && (u.Err? ==> r == Outcome(Setup(st, node).value, Some(u.error)))
              && (u.Ok? ==> && r.err.None?
                            && OutportWritten(Setup(st, node).value, r.st, node, outport,
                                              OutportRecord(v, Some(u.value), Some(st.frame), Some(st.frame), Some(st.frame))))
  {
    match Setup(st, node)
    case Err(e) => Outcome(st, Some(e))
    case Ok(s) =>
      match EffectiveOutportUsage(s, node, outport)
      case Err(e) => Outcome(s, Some(e))
      case Ok(u) =>
        assert outport in Members(OutportNames(NodeComponent(s, node).value.outports));
        var f := Some(s.frame);
        Outcome(WithOutport(s, node, outport, OutportRecord(v, Some(u), f, f, f)), None)
  }

  /** `dynamicSave` (lines 906-914): setup, then the outport record holds the value, with
      the frame as its value stamp and checked stamp; its usage and `staticChanged` stay. */
  function DynamicSave(st: DagState, node: string, outport: string, v: Value): (r: Outcome)
    ensures NodeComponent(st, node).Err? ==> r == Outcome(st, Some(NodeComponent(st, node).error))
    ensures NodeComponent(st, node).Ok? && outport in OutportNames(NodeComponent(st, node).value.outports) ==> r.err.None?
    ensures r.err.None? ==> NodeComponent(st, node).Ok? && DynamicSaved(Setup(st, node).value, r.st, node, outport, v)
  {
    match Setup(st, node)
    case Err(e) => Outcome(st, Some(e))
    case Ok(s) =>
      var c := CacheOf(s, node);
      if outport !in c.outports then Outcome(s, Some(TypeError))
      else
        var was := c.outports[outport];
        var now: OutportCache := was.(value := v, valueChanged := Some(s.frame), checked := Some(s.frame));
        Outcome(WithOutport(s, node, outport, now), None)
  }

  /** `r` is `s` with the outport record replaced by `rec`. */
  ghost predicate OutportWritten(s: DagState, r: DagState, node: string, outport: string, rec: OutportRecord) {
    && SetUp(s, node) && SetUp(r, node) && outport in CacheOf(r, node).outports
    && CacheOf(r, node).outports[outport] == rec && SameRecordsBut(s, r, node, {}, {}, {outport})
  }

  /** `r` is `s` with a dynamic save of `v` into the outport record. */
  ghost predicate DynamicSaved(s: DagState, r: DagState, node: string, outport: string, v: Value) {
    && SetUp(s, node) && SetUp(r, node)
    && outport in CacheOf(s, node).outports && outport in CacheOf(r, node).outports
    && var was := CacheOf(s, node).outports[outport];
       && CacheOf(r, node).outports[outport] == was.(value := v, valueChanged := Some(s.frame), checked := Some(s.frame))
       && SameRecordsBut(s, r, node, {}, {}, {outport})
  }

  /** `clearCache` (lines 878-884): the node's cache is dropped; its attachments stay. */
  function ClearCache(st: DagState, node: string): (r: Outcome)
    ensures r.err.None? <==> FindNode(st.graph.nodes, node).Some?
    ensures r.err.Some? ==> r == Outcome(st, Some(NoSuchNode(node)))
    ensures r.err.None? ==> && MetaOf(r.st, node) == MetaOf(st, node).(cached := None)
                            && r.st.graph == st.graph && r.st.components == st.components && r.st.frame == st.frame
                            && forall x :: x != node ==> MetaOf(r.st, x) == MetaOf(st, x)
  {
    if FindNode(st.graph.nodes, node).None? then Outcome(st, Some(NoSuchNode(node)))
    else
      var r := st.(meta := st.meta[node := MetaOf(st, node).(cached := None)]);
      assert MetaOf(r, node) == MetaOf(st, node).(cached := None);
      Outcome(r, None)
  }

  // ---------------------------------------------------------------- attachments

  /** The `staticChanged` stamp `setAttached` (lines 354-367) gives a new attachment of
      usage `u` over the set-up record `was`: the frame, unless both are dynamic and the
      record holds a stamp, which is then kept. */
  function AttachStamp(was: AttachedView, u: Usage, frame: int): (sc: int)
    ensures u == Static || was.usage != Some(u) || was.staticChanged.None? ==> sc == frame
    ensures sc != frame ==> u == Dynamic && was.usage == Some(Dynamic) && Some(sc) == was.staticChanged
  {
    if u == Dynamic && was.usage == Some(Dynamic) && was.staticChanged.Some? then was.staticChanged.value else frame
  }

  function UsageNamed(usage: string): Usage {
    if usage == "static" then Static else Dynamic
  }

  /** `setAttached` (lines 334-373): check the usage string and the inport, refuse a
      dynamic value on an inport declared static, then setup, record the attachment
      stamped with the frame, and make the value the port's only initializer. */
  function SetAttached(st: DagState, node: string, inport: string, value: Value, usage: string): (r: Outcome)
    ensures usage != "static" && usage != "dynamic" ==> r == Outcome(st, Some(InvalidAttachedUsage(usage)))
    ensures (usage == "static" || usage == "dynamic") && CheckInport(st, node, inport).Err? ==>
              r == Outcome(st, Some(CheckInport(st, node, inport).error))
    ensures (usage == "static" || usage == "dynamic") && CheckInport(st, node, inport).Ok? &&
            CheckInport(st, node, inport).value.usage == Some("static") && usage == "dynamic" ==>
              r == Outcome(st, Some(DynamicOnStaticInport(inport)))
    ensures r.err.None? <==> && (usage == "static" || usage == "dynamic") && CheckInport(st, node, inport).Ok?
                             && !(CheckInport(st, node, inport).value.usage == Some("static") && usage == "dynamic")
    ensures r.err.None? ==> AttachWritten(Setup(st, node).value, r.st, node, inport, value, UsageNamed(usage))
  {
    if usage != "static" && usage != "dynamic" then Outcome(st, Some(InvalidAttachedUsage(usage)))
    else
      match CheckInport(st, node, inport)
      case Err(e) => Outcome(st, Some(e))
      case Ok(info) =>
        var u := UsageNamed(usage);
        if info.usage == Some("static") && u == Dynamic then Outcome(st, Some(DynamicOnStaticInport(inport)))
        else
          var s := Setup(st, node).value;
          Outcome(WithAttachment(s, node, inport, value, u), None)
  }

  /** The state after attaching `value` with usage `u` to a set-up node `s`. */
  ghost predicate AttachWritten(s: DagState, r: DagState, node: string, inport: string, value: Value, u: Usage)
  {
    && SetUp(s, node) && SetUp(r, node)
    && GetAttached(s, node, inport).Ok?
    && GetAttached(r, node, inport) ==
         Ok(AttachedView(value, Some(u), Some(s.frame), Some(AttachStamp(GetAttached(s, node, inport).value, u, s.frame))))
    && r.graph == ReplaceInitial(s.graph, value, node, inport)
    && r.components == s.components && r.frame == s.frame
    && (forall x :: x != node ==> MetaOf(r, x) == MetaOf(s, x))
    && MetaOf(r, node).cached == MetaOf(s, node).cached
    && (forall i :: i != inport ==> GetAttached(r, node, i) == GetAttached(s, node, i))
  }

  function WithAttachment(s: DagState, node: string, inport: string, value: Value, u: Usage): (r: DagState)
    requires SetUp(s, node)
    requires inport in InportNames(NodeComponent(s, node).value.inports)
    ensures AttachWritten(s, r, node, inport, value, u)
  {
    var m := MetaOf(s, node);
    var a := m.attached.value;
    var sc := AttachStamp(GetAttached(s, node, inport).value, u, s.frame);
    var r := s.(graph := ReplaceInitial(s.graph, value, node, inport),
                meta := s.meta[node := m.(attached := Some(a[inport := Attach(value, u, s.frame, sc)]))]);
    ReplacedValue(s.graph, value, node, inport, node, inport);
    assert MetaOf(r, node).attached.value[inport] == Attach(value, u, s.frame, sc);
    forall i | i != inport ensures GetAttached(r, node, i) == GetAttached(s, node, i) {
      ReplacedValue(s.graph, value, node, inport, node, i);
    }
    r
  }

  /** `removeAttached` (lines 392-399): the node must exist; its attachment record for
      the inport is deleted and the port's initializers are removed from the graph. */
  function RemoveAttached(st: DagState, node: string, inport: string): (r: Outcome)
    ensures r.err.Some? <==> FindNode(st.graph.nodes, node).None?
    ensures r.err.Some? ==> r == Outcome(st, Some(NoSuchNode(node)))
    ensures r.err.None? ==> && GetAttached(r.st, node, inport) == Ok(AttachedView(Undefined, Some(Static), None, None))
                            && (CheckInport(st, node, inport).Ok? ==> HasAttached(r.st, node, inport) == Ok(false))
                            && (forall i :: i != inport ==> GetAttached(r.st, node, i) == GetAttached(st, node, i))
                            && (forall n, p :: (n, p) != (node, inport) ==> GetInitialValue(r.st.graph, n, p) == GetInitialValue(st.graph, n, p))
                            && r.st.graph.nodes == st.graph.nodes && r.st.graph.edges == st.graph.edges
                            && r.st.components == st.components && r.st.frame == st.frame
                            && MetaOf(r.st, node).cached == MetaOf(st, node).cached
                            && (forall x :: x != node ==> MetaOf(r.st, x) == MetaOf(st, x))
  {
    if FindNode(st.graph.nodes, node).None? then Outcome(st, Some(NoSuchNode(node)))
    else
      var m := MetaOf(st, node);
      var m' := if m.attached.Some? && inport in m.attached.value then m.(attached := Some(m.attached.value - {inport})) else m;
      var r := st.(graph := st.graph.(initializers := RemoveInitial(st.graph.initializers, node, inport)),
                   meta := st.meta[node := m']);
      assert MetaOf(r, node) == m';
      RemovedValue(st.graph, node, inport, node, inport);
      forall i | i != inport ensures GetAttached(r, node, i) == GetAttached(st, node, i) {
        RemovedValue(st.graph, node, inport, node, i);
      }
      forall n, p | (n, p) != (node, inport) ensures GetInitialValue(r.graph, n, p) == GetInitialValue(st.graph, n, p) {
        RemovedValue(st.graph, node, inport, n, p);
      }
      Outcome(r, None)
  }

  // ---------------------------------------------------------------- frame counter

  /** `incFrame` (lines 969-973): return the frame and advance it, both as JavaScript's
      `| 0` truncates them to signed 32 bits. */
  function IncFrame(st: DagState): (r: (int, DagState))
    ensures IsInt32(r.0) && IsInt32(r.1.frame)
    ensures IsInt32(st.frame) ==> r.0 == st.frame
    ensures IsInt32(st.frame) ==> r.1.frame == if st.frame == INT32_MAX then INT32_MIN else st.frame + 1
    ensures r.1 == st.(frame := r.1.frame)
  {
    (ToInt32(st.frame), st.(frame := ToInt32(st.frame + 1)))
  }
}
