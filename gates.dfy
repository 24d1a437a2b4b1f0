/** The staleness gates: `needsRecompilation` and `needsReexecution` compare the frame
    stamp of a compiled or output record with the `staticChanged` stamps of the cached
    inports it depends on. */
module Gates {
  import opened Base
  import opened Components
  import opened Store
  import opened Resolution

  /** Some dependency's cached inport changed statically after `stamp`. */
  ghost predicate SomeDepNewer(st: DagState, node: string, deps: seq<string>, stamp: int) {
    exists k :: 0 <= k < |deps| && GetCachedInport(st, node, deps[k]).Ok? && Newer(GetCachedInport(st, node, deps[k]).value.staticChanged, stamp)
  }

  ghost predicate DepsCached(st: DagState, node: string, deps: seq<string>) {
    forall k :: 0 <= k < |deps| ==> GetCachedInport(st, node, deps[k]).Ok?
  }

  /** The dependency loop of both gates (lines 835-842 and 866-873): true as soon as one
      dependency is newer than the stamp; the first missing inport record throws. */
  function AnyNewer(st: DagState, node: string, deps: seq<string>, stamp: int): (r: Result<bool>)
    ensures r == Ok(true) ==> SomeDepNewer(st, node, deps, stamp)
    ensures r == Ok(false) ==> !SomeDepNewer(st, node, deps, stamp) && DepsCached(st, node, deps)
    ensures DepsCached(st, node, deps) ==> r.Ok?
  {
    if deps == [] then Ok(false)
    else
      var c :- GetCachedInport(st, node, deps[0]);
      if Newer(c.staticChanged, stamp) then Ok(true)
      else
        var r := AnyNewer(st, node, deps[1..], stamp);
        assert forall k :: 1 <= k < |deps| ==> deps[k] == deps[1..][k - 1];
        if r == Ok(true) then
          ghost var k :| 0 <= k < |deps[1..]| && GetCachedInport(st, node, deps[1..][k]).Ok? && Newer(GetCachedInport(st, node, deps[1..][k]).value.staticChanged, stamp);
          assert GetCachedInport(st, node, deps[k + 1]) == GetCachedInport(st, node, deps[1..][k]);
          r
        else r
  }

  /** The `staticChanged` stamp of the set-up compiled record of an outport. */
  function CompiledStamp(st: DagState, node: string, outport: string): Option<int>
    requires SetupView(st, node).Ok?
    requires outport in SetupView(st, node).value.cached.value.compiled
  {
    SetupView(st, node).value.cached.value.compiled[outport].staticChanged
  }

  /** `needsRecompilation` (lines 823-845): true iff the compiled record has no stamp or
      some dependency changed statically after it. */
  function NeedsRecompilation(st: DagState, node: string, outport: string): (r: Result<bool>)
    ensures r.Ok? ==> SetupView(st, node).Ok? && outport in SetupView(st, node).value.cached.value.compiled
    ensures r.Ok? && CompiledStamp(st, node, outport).Some? ==> NodeDepends(st, node, outport).Ok?
    ensures r.Ok? ==> (r.value <==> (CompiledStamp(st, node, outport).None? ||
                                   SomeDepNewer(st, node, NodeDepends(st, node, outport).value, CompiledStamp(st, node, outport).value)))
    ensures SetupView(st, node).Ok? && outport in SetupView(st, node).value.cached.value.compiled ==>
              (CompiledStamp(st, node, outport).None? ==> r == Ok(true)) &&
              ((CompiledStamp(st, node, outport).Some? && NodeDepends(st, node, outport).Ok? &&
                DepsCached(st, node, NodeDepends(st, node, outport).value)) ==> r.Ok?)
  {
    var m :- SetupView(st, node);
    if outport !in m.cached.value.compiled then Err(TypeError)
    else
      var compiledFrame := m.cached.value.compiled[outport].staticChanged;
      if compiledFrame.None? then Ok(true)
      else
        var deps :- NodeDepends(st, node, outport);
        AnyNewer(st, node, deps, compiledFrame.value)
  }

  /** The `staticChanged` stamp and the usage of the set-up output record of an outport. */
  function OutputRecord(st: DagState, node: string, outport: string): OutportCache
    requires SetupView(st, node).Ok?
    requires outport in SetupView(st, node).value.cached.value.outports
  {
    SetupView(st, node).value.cached.value.outports[outport]
  }

  /** `needsReexecution` (lines 847-876): always true at the dynamic runtime; at the static
      runtime true iff the output record has no stamp, was saved with a usage other
      than the outport's current effective usage, or some dependency changed statically
      after it. */
  function NeedsReexecution(st: DagState, node: string, outport: string, runtime: Usage): (r: Result<bool>)
    ensures runtime == Dynamic ==> r == Ok(true)
    ensures runtime == Static && r.Ok? ==>
              && SetupView(st, node).Ok? && outport in SetupView(st, node).value.cached.value.outports
              && (r.value <==> || OutputRecord(st, node, outport).staticChanged.None?
                               || (EffectiveOutportUsage(st, node, outport).Ok? &&
                                   Some(EffectiveOutportUsage(st, node, outport).value) != OutputRecord(st, node, outport).usage)
                               || (EffectiveOutportUsage(st, node, outport).Ok? && NodeDepends(st, node, outport).Ok? &&
                                   SomeDepNewer(st, node, NodeDepends(st, node, outport).value, OutputRecord(st, node, outport).staticChanged.value)))
    ensures runtime == Static && r.Ok? && OutputRecord(st, node, outport).staticChanged.Some? ==> EffectiveOutportUsage(st, node, outport).Ok?
    ensures (runtime == Static && r.Ok? && OutputRecord(st, node, outport).staticChanged.Some? &&
             Some(EffectiveOutportUsage(st, node, outport).value) == OutputRecord(st, node, outport).usage) ==> NodeDepends(st, node, outport).Ok?
  {
    if runtime == Dynamic then Ok(true)
    else
      var m :- SetupView(st, node);
      if outport !in m.cached.value.outports then Err(TypeError)
      else
        var rec := m.cached.value.outports[outport];
        if rec.staticChanged.None? then Ok(true)
        else
          var usage :- EffectiveOutportUsage(st, node, outport);
          if Some(usage) != rec.usage then Ok(true)
          else
            var deps :- NodeDepends(st, node, outport);
            AnyNewer(st, node, deps, rec.staticChanged.value)
  }
}
