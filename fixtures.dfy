/** The port tables of the components shipped with regl-pipeline (texture, framebuffer,
    canvas and brute-gaussian), and what `componentSanity` and `depends` answer for them.
    Only the descriptors are modelled: the routines are opaque, so each component lists
    the outports that have a `compile` or an `execute` routine. */
module Fixtures {
  import opened Base
  import opened Components

  function Static(name: string): InportInfo { InportInfo(name, Some("static")) }
  function Plain(name: string): InportInfo { InportInfo(name, None) }

  /** components/texture.js, lines 4-18 and the routines at lines 21, 27, 32 and 89. */
  const Texture := ComponentInfo(
    [Static("src"), Static("format"), Static("type"), Static("width"), Static("height"),
     Static("min"), Static("mag"), Static("flipy")],
    [OutportInfo("out", Some("static"), Some(["src", "format", "type", "width", "height", "min", "mag", "flipy"]), NoPass),
     OutportInfo("outviewport", Some("static"), Some(["width", "height"]), NoPass),
     OutportInfo("outresolution", Some("static"), Some(["width", "height"]), NoPass),
     OutportInfo("format", Some("static"), None, PassTrue),
     OutportInfo("type", Some("static"), None, PassTrue)],
    Some({"out"}), Some({"outviewport", "outresolution", "out"}))

  /** components/framebuffer.js, lines 5-28 and the routines at lines 31, 38, 46 and 52. */
  const Framebuffer := ComponentInfo(
    [Static("texture"), Static("components"), Static("type"), Static("width"), Static("height"),
     Static("min"), Static("mag"), Static("wrap")],
    [OutportInfo("out", None, Some(["texture", "type", "components", "width", "height", "min", "mag", "wrap"]), NoPass),
     OutportInfo("outviewport", Some("static"), Some(["width", "height"]), NoPass),
     OutportInfo("outresolution", Some("static"), Some(["width", "height"]), NoPass),
     OutportInfo("components", Some("static"), None, PassTrue),
     OutportInfo("type", Some("static"), None, PassTrue),
     OutportInfo("min", Some("static"), None, PassTrue),
     OutportInfo("mag", Some("static"), None, PassTrue),
     OutportInfo("wrap", Some("static"), None, PassTrue)],
    Some({"out"}), Some({"outviewport", "outresolution", "out"}))

  /** components/canvas.js, lines 4-11 and the routines at lines 19 and 70. */
  const Canvas := ComponentInfo(
    [Plain("inviewport"), Plain("inresolution"), Plain("in"), Static("format")],
    [OutportInfo("out", None, Some(["inviewport", "inresolution", "in", "format"]), NoPass)],
    Some({"out"}), Some({"out"}))

  /** components/brute-gaussian.js, lines 6-21 and the routines at lines 24 and 359. */
  const BruteGaussian := ComponentInfo(
    [Plain("sigma"), Plain("radius"), Plain("inviewport"), Plain("inresolution"), Plain("in"),
     Static("format"), Plain("outviewport"), Plain("outresolution"), Plain("framebuffer")],
    [OutportInfo("out", None, Some(["sigma", "radius", "inviewport", "inresolution", "in", "format",
                                    "outviewport", "outresolution", "framebuffer"]), NoPass),
     OutportInfo("outviewport", None, None, PassTrue),
     OutportInfo("outresolution", None, None, PassTrue),
     OutportInfo("format", Some("static"), None, PassTrue)],
    Some({"out"}), Some({"out"}))

  /** The canvas passes the check: its one outport depends only on its inports. */
  lemma CanvasSane()
    ensures ComponentSanity(Canvas) == Ok(())
    ensures ComponentSanityAsWritten(Canvas) == Ok(())
  {
    assert InportNames(Canvas.inports) == ["inviewport", "inresolution", "in", "format"];
  }

  /** Every inport of these tables that is declared 'static' answers 'static'. */
  lemma StaticUsage(info: ComponentInfo, d: string)
    requires forall i :: i in info.inports ==> i.usage == Some("static")
    requires d in InportNames(info.inports)
    ensures InportUsage(info, d) == Some("static")
  {
    assert ComponentInportInfo(info, d).value in info.inports;
  }

  /** A non-pass outport is sane when `idx` locates each of its dependencies among the
      inports and, if it is 'static', every inport is 'static'. */
  lemma PlainSane(info: ComponentInfo, o: OutportInfo, idx: seq<int>)
    requires !PassesStrictly(o) && o.depends.Some? && o.usage != Some("inherit")
    requires |idx| == |o.depends.value|
    requires forall k :: 0 <= k < |idx| ==> 0 <= idx[k] < |info.inports| && info.inports[idx[k]].name == o.depends.value[k]
    requires o.usage == Some("static") ==> forall i :: i in info.inports ==> i.usage == Some("static")
    ensures OutportSane(info, o)
  {
    var deps := o.depends.value;
    forall d | d in deps ensures HasInport(info, d) {
      var k :| 0 <= k < |deps| && deps[k] == d;
      assert InportNames(info.inports)[idx[k]] == d;
    }
    if o.usage == Some("static") {
      forall d | d in deps ensures InportUsage(info, d) == Some("static") {
        StaticUsage(info, d);
      }
    }
  }

  /** A pass outport is sane when inport `k` has its name and it declares neither
      dependencies nor a usage. */
  lemma PassSane(info: ComponentInfo, o: OutportInfo, k: int)
    requires PassesStrictly(o) && o.depends.None? && o.usage.None?
    requires 0 <= k < |info.inports| && info.inports[k].name == o.name
    ensures OutportSane(info, o)
  {
    assert InportNames(info.inports)[k] == o.name;
  }

  /** A pass outport that mirrors inport `k` but declares a usage is refused for it. */
  lemma PassUsageRefused(info: ComponentInfo, o: OutportInfo, k: int)
    requires PassesStrictly(o) && o.depends.None? && o.usage.Some?
    requires 0 <= k < |info.inports| && info.inports[k].name == o.name
    ensures Check(info, o) == Err(PassWithUsage(o.name))
  {
    assert InportNames(info.inports)[k] == o.name;
  }

  /** The written check moves past a sane non-pass outport. */
  lemma AsWrittenSkips(info: ComponentInfo, outs: seq<OutportInfo>)
    requires |outs| > 0 && !PassesStrictly(outs[0]) && OutportSane(info, outs[0])
    ensures SanityAsWritten(info, outs) == SanityAsWritten(info, outs[1..])
  {
    assert CheckPlain(info, outs[0]).Ok?;
  }

  /** Three sane non-pass outports followed by a refused pass outport: both checks
      report the refusal. */
  lemma RefusedFourth(info: ComponentInfo, outs: seq<OutportInfo>)
    requires |outs| > 3 && !PassesStrictly(outs[0]) && !PassesStrictly(outs[1]) && !PassesStrictly(outs[2]) && PassesStrictly(outs[3])
    requires OutportSane(info, outs[0]) && OutportSane(info, outs[1]) && OutportSane(info, outs[2])
    requires Check(info, outs[3]).Err?
    ensures Sanity(info, outs) == Check(info, outs[3])
    ensures SanityAsWritten(info, outs) == Check(info, outs[3])
  {
    assert FirstFailure(info, outs, 3);
    SanityReportsFirstFailure(info, outs, 3);
    AsWrittenSkips(info, outs);
    assert outs[1..][0] == outs[1] && outs[1..][1..] == outs[2..];
    AsWrittenSkips(info, outs[1..]);
    assert outs[2..][0] == outs[2] && outs[2..][1..] == outs[3..];
    AsWrittenSkips(info, outs[2..]);
    assert outs[3..][0] == outs[3];
  }

  /** Three sane outports, the first one plain and the second a pass, followed by a
      refused one: the written check throws on the second, the corrected check reports
      the fourth. */
  lemma SaneThenPass(info: ComponentInfo, outs: seq<OutportInfo>)
    requires |outs| > 3 && !PassesStrictly(outs[0]) && PassesStrictly(outs[1])
    requires OutportSane(info, outs[0]) && OutportSane(info, outs[1]) && OutportSane(info, outs[2])
    requires Check(info, outs[3]).Err?
    ensures Sanity(info, outs) == Check(info, outs[3])
    ensures SanityAsWritten(info, outs) == Err(TypeError)
  {
    assert FirstFailure(info, outs, 3);
    SanityReportsFirstFailure(info, outs, 3);
    assert CheckPlain(info, outs[0]).Ok? && CheckPass(info, outs[1]).Ok?;
    assert outs[1..][0] == outs[1];
  }

  /** The texture's three non-pass outports satisfy every rule. */
  lemma TexturePlainSane()
    ensures OutportSane(Texture, Texture.outports[0]) && OutportSane(Texture, Texture.outports[1]) && OutportSane(Texture, Texture.outports[2])
  {
    PlainSane(Texture, Texture.outports[0], [0, 1, 2, 3, 4, 5, 6, 7]);
    PlainSane(Texture, Texture.outports[1], [3, 4]);
    PlainSane(Texture, Texture.outports[2], [3, 4]);
  }

  /** The texture's pass outport `format` declares a usage, which the check refuses;
      the written and the corrected check agree, as it fails before the defect. */
  lemma TextureRejected()
    ensures ComponentSanity(Texture) == Err(PassWithUsage("format"))
    ensures ComponentSanityAsWritten(Texture) == Err(PassWithUsage("format"))
  {
    TexturePlainSane();
    PassUsageRefused(Texture, Texture.outports[3], 1);
    RefusedFourth(Texture, Texture.outports);
  }

  /** The framebuffer's three non-pass outports satisfy every rule. */
  lemma FramebufferPlainSane()
    ensures OutportSane(Framebuffer, Framebuffer.outports[0]) && OutportSane(Framebuffer, Framebuffer.outports[1]) && OutportSane(Framebuffer, Framebuffer.outports[2])
  {
    PlainSane(Framebuffer, Framebuffer.outports[0], [0, 2, 1, 3, 4, 5, 6, 7]);
    PlainSane(Framebuffer, Framebuffer.outports[1], [3, 4]);
    PlainSane(Framebuffer, Framebuffer.outports[2], [3, 4]);
  }

  /** The framebuffer's first pass outport, `components`, declares a usage. */
  lemma FramebufferRejected()
    ensures ComponentSanity(Framebuffer) == Err(PassWithUsage("components"))
    ensures ComponentSanityAsWritten(Framebuffer) == Err(PassWithUsage("components"))
  {
    FramebufferPlainSane();
    PassUsageRefused(Framebuffer, Framebuffer.outports[3], 1);
    RefusedFourth(Framebuffer, Framebuffer.outports);
  }

  /** The gaussian's outports before `format` satisfy every rule, the pass outports
      `outviewport` and `outresolution` included. */
  lemma BruteGaussianSaneUpTo()
    ensures OutportSane(BruteGaussian, BruteGaussian.outports[0]) && OutportSane(BruteGaussian, BruteGaussian.outports[1]) && OutportSane(BruteGaussian, BruteGaussian.outports[2])
  {
    PlainSane(BruteGaussian, BruteGaussian.outports[0], [0, 1, 2, 3, 4, 5, 6, 7, 8]);
    PassSane(BruteGaussian, BruteGaussian.outports[1], 6);
    PassSane(BruteGaussian, BruteGaussian.outports[2], 7);
  }

  /** The gaussian's pass outport `outviewport` is sane, so the written check throws a
      TypeError on it; the corrected check goes on and refuses the usage of `format`. */
  lemma BruteGaussianChecks()
    ensures ComponentSanityAsWritten(BruteGaussian) == Err(TypeError)
    ensures ComponentSanity(BruteGaussian) == Err(PassWithUsage("format"))
  {
    BruteGaussianSaneUpTo();
    PassUsageRefused(BruteGaussian, BruteGaussian.outports[3], 5);
    SaneThenPass(BruteGaussian, BruteGaussian.outports);
  }

  /** A pass outport depends on its same-named inport. */
  lemma GaussianPassDepends()
    ensures Depends(BruteGaussian, "outviewport") == Ok(["outviewport"])
  {
    assert OutportNames(BruteGaussian.outports)[1] == "outviewport";
    assert InportNames(BruteGaussian.inports)[6] == "outviewport";
  }

  /** A plain outport depends on its declared list. */
  lemma GaussianPlainDepends()
    ensures Depends(BruteGaussian, "out") == Ok(["sigma", "radius", "inviewport", "inresolution", "in", "format",
                                               "outviewport", "outresolution", "framebuffer"])
  {
    assert OutportNames(BruteGaussian.outports)[0] == "out";
  }

  /** An outport the component does not declare has no dependencies to give. */
  lemma GaussianUnknownDepends()
    ensures Depends(BruteGaussian, "blur") == Err(NoSuchOutport("blur"))
  {
    assert forall k :: 0 <= k < |BruteGaussian.outports| ==> OutportNames(BruteGaussian.outports)[k] != "blur";
  }
}
