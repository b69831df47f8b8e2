/**
 * The render-pass mipmap generator: it validates the base size, builds its
 * pipeline and sampler on first use, and schedules one downsampling pass per
 * mip level, each sampling the level above.
 */
module MipGen {
  import opened Wrappers
  import opened Js
  import opened Gpu
  import opened Seqs

  const DEFAULT_FORMAT := "rgba8unorm"

  datatype MipError =
    | DeviceRequired           // "device is required"
    | NotPositive(name: string) // "<name> must be a positive integer"

  /** `assertDim(n, name)`: `n | 0`, provided `n` is finite and that is positive. */
  function AssertDim(n: Num, name: string): (r: Result<int, MipError>)
    ensures r.Ok? <==> IsFinite(n) && ToInt32(n) > 0
    ensures r.Ok? ==> 1 <= r.value < TWO31 && r.value == ToInt32(n)
    ensures r.Err? ==> r.error == NotPositive(name)
  {
    var v := ToInt32(n);
    if !IsFinite(n) || v <= 0 then Err(NotPositive(name)) else Ok(v)
  }

  /** Positive integers below 2^31 pass unchanged; fractions are cut; anything below 1 fails. */
  lemma AssertDimCases(x: real, name: string)
    ensures 1.0 <= x < TWO31 as real ==> AssertDim(Finite(x), name) == Ok(x.Floor)
    ensures -1.0 < x < 1.0 ==> AssertDim(Finite(x), name) == Err(NotPositive(name))
    ensures AssertDim(NaN, name).Err? && AssertDim(PosInf, name).Err? && AssertDim(NegInf, name).Err?
  {
    if 1.0 <= x < TWO31 as real {
      assert Trunc(x) == x.Floor;
    }
  }

  /** `max(1, mipLevelCount | 0)`. */
  function Levels(mipLevelCount: Num): (n: int)
    ensures 1 <= n < TWO31
    ensures n == Max(1, ToInt32(mipLevelCount))
  {
    Max(1, ToInt32(mipLevelCount))
  }

  const BLACK := Rgba(0.0, 0.0, 0.0, 1.0)

  /** The calls that build the pipeline (for colour target `format`) and the sampler. */
  function PipelineCalls(format: string): seq<GpuCall>
  {
    [ CreateShaderModule("vertex"),
      CreateShaderModule("fragment"),
      CreateRenderPipeline(format),
      CreateSampler("linear", "linear", "linear") ]
  }

  /** The pass rendering mip level `i` from level `i - 1`. */
  function PassCalls(i: int): seq<GpuCall>
  {
    [ CreateView(Some(i - 1), Some(1)),
      CreateView(Some(i), Some(1)),
      CreateBindGroup(i - 1),
      BeginRenderPass(i, "clear", "store", BLACK),
      SetPipeline,
      SetBindGroup(0),
      Draw(3),
      End ]
  }

  /** The passes for levels 1 up to `levels - 1`, in ascending order. */
  function Schedule(levels: int): seq<GpuCall>
    decreases levels
  {
    if levels <= 1 then [] else Schedule(levels - 1) + PassCalls(levels - 1)
  }

  /** Exactly `levels - 1` passes of eight calls, the `i`-th one rendering level `i` from level `i - 1`. */
  lemma {:induction false} ScheduleShape(levels: int)
    requires levels >= 1
    ensures |Schedule(levels)| == 8 * (levels - 1)
    ensures forall i | 1 <= i < levels :: Schedule(levels)[8 * (i - 1)..8 * i] == PassCalls(i)
    decreases levels
  {
    if levels > 1 {
      ScheduleShape(levels - 1);
      var s, p := Schedule(levels - 1), PassCalls(levels - 1);
      forall i | 1 <= i < levels
        ensures (s + p)[8 * (i - 1)..8 * i] == PassCalls(i)
      {
        if i < levels - 1 {
          assert (s + p)[8 * (i - 1)..8 * i] == s[8 * (i - 1)..8 * i];
        } else {
          assert (s + p)[8 * (i - 1)..8 * i] == p;
        }
      }
    }
  }

  /** The number of calls in `calls` that satisfy `p`. */
  function Occurrences(calls: seq<GpuCall>, p: GpuCall -> bool): nat
    decreases |calls|
  {
    if calls == [] then 0 else (if p(calls[0]) then 1 else 0) + Occurrences(calls[1..], p)
  }

  lemma {:induction false} OccurrencesAppend(a: seq<GpuCall>, b: seq<GpuCall>, p: GpuCall -> bool)
    ensures Occurrences(a + b, p) == Occurrences(a, p) + Occurrences(b, p)
    decreases |a|
  {
    if a != [] {
      assert (a + b)[0] == a[0] && (a + b)[1..] == a[1..] + b;
      OccurrencesAppend(a[1..], b, p);
    } else {
      assert a + b == b;
    }
  }

  predicate IsPipeline(c: GpuCall) { c.CreateRenderPipeline? }

  predicate IsSampler(c: GpuCall) { c.CreateSampler? }

  /** A sequence none of whose calls satisfies `p` counts nothing. */
  lemma {:induction false} NoneCounted(calls: seq<GpuCall>, p: GpuCall -> bool)
    requires forall c | c in calls :: !p(c)
    ensures Occurrences(calls, p) == 0
    decreases |calls|
  {
    if calls != [] {
      assert calls[0] in calls;
      NoneCounted(calls[1..], p);
    }
  }

  /** The four build calls hold one pipeline and one sampler. */
  lemma PipelineCallsBuildOnce(format: string)
    ensures Occurrences(PipelineCalls(format), IsPipeline) == 1
    ensures Occurrences(PipelineCalls(format), IsSampler) == 1
  {
    var s := PipelineCalls(format);
    assert s == s[..2] + [s[2]] + [s[3]];
    NoneCounted(s[..2], IsPipeline);
    NoneCounted(s[..2], IsSampler);
    OccurrencesAppend(s[..2], [s[2]], IsPipeline);
    OccurrencesAppend(s[..2], [s[2]], IsSampler);
    OccurrencesAppend(s[..2] + [s[2]], [s[3]], IsPipeline);
    OccurrencesAppend(s[..2] + [s[2]], [s[3]], IsSampler);
  }

  /** The passes build nothing. */
  lemma {:induction false} ScheduleBuildsNothing(levels: int)
    ensures Occurrences(Schedule(levels), IsPipeline) == 0
    ensures Occurrences(Schedule(levels), IsSampler) == 0
    decreases levels
  {
    if levels > 1 {
      ScheduleBuildsNothing(levels - 1);
      NoneCounted(PassCalls(levels - 1), IsPipeline);
      NoneCounted(PassCalls(levels - 1), IsSampler);
      OccurrencesAppend(Schedule(levels - 1), PassCalls(levels - 1), IsPipeline);
      OccurrencesAppend(Schedule(levels - 1), PassCalls(levels - 1), IsSampler);
    }
  }

  /** The calls of one `generate` whose dimensions passed, given whether the pipeline was built before. */
  function GenerateCalls(built: bool, format: string, levels: int): seq<GpuCall>
  {
    if levels <= 1 then [] else (if built then [] else PipelineCalls(format)) + Schedule(levels)
  }

  class MipGenerator {
    /** The format of the colour target. */
    const format: string
    /** Where the device, the encoders and the textures record their calls. */
    const log: GpuLog
    /** The lazily built `pipeline` (and with it `sampler`) exists. */
    var pipelineBuilt: bool
    /** The calls this generator has issued, oldest first. */
    ghost var issued: seq<GpuCall>

    /**
     * The pipeline and the sampler have each been built once if built at all,
     * and every pipeline renders to the configured format.
     */
    ghost predicate Valid()
      reads this
    {
      && Occurrences(issued, IsPipeline) == (if pipelineBuilt then 1 else 0)
      && Occurrences(issued, IsSampler) == (if pipelineBuilt then 1 else 0)
      && forall c | c in issued && c.CreateRenderPipeline? :: c.targetFormat == format
    }

    constructor (device: GpuLog, format: string)
      ensures this.format == format && log == device && !pipelineBuilt && issued == []
      ensures Valid()
    {
      this.format := format;
      log := device;
      pipelineBuilt := false;
      issued := [];
    }

    /** Builds the pipeline and the sampler unless they exist (`ensurePipeline`). */
    method EnsurePipeline()
      requires Valid()
      modifies this, log
      ensures Valid() && pipelineBuilt
      ensures var added := if old(pipelineBuilt) then [] else PipelineCalls(format);
        log.calls == old(log.calls) + added && issued == old(issued) + added
    {
      if pipelineBuilt {
        assert issued == old(issued) + [];
        assert log.calls == old(log.calls) + [];
        return;
      }
      var calls := PipelineCalls(format);
      log.calls := log.calls + calls;
      PipelineCallsBuildOnce(format);
      OccurrencesAppend(issued, calls, IsPipeline);
      OccurrencesAppend(issued, calls, IsSampler);
      issued := issued + calls;
      pipelineBuilt := true;
    }

    /** One pass of `generate`: level `i` rendered from level `i - 1`. */
    method IssuePass(i: int)
      requires Valid() && pipelineBuilt
      modifies this, log
      ensures Valid() && pipelineBuilt
      ensures log.calls == old(log.calls) + PassCalls(i) && issued == old(issued) + PassCalls(i)
    {
      log.calls := log.calls + [CreateView(Some(i - 1), Some(1)), CreateView(Some(i), Some(1))];
      log.calls := log.calls + [CreateBindGroup(i - 1), BeginRenderPass(i, "clear", "store", BLACK)];
      log.calls := log.calls + [SetPipeline, SetBindGroup(0), Draw(3), End];
      assert log.calls == old(log.calls) + PassCalls(i);
      NoneCounted(PassCalls(i), IsPipeline);
      NoneCounted(PassCalls(i), IsSampler);
      OccurrencesAppend(issued, PassCalls(i), IsPipeline);
      OccurrencesAppend(issued, PassCalls(i), IsSampler);
      issued := issued + PassCalls(i);
    }

    /**
     * `generate(encoder, texture, baseWidth, baseHeight, mipLevelCount)`:
     * both dimensions are checked first, then one pass per level after the first.
     */
    method Generate(baseWidth: Num, baseHeight: Num, mipLevelCount: Num) returns (r: Outcome<MipError>)
      requires Valid()
      modifies this, log
      ensures Valid()
      ensures AssertDim(baseWidth, "baseWidth").Err? ==>
                r == Fail(NotPositive("baseWidth")) && log.calls == old(log.calls) && issued == old(issued)
                && pipelineBuilt == old(pipelineBuilt)
      ensures AssertDim(baseWidth, "baseWidth").Ok? && AssertDim(baseHeight, "baseHeight").Err? ==>
                r == Fail(NotPositive("baseHeight")) && log.calls == old(log.calls) && issued == old(issued)
                && pipelineBuilt == old(pipelineBuilt)
      ensures AssertDim(baseWidth, "baseWidth").Ok? && AssertDim(baseHeight, "baseHeight").Ok? ==>
                var added := GenerateCalls(old(pipelineBuilt), format, Levels(mipLevelCount));
                && r == Pass
                && log.calls == old(log.calls) + added && issued == old(issued) + added
                && pipelineBuilt == (old(pipelineBuilt) || Levels(mipLevelCount) > 1)
    {
      var w0 := AssertDim(baseWidth, "baseWidth");
      if w0.Err? {
        return Fail(w0.error);
      }
      var h0 := AssertDim(baseHeight, "baseHeight");
      if h0.Err? {
        return Fail(h0.error);
      }
      RenderLevels(Levels(mipLevelCount));
      return Pass;
    }

    /** The part of `generate` after the checks: builds on demand and renders levels 1 to `levels - 1`. */
    method RenderLevels(levels: int)
      requires Valid()
      modifies this, log
      ensures Valid()
      ensures log.calls == old(log.calls) + GenerateCalls(old(pipelineBuilt), format, levels)
      ensures issued == old(issued) + GenerateCalls(old(pipelineBuilt), format, levels)
      ensures pipelineBuilt == (old(pipelineBuilt) || levels > 1)
    {
      if levels <= 1 {
        assert log.calls == old(log.calls) + [] && issued == old(issued) + [];
        return;
      }
      EnsurePipeline();
      ghost var c1, i1 := log.calls, issued;
      ghost var built := if old(pipelineBuilt) then [] else PipelineCalls(format);
      assert c1 + Schedule(1) == c1 && i1 + Schedule(1) == i1;
      for i := 1 to levels
        invariant log.calls == c1 + Schedule(i) && issued == i1 + Schedule(i)
        invariant Valid() && pipelineBuilt
      {
        IssuePass(i);
        AppendAssoc(c1, Schedule(i), PassCalls(i));
        AppendAssoc(i1, Schedule(i), PassCalls(i));
      }
      AppendAssoc(old(log.calls), built, Schedule(levels));
      AppendAssoc(old(issued), built, Schedule(levels));
    }
  }

  /** `makeMipGenerator(device, opts)`; `format` is `opts.format`, undefined when there are no options. */
  method MakeMipGenerator(device: GpuLog?, format: Value) returns (r: Result<MipGenerator, MipError>)
    ensures device == null <==> r == Err(DeviceRequired)
    ensures r.Ok? ==>
              && fresh(r.value) && r.value.log == device && r.value.Valid()
              && r.value.format == (if format.Str? then format.s else DEFAULT_FORMAT)
              && !r.value.pipelineBuilt && r.value.issued == []
  {
    if device == null {
      return Err(DeviceRequired);
    }
    var g := new MipGenerator(device, if format.Str? then format.s else DEFAULT_FORMAT);
    return Ok(g);
  }

  /** A second `generate` builds nothing: every pass after the first call only schedules passes. */
  lemma SecondGenerateBuildsNothing(format: string, levels: int)
    ensures Occurrences(GenerateCalls(true, format, levels), IsPipeline) == 0
    ensures Occurrences(GenerateCalls(true, format, levels), IsSampler) == 0
  {
    ScheduleBuildsNothing(levels);
    if levels > 1 {
      assert GenerateCalls(true, format, levels) == Schedule(levels);
    }
  }
}
