/** `update_preview_from_source` and `rebuild_preview_from_source`
    (src/utils.cpp:280-459, 530-541). The auto-contrast pass is modelled on
    the samples of each channel; the later stages (gray conversion, colour
    map, alpha fill, RGBA conversion) on the shape of the buffer they
    produce. */
module Preview {
  import opened Wrappers
  import opened Numerals
  import opened Viewer
  import opened PixelText
  import opened Textures

  /** The error and status texts of `update_preview_from_source`. */
  const NoSourceMessage: string := "No source image available."
  const UnsupportedDepthMessage: string := "Unsupported image depth."
  const SplitFailedMessage: string := "Failed to split image channels."
  const UnsupportedCountPrefix: string := "Unsupported channel count: "
  const StatusOriginal: string := "original "
  const StatusPreview: string := ", preview "

  /** The linear map `convertTo(CV_8U, 255/(max-min), -min*255/(max-min))`
      applies to one sample, before saturation, given the sample and its
      channel's minimum and maximum. Its floating-point arithmetic is left
      abstract. */
  type Stretch = (int, int, int) -> int

  /** `saturate_cast<uchar>` of an integer. */
  function Saturate8(v: int): (r: int)
    ensures 0 <= r <= 255
    ensures 0 <= v <= 255 ==> r == v
  {
    if v < 0 then 0 else if v > 255 then 255 else v
  }

  function SeqMin(s: seq<int>): (m: int)
    requires |s| > 0
    ensures forall k :: 0 <= k < |s| ==> m <= s[k]
  {
    if |s| == 1 then s[0]
    else
      var m := SeqMin(s[..|s| - 1]);
      assert forall k :: 0 <= k < |s| - 1 ==> s[..|s| - 1][k] == s[k];
      Min(m, s[|s| - 1])
  }

  function SeqMax(s: seq<int>): (m: int)
    requires |s| > 0
    ensures forall k :: 0 <= k < |s| ==> s[k] <= m
  {
    if |s| == 1 then s[0]
    else
      var m := SeqMax(s[..|s| - 1]);
      assert forall k :: 0 <= k < |s| - 1 ==> s[..|s| - 1][k] == s[k];
      Max(m, s[|s| - 1])
  }

  /** The minimum is one of the samples. */
  lemma {:induction false} SeqMinAttained(s: seq<int>)
    requires |s| > 0
    ensures exists k :: 0 <= k < |s| && s[k] == SeqMin(s)
  {
    if |s| > 1 {
      SeqMinAttained(s[..|s| - 1]);
      var k :| 0 <= k < |s| - 1 && s[..|s| - 1][k] == SeqMin(s[..|s| - 1]);
      assert s[k] == s[..|s| - 1][k];
    } else {
      assert s[0] == SeqMin(s);
    }
  }

  /** The maximum is one of the samples. */
  lemma {:induction false} SeqMaxAttained(s: seq<int>)
    requires |s| > 0
    ensures exists k :: 0 <= k < |s| && s[k] == SeqMax(s)
  {
    if |s| > 1 {
      SeqMaxAttained(s[..|s| - 1]);
      var k :| 0 <= k < |s| - 1 && s[..|s| - 1][k] == SeqMax(s[..|s| - 1]);
      assert s[k] == s[..|s| - 1][k];
    } else {
      assert s[0] == SeqMax(s);
    }
  }

  /** Every channel has at least one sample. */
  predicate NonEmptyPlanes(planes: seq<seq<int>>) {
    forall i :: 0 <= i < |planes| ==> |planes[i]| > 0
  }

  lemma WellFormedPlanes(img: Image)
    requires img.Image? && img.WellFormed()
    ensures NonEmptyPlanes(img.planes) && |img.planes| >= 1
  {
    assert img.cols * img.rows >= 1 by {
      assert img.cols * img.rows >= img.rows;
    }
  }

  /** Channel 3 of a four-channel image is its alpha channel. */
  predicate IsAlphaChannel(count: nat, i: nat) {
    count == 4 && i == 3
  }

  /** The alpha channel is only converted to 8 bits. */
  function AlphaTo8(plane: seq<int>): (out: seq<int>)
    ensures |out| == |plane|
    ensures forall k :: 0 <= k < |out| ==> 0 <= out[k] <= 255
    ensures forall k :: 0 <= k < |out| && 0 <= plane[k] <= 255 ==> out[k] == plane[k]
  {
    seq(|plane|, k requires 0 <= k < |plane| => Saturate8(plane[k]))
  }

  /** A colour channel is zeroed when it is constant, and otherwise
      stretched between its own minimum and maximum. */
  function ContrastChannel(plane: seq<int>, stretch: Stretch): (out: seq<int>)
    requires |plane| > 0
    ensures |out| == |plane|
    ensures forall k :: 0 <= k < |out| ==> 0 <= out[k] <= 255
    ensures SeqMin(plane) != SeqMax(plane) ==>
      forall k :: 0 <= k < |out| ==> out[k] == Saturate8(stretch(plane[k], SeqMin(plane), SeqMax(plane)))
  {
    var lo, hi := SeqMin(plane), SeqMax(plane);
    if lo == hi then seq(|plane|, _ => 0)
    else
      var out := seq(|plane|, k requires 0 <= k < |plane| => Saturate8(stretch(plane[k], lo, hi)));
      assert forall k :: 0 <= k < |out| ==> out[k] == Saturate8(stretch(plane[k], lo, hi));
      out
  }

  function ChannelOut(planes: seq<seq<int>>, i: nat, stretch: Stretch): seq<int>
    requires i < |planes| && |planes[i]| > 0
  {
    if IsAlphaChannel(|planes|, i) then AlphaTo8(planes[i]) else ContrastChannel(planes[i], stretch)
  }

  /** The channels `cv::merge` receives on the auto-contrast branch. */
  function ContrastPlanes(planes: seq<seq<int>>, stretch: Stretch): (out: seq<seq<int>>)
    requires NonEmptyPlanes(planes)
    ensures |out| == |planes|
    ensures forall i :: 0 <= i < |out| ==> |out[i]| == |planes[i]|
    ensures forall i, k :: 0 <= i < |out| && 0 <= k < |out[i]| ==> 0 <= out[i][k] <= 255
  {
    seq(|planes|, i requires 0 <= i < |planes| => ChannelOut(planes, i, stretch))
  }

  function OptMin(acc: Option<int>, v: int): int {
    if acc.None? then v else Min(acc.value, v)
  }

  function OptMax(acc: Option<int>, v: int): int {
    if acc.None? then v else Max(acc.value, v)
  }

  /** `minAcross` after the first `n` channels; `None` is +infinity. */
  function AcrossMin(planes: seq<seq<int>>, n: nat): Option<int>
    requires n <= |planes| && NonEmptyPlanes(planes)
  {
    if n == 0 then None
    else if IsAlphaChannel(|planes|, n - 1) then AcrossMin(planes, n - 1)
    else Some(OptMin(AcrossMin(planes, n - 1), SeqMin(planes[n - 1])))
  }

  /** `maxAcross` after the first `n` channels; `None` is -infinity. */
  function AcrossMax(planes: seq<seq<int>>, n: nat): Option<int>
    requires n <= |planes| && NonEmptyPlanes(planes)
  {
    if n == 0 then None
    else if IsAlphaChannel(|planes|, n - 1) then AcrossMax(planes, n - 1)
    else Some(OptMax(AcrossMax(planes, n - 1), SeqMax(planes[n - 1])))
  }

  /** The statistics the auto-contrast branch records; an infinite
      accumulator (no channel contributed) falls back to 0. */
  function ContrastStats(planes: seq<seq<int>>): Stats
    requires NonEmptyPlanes(planes)
  {
    var lo, hi := AcrossMin(planes, |planes|), AcrossMax(planes, |planes|);
    Stats(true, if lo.Some? then lo.value else 0, if hi.Some? then hi.value else 0)
  }

  predicate ColourSample(planes: seq<seq<int>>, i: int, k: int) {
    0 <= i < |planes| && !IsAlphaChannel(|planes|, i) && 0 <= k < |planes[i]|
  }

  lemma {:induction false} AcrossMinBounds(planes: seq<seq<int>>, n: nat)
    requires n <= |planes| && NonEmptyPlanes(planes)
    ensures AcrossMin(planes, n).Some? <==> n >= 1
    ensures forall i, k :: i < n && ColourSample(planes, i, k) ==> AcrossMin(planes, n).value <= planes[i][k]
    ensures n >= 1 ==> exists i, k :: i < n && ColourSample(planes, i, k) && planes[i][k] == AcrossMin(planes, n).value
  {
    if n > 0 {
      AcrossMinBounds(planes, n - 1);
      if !IsAlphaChannel(|planes|, n - 1) {
        var lo := SeqMin(planes[n - 1]);
        SeqMinAttained(planes[n - 1]);
        var k :| 0 <= k < |planes[n - 1]| && planes[n - 1][k] == lo;
        assert ColourSample(planes, n - 1, k);
        if n > 1 && AcrossMin(planes, n - 1).value < lo {
          var i', k' :| i' < n - 1 && ColourSample(planes, i', k') && planes[i'][k'] == AcrossMin(planes, n - 1).value;
          assert i' < n;
        }
      }
    }
  }

  lemma {:induction false} AcrossMaxBounds(planes: seq<seq<int>>, n: nat)
    requires n <= |planes| && NonEmptyPlanes(planes)
    ensures AcrossMax(planes, n).Some? <==> n >= 1
    ensures forall i, k :: i < n && ColourSample(planes, i, k) ==> planes[i][k] <= AcrossMax(planes, n).value
    ensures n >= 1 ==> exists i, k :: i < n && ColourSample(planes, i, k) && planes[i][k] == AcrossMax(planes, n).value
  {
    if n > 0 {
      AcrossMaxBounds(planes, n - 1);
      if !IsAlphaChannel(|planes|, n - 1) {
        var hi := SeqMax(planes[n - 1]);
        SeqMaxAttained(planes[n - 1]);
        var k :| 0 <= k < |planes[n - 1]| && planes[n - 1][k] == hi;
        assert ColourSample(planes, n - 1, k);
        if n > 1 && AcrossMax(planes, n - 1).value > hi {
          var i', k' :| i' < n - 1 && ColourSample(planes, i', k') && planes[i'][k'] == AcrossMax(planes, n - 1).value;
          assert i' < n;
        }
      }
    }
  }

  /** The recorded range covers every sample of every colour channel and is
      attained by some of them; the alpha channel takes no part. */
  lemma ContrastStatsRange(planes: seq<seq<int>>)
    requires NonEmptyPlanes(planes) && |planes| >= 1
    ensures ContrastStats(planes).hasMinMax
    ensures forall i, k :: ColourSample(planes, i, k) ==>
      ContrastStats(planes).minVal <= planes[i][k] <= ContrastStats(planes).maxVal
    ensures exists i, k :: ColourSample(planes, i, k) && planes[i][k] == ContrastStats(planes).minVal
    ensures exists i, k :: ColourSample(planes, i, k) && planes[i][k] == ContrastStats(planes).maxVal
  {
    AcrossMinBounds(planes, |planes|);
    AcrossMaxBounds(planes, |planes|);
  }

  lemma {:induction false} AcrossAgree(p: seq<seq<int>>, q: seq<seq<int>>, n: nat)
    requires n <= |p| == |q| && NonEmptyPlanes(p) && NonEmptyPlanes(q)
    requires forall i :: 0 <= i < n && !IsAlphaChannel(|p|, i) ==> p[i] == q[i]
    ensures AcrossMin(p, n) == AcrossMin(q, n) && AcrossMax(p, n) == AcrossMax(q, n)
  {
    if n > 0 {
      AcrossAgree(p, q, n - 1);
    }
  }

  /** Replacing the alpha channel of a four-channel image does not change
      the recorded statistics. */
  lemma AlphaDoesNotAffectStats(planes: seq<seq<int>>, alpha: seq<int>)
    requires |planes| == 4 && NonEmptyPlanes(planes) && |alpha| > 0
    ensures NonEmptyPlanes(planes[3 := alpha])
    ensures ContrastStats(planes[3 := alpha]) == ContrastStats(planes)
  {
    AcrossAgree(planes, planes[3 := alpha], 4);
  }

  /** Each output channel depends on its own source channel alone (and on
      the channel count, which decides which channel is alpha): the
      stretch of a colour channel uses that channel's own range, never the
      range across channels. */
  lemma ContrastPlanesPerChannel(p: seq<seq<int>>, q: seq<seq<int>>, i: nat, stretch: Stretch)
    requires NonEmptyPlanes(p) && NonEmptyPlanes(q) && |p| == |q| && i < |p| && p[i] == q[i]
    ensures ContrastPlanes(p, stretch)[i] == ContrastPlanes(q, stretch)[i]
  {
  }

  /** A colour channel that is not constant is stretched between its own
      minimum and maximum, sample by sample. */
  lemma ColourChannelStretched(planes: seq<seq<int>>, i: nat, stretch: Stretch)
    requires NonEmptyPlanes(planes) && i < |planes| && !IsAlphaChannel(|planes|, i)
    requires SeqMin(planes[i]) != SeqMax(planes[i])
    ensures forall k :: 0 <= k < |planes[i]| ==>
      ContrastPlanes(planes, stretch)[i][k] == Saturate8(stretch(planes[i][k], SeqMin(planes[i]), SeqMax(planes[i])))
  {
  }

  /** A constant colour channel becomes all zeros. */
  lemma ConstantChannelZeroed(planes: seq<seq<int>>, i: nat, stretch: Stretch)
    requires i < |planes| && !IsAlphaChannel(|planes|, i) && |planes[i]| > 0
    requires forall k :: 0 <= k < |planes[i]| ==> planes[i][k] == planes[i][0]
    ensures ChannelOut(planes, i, stretch) == seq(|planes[i]|, _ => 0)
  {
    var lo, hi := SeqMin(planes[i]), SeqMax(planes[i]);
    SeqMinAttained(planes[i]);
    SeqMaxAttained(planes[i]);
    var a :| 0 <= a < |planes[i]| && planes[i][a] == lo;
    var b :| 0 <= b < |planes[i]| && planes[i][b] == hi;
    assert lo == hi;
  }

  /** The auto-contrast loop: stretches or zeroes each colour channel,
      converts the alpha channel, and accumulates the range. */
  method AutoContrastChannels(planes: seq<seq<int>>, stretch: Stretch) returns (out: seq<seq<int>>, stats: Stats)
    requires NonEmptyPlanes(planes)
    ensures out == ContrastPlanes(planes, stretch)
    ensures stats == ContrastStats(planes)
  {
    var minAcross: Option<int> := None;
    var maxAcross: Option<int> := None;
    out := [];
    var i := 0;
    while i < |planes|
      invariant 0 <= i <= |planes|
      invariant |out| == i
      invariant forall j :: 0 <= j < i ==> out[j] == ChannelOut(planes, j, stretch)
      invariant minAcross == AcrossMin(planes, i) && maxAcross == AcrossMax(planes, i)
    {
      var channel: seq<int>;
      if |planes| == 4 && i == 3 {
        channel := AlphaTo8(planes[i]);
      } else {
        var lo, hi := SeqMin(planes[i]), SeqMax(planes[i]);
        minAcross := Some(OptMin(minAcross, lo));
        maxAcross := Some(OptMax(maxAcross, hi));
        channel := ContrastChannel(planes[i], stretch);
      }
      assert channel == ChannelOut(planes, i, stretch);
      out := out + [channel];
      i := i + 1;
    }
    assert forall j :: 0 <= j < |planes| ==> out[j] == ContrastPlanes(planes, stretch)[j];
    stats := Stats(true, if minAcross.Some? then minAcross.value else 0, if maxAcross.Some? then maxAcross.value else 0);
  }

  /** The depth the preview takes without auto-contrast. */
  function NormalizedDepth(d: Depth): (r: Option<Depth>)
    ensures r.Some? <==> d != OtherDepth
    ensures r.Some? ==> Displayable(r.value)
    ensures Displayable(d) ==> r == Some(d)
  {
    match d
    case U8 => Some(U8)
    case S8 => Some(U8)
    case U16 => Some(U16)
    case S16 => Some(U16)
    case S32 => Some(F32)
    case F32 => Some(F32)
    case F64 => Some(F32)
    case OtherDepth => None
  }

  /** The preview before the gray, colour-map and alpha stages. */
  function BaseShape(src: Image, autoContrast: bool): Result<Shape, string>
    requires src.Image?
  {
    if !autoContrast then
      match NormalizedDepth(src.depth)
      case None => Err(UnsupportedDepthMessage)
      case Some(d) => Ok(Shape(src.cols, src.rows, |src.planes|, d))
    else if |src.planes| == 0 then Err(SplitFailedMessage)
    else Ok(Shape(src.cols, src.rows, |src.planes|, U8))
  }

  /** The gray stage handles 3 and 4 channels; on 2 or more than 4 it leaves
      an empty matrix behind, which a caller must not ask for. */
  predicate GraySafe(channels: nat, gray: bool) {
    gray ==> channels <= 1 || channels == 3 || channels == 4
  }

  /** The fully opaque alpha value `cvtColor` and the ignore-alpha stage
      write for a depth. */
  function AlphaMax(d: Depth): Option<real> {
    match d
    case U8 => Some(255.0)
    case U16 => Some(65535.0)
    case F32 => Some(1.0)
    case _ => None
  }

  /** `previewMat` after the gray, colour-map and ignore-alpha stages,
      together with `previewIsRGBA`. */
  function StagedPreview(base: Shape, cfg: PreviewConfig): (Buffer, bool)
    requires GraySafe(base.channels, cfg.gray)
  {
    var gray := if cfg.gray && base.channels > 1 then base.(channels := 1) else base;
    var pseudo := cfg.pseudoColor && gray.channels == 1;
    var shape := if pseudo then gray.(channels := 4, depth := U8) else gray;
    var alpha: Option<real> := if pseudo then Some(255.0) else None;
    var filled := if cfg.ignoreAlpha && shape.channels == 4 && AlphaMax(shape.depth).Some? then AlphaMax(shape.depth) else alpha;
    (Buffer(shape, filled), pseudo)
  }

  /** The RGBA buffer handed to the texture upload. */
  function RgbaOf(preview: Buffer, isRgba: bool): Result<Buffer, string>
    requires preview.Buffer?
  {
    var s := preview.shape;
    if isRgba then Ok(preview)
    else if s.channels == 1 || s.channels == 3 then Ok(Buffer(s.(channels := 4), AlphaMax(s.depth)))
    else if s.channels == 4 then Ok(preview)
    else Err(UnsupportedCountPrefix + IntText(s.channels))
  }

  /** The whole pipeline, from the source to the RGBA buffer. */
  function PipelineRgba(src: Image, cfg: PreviewConfig): Result<Buffer, string>
    requires src.Image? && GraySafe(|src.planes|, cfg.gray)
  {
    match BaseShape(src, cfg.autoContrast)
    case Err(e) => Err(e)
    case Ok(base) =>
      var (preview, isRgba) := StagedPreview(base, cfg);
      RgbaOf(preview, isRgba)
  }

  /** Whatever the toggles, a preview that gets as far as the RGBA stage
      has a displayable depth and the source's size. */
  lemma StagedPreviewDisplayable(src: Image, cfg: PreviewConfig)
    requires src.Image? && GraySafe(|src.planes|, cfg.gray) && BaseShape(src, cfg.autoContrast).Ok?
    ensures var p := StagedPreview(BaseShape(src, cfg.autoContrast).value, cfg).0;
      Displayable(p.shape.depth) && p.shape.cols == src.cols && p.shape.rows == src.rows
    ensures var p := StagedPreview(BaseShape(src, cfg.autoContrast).value, cfg).0;
      cfg.autoContrast ==> p.shape.depth == U8
  {
  }

  /** The RGBA stage succeeds exactly for sources of 1, 3 or 4 channels;
      otherwise the error names the channel count, which can be read back. */
  lemma RgbaAcceptsChannelCounts(src: Image, cfg: PreviewConfig)
    requires src.Image? && GraySafe(|src.planes|, cfg.gray) && BaseShape(src, cfg.autoContrast).Ok?
    ensures var c := |src.planes|;
      PipelineRgba(src, cfg).Ok? <==> c == 1 || c == 3 || c == 4
    ensures PipelineRgba(src, cfg).Err? ==>
      var e := PipelineRgba(src, cfg).error;
      |e| > |UnsupportedCountPrefix| && e[..|UnsupportedCountPrefix|] == UnsupportedCountPrefix &&
      ParseInt(e[|UnsupportedCountPrefix|..]) == |src.planes|
  {
    var c := |src.planes|;
    if PipelineRgba(src, cfg).Err? {
      var e := PipelineRgba(src, cfg).error;
      assert e == UnsupportedCountPrefix + IntText(c);
      assert e[|UnsupportedCountPrefix|..] == IntText(c);
      IntTextRoundTrip(c);
    }
  }

  /** Every RGBA buffer has four channels and a format the texture upload
      accepts; its alpha is the depth's opaque value unless it is the
      source's own four-channel alpha, kept because neither gray nor
      ignore-alpha was asked for. */
  lemma RgbaUploadable(src: Image, cfg: PreviewConfig)
    requires src.Image? && GraySafe(|src.planes|, cfg.gray) && PipelineRgba(src, cfg).Ok?
    ensures var rgba := PipelineRgba(src, cfg).value;
      rgba.shape.channels == 4 && TextureFormat(rgba).Some? &&
      rgba.shape.cols == src.cols && rgba.shape.rows == src.rows
    ensures var rgba := PipelineRgba(src, cfg).value;
      rgba.alpha.None? <==> |src.planes| == 4 && !cfg.gray && !cfg.ignoreAlpha
    ensures var rgba := PipelineRgba(src, cfg).value;
      rgba.alpha.Some? ==> rgba.alpha == AlphaMax(rgba.shape.depth)
  {
    StagedPreviewDisplayable(src, cfg);
  }

  /** The colour map is applied exactly to previews that are single-channel
      after the gray stage, and yields 8-bit RGBA. */
  lemma PseudoColourOnSingleChannel(base: Shape, cfg: PreviewConfig)
    requires GraySafe(base.channels, cfg.gray)
    ensures var (p, isRgba) := StagedPreview(base, cfg);
      isRgba <==> cfg.pseudoColor && (base.channels == 1 || (cfg.gray && base.channels > 1))
    ensures var (p, isRgba) := StagedPreview(base, cfg);
      isRgba ==> p.shape.channels == 4 && p.shape.depth == U8 && p.alpha == Some(255.0)
    ensures var (p, isRgba) := StagedPreview(base, cfg);
      !isRgba && cfg.gray && base.channels > 1 ==> p.shape.channels == 1
  {
  }

  /** The error `update_preview_from_source` reports for a non-empty
      source, or `None` when it succeeds. */
  function PreviewError(src: Image, cfg: PreviewConfig, gl: GlResponse): Option<string>
    requires src.Image? && GraySafe(|src.planes|, cfg.gray)
  {
    match PipelineRgba(src, cfg)
    case Err(e) => Some(e)
    case Ok(rgba) => if UploadOutcome(rgba, gl).Fail? then Some(UploadOutcome(rgba, gl).error) else None
  }

  /** The buffer the thumbnail texture is made from: the letterboxed
      8-bit RGBA canvas. */
  const ThumbnailBuffer: Buffer := Buffer(Shape(ThumbWidth.Floor as nat, ThumbHeight.Floor as nat, 4, U8), None)

  function StatusText(src: Image, preview: Buffer): string {
    StatusOriginal + DescribeMat(src.ShapeOf()) + StatusPreview + DescribeMat(preview.ShapeOf())
  }

  /** The fields `update_preview_from_source` may change. */
  datatype PreviewState = PreviewState(stats: Stats, preview8u: Buffer, previewRGBA: Buffer, texture: TextureValue, thumb: TextureValue)

  function PreviewStateOf(st: ImageState): PreviewState
    reads st`hasMinMax, st`minVal, st`maxVal, st`preview8u, st`previewRGBA, st.texture, st.textureThumb
  {
    PreviewState(st.StatsOf(), st.preview8u, st.previewRGBA, ValueOf(st.texture), ValueOf(st.textureThumb))
  }

  /** The upload stage on values: the RGBA buffer is stored, then uploaded;
      the thumbnail follows only a successful upload. */
  function UploadStage(s: PreviewState, rgba: Buffer, gl: GlResponse, glThumb: GlResponse, status: string)
    : (PreviewState, Result<string, string>)
  {
    var uploaded := s.(previewRGBA := rgba, texture := UploadedTexture(s.texture, rgba, gl));
    match UploadOutcome(rgba, gl)
    case Fail(e) => (uploaded, Err(e))
    case Pass => (uploaded.(thumb := UploadedTexture(s.thumb, ThumbnailBuffer, glThumb)), Ok(status))
  }

  /** `update_preview_from_source` on values: the new fields and the status
      text or error. The statistics are reset before anything can fail, the
      preview is stored before the RGBA conversion can fail, and the RGBA
      buffer before its upload can fail; the thumbnail is uploaded only after
      the main texture, and its own failure is ignored. */
  function UpdatedPreview(src: Image, cfg: PreviewConfig, before: PreviewState, gl: GlResponse, glThumb: GlResponse)
    : (PreviewState, Result<string, string>)
    requires src.WellFormed() && (src.Image? ==> GraySafe(|src.planes|, cfg.gray))
  {
    if src.NoImage? then (before, Err(NoSourceMessage))
    else
      WellFormedPlanes(src);
      var reset := before.(stats := if cfg.autoContrast then ContrastStats(src.planes) else ResetStats);
      AfterBase(src, cfg, reset, BaseShape(src, cfg.autoContrast), gl, glThumb)
  }

  /** The stages after the first, given its outcome. */
  function AfterBase(src: Image, cfg: PreviewConfig, reset: PreviewState, base: Result<Shape, string>,
                     gl: GlResponse, glThumb: GlResponse): (PreviewState, Result<string, string>)
    requires base.Ok? ==> GraySafe(base.value.channels, cfg.gray)
  {
    match base
    case Err(e) => (reset, Err(e))
    case Ok(b) =>
      var (preview, isRgba) := StagedPreview(b, cfg);
      AfterStaging(src, reset.(preview8u := preview), isRgba, gl, glThumb)
  }

  /** The RGBA conversion and the uploads, once the preview is stored. */
  function AfterStaging(src: Image, staged: PreviewState, isRgba: bool, gl: GlResponse, glThumb: GlResponse)
    : (PreviewState, Result<string, string>)
    requires staged.preview8u.Buffer?
  {
    match RgbaOf(staged.preview8u, isRgba)
    case Err(e) => (staged, Err(e))
    case Ok(rgba) => UploadStage(staged, rgba, gl, glThumb, StatusText(src, staged.preview8u))
  }

  /** Without a source nothing changes. With one, the update fails exactly
      when the pipeline or the main upload does, with that error; the
      statistics are the auto-contrast range or reset; and a success leaves
      a live texture of the source's size made from a four-channel RGBA
      buffer. */
  lemma UpdatedPreviewOutcome(src: Image, cfg: PreviewConfig, before: PreviewState, gl: GlResponse, glThumb: GlResponse)
    requires src.WellFormed() && (src.Image? ==> GraySafe(|src.planes|, cfg.gray))
    ensures src.NoImage? ==> UpdatedPreview(src, cfg, before, gl, glThumb) == (before, Err(NoSourceMessage))
    ensures src.Image? ==> var (after, r) := UpdatedPreview(src, cfg, before, gl, glThumb);
      && (r.Err? <==> PreviewError(src, cfg, gl).Some?)
      && (r.Err? ==> Some(r.error) == PreviewError(src, cfg, gl))
      && NonEmptyPlanes(src.planes)
      && after.stats == (if cfg.autoContrast then ContrastStats(src.planes) else ResetStats)
    ensures src.Image? ==> var (after, r) := UpdatedPreview(src, cfg, before, gl, glThumb);
      r.Ok? ==>
        && after.previewRGBA.Buffer? && after.previewRGBA.shape.channels == 4
        && after.texture == TextureValue(gl.genId, src.cols, src.rows) && after.texture.id != 0
        && r.value == StatusText(src, after.preview8u)
    ensures src.Image? ==> var (after, r) := UpdatedPreview(src, cfg, before, gl, glThumb);
      PipelineRgba(src, cfg).Err? ==>
        after.previewRGBA == before.previewRGBA && after.texture == before.texture && after.thumb == before.thumb
  {
    if src.Image? {
      WellFormedPlanes(src);
      if PipelineRgba(src, cfg).Ok? {
        RgbaUploadable(src, cfg);
      }
    }
  }

  /** Whether `update_preview_from_source` may be called on this state: a
      source OpenCV could have produced, and no gray conversion of a 2- or
      more than 4-channel source. */
  predicate PreviewReady(st: ImageState)
    reads st
  {
    st.sourceOriginal.WellFormed() &&
    (st.sourceOriginal.Image? ==> GraySafe(|st.sourceOriginal.planes|, st.grayApplied))
  }

  /** `update_preview_from_source`. The driver's answers to the main and the
      thumbnail texture upload are `gl` and `glThumb`; the result is the
      status text or the error. */
  method UpdatePreviewFromSource(st: ImageState, stretch: Stretch, gl: GlResponse, glThumb: GlResponse)
    returns (r: Result<string, string>)
    requires st.Valid() && PreviewReady(st)
    modifies st`preview8u, st`previewRGBA, st`hasMinMax, st`minVal, st`maxVal, st.texture, st.textureThumb
    ensures (PreviewStateOf(st), r) == old(UpdatedPreview(st.sourceOriginal, st.Applied(), PreviewStateOf(st), gl, glThumb))
  {
    var src := st.sourceOriginal;
    if src.NoImage? {
      return Err(NoSourceMessage);
    }
    var cfg := st.Applied();
    var base := PreviewBase(st, stretch);
    r := FinishPreview(st, src, cfg, base, gl, glThumb);
  }

  /** The stages of `update_preview_from_source` after the first. */
  method FinishPreview(st: ImageState, src: Image, cfg: PreviewConfig, base: Result<Shape, string>,
                       gl: GlResponse, glThumb: GlResponse) returns (r: Result<string, string>)
    requires st.Valid() && (base.Ok? ==> GraySafe(base.value.channels, cfg.gray))
    modifies st`preview8u, st`previewRGBA, st.texture, st.textureThumb
    ensures (PreviewStateOf(st), r) == AfterBase(src, cfg, old(PreviewStateOf(st)), base, gl, glThumb)
  {
    if base.Err? {
      return Err(base.error);
    }
    var (preview, isRgba) := StagedPreview(base.value, cfg);
    st.preview8u := preview;
    var rgba := RgbaOf(preview, isRgba);
    if rgba.Err? {
      return Err(rgba.error);
    }
    r := UploadPreview(st, rgba.value, gl, glThumb, StatusText(src, preview));
  }

  /** The last stage of `update_preview_from_source`: uploads the RGBA
      preview, and only when that succeeds the thumbnail, whose own failure
      is ignored. */
  method UploadPreview(st: ImageState, rgba: Buffer, gl: GlResponse, glThumb: GlResponse, status: string)
    returns (r: Result<string, string>)
    requires st.Valid()
    modifies st`previewRGBA, st.texture, st.textureThumb
    ensures (PreviewStateOf(st), r) == UploadStage(old(PreviewStateOf(st)), rgba, gl, glThumb, status)
  {
    st.previewRGBA := rgba;
    var uploaded := CreateTextureFromRgba(st.texture, st.previewRGBA, gl);
    if uploaded.Fail? {
      return Err(uploaded.error);
    }
    var _ := CreateTextureFromRgba(st.textureThumb, ThumbnailBuffer, glThumb);
    r := Ok(status);
  }

  /** The first stage of `update_preview_from_source`: the statistics are
      reset, then either the depth is normalised or the channels are
      auto-contrasted and the statistics recorded. */
  method PreviewBase(st: ImageState, stretch: Stretch) returns (base: Result<Shape, string>)
    requires st.sourceOriginal.Image? && st.sourceOriginal.WellFormed()
    modifies st`hasMinMax, st`minVal, st`maxVal
    ensures base == BaseShape(st.sourceOriginal, st.autoContrastApplied)
    ensures NonEmptyPlanes(st.sourceOriginal.planes)
    ensures PreviewStateOf(st) ==
      old(PreviewStateOf(st)).(stats := if st.autoContrastApplied then ContrastStats(st.sourceOriginal.planes) else ResetStats)
  {
    var src := st.sourceOriginal;
    WellFormedPlanes(src);
    st.hasMinMax, st.minVal, st.maxVal := false, 0, 0;
    if !st.autoContrastApplied {
      var d := NormalizedDepth(src.depth);
      if d.None? {
        return Err(UnsupportedDepthMessage);
      }
      base := Ok(Shape(src.cols, src.rows, |src.planes|, d.value));
    } else {
      if |src.planes| == 0 {
        return Err(SplitFailedMessage);
      }
      var merged, stats := AutoContrastChannels(src.planes, stretch);
      st.hasMinMax, st.minVal, st.maxVal := stats.hasMinMax, stats.minVal, stats.maxVal;
      base := Ok(Shape(src.cols, src.rows, |merged|, U8));
    }
  }

  /** `rebuild_preview_from_source`: records the requested toggles and
      rebuilds the preview; with no source it fails before touching them. */
  method RebuildPreviewFromSource(st: ImageState, cfg: PreviewConfig, stretch: Stretch, gl: GlResponse, glThumb: GlResponse)
    returns (r: Outcome<string>)
    requires st.Valid() && st.sourceOriginal.WellFormed()
    requires st.sourceOriginal.Image? ==> GraySafe(|st.sourceOriginal.planes|, cfg.gray)
    modifies st`grayApplied, st`autoContrastApplied, st`pseudoColorApplied, st`ignoreAlphaApplied
    modifies st`preview8u, st`previewRGBA, st`hasMinMax, st`minVal, st`maxVal, st.texture, st.textureThumb
    ensures st.sourceOriginal.NoImage? ==> r == Fail(NoSourceMessage) && unchanged(st, st.texture, st.textureThumb)
    ensures st.sourceOriginal.Image? ==>
      var (after, status) := old(UpdatedPreview(st.sourceOriginal, cfg, PreviewStateOf(st), gl, glThumb));
      && st.Applied() == cfg
      && PreviewStateOf(st) == after
      && r == (if status.Ok? then Pass else Fail(status.error))
  {
    if st.sourceOriginal.NoImage? {
      return Fail(NoSourceMessage);
    }
    ApplyToggles(st, cfg);
    var status := UpdatePreviewFromSource(st, stretch, gl, glThumb);
    r := if status.Ok? then Pass else Fail(status.error);
  }

  /** Records the toggles an image's preview is built with. */
  method ApplyToggles(st: ImageState, cfg: PreviewConfig)
    modifies st`grayApplied, st`autoContrastApplied, st`pseudoColorApplied, st`ignoreAlphaApplied
    ensures st.Applied() == cfg
    ensures PreviewStateOf(st) == old(PreviewStateOf(st))
  {
    st.grayApplied, st.autoContrastApplied, st.pseudoColorApplied, st.ignoreAlphaApplied :=
      cfg.gray, cfg.autoContrast, cfg.pseudoColor, cfg.ignoreAlpha;
  }
}
