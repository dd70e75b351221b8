/** `KawaseBlur.CustomRenderPass.Configure`: the descriptor both working
    textures are (re)allocated with, derived from the camera's descriptor. */
module KawaseBlurConfigure {
  import opened Int32

  datatype ColorFormat = ARGB32 | OtherFormat(code: int)

  datatype FilterMode = Point | Bilinear | Trilinear

  /** The fields of a render texture descriptor that `Configure` sets, and a
      few it copies from the camera's descriptor untouched. */
  datatype Descriptor = Descriptor(
    width: int32,
    height: int32,
    depthBufferBits: int32,
    msaaSamples: int32,
    colorFormat: ColorFormat,
    volumeDepth: int32,
    useMipMap: bool,
    sRGB: bool)

  /** One `ReAllocateIfNeeded` request: descriptor, filter mode and name. */
  datatype Allocation = Allocation(desc: Descriptor, filter: FilterMode, name: string)

  /** The requests for the textures behind `rtHandle1` and `rtHandle2`. */
  datatype WorkingTextures = WorkingTextures(first: Allocation, second: Allocation)

  /** `Configure` up to the allocation calls. Integer division by
      `downsample` throws on zero (and on `int.MinValue / -1`), which aborts
      the call before anything is allocated. */
  function Configure(camera: Descriptor, downsample: int32): (r: Result<WorkingTextures>)
    ensures downsample == 0 <==> r == Err(DivideByZero)
    ensures r == Err(Overflow) <==>
      downsample == -1 && (camera.width == MinInt32 || camera.height == MinInt32)
    ensures r.Ok? ==>
      && r.value.first.desc == r.value.second.desc
      && r.value.first.filter == Bilinear && r.value.second.filter == Bilinear
      && r.value.first.name == "_BlurRT1" && r.value.second.name == "_BlurRT2"
    ensures r.Ok? ==>
      var d := r.value.first.desc;
      && IsTruncatedQuotient(camera.width, downsample, d.width)
      && IsTruncatedQuotient(camera.height, downsample, d.height)
      && d.depthBufferBits == 0
      && d.msaaSamples == 1
      && d.colorFormat == ARGB32
      && d.(width := camera.width, height := camera.height, depthBufferBits := camera.depthBufferBits,
            msaaSamples := camera.msaaSamples, colorFormat := camera.colorFormat) == camera
  {
    var width :- Div(camera.width, downsample);
    var height :- Div(camera.height, downsample);
    var desc := camera.(width := width, height := height, depthBufferBits := 0, msaaSamples := 1,
                        colorFormat := ARGB32);
    Ok(WorkingTextures(Allocation(desc, Bilinear, "_BlurRT1"), Allocation(desc, Bilinear, "_BlurRT2")))
  }

  /** `q` is `a / d` rounded down: the largest `q` with `q * d <= a`. */
  predicate IsFloorQuotient(a: int, d: int, q: int) {
    q * d <= a < (q + 1) * d
  }

  /** For a positive `downsample` and a camera of non-negative size, the
      working size is the floor quotient in each dimension: never larger
      than the camera, the camera itself at `downsample == 1`, and zero (not
      clamped to one texel) when the camera is narrower than `downsample`. */
  lemma DownsampledSize(camera: Descriptor, downsample: int32)
    requires downsample >= 1 && camera.width >= 0 && camera.height >= 0
    ensures var r := Configure(camera, downsample);
      && r.Ok?
      && var d := r.value.first.desc;
      && 0 <= d.width <= camera.width
      && 0 <= d.height <= camera.height
      && IsFloorQuotient(camera.width, downsample, d.width)
      && IsFloorQuotient(camera.height, downsample, d.height)
      && (downsample == 1 ==> d.width == camera.width && d.height == camera.height)
      && (camera.width < downsample ==> d.width == 0)
      && (camera.height < downsample ==> d.height == 0)
  {
    var d := Configure(camera, downsample).value.first.desc;
    FloorQuotient(camera.width, downsample, d.width);
    FloorQuotient(camera.height, downsample, d.height);
  }

  lemma FloorQuotient(a: int, d: int, q: int)
    requires a >= 0 && d >= 1
    requires IsTruncatedQuotient(a, d, q)
    ensures 0 <= q <= a
    ensures IsFloorQuotient(a, d, q)
    ensures d == 1 ==> q == a
    ensures a < d ==> q == 0
  {
    assert 0 <= q * d <= a && a - q * d < d;
    assert q >= 0;
    MulMonotone(q, 1, d);
    assert (q + 1) * d == q * d + d;
    if q > 0 {
      MulMonotone(d, 1, q);
    }
  }
}
