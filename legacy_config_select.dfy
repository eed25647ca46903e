// eglChooseConfig of the self-contained C variants (egl_x11.c and
// egl_windows.c): a don't-care template, exact-match filtering, no sort, and a
// result written straight into the caller's array until it is full.

module LegacyConfigSelect {
  import opened EglDefs
  import ConfigSelect

  /**
   * `_eglInternalSetDontCareConfig`: every attribute don't-care except
   * drawToWindow and doubleBuffer, which must be TRUE.  egl_windows.c also
   * asks for drawToPixmap and drawToPBuffer FALSE; egl_x11.c leaves them don't-care.
   */
  function DontCareConfig(platform: Platform): Config
  {
    Config(
      alphaMaskSize := EGL_DONT_CARE, alphaSize := EGL_DONT_CARE,
      bindToTextureRGB := EGL_DONT_CARE, bindToTextureRGBA := EGL_DONT_CARE,
      blueSize := EGL_DONT_CARE, bufferSize := EGL_DONT_CARE,
      colorBufferType := EGL_DONT_CARE, configCaveat := EGL_DONT_CARE,
      configId := EGL_DONT_CARE, conformant := EGL_DONT_CARE,
      depthSize := EGL_DONT_CARE, greenSize := EGL_DONT_CARE,
      level := EGL_DONT_CARE, luminanceSize := EGL_DONT_CARE,
      matchNativePixmap := EGL_DONT_CARE, maxPBufferHeight := EGL_DONT_CARE,
      maxPBufferPixels := EGL_DONT_CARE, maxPBufferWidth := EGL_DONT_CARE,
      maxSwapInterval := EGL_DONT_CARE, minSwapInterval := EGL_DONT_CARE,
      nativeRenderable := EGL_DONT_CARE, nativeVisualId := EGL_DONT_CARE,
      nativeVisualType := EGL_DONT_CARE, redSize := EGL_DONT_CARE,
      renderableType := EGL_DONT_CARE, sampleBuffers := EGL_DONT_CARE,
      samples := EGL_DONT_CARE, stencilSize := EGL_DONT_CARE,
      surfaceType := EGL_DONT_CARE, transparentBlueValue := EGL_DONT_CARE,
      transparentGreenValue := EGL_DONT_CARE, transparentRedValue := EGL_DONT_CARE,
      transparentType := EGL_DONT_CARE,
      drawToWindow := EGL_TRUE,
      drawToPixmap := if platform == X11 then EGL_DONT_CARE else EGL_FALSE,
      drawToPBuffer := if platform == X11 then EGL_DONT_CARE else EGL_FALSE,
      doubleBuffer := EGL_TRUE)
  }

  // ---------------------------------------------------------------------
  // Query template
  // ---------------------------------------------------------------------

  /** Size-like values must be non-negative: EGL_DONT_CARE (-1) is refused too. */
  predicate NonNegative(v: int) { v >= 0 }

  /** Bit-mask values must stay inside the mask: EGL_DONT_CARE (all ones) is refused too. */
  predicate InsideMask(v: int, mask: int) { !HasBitOutside(v, mask) }

  predicate ColorBufferTypeOk(v: int) { v == EGL_RGB_BUFFER || v == EGL_LUMINANCE_BUFFER }

  predicate TransparentTypeOk(v: int) { v == EGL_NONE || v == EGL_TRANSPARENT_TYPE }

  /** One case of the attribute switch of the C variants. */
  function SetAttribute(q: Config, attr: int, v: int): Result<Config>
  {
    if attr == EGL_ALPHA_MASK_SIZE then ConfigSelect.Accept(NonNegative(v), q.(alphaMaskSize := v))
    else if attr == EGL_ALPHA_SIZE then ConfigSelect.Accept(NonNegative(v), q.(alphaSize := v))
    else if attr == EGL_BIND_TO_TEXTURE_RGB then ConfigSelect.Accept(ConfigSelect.BooleanValueOk(v), q.(bindToTextureRGB := v))
    else if attr == EGL_BIND_TO_TEXTURE_RGBA then ConfigSelect.Accept(ConfigSelect.BooleanValueOk(v), q.(bindToTextureRGBA := v))
    else if attr == EGL_BLUE_SIZE then ConfigSelect.Accept(NonNegative(v), q.(blueSize := v))
    else if attr == EGL_BUFFER_SIZE then ConfigSelect.Accept(NonNegative(v), q.(bufferSize := v))
    else if attr == EGL_COLOR_BUFFER_TYPE then ConfigSelect.Accept(ColorBufferTypeOk(v), q.(colorBufferType := v))
    else if attr == EGL_CONFIG_CAVEAT then ConfigSelect.Accept(ConfigSelect.CaveatOk(v), q.(configCaveat := v))
    else if attr == EGL_CONFIG_ID then Ok(q.(configId := v))
    else if attr == EGL_CONFORMANT then ConfigSelect.Accept(InsideMask(v, ConfigSelect.API_BITS), q.(conformant := v))
    else if attr == EGL_DEPTH_SIZE then ConfigSelect.Accept(NonNegative(v), q.(depthSize := v))
    else if attr == EGL_GREEN_SIZE then ConfigSelect.Accept(NonNegative(v), q.(greenSize := v))
    else if attr == EGL_LEVEL then ConfigSelect.Accept(NonNegative(v), q.(level := v))
    else if attr == EGL_LUMINANCE_SIZE then ConfigSelect.Accept(NonNegative(v), q.(luminanceSize := v))
    else if attr == EGL_MATCH_NATIVE_PIXMAP then Ok(q.(matchNativePixmap := v))
    else if attr == EGL_NATIVE_RENDERABLE then ConfigSelect.Accept(ConfigSelect.BooleanValueOk(v), q.(nativeRenderable := v))
    else if attr == EGL_MAX_SWAP_INTERVAL then ConfigSelect.Accept(NonNegative(v), q.(maxSwapInterval := v))
    else if attr == EGL_MIN_SWAP_INTERVAL then ConfigSelect.Accept(NonNegative(v), q.(minSwapInterval := v))
    else if attr == EGL_RED_SIZE then ConfigSelect.Accept(NonNegative(v), q.(redSize := v))
    else if attr == EGL_SAMPLE_BUFFERS then ConfigSelect.Accept(NonNegative(v), q.(sampleBuffers := v))
    else if attr == EGL_SAMPLES then ConfigSelect.Accept(NonNegative(v), q.(samples := v))
    else if attr == EGL_STENCIL_SIZE then ConfigSelect.Accept(NonNegative(v), q.(stencilSize := v))
    else if attr == EGL_RENDERABLE_TYPE then ConfigSelect.Accept(InsideMask(v, ConfigSelect.API_BITS), q.(renderableType := v))
    else if attr == EGL_SURFACE_TYPE then ConfigSelect.Accept(InsideMask(v, ConfigSelect.SURFACE_BITS), q.(surfaceType := v))
    else if attr == EGL_TRANSPARENT_TYPE then ConfigSelect.Accept(TransparentTypeOk(v), q.(transparentType := v))
    else if attr == EGL_TRANSPARENT_RED_VALUE then ConfigSelect.Accept(NonNegative(v), q.(transparentRedValue := v))
    else if attr == EGL_TRANSPARENT_GREEN_VALUE then ConfigSelect.Accept(NonNegative(v), q.(transparentGreenValue := v))
    else if attr == EGL_TRANSPARENT_BLUE_VALUE then ConfigSelect.Accept(NonNegative(v), q.(transparentBlueValue := v))
    else Err(EGL_BAD_ATTRIBUTE)
  }

  /** The attribute loop from pair index `i / 2` on (the same 28-pair limit as egl_common.cpp). */
  function ParseFrom(a: seq<int>, i: nat, q: Config): Result<Config>
    requires Terminated(a) && i % 2 == 0 && i < |a|
    decreases |a| - i
  {
    if a[i] == EGL_NONE then Ok(q)
    else match SetAttribute(q, a[i], a[i + 1])
      case Err(e) => Err(e)
      case Ok(q') => if i + 2 >= 2 * ConfigSelect.MAX_QUERY_PAIRS then Err(EGL_BAD_ATTRIBUTE) else ParseFrom(a, i + 2, q')
  }

  function QueryTemplate(platform: Platform, a: seq<int>): Result<Config>
    requires Terminated(a)
  {
    ParseFrom(a, 0, DontCareConfig(platform))
  }

  method ParseQuery(platform: Platform, a: seq<int>) returns (r: Result<Config>)
    requires Terminated(a)
    ensures r == QueryTemplate(platform, a)
  {
    var config := DontCareConfig(platform);
    var index := 0;
    while a[index] != EGL_NONE
      invariant index % 2 == 0 && index < |a|
      invariant index < 2 * ConfigSelect.MAX_QUERY_PAIRS
      invariant ParseFrom(a, index, config) == ParseFrom(a, 0, DontCareConfig(platform))
      decreases |a| - index
    {
      var step := SetAttribute(config, a[index], a[index + 1]);
      if step.Err? {
        return Err(EGL_BAD_ATTRIBUTE);
      }
      config := step.value;
      index := index + 2;
      if index >= 2 * ConfigSelect.MAX_QUERY_PAIRS {
        return Err(EGL_BAD_ATTRIBUTE);
      }
    }
    r := Ok(config);
  }

  /** A negative size value, EGL_DONT_CARE included, is refused with EGL_BAD_ATTRIBUTE. */
  lemma NegativeSizeRejected(platform: Platform, attr: int, v: int)
    requires attr in {EGL_ALPHA_MASK_SIZE, EGL_ALPHA_SIZE, EGL_BLUE_SIZE, EGL_BUFFER_SIZE, EGL_DEPTH_SIZE,
                      EGL_GREEN_SIZE, EGL_LEVEL, EGL_LUMINANCE_SIZE, EGL_MAX_SWAP_INTERVAL, EGL_MIN_SWAP_INTERVAL,
                      EGL_RED_SIZE, EGL_SAMPLE_BUFFERS, EGL_SAMPLES, EGL_STENCIL_SIZE, EGL_TRANSPARENT_RED_VALUE,
                      EGL_TRANSPARENT_GREEN_VALUE, EGL_TRANSPARENT_BLUE_VALUE}
    requires v < 0
    ensures QueryTemplate(platform, [attr, v, EGL_NONE]) == Err(EGL_BAD_ATTRIBUTE)
  {
  }

  /** The colour buffer type must be named: neither EGL_DONT_CARE nor any other value passes. */
  lemma ColorBufferTypeMustBeNamed(platform: Platform, v: int)
    ensures QueryTemplate(platform, [EGL_COLOR_BUFFER_TYPE, v, EGL_NONE]).Ok? <==>
      v == EGL_RGB_BUFFER || v == EGL_LUMINANCE_BUFFER
  {
    var a := [EGL_COLOR_BUFFER_TYPE, v, EGL_NONE];
    if ColorBufferTypeOk(v) {
      assert ParseFrom(a, 2, DontCareConfig(platform).(colorBufferType := v)).Ok?;
    }
  }

  lemma {:induction false} PairLimit(a: seq<int>, i: nat, q: Config)
    requires Terminated(a) && i % 2 == 0 && i < |a| && i < 2 * ConfigSelect.MAX_QUERY_PAIRS
    requires forall j :: i <= j < 2 * ConfigSelect.MAX_QUERY_PAIRS && j % 2 == 0 ==> j < |a| && a[j] != EGL_NONE
    ensures ParseFrom(a, i, q) == Err(EGL_BAD_ATTRIBUTE)
    decreases |a| - i
  {
    var step := SetAttribute(q, a[i], a[i + 1]);
    if step.Ok? && i + 2 < 2 * ConfigSelect.MAX_QUERY_PAIRS {
      PairLimit(a, i + 2, step.value);
    }
  }

  /** A list whose first 28 pairs are all present is refused, as in egl_common.cpp. */
  lemma TwentyEightPairsRejected(platform: Platform, a: seq<int>)
    requires Terminated(a)
    requires forall j :: 0 <= j < 2 * ConfigSelect.MAX_QUERY_PAIRS && j % 2 == 0 ==> j < |a| && a[j] != EGL_NONE
    ensures QueryTemplate(platform, a) == Err(EGL_BAD_ATTRIBUTE)
  {
    PairLimit(a, 0, DontCareConfig(platform));
  }

  // ---------------------------------------------------------------------
  // Filter
  // ---------------------------------------------------------------------

  predicate DontCareOrEqual(asked: int, has: int) { asked == EGL_DONT_CARE || asked == has }

  /**
   * The candidate test of the C variants: every attribute is equal or
   * don't-care, except that egl_x11.c accepts a surface type sharing any bit
   * with the requested one.
   */
  predicate Matches(platform: Platform, q: Config, c: Config)
  {
    && DontCareOrEqual(q.alphaMaskSize, c.alphaMaskSize)
    && DontCareOrEqual(q.alphaSize, c.alphaSize)
    && DontCareOrEqual(q.bindToTextureRGB, c.bindToTextureRGB)
    && DontCareOrEqual(q.bindToTextureRGBA, c.bindToTextureRGBA)
    && DontCareOrEqual(q.blueSize, c.blueSize)
    && DontCareOrEqual(q.bufferSize, c.bufferSize)
    && DontCareOrEqual(q.colorBufferType, c.colorBufferType)
    && DontCareOrEqual(q.configCaveat, c.configCaveat)
    && DontCareOrEqual(q.configId, c.configId)
    && DontCareOrEqual(q.conformant, c.conformant)
    && DontCareOrEqual(q.depthSize, c.depthSize)
    && DontCareOrEqual(q.greenSize, c.greenSize)
    && DontCareOrEqual(q.level, c.level)
    && DontCareOrEqual(q.luminanceSize, c.luminanceSize)
    && DontCareOrEqual(q.matchNativePixmap, c.matchNativePixmap)
    && DontCareOrEqual(q.nativeRenderable, c.nativeRenderable)
    && DontCareOrEqual(q.maxSwapInterval, c.maxSwapInterval)
    && DontCareOrEqual(q.minSwapInterval, c.minSwapInterval)
    && DontCareOrEqual(q.redSize, c.redSize)
    && DontCareOrEqual(q.sampleBuffers, c.sampleBuffers)
    && DontCareOrEqual(q.samples, c.samples)
    && DontCareOrEqual(q.stencilSize, c.stencilSize)
    && DontCareOrEqual(q.renderableType, c.renderableType)
    && (if platform == X11 then q.surfaceType == EGL_DONT_CARE || SharesBit(q.surfaceType, c.surfaceType)
        else DontCareOrEqual(q.surfaceType, c.surfaceType))
    && DontCareOrEqual(q.transparentType, c.transparentType)
    && DontCareOrEqual(q.transparentRedValue, c.transparentRedValue)
    && DontCareOrEqual(q.transparentGreenValue, c.transparentGreenValue)
    && DontCareOrEqual(q.transparentBlueValue, c.transparentBlueValue)
    && DontCareOrEqual(q.drawToWindow, c.drawToWindow)
    && DontCareOrEqual(q.drawToPixmap, c.drawToPixmap)
    && DontCareOrEqual(q.drawToPBuffer, c.drawToPBuffer)
    && DontCareOrEqual(q.doubleBuffer, c.doubleBuffer)
  }

  /**
   * An empty attribute list still asks for a window-capable, double-buffered
   * config; egl_windows.c additionally refuses configs that can draw to
   * pixmaps or pbuffers.
   */
  lemma EmptyQueryBaseline(platform: Platform, c: Config)
    ensures QueryTemplate(platform, [EGL_NONE]) == Ok(DontCareConfig(platform))
    ensures Matches(platform, DontCareConfig(platform), c) <==>
      && c.drawToWindow == EGL_TRUE && c.doubleBuffer == EGL_TRUE
      && (platform == Windows ==> c.drawToPixmap == EGL_FALSE && c.drawToPBuffer == EGL_FALSE)
  {
  }

  /** Where both variants differ: the surface type test is any-shared-bit on X11 and exact on Windows. */
  lemma SurfaceTypeTest(q: Config, c: Config)
    requires q.surfaceType != EGL_DONT_CARE
    requires Matches(X11, q, c.(surfaceType := q.surfaceType))
    ensures Matches(Windows, q.(drawToPixmap := c.drawToPixmap, drawToPBuffer := c.drawToPBuffer), c) <==> c.surfaceType == q.surfaceType
    ensures Matches(X11, q, c) <==> SharesBit(q.surfaceType, c.surfaceType)
  {
  }

  /** Matching configs, in list order. */
  function Matching(platform: Platform, q: Config, cs: seq<Config>): seq<Config>
  {
    Filter((c: Config) => Matches(platform, q, c), cs)
  }

  /** The first `n` entries of a list, none when `n` is not positive. */
  function Take(s: seq<Config>, n: int): seq<Config>
  {
    if n <= 0 then [] else if n < |s| then s[..n] else s
  }

  /** The selection loop: write matches into the caller's array until `configSize` are written. */
  method SelectMatching(platform: Platform, q: Config, configs: seq<Config>, configSize: int) returns (found: seq<Config>)
    ensures found == Take(Matching(platform, q, configs), configSize)
  {
    found := [];
    var i := 0;
    while i < |configs| && |found| < configSize
      invariant 0 <= i <= |configs|
      invariant found == Matching(platform, q, configs[..i])
      invariant if configSize <= 0 then i == 0 else |found| <= configSize
    {
      assert configs[..i + 1][..i] == configs[..i];
      if Matches(platform, q, configs[i]) {
        found := found + [configs[i]];
      }
      i := i + 1;
    }
    FilterPrefix((c: Config) => Matches(platform, q, c), configs, i);
    var m := Matching(platform, q, configs);
    if i == |configs| {
      assert configs[..i] == configs;
    } else if configSize > 0 {
      assert m[..|found|] == found && |found| == configSize;
      if configSize == |m| {
        assert m[..|m|] == m;
      }
    }
  }

  /**
   * The argument checks the C variants make before looking up the display:
   * the attribute list, the output array and the count pointer must be
   * given (None / false for a null pointer), and the capacity must not be 0.
   * A negative capacity passes and simply admits no config.
   */
  predicate ArgumentsOk(attribs: Option<seq<int>>, configsGiven: bool, configSize: int, countGiven: bool)
  {
    attribs.Some? && configsGiven && configSize != 0 && countGiven
  }

  /** eglChooseConfig of the C variants, with `configs` the list of the display the handle names. */
  function ChooseConfigs(platform: Platform, attribs: Option<seq<int>>, configsGiven: bool, configs: seq<Config>,
                         configSize: int, countGiven: bool): Result<seq<Config>>
    requires attribs.Some? ==> Terminated(attribs.value)
  {
    if !ArgumentsOk(attribs, configsGiven, configSize, countGiven) then Err(EGL_BAD_PARAMETER)
    else match QueryTemplate(platform, attribs.value)
      case Err(e) => Err(e)
      case Ok(q) => Ok(Take(Matching(platform, q, configs), configSize))
  }

  method ChooseConfig(platform: Platform, attribs: Option<seq<int>>, configsGiven: bool, configs: seq<Config>,
                      configSize: int, countGiven: bool) returns (r: Result<seq<Config>>)
    requires attribs.Some? ==> Terminated(attribs.value)
    ensures r == ChooseConfigs(platform, attribs, configsGiven, configs, configSize, countGiven)
  {
    if attribs.None? || !configsGiven || configSize == 0 || !countGiven {
      return Err(EGL_BAD_PARAMETER);
    }
    var query := ParseQuery(platform, attribs.value);
    if query.Err? {
      return Err(query.error);
    }
    var found := SelectMatching(platform, query.value, configs, configSize);
    r := Ok(found);
  }

  /**
   * A null pointer or a zero capacity is refused with EGL_BAD_PARAMETER
   * before the list is read; with the arguments in order, only a refused
   * attribute list makes the call fail.
   */
  lemma ArgumentChecks(platform: Platform, attribs: Option<seq<int>>, configsGiven: bool, configs: seq<Config>,
                       configSize: int, countGiven: bool)
    requires attribs.Some? ==> Terminated(attribs.value)
    ensures var r := ChooseConfigs(platform, attribs, configsGiven, configs, configSize, countGiven);
      && (!ArgumentsOk(attribs, configsGiven, configSize, countGiven) ==> r == Err(EGL_BAD_PARAMETER))
      && (ArgumentsOk(attribs, configsGiven, configSize, countGiven) ==>
            (r.Err? <==> QueryTemplate(platform, attribs.value).Err?) &&
            (r.Err? ==> r.error == EGL_BAD_ATTRIBUTE))
  {
    if ArgumentsOk(attribs, configsGiven, configSize, countGiven) {
      ParseFromErrors(attribs.value, 0, DontCareConfig(platform));
    }
  }

  /** Every refusal of the C parse loop is EGL_BAD_ATTRIBUTE. */
  lemma {:induction false} ParseFromErrors(a: seq<int>, i: nat, q: Config)
    requires Terminated(a) && i % 2 == 0 && i < |a|
    ensures ParseFrom(a, i, q).Err? ==> ParseFrom(a, i, q).error == EGL_BAD_ATTRIBUTE
    decreases |a| - i
  {
    if a[i] != EGL_NONE {
      var step := SetAttribute(q, a[i], a[i + 1]);
      SetAttributeError(q, a[i], a[i + 1]);
      if step.Ok? && i + 2 < 2 * ConfigSelect.MAX_QUERY_PAIRS {
        ParseFromErrors(a, i + 2, step.value);
      }
    }
  }

  lemma SetAttributeError(q: Config, attr: int, v: int)
    ensures SetAttribute(q, attr, v).Err? ==> SetAttribute(q, attr, v).error == EGL_BAD_ATTRIBUTE
  {
  }

  /** A zero capacity is refused even with an empty attribute list. */
  lemma ZeroCapacityRejected(platform: Platform, configs: seq<Config>)
    ensures ChooseConfigs(platform, Some([EGL_NONE]), true, configs, 0, true) == Err(EGL_BAD_PARAMETER)
  {
  }

  /**
   * The C variants return matches in list order, unsorted: the result is a
   * prefix of the matching configs holding min(matches, configSize) of them
   * (none for a negative size), and every matching config when they all fit.
   * Only calls whose arguments passed the checks get here.
   */
  lemma ChooseConfigsCorrect(platform: Platform, attribs: Option<seq<int>>, configsGiven: bool, configs: seq<Config>,
                             configSize: int, countGiven: bool)
    requires attribs.Some? ==> Terminated(attribs.value)
    requires ChooseConfigs(platform, attribs, configsGiven, configs, configSize, countGiven).Ok?
    ensures ArgumentsOk(attribs, configsGiven, configSize, countGiven) && configSize != 0
    ensures var q := QueryTemplate(platform, attribs.value).value;
      var m := Matching(platform, q, configs);
      var r := ChooseConfigs(platform, attribs, configsGiven, configs, configSize, countGiven).value;
      && |r| == (if configSize < 0 then 0 else if |m| < configSize then |m| else configSize)
      && r == m[..|r|]
      && (forall x :: x in r ==> x in configs && Matches(platform, q, x))
      && (|m| <= configSize ==> forall x :: x in configs && Matches(platform, q, x) ==> x in r)
  {
    var q := QueryTemplate(platform, attribs.value).value;
    var m := Matching(platform, q, configs);
    var r := ChooseConfigs(platform, attribs, configsGiven, configs, configSize, countGiven).value;
    forall x | x in r ensures x in configs && Matches(platform, q, x) {
      FilterMembers((c: Config) => Matches(platform, q, c), configs, x);
    }
    forall x | |m| <= configSize && x in configs && Matches(platform, q, x) ensures x in r {
      FilterMembers((c: Config) => Matches(platform, q, c), configs, x);
    }
  }
}
