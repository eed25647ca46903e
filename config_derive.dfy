// Derivation of the EGL config list from the native framebuffer configs
// (GLX) or pixel formats (WGL) while a display is initialised: the
// enumeration loop of `__initialize` in egl_x11.cpp and egl_windows.cpp and
// of `_eglInitialize` in egl_x11.c and egl_windows.c.  What the native
// attribute queries answer is the input.

module ConfigDerive {
  import opened EglDefs
  import SurfaceAttribs

  /** The sizes every variant copies from the native format into the config. */
  datatype NativeSizes = NativeSizes(
    bufferSize: int, redSize: int, greenSize: int, blueSize: int, alphaSize: int,
    depthSize: int, stencilSize: int, sampleBuffers: int, samples: int,
    bindToTextureRGB: int, bindToTextureRGBA: int,
    maxPBufferPixels: int, maxPBufferWidth: int, maxPBufferHeight: int,
    transparentRedValue: int, transparentGreenValue: int, transparentBlueValue: int)

  /**
   * What glXGetFBConfigAttrib answers for one framebuffer config.  `readable`
   * says whether every query the loop makes on it (and
   * glXGetVisualFromFBConfig) succeeds.
   */
  datatype GlxFbConfig = GlxFbConfig(
    readable: bool, visualId: int, renderType: int, transparentType: int,
    drawableType: int, doubleBuffer: int, sizes: NativeSizes, nativeVisual: int)

  /**
   * What wglGetPixelFormatAttribivARB answers for one pixel format.
   * `readable` is as for GLX; a failed WGL_DRAW_TO_PBUFFER_ARB query is
   * tolerated by egl_windows.cpp and shows as None.
   */
  datatype WglPixelFormat = WglPixelFormat(
    readable: bool, supportOpenGL: int, pixelType: int,
    drawToWindow: int, drawToBitmap: int, drawToPBuffer: Option<int>,
    doubleBuffer: int, transparent: int, sizes: NativeSizes)

  // ---------------------------------------------------------------------
  // The enumeration loop, shared by all four variants
  // ---------------------------------------------------------------------

  /**
   * Configs appended, in enumeration order, for the eligible formats among
   * `fs`, the format at position k getting id `first + k`; None once a
   * query fails (EGL_NOT_INITIALIZED).
   */
  function Derive<F>(fs: seq<F>, readable: F -> bool, eligible: F -> bool, make: (F, int) -> Config, first: int): Option<seq<Config>>
    decreases |fs|
  {
    if |fs| == 0 then Some([])
    else match Derive(fs[..|fs| - 1], readable, eligible, make, first)
      case None => None
      case Some(cs) =>
        var f := fs[|fs| - 1];
        if !readable(f) then None
        else if eligible(f) then Some(cs + [make(f, first + |fs| - 1)])
        else Some(cs)
  }

  lemma {:induction false} DeriveNonePersists<F>(fs: seq<F>, i: nat, readable: F -> bool, eligible: F -> bool, make: (F, int) -> Config, first: int)
    requires i <= |fs| && Derive(fs[..i], readable, eligible, make, first).None?
    ensures Derive(fs, readable, eligible, make, first).None?
    decreases |fs| - i
  {
    if i < |fs| {
      assert fs[..i + 1][..i] == fs[..i];
      DeriveNonePersists(fs, i + 1, readable, eligible, make, first);
    } else {
      assert fs[..i] == fs;
    }
  }

  /** One more format on a prefix: the step the enumeration loops take. */
  lemma DeriveSnoc<F>(fs: seq<F>, k: nat, readable: F -> bool, eligible: F -> bool, make: (F, int) -> Config, first: int)
    requires k < |fs|
    ensures Derive(fs[..k + 1], readable, eligible, make, first) ==
      match Derive(fs[..k], readable, eligible, make, first)
      case None => None
      case Some(cs) =>
        if !readable(fs[k]) then None
        else if eligible(fs[k]) then Some(cs + [make(fs[k], first + k)])
        else Some(cs)
  {
    assert fs[..k + 1][..k] == fs[..k];
  }

  /** The derivation succeeds exactly when every format can be read. */
  lemma {:induction false} DeriveSucceeds<F>(fs: seq<F>, readable: F -> bool, eligible: F -> bool, make: (F, int) -> Config, first: int)
    ensures Derive(fs, readable, eligible, make, first).Some? <==> forall k :: 0 <= k < |fs| ==> readable(fs[k])
    decreases |fs|
  {
    if |fs| > 0 {
      var init := fs[..|fs| - 1];
      DeriveSucceeds(init, readable, eligible, make, first);
      assert forall k :: 0 <= k < |init| ==> init[k] == fs[k];
    }
  }

  /** The ids of a derived list increase. */
  predicate IdsIncrease(cs: seq<Config>)
  {
    forall i, j :: 0 <= i < j < |cs| ==> cs[i].configId < cs[j].configId
  }

  /** Every config of the list is the config of an eligible format, stamped with its position. */
  predicate MadeFromEligible<F>(cs: seq<Config>, fs: seq<F>, eligible: F -> bool, make: (F, int) -> Config, first: int)
  {
    forall c :: c in cs ==>
      first <= c.configId < first + |fs| && eligible(fs[c.configId - first]) && c == make(fs[c.configId - first], c.configId)
  }

  /** Every eligible format has its config in the list. */
  predicate CoversEligible<F>(cs: seq<Config>, fs: seq<F>, eligible: F -> bool, first: int)
  {
    forall k :: 0 <= k < |fs| && eligible(fs[k]) ==> exists c :: c in cs && c.configId == first + k
  }

  /** What a derived list is: given `make` stamps the id, exactly the eligible formats' configs, ids increasing. */
  predicate DerivedFrom<F>(cs: seq<Config>, fs: seq<F>, eligible: F -> bool, make: (F, int) -> Config, first: int)
  {
    IdsIncrease(cs) && MadeFromEligible(cs, fs, eligible, make, first) && CoversEligible(cs, fs, eligible, first)
  }

  /** The derivation after one more format, given the derivation before it. */
  function DeriveNext<F>(cs: seq<Config>, f: F, eligible: F -> bool, make: (F, int) -> Config, id: int): seq<Config>
  {
    if eligible(f) then cs + [make(f, id)] else cs
  }

  lemma DeriveUnfold<F>(fs: seq<F>, readable: F -> bool, eligible: F -> bool, make: (F, int) -> Config, first: int)
    requires |fs| > 0 && Derive(fs, readable, eligible, make, first).Some?
    ensures Derive(fs[..|fs| - 1], readable, eligible, make, first).Some?
    ensures Derive(fs, readable, eligible, make, first).value ==
      DeriveNext(Derive(fs[..|fs| - 1], readable, eligible, make, first).value, fs[|fs| - 1], eligible, make, first + |fs| - 1)
  {
  }

  lemma {:induction false} DeriveCharacterised<F>(fs: seq<F>, readable: F -> bool, eligible: F -> bool, make: (F, int) -> Config, first: int)
    requires forall f, i :: make(f, i).configId == i
    requires Derive(fs, readable, eligible, make, first).Some?
    ensures DerivedFrom(Derive(fs, readable, eligible, make, first).value, fs, eligible, make, first)
    decreases |fs|
  {
    if |fs| > 0 {
      DeriveUnfold(fs, readable, eligible, make, first);
      var init := fs[..|fs| - 1];
      DeriveCharacterised(init, readable, eligible, make, first);
      DerivedStep(Derive(init, readable, eligible, make, first).value, fs, eligible, make, first);
    }
  }

  /** One more format keeps the characterisation. */
  lemma DerivedStep<F>(cs: seq<Config>, fs: seq<F>, eligible: F -> bool, make: (F, int) -> Config, first: int)
    requires forall f, i :: make(f, i).configId == i
    requires |fs| > 0 && DerivedFrom(cs, fs[..|fs| - 1], eligible, make, first)
    ensures DerivedFrom(DeriveNext(cs, fs[|fs| - 1], eligible, make, first + |fs| - 1), fs, eligible, make, first)
  {
    if eligible(fs[|fs| - 1]) {
      AppendIncreasing(cs, fs, eligible, make, first);
      AppendMembers(cs, fs, eligible, make, first);
      AppendCovers(cs, fs, eligible, make(fs[|fs| - 1], first + |fs| - 1), first);
    } else {
      DerivedSkip(cs, fs, eligible, make, first);
    }
  }

  /** Appending the last format's config keeps the ids increasing. */
  lemma AppendIncreasing<F>(cs: seq<Config>, fs: seq<F>, eligible: F -> bool, make: (F, int) -> Config, first: int)
    requires forall f, i :: make(f, i).configId == i
    requires |fs| > 0 && eligible(fs[|fs| - 1]) && DerivedFrom(cs, fs[..|fs| - 1], eligible, make, first)
    ensures IdsIncrease(cs + [make(fs[|fs| - 1], first + |fs| - 1)])
  {
    var out := cs + [make(fs[|fs| - 1], first + |fs| - 1)];
    forall i, j | 0 <= i < j < |out| ensures out[i].configId < out[j].configId {
      if j == |cs| {
        assert out[i] in cs;
      }
    }
  }
  /** Every config of the extended list is the config of an eligible format, stamped with its position. */
  lemma AppendMembers<F>(cs: seq<Config>, fs: seq<F>, eligible: F -> bool, make: (F, int) -> Config, first: int)
    requires forall f, i :: make(f, i).configId == i
    requires |fs| > 0 && eligible(fs[|fs| - 1]) && DerivedFrom(cs, fs[..|fs| - 1], eligible, make, first)
    ensures MadeFromEligible(cs + [make(fs[|fs| - 1], first + |fs| - 1)], fs, eligible, make, first)
  {
    var init := fs[..|fs| - 1];
    var out := cs + [make(fs[|fs| - 1], first + |fs| - 1)];
    forall d | d in out
      ensures first <= d.configId < first + |fs| && eligible(fs[d.configId - first]) && d == make(fs[d.configId - first], d.configId)
    {
      if d in cs {
        assert init[d.configId - first] == fs[d.configId - first];
      }
    }
  }
  /** Every eligible format, the last one included, has its config in the extended list. */
  lemma AppendCovers<F>(cs: seq<Config>, fs: seq<F>, eligible: F -> bool, c: Config, first: int)
    requires |fs| > 0 && c.configId == first + |fs| - 1
    requires CoversEligible(cs, fs[..|fs| - 1], eligible, first)
    ensures CoversEligible(cs + [c], fs, eligible, first)
  {
    forall k | 0 <= k < |fs| && eligible(fs[k]) ensures exists d :: d in cs + [c] && d.configId == first + k {
      if k < |fs| - 1 {
        assert fs[..|fs| - 1][k] == fs[k];
        var d :| d in cs && d.configId == first + k;
        assert d in cs + [c];
      } else {
        assert c in cs + [c];
      }
    }
  }

  /** An ineligible format leaves the list as it is. */
  lemma DerivedSkip<F>(cs: seq<Config>, fs: seq<F>, eligible: F -> bool, make: (F, int) -> Config, first: int)
    requires |fs| > 0 && !eligible(fs[|fs| - 1]) && DerivedFrom(cs, fs[..|fs| - 1], eligible, make, first)
    ensures DerivedFrom(cs, fs, eligible, make, first)
  {
    var init := fs[..|fs| - 1];
    forall d | d in cs
      ensures first <= d.configId < first + |fs| && eligible(fs[d.configId - first]) && d == make(fs[d.configId - first], d.configId)
    {
      assert init[d.configId - first] == fs[d.configId - first];
    }
    forall k | 0 <= k < |fs| && eligible(fs[k]) ensures exists d :: d in cs && d.configId == first + k {
      assert init[k] == fs[k];
    }
  }

  // ---------------------------------------------------------------------
  // Building one config
  // ---------------------------------------------------------------------

  /** `value ? EGL_TRUE : EGL_FALSE` for a flag the backend tests as a bit. */
  function Flag(on: bool): int { if on then EGL_TRUE else EGL_FALSE }

  /** The surface type built by or-ing in one bit per drawTo flag (the bits are distinct, so | is +). */
  function SurfaceBits(window: bool, pixmap: bool, pbuffer: bool): int
  {
    (if window then EGL_WINDOW_BIT else 0) + (if pixmap then EGL_PIXMAP_BIT else 0) + (if pbuffer then EGL_PBUFFER_BIT else 0)
  }

  /** `EGL_OPENGL_BIT | ES_mask`: OpenGL, plus ES, ES2 and ES3 when the ES-profile extension is present. */
  function ApiBits(esSupported: bool): int
  {
    if esSupported then 0x004D else EGL_OPENGL_BIT
  }

  /** The queried sizes written over the default config, texture bindings normalised to booleans. */
  function WithSizes(c: Config, s: NativeSizes, bindRGB: int, bindRGBA: int): Config
  {
    c.(bufferSize := s.bufferSize, redSize := s.redSize, greenSize := s.greenSize,
       blueSize := s.blueSize, alphaSize := s.alphaSize, depthSize := s.depthSize,
       stencilSize := s.stencilSize, sampleBuffers := s.sampleBuffers, samples := s.samples,
       bindToTextureRGB := AsBoolean(bindRGB), bindToTextureRGBA := AsBoolean(bindRGBA),
       maxPBufferPixels := s.maxPBufferPixels, maxPBufferWidth := s.maxPBufferWidth,
       maxPBufferHeight := s.maxPBufferHeight, transparentRedValue := s.transparentRedValue,
       transparentGreenValue := s.transparentGreenValue, transparentBlueValue := s.transparentBlueValue)
  }

  /** GLX: a config needs a visual, RGBA rendering and no index transparency. */
  predicate GlxEligible(f: GlxFbConfig)
  {
    f.visualId != 0 && SharesBit(f.renderType, SurfaceAttribs.GLX_RGBA_BIT) && f.transparentType != SurfaceAttribs.GLX_TRANSPARENT_INDEX
  }

  predicate GlxReadable(f: GlxFbConfig) { f.readable }

  /** The config egl_x11.cpp (or, `legacy`, egl_x11.c) builds from framebuffer config number `index`. */
  function GlxConfig(legacy: bool, esSupported: bool, f: GlxFbConfig, index: int): Config
  {
    var window := SharesBit(f.drawableType, SurfaceAttribs.GLX_WINDOW_BIT);
    var pixmap := SharesBit(f.drawableType, SurfaceAttribs.GLX_PIXMAP_BIT);
    var pbuffer := SharesBit(f.drawableType, SurfaceAttribs.GLX_PBUFFER_BIT);
    var api := if legacy then EGL_OPENGL_BIT else ApiBits(esSupported);
    WithSizes(DefaultConfig(), f.sizes, f.sizes.bindToTextureRGB, f.sizes.bindToTextureRGBA).(
      drawToWindow := Flag(window), drawToPixmap := Flag(pixmap), drawToPBuffer := Flag(pbuffer),
      doubleBuffer := f.doubleBuffer, conformant := api, renderableType := api,
      surfaceType := SurfaceBits(window, pixmap, pbuffer),
      colorBufferType := EGL_RGB_BUFFER, configId := index,
      transparentType := if f.transparentType == SurfaceAttribs.GLX_TRANSPARENT_RGB then EGL_TRANSPARENT_RGB else EGL_NONE,
      nativeVisualId := f.nativeVisual)
  }

  function GlxMaker(legacy: bool, esSupported: bool): (GlxFbConfig, int) -> Config
  {
    (f, i) => GlxConfig(legacy, esSupported, f, i)
  }

  /**
   * The GLX config list: framebuffer configs are numbered from 0, and an
   * empty native list fails like a failed query.
   */
  function GlxConfigs(legacy: bool, esSupported: bool, fs: seq<GlxFbConfig>): Option<seq<Config>>
  {
    if |fs| == 0 then None else Derive(fs, GlxReadable, GlxEligible, GlxMaker(legacy, esSupported), 0)
  }

  /** WGL: a format must support OpenGL and RGBA pixels. */
  predicate WglEligible(f: WglPixelFormat)
  {
    f.supportOpenGL != 0 && f.pixelType == SurfaceAttribs.WGL_TYPE_RGBA_ARB
  }

  predicate WglReadable(f: WglPixelFormat) { f.readable }

  /**
   * The config egl_windows.cpp builds from pixel format `index`.  Without
   * WGL_ARB_render_texture the texture bindings are not queried, and the
   * default EGL_DONT_CARE normalises to EGL_TRUE.
   */
  function WglConfig(esSupported: bool, renderTexture: bool, f: WglPixelFormat, index: int): Config
  {
    var pbuffer := if f.drawToPBuffer.Some? then f.drawToPBuffer.value else EGL_FALSE;
    var bindRGB := if renderTexture then f.sizes.bindToTextureRGB else DefaultConfig().bindToTextureRGB;
    var bindRGBA := if renderTexture then f.sizes.bindToTextureRGBA else DefaultConfig().bindToTextureRGBA;
    WithSizes(DefaultConfig(), f.sizes, bindRGB, bindRGBA).(
      drawToWindow := f.drawToWindow, drawToPixmap := f.drawToBitmap, drawToPBuffer := pbuffer,
      doubleBuffer := f.doubleBuffer, conformant := ApiBits(esSupported), renderableType := ApiBits(esSupported),
      surfaceType := SurfaceBits(f.drawToWindow != 0, f.drawToBitmap != 0, pbuffer != 0),
      colorBufferType := EGL_RGB_BUFFER, configId := index,
      transparentType := if f.transparent != 0 then EGL_TRANSPARENT_RGB else EGL_NONE)
  }

  /**
   * The config egl_windows.c builds: window surfaces only, never pbuffers,
   * OpenGL only, texture bindings always queried.
   */
  function WglLegacyConfig(f: WglPixelFormat, index: int): Config
  {
    WithSizes(DefaultConfig(), f.sizes, f.sizes.bindToTextureRGB, f.sizes.bindToTextureRGBA).(
      drawToWindow := f.drawToWindow, drawToPixmap := f.drawToBitmap, drawToPBuffer := EGL_FALSE,
      doubleBuffer := f.doubleBuffer, conformant := EGL_OPENGL_BIT, renderableType := EGL_OPENGL_BIT,
      surfaceType := EGL_WINDOW_BIT, colorBufferType := EGL_RGB_BUFFER, configId := index,
      transparentType := if f.transparent != 0 then EGL_TRANSPARENT_RGB else EGL_NONE)
  }

  function WglMaker(legacy: bool, esSupported: bool, renderTexture: bool): (WglPixelFormat, int) -> Config
  {
    if legacy then (f, i) => WglLegacyConfig(f, i) else (f, i) => WglConfig(esSupported, renderTexture, f, i)
  }

  /**
   * The WGL config list: pixel formats are numbered from 1; `formats` is None
   * when the number of formats cannot be queried.
   */
  function WglConfigs(legacy: bool, esSupported: bool, renderTexture: bool, formats: Option<seq<WglPixelFormat>>): Option<seq<Config>>
  {
    match formats
    case None => None
    case Some(fs) => Derive(fs, WglReadable, WglEligible, WglMaker(legacy, esSupported, renderTexture), 1)
  }

  // ---------------------------------------------------------------------
  // The loops
  // ---------------------------------------------------------------------

  method DeriveGlxConfigs(legacy: bool, esSupported: bool, fs: seq<GlxFbConfig>) returns (r: Option<seq<Config>>)
    ensures r == GlxConfigs(legacy, esSupported, fs)
  {
    if |fs| == 0 {
      return None;
    }
    var make := GlxMaker(legacy, esSupported);
    var configs := [];
    var current := 0;
    while current < |fs|
      invariant 0 <= current <= |fs|
      invariant Derive(fs[..current], GlxReadable, GlxEligible, make, 0) == Some(configs)
    {
      var f := fs[current];
      DeriveSnoc(fs, current, GlxReadable, GlxEligible, make, 0);
      if !f.readable {
        DeriveNonePersists(fs, current + 1, GlxReadable, GlxEligible, make, 0);
        return None;
      }
      if GlxEligible(f) {
        configs := configs + [make(f, current)];
      }
      current := current + 1;
    }
    assert fs[..current] == fs;
    r := Some(configs);
  }

  method DeriveWglConfigs(legacy: bool, esSupported: bool, renderTexture: bool, formats: Option<seq<WglPixelFormat>>) returns (r: Option<seq<Config>>)
    ensures r == WglConfigs(legacy, esSupported, renderTexture, formats)
  {
    if formats.None? {
      return None;
    }
    var fs := formats.value;
    var make := WglMaker(legacy, esSupported, renderTexture);
    var configs := [];
    var current := 1;
    while current <= |fs|
      invariant 1 <= current <= |fs| + 1
      invariant Derive(fs[..current - 1], WglReadable, WglEligible, make, 1) == Some(configs)
    {
      var f := fs[current - 1];
      DeriveSnoc(fs, current - 1, WglReadable, WglEligible, make, 1);
      if !f.readable {
        DeriveNonePersists(fs, current, WglReadable, WglEligible, make, 1);
        return None;
      }
      if WglEligible(f) {
        configs := configs + [make(f, current)];
      }
      current := current + 1;
    }
    assert fs[..current - 1] == fs;
    r := Some(configs);
  }

  // ---------------------------------------------------------------------
  // Properties
  // ---------------------------------------------------------------------

  /** The surface type has exactly the bits of the drawTo flags that are set. */
  lemma SurfaceBitsMirrorFlags(window: bool, pixmap: bool, pbuffer: bool)
    ensures SharesBit(SurfaceBits(window, pixmap, pbuffer), EGL_WINDOW_BIT) <==> window
    ensures SharesBit(SurfaceBits(window, pixmap, pbuffer), EGL_PIXMAP_BIT) <==> pixmap
    ensures SharesBit(SurfaceBits(window, pixmap, pbuffer), EGL_PBUFFER_BIT) <==> pbuffer
    ensures !HasBitOutside(SurfaceBits(window, pixmap, pbuffer), 0x0007)
  {
    var s := SurfaceBits(window, pixmap, pbuffer);
    assert 0 <= s < 8;
    assert Bits(s) == s as bv32;
    assert Bits(EGL_WINDOW_BIT) == 4 && Bits(EGL_PIXMAP_BIT) == 2 && Bits(EGL_PBUFFER_BIT) == 1 && Bits(0x0007) == 7;
  }

  /**
   * Every GLX config is an RGB config whose id is its native index, whose
   * surface type mirrors its drawTo flags, whose texture bindings and
   * transparency are normalised, and which advertises OpenGL (plus ES when
   * the C++ backend finds the ES-profile extension).
   */
  lemma GlxConfigShape(legacy: bool, esSupported: bool, f: GlxFbConfig, index: int)
    ensures var c := GlxConfig(legacy, esSupported, f, index);
      && c.configId == index && c.colorBufferType == EGL_RGB_BUFFER
      && (SharesBit(c.surfaceType, EGL_WINDOW_BIT) <==> c.drawToWindow == EGL_TRUE)
      && (SharesBit(c.surfaceType, EGL_PIXMAP_BIT) <==> c.drawToPixmap == EGL_TRUE)
      && (SharesBit(c.surfaceType, EGL_PBUFFER_BIT) <==> c.drawToPBuffer == EGL_TRUE)
      && c.drawToWindow in {EGL_TRUE, EGL_FALSE} && c.drawToPixmap in {EGL_TRUE, EGL_FALSE} && c.drawToPBuffer in {EGL_TRUE, EGL_FALSE}
      && c.bindToTextureRGB in {EGL_TRUE, EGL_FALSE} && c.bindToTextureRGBA in {EGL_TRUE, EGL_FALSE}
      && c.transparentType in {EGL_TRANSPARENT_RGB, EGL_NONE}
      && c.conformant == c.renderableType
      && c.conformant == (if legacy then EGL_OPENGL_BIT else if esSupported then 0x004D else EGL_OPENGL_BIT)
      && c.redSize == f.sizes.redSize && c.greenSize == f.sizes.greenSize && c.blueSize == f.sizes.blueSize
      && c.doubleBuffer == f.doubleBuffer && c.nativeVisualId == f.nativeVisual
  {
    var window := SharesBit(f.drawableType, SurfaceAttribs.GLX_WINDOW_BIT);
    var pixmap := SharesBit(f.drawableType, SurfaceAttribs.GLX_PIXMAP_BIT);
    var pbuffer := SharesBit(f.drawableType, SurfaceAttribs.GLX_PBUFFER_BIT);
    SurfaceBitsMirrorFlags(window, pixmap, pbuffer);
  }

  /** The same for egl_windows.cpp, whose drawTo flags keep the raw queried values. */
  lemma WglConfigShape(esSupported: bool, renderTexture: bool, f: WglPixelFormat, index: int)
    ensures var c := WglConfig(esSupported, renderTexture, f, index);
      && c.configId == index && c.colorBufferType == EGL_RGB_BUFFER
      && (SharesBit(c.surfaceType, EGL_WINDOW_BIT) <==> c.drawToWindow != EGL_FALSE)
      && (SharesBit(c.surfaceType, EGL_PIXMAP_BIT) <==> c.drawToPixmap != EGL_FALSE)
      && (SharesBit(c.surfaceType, EGL_PBUFFER_BIT) <==> c.drawToPBuffer != EGL_FALSE)
      && (f.drawToPBuffer.None? ==> c.drawToPBuffer == EGL_FALSE)
      && c.transparentType in {EGL_TRANSPARENT_RGB, EGL_NONE}
      && c.conformant == c.renderableType && c.conformant == (if esSupported then 0x004D else EGL_OPENGL_BIT)
      && (!renderTexture ==> c.bindToTextureRGB == EGL_TRUE && c.bindToTextureRGBA == EGL_TRUE)
      && c.redSize == f.sizes.redSize && c.greenSize == f.sizes.greenSize && c.blueSize == f.sizes.blueSize
  {
    var pbuffer := if f.drawToPBuffer.Some? then f.drawToPBuffer.value else EGL_FALSE;
    SurfaceBitsMirrorFlags(f.drawToWindow != 0, f.drawToBitmap != 0, pbuffer != 0);
  }

  /** egl_windows.c advertises window surfaces only, never pbuffers, and OpenGL only. */
  lemma WglLegacyConfigShape(f: WglPixelFormat, index: int)
    ensures var c := WglLegacyConfig(f, index);
      && c.configId == index && c.surfaceType == EGL_WINDOW_BIT && c.drawToPBuffer == EGL_FALSE
      && c.conformant == EGL_OPENGL_BIT && c.renderableType == EGL_OPENGL_BIT
      && c.bindToTextureRGB in {EGL_TRUE, EGL_FALSE} && c.bindToTextureRGBA in {EGL_TRUE, EGL_FALSE}
      && c.transparentType in {EGL_TRANSPARENT_RGB, EGL_NONE}
  {
  }

  /**
   * The GLX list: derived exactly when the native list is non-empty and
   * readable; then it holds one config per eligible framebuffer config, in
   * native order, each with the native index as its id.
   */
  lemma GlxConfigsCorrect(legacy: bool, esSupported: bool, fs: seq<GlxFbConfig>)
    ensures GlxConfigs(legacy, esSupported, fs).Some? <==> |fs| > 0 && forall k :: 0 <= k < |fs| ==> fs[k].readable
    ensures GlxConfigs(legacy, esSupported, fs).Some? ==>
      DerivedFrom(GlxConfigs(legacy, esSupported, fs).value, fs, GlxEligible, GlxMaker(legacy, esSupported), 0)
  {
    DeriveSucceeds(fs, GlxReadable, GlxEligible, GlxMaker(legacy, esSupported), 0);
    if GlxConfigs(legacy, esSupported, fs).Some? {
      DeriveCharacterised(fs, GlxReadable, GlxEligible, GlxMaker(legacy, esSupported), 0);
    }
  }

  /** The WGL list, numbered from 1, in the same sense. */
  lemma WglConfigsCorrect(legacy: bool, esSupported: bool, renderTexture: bool, fs: seq<WglPixelFormat>)
    ensures WglConfigs(legacy, esSupported, renderTexture, Some(fs)).Some? <==> forall k :: 0 <= k < |fs| ==> fs[k].readable
    ensures WglConfigs(legacy, esSupported, renderTexture, Some(fs)).Some? ==>
      DerivedFrom(WglConfigs(legacy, esSupported, renderTexture, Some(fs)).value, fs, WglEligible, WglMaker(legacy, esSupported, renderTexture), 1)
  {
    var make := WglMaker(legacy, esSupported, renderTexture);
    DeriveSucceeds(fs, WglReadable, WglEligible, make, 1);
    if WglConfigs(legacy, esSupported, renderTexture, Some(fs)).Some? {
      assert forall f, i :: make(f, i).configId == i;
      DeriveCharacterised(fs, WglReadable, WglEligible, make, 1);
    }
  }
}
