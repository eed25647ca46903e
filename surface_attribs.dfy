// The attribute and field logic of `__createWindowSurface` and
// `__createPbufferSurface` in egl_x11.cpp and egl_windows.cpp.  The native
// calls (glXChooseFBConfig, GetDC, wglChoosePixelFormatARB, SetPixelFormat,
// wglCreatePbufferARB, ...) are represented by their outcomes, passed in.

module SurfaceAttribs {
  import opened EglDefs

  // GLX and WGL tokens, from glx.h, glxext.h and wglext.h.
  const GLX_BUFFER_SIZE: int := 2
  const GLX_LEVEL: int := 3
  const GLX_DOUBLEBUFFER: int := 5
  const GLX_RED_SIZE: int := 8
  const GLX_GREEN_SIZE: int := 9
  const GLX_BLUE_SIZE: int := 10
  const GLX_ALPHA_SIZE: int := 11
  const GLX_DEPTH_SIZE: int := 12
  const GLX_STENCIL_SIZE: int := 13
  const GLX_DRAWABLE_TYPE: int := 0x8010
  const GLX_RENDER_TYPE: int := 0x8011
  const GLX_X_RENDERABLE: int := 0x8012
  const GLX_LARGEST_PBUFFER: int := 0x801C
  const GLX_PBUFFER_HEIGHT: int := 0x8040
  const GLX_PBUFFER_WIDTH: int := 0x8041
  const GLX_FRAMEBUFFER_SRGB_CAPABLE_ARB: int := 0x20B2
  const GLX_TRANSPARENT_RGB: int := 0x8008
  const GLX_TRANSPARENT_INDEX: int := 0x8009
  const GLX_RGBA_BIT: int := 0x0001
  const GLX_WINDOW_BIT: int := 0x0001
  const GLX_PIXMAP_BIT: int := 0x0002
  const GLX_PBUFFER_BIT: int := 0x0004

  const WGL_DRAW_TO_WINDOW_ARB: int := 0x2001
  const WGL_ACCELERATION_ARB: int := 0x2003
  const WGL_SUPPORT_OPENGL_ARB: int := 0x2010
  const WGL_DOUBLE_BUFFER_ARB: int := 0x2011
  const WGL_PIXEL_TYPE_ARB: int := 0x2013
  const WGL_COLOR_BITS_ARB: int := 0x2014
  const WGL_RED_BITS: int := 0x2015
  const WGL_GREEN_BITS: int := 0x2017
  const WGL_BLUE_BITS: int := 0x2019
  const WGL_ALPHA_BITS: int := 0x201B
  const WGL_DEPTH_BITS_ARB: int := 0x2022
  const WGL_STENCIL_BITS_ARB: int := 0x2023
  const WGL_FULL_ACCELERATION_ARB: int := 0x2027
  const WGL_TYPE_RGBA_ARB: int := 0x202B
  const WGL_DRAW_TO_PBUFFER_ARB: int := 0x202D
  const WGL_SAMPLE_BUFFERS_ARB: int := 0x2041
  const WGL_SAMPLES_ARB: int := 0x2042
  const WGL_FRAMEBUFFER_SRGB_CAPABLE_ARB: int := 0x20A9
  const GL_TRUE: int := 1
  const GL_FALSE: int := 0

  /** A window surface refuses its attribute list once it has read this many pairs. */
  const MAX_WINDOW_PAIRS := 4

  /** The fields a backend fills in on the surface record it is handed. */
  datatype SurfaceInfo = SurfaceInfo(drawToWindow: int, drawToPixmap: int, drawToPBuffer: int,
                                     doubleBuffer: int, configId: int)

  /** What a backend create hook reports: the filled fields, or failure with or without an error code. */
  datatype Outcome = Created(info: SurfaceInfo) | Failed(error: Option<int>)

  // ---------------------------------------------------------------------
  // Window surfaces
  // ---------------------------------------------------------------------

  /** The two requests a window attribute list can make: sRGB and double buffering. */
  datatype WindowRequest = WindowRequest(srgb: int, doubleBuffer: int)

  /**
   * The request before any attribute: GLX starts from linear and single
   * buffering, the WGL template from sRGB and double buffering.
   */
  function InitialWindowRequest(platform: Platform): WindowRequest
  {
    if platform == X11 then WindowRequest(0, 0) else WindowRequest(GL_TRUE, GL_TRUE)
  }

  /**
   * One case of the window attribute switch.  On X11 a render buffer that
   * disagrees with the config's double buffering is EGL_BAD_MATCH; WGL
   * records the request without looking at the config.  Unknown attributes
   * are skipped.
   */
  function WindowStep(platform: Platform, configDouble: int, w: WindowRequest, attr: int, v: int): Result<WindowRequest>
  {
    if attr == EGL_GL_COLORSPACE then
      if v == EGL_GL_COLORSPACE_LINEAR then Ok(w.(srgb := 0))
      else if v == EGL_GL_COLORSPACE_SRGB then Ok(w.(srgb := 1))
      else Err(EGL_BAD_ATTRIBUTE)
    else if attr == EGL_RENDER_BUFFER then
      if v == EGL_SINGLE_BUFFER then
        if platform == X11 && configDouble != 0 then Err(EGL_BAD_MATCH) else Ok(w.(doubleBuffer := 0))
      else if v == EGL_BACK_BUFFER then
        if platform == X11 && configDouble == 0 then Err(EGL_BAD_MATCH) else Ok(w.(doubleBuffer := 1))
      else Err(EGL_BAD_ATTRIBUTE)
    else if attr == EGL_VG_ALPHA_FORMAT || attr == EGL_VG_COLORSPACE then Err(EGL_BAD_MATCH)
    else Ok(w)
  }

  function WindowParseFrom(platform: Platform, configDouble: int, a: seq<int>, i: nat, w: WindowRequest): Result<WindowRequest>
    requires Terminated(a) && i % 2 == 0 && i < |a|
    decreases |a| - i
  {
    if a[i] == EGL_NONE then Ok(w)
    else match WindowStep(platform, configDouble, w, a[i], a[i + 1])
      case Err(e) => Err(e)
      case Ok(w') => if i + 2 >= 2 * MAX_WINDOW_PAIRS then Err(EGL_BAD_ATTRIBUTE) else WindowParseFrom(platform, configDouble, a, i + 2, w')
  }

  /** The request a window attribute list makes (a null list reads as the empty list). */
  function WindowAttribs(platform: Platform, configDouble: int, a: seq<int>): Result<WindowRequest>
    requires Terminated(a)
  {
    WindowParseFrom(platform, configDouble, a, 0, InitialWindowRequest(platform))
  }

  method ParseWindowAttribs(platform: Platform, configDouble: int, a: seq<int>) returns (r: Result<WindowRequest>)
    requires Terminated(a)
    ensures r == WindowAttribs(platform, configDouble, a)
  {
    var request := InitialWindowRequest(platform);
    var index := 0;
    while a[index] != EGL_NONE
      invariant index % 2 == 0 && index < |a| && index < 2 * MAX_WINDOW_PAIRS
      invariant WindowParseFrom(platform, configDouble, a, index, request) == WindowAttribs(platform, configDouble, a)
      decreases |a| - index
    {
      var step := WindowStep(platform, configDouble, request, a[index], a[index + 1]);
      if step.Err? {
        return Err(step.error);
      }
      request := step.value;
      index := index + 2;
      if index >= 2 * MAX_WINDOW_PAIRS {
        return Err(EGL_BAD_ATTRIBUTE);
      }
    }
    r := Ok(request);
  }

  /** The GLX framebuffer-config request built for a window surface. */
  function GlxWindowRequest(c: Config, w: WindowRequest): seq<int>
  {
    [GLX_BUFFER_SIZE, c.bufferSize, GLX_LEVEL, c.level, GLX_DOUBLEBUFFER, w.doubleBuffer,
     GLX_RED_SIZE, c.redSize, GLX_GREEN_SIZE, c.greenSize, GLX_BLUE_SIZE, c.blueSize,
     GLX_ALPHA_SIZE, c.alphaSize, GLX_DEPTH_SIZE, c.depthSize, GLX_STENCIL_SIZE, c.stencilSize,
     GLX_RENDER_TYPE, GLX_RGBA_BIT, GLX_DRAWABLE_TYPE, GLX_WINDOW_BIT,
     GLX_FRAMEBUFFER_SRGB_CAPABLE_ARB, w.srgb, GLX_X_RENDERABLE, 1, 0]
  }

  /**
   * The WGL pixel-format request: the template with the config's sizes
   * written into its value slots.  Slot 13 follows the GREEN key but receives
   * the blue size, and slot 15 follows the BLUE key but receives the green size.
   */
  function WglPixelFormatRequest(drawKey: int, c: Config, doubleBuffer: int, srgb: int): seq<int>
  {
    [drawKey, GL_TRUE, WGL_SUPPORT_OPENGL_ARB, GL_TRUE, WGL_PIXEL_TYPE_ARB, WGL_TYPE_RGBA_ARB,
     WGL_DOUBLE_BUFFER_ARB, doubleBuffer, WGL_COLOR_BITS_ARB, c.bufferSize,
     WGL_RED_BITS, c.redSize, WGL_GREEN_BITS, c.blueSize, WGL_BLUE_BITS, c.greenSize,
     WGL_ALPHA_BITS, c.alphaSize, WGL_DEPTH_BITS_ARB, c.depthSize, WGL_STENCIL_BITS_ARB, c.stencilSize,
     WGL_SAMPLE_BUFFERS_ARB, c.sampleBuffers, WGL_SAMPLES_ARB, c.samples,
     WGL_ACCELERATION_ARB, WGL_FULL_ACCELERATION_ARB, WGL_FRAMEBUFFER_SRGB_CAPABLE_ARB, srgb, 0]
  }

  /**
   * `__createWindowSurface` of egl_x11.cpp.  `fbConfigFound` is whether
   * glXChooseFBConfig returned a config; when it did not, the hook fails
   * without setting an error.
   */
  function X11WindowSurface(c: Config, a: seq<int>, fbConfigFound: bool): Outcome
    requires Terminated(a)
  {
    match WindowAttribs(X11, c.doubleBuffer, a)
    case Err(e) => Failed(Some(e))
    case Ok(_) =>
      if !fbConfigFound then Failed(None)
      else Created(SurfaceInfo(EGL_TRUE, EGL_FALSE, EGL_FALSE, c.doubleBuffer, c.configId))
  }

  /**
   * `__createWindowSurface` of egl_windows.cpp.  `dcFound` is whether GetDC
   * returned a device context, `format` the pixel format wglChoosePixelFormatARB
   * found (None when it failed or found none), `formatSet` whether
   * DescribePixelFormat and SetPixelFormat both succeeded.  The hook never
   * writes drawToPBuffer, so that field keeps `stale`, whatever the freshly
   * allocated record held.
   */
  function WglWindowSurface(c: Config, a: seq<int>, dcFound: bool, format: Option<int>, formatSet: bool, stale: int): Outcome
    requires Terminated(a)
  {
    if !dcFound then Failed(Some(EGL_BAD_NATIVE_WINDOW))
    else match WindowAttribs(Windows, c.doubleBuffer, a)
      case Err(e) => Failed(Some(e))
      case Ok(w) =>
        if format.None? || !formatSet then Failed(Some(EGL_BAD_MATCH))
        else Created(SurfaceInfo(EGL_TRUE, EGL_FALSE, stale, w.doubleBuffer, format.value))
  }

  // ---------------------------------------------------------------------
  // Pbuffer surfaces
  // ---------------------------------------------------------------------

  /** What a pbuffer attribute list asks for; WGL leaves width and height unset when not given. */
  datatype PbufferRequest = PbufferRequest(width: Option<int>, height: Option<int>, largest: int, srgb: int)

  function InitialPbufferRequest(platform: Platform): PbufferRequest
  {
    if platform == X11 then PbufferRequest(Some(0), Some(0), 0, 1) else PbufferRequest(None, None, GL_FALSE, GL_TRUE)
  }

  /**
   * One case of the pbuffer attribute switch.  X11 turns any colorspace
   * other than sRGB into linear; WGL refuses an unknown colorspace (None),
   * without an error code.  Unknown attributes are skipped, and there is no
   * pair limit.
   */
  function PbufferStep(platform: Platform, p: PbufferRequest, attr: int, v: int): Option<PbufferRequest>
  {
    if attr == EGL_WIDTH then Some(p.(width := Some(v)))
    else if attr == EGL_HEIGHT then Some(p.(height := Some(v)))
    else if attr == EGL_LARGEST_PBUFFER then Some(p.(largest := v))
    else if attr == EGL_GL_COLORSPACE then
      if platform == X11 then Some(p.(srgb := if v == EGL_GL_COLORSPACE_SRGB then 1 else 0))
      else if v == EGL_GL_COLORSPACE_LINEAR then Some(p.(srgb := GL_FALSE))
      else if v == EGL_GL_COLORSPACE_SRGB then Some(p.(srgb := GL_TRUE))
      else None
    else Some(p)
  }

  function PbufferParseFrom(platform: Platform, a: seq<int>, i: nat, p: PbufferRequest): Option<PbufferRequest>
    requires Terminated(a) && i % 2 == 0 && i < |a|
    decreases |a| - i
  {
    if a[i] == EGL_NONE then Some(p)
    else match PbufferStep(platform, p, a[i], a[i + 1])
      case None => None
      case Some(p') => PbufferParseFrom(platform, a, i + 2, p')
  }

  function PbufferAttribs(platform: Platform, a: seq<int>): Option<PbufferRequest>
    requires Terminated(a)
  {
    PbufferParseFrom(platform, a, 0, InitialPbufferRequest(platform))
  }

  method ParsePbufferAttribs(platform: Platform, a: seq<int>) returns (r: Option<PbufferRequest>)
    requires Terminated(a)
    ensures r == PbufferAttribs(platform, a)
  {
    var request := InitialPbufferRequest(platform);
    var index := 0;
    while a[index] != EGL_NONE
      invariant index % 2 == 0 && index < |a|
      invariant PbufferParseFrom(platform, a, index, request) == PbufferAttribs(platform, a)
      decreases |a| - index
    {
      var step := PbufferStep(platform, request, a[index], a[index + 1]);
      if step.None? {
        return None;
      }
      request := step.value;
      index := index + 2;
    }
    r := Some(request);
  }

  /** The GLX pbuffer attribute array handed to glXCreatePbuffer. */
  function GlxPbufferAttribs(p: PbufferRequest): seq<int>
    requires p.width.Some? && p.height.Some?
  {
    [GLX_PBUFFER_WIDTH, p.width.value, GLX_PBUFFER_HEIGHT, p.height.value, GLX_LARGEST_PBUFFER, p.largest, 0]
  }

  /**
   * `__createPbufferSurface` of egl_x11.cpp: refused, without an error code,
   * for a config that cannot draw to pbuffers or when glXChooseFBConfig finds
   * nothing.
   */
  function X11PbufferSurface(c: Config, a: seq<int>, fbConfigFound: bool): Outcome
    requires Terminated(a)
  {
    if c.drawToPBuffer == EGL_FALSE then Failed(None)
    else match PbufferAttribs(X11, a)
      case None => Failed(None)
      case Some(_) =>
        if !fbConfigFound then Failed(None)
        else Created(SurfaceInfo(EGL_FALSE, EGL_FALSE, EGL_TRUE, EGL_FALSE, c.configId))
  }

  /**
   * `__createPbufferSurface` of egl_windows.cpp: `format` is the pixel format
   * found, `pbufferCreated` whether wglCreatePbufferARB succeeded, `dcFound`
   * whether wglGetPbufferDCARB returned a device context.  The surface
   * reports the template's double buffering, which no attribute changes.
   */
  function WglPbufferSurface(c: Config, a: seq<int>, format: Option<int>, pbufferCreated: bool, dcFound: bool): Outcome
    requires Terminated(a)
  {
    match PbufferAttribs(Windows, a)
    case None => Failed(None)
    case Some(_) =>
      if format.None? || !pbufferCreated then Failed(None)
      else if !dcFound then Failed(Some(EGL_BAD_NATIVE_WINDOW))
      else Created(SurfaceInfo(EGL_FALSE, EGL_FALSE, EGL_TRUE, WglPixelFormatRequest(WGL_DRAW_TO_PBUFFER_ARB, c, GL_TRUE, GL_TRUE)[7], format.value))
  }

  // ---------------------------------------------------------------------
  // Properties
  // ---------------------------------------------------------------------

  /** Whether a (attribute, value) pair is accepted by the window switch, given the config's double buffering. */
  predicate WindowPairOk(platform: Platform, configDouble: int, attr: int, v: int)
  {
    if attr == EGL_GL_COLORSPACE then v == EGL_GL_COLORSPACE_LINEAR || v == EGL_GL_COLORSPACE_SRGB
    else if attr == EGL_RENDER_BUFFER then
      (v == EGL_SINGLE_BUFFER && (platform == Windows || configDouble == 0)) ||
      (v == EGL_BACK_BUFFER && (platform == Windows || configDouble != 0))
    else attr != EGL_VG_ALPHA_FORMAT && attr != EGL_VG_COLORSPACE
  }

  /**
   * The window switch errors: a render buffer that contradicts the config on
   * X11 and any VG attribute are EGL_BAD_MATCH, any other refused value is
   * EGL_BAD_ATTRIBUTE, and everything else is accepted.
   */
  lemma WindowStepErrors(platform: Platform, configDouble: int, w: WindowRequest, attr: int, v: int)
    ensures WindowStep(platform, configDouble, w, attr, v).Ok? <==> WindowPairOk(platform, configDouble, attr, v)
    ensures WindowStep(platform, configDouble, w, attr, v).Err? ==>
      WindowStep(platform, configDouble, w, attr, v).error ==
        (if attr == EGL_VG_ALPHA_FORMAT || attr == EGL_VG_COLORSPACE ||
            (attr == EGL_RENDER_BUFFER && (v == EGL_SINGLE_BUFFER || v == EGL_BACK_BUFFER))
         then EGL_BAD_MATCH else EGL_BAD_ATTRIBUTE)
  {
  }

  /** On X11 an accepted list never asks for other buffering than the config has (once it names one). */
  lemma {:induction false} X11RenderBufferAgrees(configDouble: int, a: seq<int>, i: nat, w: WindowRequest)
    requires Terminated(a) && i % 2 == 0 && i < |a|
    requires w.doubleBuffer == 1 ==> configDouble != 0
    ensures var r := WindowParseFrom(X11, configDouble, a, i, w);
      r.Ok? && r.value.doubleBuffer == 1 ==> configDouble != 0
    decreases |a| - i
  {
    if a[i] != EGL_NONE {
      var step := WindowStep(X11, configDouble, w, a[i], a[i + 1]);
      if step.Ok? && i + 2 < 2 * MAX_WINDOW_PAIRS {
        X11RenderBufferAgrees(configDouble, a, i + 2, step.value);
      }
    }
  }

  lemma {:induction false} WindowPairLimit(platform: Platform, configDouble: int, a: seq<int>, i: nat, w: WindowRequest)
    requires Terminated(a) && i % 2 == 0 && i < |a| && i < 2 * MAX_WINDOW_PAIRS
    requires forall j :: i <= j < 2 * MAX_WINDOW_PAIRS && j % 2 == 0 ==> j < |a| && a[j] != EGL_NONE
    ensures WindowParseFrom(platform, configDouble, a, i, w).Err?
    decreases |a| - i
  {
    var step := WindowStep(platform, configDouble, w, a[i], a[i + 1]);
    if step.Ok? && i + 2 < 2 * MAX_WINDOW_PAIRS {
      WindowPairLimit(platform, configDouble, a, i + 2, step.value);
    }
  }

  /** A fourth pair is refused even when every pair is valid, with EGL_BAD_ATTRIBUTE when all are. */
  lemma FourthWindowPairRejected(platform: Platform, configDouble: int, a: seq<int>)
    requires Terminated(a)
    requires forall j :: 0 <= j < 2 * MAX_WINDOW_PAIRS && j % 2 == 0 ==> j < |a| && a[j] != EGL_NONE
    ensures WindowAttribs(platform, configDouble, a).Err?
  {
    WindowPairLimit(platform, configDouble, a, 0, InitialWindowRequest(platform));
  }

  /** Unknown attributes are skipped: a lone unknown pair leaves the request as it was. */
  lemma UnknownWindowAttributeIgnored(platform: Platform, configDouble: int, attr: int, v: int)
    requires attr !in {EGL_NONE, EGL_GL_COLORSPACE, EGL_RENDER_BUFFER, EGL_VG_ALPHA_FORMAT, EGL_VG_COLORSPACE}
    ensures WindowAttribs(platform, configDouble, [attr, v, EGL_NONE]) == Ok(InitialWindowRequest(platform))
  {
    var a := [attr, v, EGL_NONE];
    assert WindowParseFrom(platform, configDouble, a, 2, InitialWindowRequest(platform)) == Ok(InitialWindowRequest(platform));
  }

  /**
   * A window surface created on X11 is window-only, with the config's id and
   * double buffering, and exists exactly when the list is accepted and GLX
   * finds a framebuffer config.
   */
  lemma X11WindowSurfaceFields(c: Config, a: seq<int>, fbConfigFound: bool)
    requires Terminated(a)
    ensures X11WindowSurface(c, a, fbConfigFound).Created? <==> WindowAttribs(X11, c.doubleBuffer, a).Ok? && fbConfigFound
    ensures X11WindowSurface(c, a, fbConfigFound).Created? ==>
      var s := X11WindowSurface(c, a, fbConfigFound).info;
      s.drawToWindow == EGL_TRUE && s.drawToPixmap == EGL_FALSE && s.drawToPBuffer == EGL_FALSE &&
      s.doubleBuffer == c.doubleBuffer && s.configId == c.configId
  {
  }

  /**
   * A window surface created on Windows takes its double buffering from the
   * render-buffer request (GL_TRUE unless EGL_SINGLE_BUFFER is given) and its
   * id from the chosen pixel format, not from the EGL config.
   */
  lemma WglWindowSurfaceFields(c: Config, a: seq<int>, dcFound: bool, format: Option<int>, formatSet: bool, stale: int)
    requires Terminated(a)
    ensures var o := WglWindowSurface(c, a, dcFound, format, formatSet, stale);
      o.Created? <==> dcFound && WindowAttribs(Windows, c.doubleBuffer, a).Ok? && format.Some? && formatSet
    ensures var o := WglWindowSurface(c, a, dcFound, format, formatSet, stale);
      o.Created? ==>
        o.info.drawToWindow == EGL_TRUE && o.info.drawToPixmap == EGL_FALSE &&
        o.info.doubleBuffer == WindowAttribs(Windows, c.doubleBuffer, a).value.doubleBuffer &&
        o.info.configId == format.value
    ensures !dcFound ==> WglWindowSurface(c, a, dcFound, format, formatSet, stale) == Failed(Some(EGL_BAD_NATIVE_WINDOW))
  {
  }

  /** The render-buffer request alone decides WGL double buffering, whatever the config says. */
  lemma WglRenderBufferUnchecked(configDouble: int, v: int)
    requires v == EGL_SINGLE_BUFFER || v == EGL_BACK_BUFFER
    ensures WindowAttribs(Windows, configDouble, [EGL_RENDER_BUFFER, v, EGL_NONE]) ==
      Ok(WindowRequest(GL_TRUE, if v == EGL_BACK_BUFFER then 1 else 0))
  {
    var a := [EGL_RENDER_BUFFER, v, EGL_NONE];
    var w := WindowRequest(GL_TRUE, if v == EGL_BACK_BUFFER then 1 else 0);
    assert WindowParseFrom(Windows, configDouble, a, 2, w) == Ok(w);
  }

  /** Every window request holds 0 or 1 in both of its words. */
  lemma {:induction false} WindowRequestBits(platform: Platform, configDouble: int, a: seq<int>, i: nat, w: WindowRequest)
    requires Terminated(a) && i % 2 == 0 && i < |a|
    requires w.srgb in {0, 1} && w.doubleBuffer in {0, 1}
    ensures var r := WindowParseFrom(platform, configDouble, a, i, w);
      r.Ok? ==> r.value.srgb in {0, 1} && r.value.doubleBuffer in {0, 1}
    decreases |a| - i
  {
    if a[i] != EGL_NONE {
      var step := WindowStep(platform, configDouble, w, a[i], a[i + 1]);
      if step.Ok? && i + 2 < 2 * MAX_WINDOW_PAIRS {
        WindowRequestBits(platform, configDouble, a, i + 2, step.value);
      }
    }
  }

  /** The two halves of the glXChooseFBConfig request: the size keys, then the kind keys and the terminator. */
  lemma GlxWindowRequestHalves(c: Config, w: WindowRequest)
    ensures GlxWindowRequest(c, w) ==
      [GLX_BUFFER_SIZE, c.bufferSize, GLX_LEVEL, c.level, GLX_DOUBLEBUFFER, w.doubleBuffer,
       GLX_RED_SIZE, c.redSize, GLX_GREEN_SIZE, c.greenSize, GLX_BLUE_SIZE, c.blueSize,
       GLX_ALPHA_SIZE, c.alphaSize, GLX_DEPTH_SIZE, c.depthSize, GLX_STENCIL_SIZE, c.stencilSize]
      + [GLX_RENDER_TYPE, GLX_RGBA_BIT, GLX_DRAWABLE_TYPE, GLX_WINDOW_BIT,
         GLX_FRAMEBUFFER_SRGB_CAPABLE_ARB, w.srgb, GLX_X_RENDERABLE, 1, 0]
  {
  }

  /**
   * The glXChooseFBConfig request carries the config's sizes under their own
   * keys (green and blue not swapped) and the requested buffering under
   * GLX_DOUBLEBUFFER.
   */
  lemma GlxWindowRequestSizes(c: Config, w: WindowRequest)
    ensures var r := GlxWindowRequest(c, w);
      && |r| == 27
      && r[0] == GLX_BUFFER_SIZE && r[1] == c.bufferSize
      && r[2] == GLX_LEVEL && r[3] == c.level
      && r[4] == GLX_DOUBLEBUFFER && r[5] == w.doubleBuffer
      && r[6] == GLX_RED_SIZE && r[7] == c.redSize
      && r[8] == GLX_GREEN_SIZE && r[9] == c.greenSize
      && r[10] == GLX_BLUE_SIZE && r[11] == c.blueSize
      && r[12] == GLX_ALPHA_SIZE && r[13] == c.alphaSize
      && r[14] == GLX_DEPTH_SIZE && r[15] == c.depthSize
      && r[16] == GLX_STENCIL_SIZE && r[17] == c.stencilSize
  {
    var front := [GLX_BUFFER_SIZE, c.bufferSize, GLX_LEVEL, c.level, GLX_DOUBLEBUFFER, w.doubleBuffer];
    var colour := [GLX_RED_SIZE, c.redSize, GLX_GREEN_SIZE, c.greenSize, GLX_BLUE_SIZE, c.blueSize];
    var depth := [GLX_ALPHA_SIZE, c.alphaSize, GLX_DEPTH_SIZE, c.depthSize, GLX_STENCIL_SIZE, c.stencilSize];
    var kind := [GLX_RENDER_TYPE, GLX_RGBA_BIT, GLX_DRAWABLE_TYPE, GLX_WINDOW_BIT,
                 GLX_FRAMEBUFFER_SRGB_CAPABLE_ARB, w.srgb, GLX_X_RENDERABLE, 1, 0];
    var r := GlxWindowRequest(c, w);
    assert r == front + colour + depth + kind;
    assert r[..6] == front && r[6..12] == colour && r[12..18] == depth;
  }

  /** The request asks for an RGBA, window-only, X-renderable config with the sRGB flag, and ends in None. */
  lemma GlxWindowRequestKind(c: Config, w: WindowRequest)
    ensures var r := GlxWindowRequest(c, w);
      && |r| == 27 && r[26] == 0
      && r[18] == GLX_RENDER_TYPE && r[19] == GLX_RGBA_BIT
      && r[20] == GLX_DRAWABLE_TYPE && r[21] == GLX_WINDOW_BIT
      && r[22] == GLX_FRAMEBUFFER_SRGB_CAPABLE_ARB && r[23] == w.srgb
      && r[24] == GLX_X_RENDERABLE && r[25] == 1
  {
    GlxWindowRequestHalves(c, w);
  }

  /**
   * For an accepted X11 window list the request's GLX_DOUBLEBUFFER and sRGB
   * words are 0 or 1, and double buffering is never asked of a
   * single-buffered config.
   */
  lemma GlxWindowRequestShape(c: Config, a: seq<int>, w: WindowRequest)
    requires Terminated(a) && WindowAttribs(X11, c.doubleBuffer, a) == Ok(w)
    ensures var r := GlxWindowRequest(c, w);
      && |r| == 27
      && r[4] == GLX_DOUBLEBUFFER && r[5] in {0, 1} && (r[5] == 1 ==> c.doubleBuffer != 0)
      && r[20] == GLX_DRAWABLE_TYPE && r[21] == GLX_WINDOW_BIT
      && r[22] == GLX_FRAMEBUFFER_SRGB_CAPABLE_ARB && r[23] in {0, 1}
  {
    WindowRequestBits(X11, c.doubleBuffer, a, 0, InitialWindowRequest(X11));
    X11RenderBufferAgrees(c.doubleBuffer, a, 0, InitialWindowRequest(X11));
    GlxWindowRequestSizes(c, w);
    GlxWindowRequestKind(c, w);
  }

  /**
   * Without an EGL_RENDER_BUFFER attribute the X11 request asks for a
   * single-buffered, linear framebuffer config, even for a double-buffered
   * EGL config.
   */
  lemma GlxEmptyListAsksSingleBuffer(c: Config)
    ensures WindowAttribs(X11, c.doubleBuffer, [EGL_NONE]) == Ok(WindowRequest(0, 0))
    ensures GlxWindowRequest(c, WindowRequest(0, 0))[5] == 0
  {
  }

  /** The WGL request swaps blue and green: each size sits after the other colour's key. */
  lemma WglColorSlotsSwapped(drawKey: int, c: Config, doubleBuffer: int, srgb: int)
    ensures var r := WglPixelFormatRequest(drawKey, c, doubleBuffer, srgb);
      && |r| == 31 && r[30] == 0
      && r[12] == WGL_GREEN_BITS && r[13] == c.blueSize
      && r[14] == WGL_BLUE_BITS && r[15] == c.greenSize
      && r[10] == WGL_RED_BITS && r[11] == c.redSize
      && r[6] == WGL_DOUBLE_BUFFER_ARB && r[7] == doubleBuffer
      && r[28] == WGL_FRAMEBUFFER_SRGB_CAPABLE_ARB && r[29] == srgb
  {
  }

  /**
   * An X11 pbuffer exists only for a config that can draw to pbuffers; it is
   * pbuffer-only and single-buffered, with the config's id.
   */
  lemma X11PbufferSurfaceFields(c: Config, a: seq<int>, fbConfigFound: bool)
    requires Terminated(a)
    ensures X11PbufferSurface(c, a, fbConfigFound).Created? <==> c.drawToPBuffer != EGL_FALSE && fbConfigFound
    ensures X11PbufferSurface(c, a, fbConfigFound).Failed? ==> X11PbufferSurface(c, a, fbConfigFound).error == None
    ensures X11PbufferSurface(c, a, fbConfigFound).Created? ==>
      X11PbufferSurface(c, a, fbConfigFound).info == SurfaceInfo(EGL_FALSE, EGL_FALSE, EGL_TRUE, EGL_FALSE, c.configId)
  {
    X11PbufferAttribsTotal(a, 0, InitialPbufferRequest(X11));
  }

  lemma {:induction false} X11PbufferAttribsTotal(a: seq<int>, i: nat, p: PbufferRequest)
    requires Terminated(a) && i % 2 == 0 && i < |a|
    requires p.width.Some? && p.height.Some?
    ensures PbufferParseFrom(X11, a, i, p).Some?
    ensures PbufferParseFrom(X11, a, i, p).value.width.Some? && PbufferParseFrom(X11, a, i, p).value.height.Some?
    decreases |a| - i
  {
    if a[i] != EGL_NONE {
      X11PbufferAttribsTotal(a, i + 2, PbufferStep(X11, p, a[i], a[i + 1]).value);
    }
  }

  /** On X11 every pbuffer list is accepted and yields a complete glXCreatePbuffer array. */
  lemma X11PbufferAttribsAccepted(a: seq<int>)
    requires Terminated(a)
    ensures PbufferAttribs(X11, a).Some?
    ensures var p := PbufferAttribs(X11, a).value;
      p.width.Some? && p.height.Some? && |GlxPbufferAttribs(p)| == 7
  {
    X11PbufferAttribsTotal(a, 0, InitialPbufferRequest(X11));
  }

  /** The named size attributes land in the request; the last one given wins. */
  lemma PbufferSizeRequest(platform: Platform, w: int, h: int)
    ensures PbufferAttribs(platform, [EGL_WIDTH, w, EGL_HEIGHT, h, EGL_NONE]) ==
      Some(InitialPbufferRequest(platform).(width := Some(w), height := Some(h)))
    ensures PbufferAttribs(platform, [EGL_WIDTH, w, EGL_WIDTH, h, EGL_NONE]) ==
      Some(InitialPbufferRequest(platform).(width := Some(h)))
  {
    var p := InitialPbufferRequest(platform);
    var a := [EGL_WIDTH, w, EGL_HEIGHT, h, EGL_NONE];
    assert PbufferParseFrom(platform, a, 2, p.(width := Some(w))) == Some(p.(width := Some(w), height := Some(h)));
    var b := [EGL_WIDTH, w, EGL_WIDTH, h, EGL_NONE];
    assert PbufferParseFrom(platform, b, 2, p.(width := Some(w))) == Some(p.(width := Some(h)));
  }

  /**
   * A WGL pbuffer is refused without an error code for an unknown
   * colorspace; a created one is pbuffer-only, reports double buffering
   * GL_TRUE and takes its id from the chosen pixel format.
   */
  lemma WglPbufferSurfaceFields(c: Config, a: seq<int>, format: Option<int>, pbufferCreated: bool, dcFound: bool, v: int)
    requires Terminated(a)
    requires v != EGL_GL_COLORSPACE_LINEAR && v != EGL_GL_COLORSPACE_SRGB
    ensures WglPbufferSurface(c, [EGL_GL_COLORSPACE, v, EGL_NONE], format, pbufferCreated, dcFound) == Failed(None)
    ensures var o := WglPbufferSurface(c, a, format, pbufferCreated, dcFound);
      o.Created? ==> o.info == SurfaceInfo(EGL_FALSE, EGL_FALSE, EGL_TRUE, GL_TRUE, format.value)
    ensures var o := WglPbufferSurface(c, a, format, pbufferCreated, dcFound);
      o.Created? <==> PbufferAttribs(Windows, a).Some? && format.Some? && pbufferCreated && dcFound
  {
  }
}
