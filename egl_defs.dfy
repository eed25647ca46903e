// Shared vocabulary of the EGL model: the token values of the Khronos
// <EGL/egl.h>, <GL/glxext.h> and <GL/wglext.h> headers, the config record,
// results with error codes, and 32-bit bit operations on EGLint values.

module EglDefs {

  // ---------------------------------------------------------------------
  // Generic results
  // ---------------------------------------------------------------------

  datatype Option<T> = None | Some(value: T)

  /** The two window systems the backends target. */
  datatype Platform = X11 | Windows

  /** A computation that either yields a value or fails with an EGL error code. */
  datatype Result<T> = Ok(value: T) | Err(error: int)

  // ---------------------------------------------------------------------
  // EGL tokens (values of the Khronos egl.h header)
  // ---------------------------------------------------------------------

  const EGL_FALSE: int := 0
  const EGL_TRUE: int := 1
  const EGL_DONT_CARE: int := -1

  // error codes
  const EGL_SUCCESS: int := 0x3000
  const EGL_NOT_INITIALIZED: int := 0x3001
  const EGL_BAD_ALLOC: int := 0x3003
  const EGL_BAD_ATTRIBUTE: int := 0x3004
  const EGL_BAD_CONFIG: int := 0x3005
  const EGL_BAD_CONTEXT: int := 0x3006
  const EGL_BAD_DISPLAY: int := 0x3008
  const EGL_BAD_MATCH: int := 0x3009
  const EGL_BAD_NATIVE_WINDOW: int := 0x300B
  const EGL_BAD_PARAMETER: int := 0x300C
  const EGL_BAD_SURFACE: int := 0x300D

  // config attributes
  const EGL_BUFFER_SIZE: int := 0x3020
  const EGL_ALPHA_SIZE: int := 0x3021
  const EGL_BLUE_SIZE: int := 0x3022
  const EGL_GREEN_SIZE: int := 0x3023
  const EGL_RED_SIZE: int := 0x3024
  const EGL_DEPTH_SIZE: int := 0x3025
  const EGL_STENCIL_SIZE: int := 0x3026
  const EGL_CONFIG_CAVEAT: int := 0x3027
  const EGL_CONFIG_ID: int := 0x3028
  const EGL_LEVEL: int := 0x3029
  const EGL_NATIVE_RENDERABLE: int := 0x302D
  const EGL_SAMPLES: int := 0x3031
  const EGL_SAMPLE_BUFFERS: int := 0x3032
  const EGL_SURFACE_TYPE: int := 0x3033
  const EGL_TRANSPARENT_TYPE: int := 0x3034
  const EGL_TRANSPARENT_BLUE_VALUE: int := 0x3035
  const EGL_TRANSPARENT_GREEN_VALUE: int := 0x3036
  const EGL_TRANSPARENT_RED_VALUE: int := 0x3037
  const EGL_NONE: int := 0x3038
  const EGL_BIND_TO_TEXTURE_RGB: int := 0x3039
  const EGL_BIND_TO_TEXTURE_RGBA: int := 0x303A
  const EGL_MIN_SWAP_INTERVAL: int := 0x303B
  const EGL_MAX_SWAP_INTERVAL: int := 0x303C
  const EGL_LUMINANCE_SIZE: int := 0x303D
  const EGL_ALPHA_MASK_SIZE: int := 0x303E
  const EGL_COLOR_BUFFER_TYPE: int := 0x303F
  const EGL_RENDERABLE_TYPE: int := 0x3040
  const EGL_MATCH_NATIVE_PIXMAP: int := 0x3041
  const EGL_CONFORMANT: int := 0x3042

  // config attribute values
  const EGL_SLOW_CONFIG: int := 0x3050
  const EGL_NON_CONFORMANT_CONFIG: int := 0x3051
  const EGL_TRANSPARENT_RGB: int := 0x3052
  const EGL_RGB_BUFFER: int := 0x308E
  const EGL_LUMINANCE_BUFFER: int := 0x308F

  // surface type bits
  const EGL_PBUFFER_BIT: int := 0x0001
  const EGL_PIXMAP_BIT: int := 0x0002
  const EGL_WINDOW_BIT: int := 0x0004
  const EGL_VG_COLORSPACE_LINEAR_BIT: int := 0x0020
  const EGL_VG_ALPHA_FORMAT_PRE_BIT: int := 0x0040
  const EGL_MULTISAMPLE_RESOLVE_BOX_BIT: int := 0x0200
  const EGL_SWAP_BEHAVIOR_PRESERVED_BIT: int := 0x0400

  // renderable type bits
  const EGL_OPENGL_ES_BIT: int := 0x0001
  const EGL_OPENVG_BIT: int := 0x0002
  const EGL_OPENGL_ES2_BIT: int := 0x0004
  const EGL_OPENGL_BIT: int := 0x0008
  const EGL_OPENGL_ES3_BIT: int := 0x0040

  // surface attributes
  const EGL_HEIGHT: int := 0x3056
  const EGL_WIDTH: int := 0x3057
  const EGL_LARGEST_PBUFFER: int := 0x3058
  const EGL_BACK_BUFFER: int := 0x3084
  const EGL_SINGLE_BUFFER: int := 0x3085
  const EGL_RENDER_BUFFER: int := 0x3086
  const EGL_VG_COLORSPACE: int := 0x3087
  const EGL_VG_ALPHA_FORMAT: int := 0x3088
  const EGL_GL_COLORSPACE_SRGB: int := 0x3089
  const EGL_GL_COLORSPACE_LINEAR: int := 0x308A
  const EGL_GL_COLORSPACE: int := 0x309D

  // client APIs and context attributes
  const EGL_OPENGL_ES_API: int := 0x30A0
  const EGL_OPENVG_API: int := 0x30A1
  const EGL_OPENGL_API: int := 0x30A2
  const EGL_CONTEXT_CLIENT_TYPE: int := 0x3097
  const EGL_CONTEXT_CLIENT_VERSION: int := 0x3098
  const EGL_CONTEXT_MAJOR_VERSION: int := 0x3098
  const EGL_CONTEXT_MINOR_VERSION: int := 0x30FB
  const EGL_CONTEXT_OPENGL_PROFILE_MASK: int := 0x30FD
  const EGL_CONTEXT_OPENGL_CORE_PROFILE_BIT: int := 0x0001
  const EGL_CONTEXT_OPENGL_COMPATIBILITY_PROFILE_BIT: int := 0x0002
  const EGL_CONTEXT_OPENGL_DEBUG: int := 0x31B0
  const EGL_CONTEXT_OPENGL_FORWARD_COMPATIBLE: int := 0x31B1
  const EGL_CONTEXT_OPENGL_ROBUST_ACCESS: int := 0x31B2
  const EGL_CONTEXT_OPENGL_RESET_NOTIFICATION_STRATEGY: int := 0x31BD
  const EGL_NO_RESET_NOTIFICATION: int := 0x31BE
  const EGL_LOSE_CONTEXT_ON_RESET: int := 0x31BF

  // ---------------------------------------------------------------------
  // GLX_ARB_create_context / WGL_ARB_create_context tokens (same values)
  // ---------------------------------------------------------------------

  const ARB_CONTEXT_MAJOR_VERSION: int := 0x2091
  const ARB_CONTEXT_MINOR_VERSION: int := 0x2092
  const ARB_CONTEXT_LAYER_PLANE: int := 0x2093
  const ARB_CONTEXT_FLAGS: int := 0x2094
  const ARB_CONTEXT_PROFILE_MASK: int := 0x9126
  const ARB_CONTEXT_DEBUG_BIT: int := 0x0001
  const ARB_CONTEXT_FORWARD_COMPATIBLE_BIT: int := 0x0002
  const ARB_CONTEXT_ROBUST_ACCESS_BIT: int := 0x0004
  const ARB_CONTEXT_CORE_PROFILE_BIT: int := 0x0001
  const ARB_CONTEXT_COMPATIBILITY_PROFILE_BIT: int := 0x0002
  const ARB_CONTEXT_ES_PROFILE_BIT: int := 0x0004
  const ARB_CONTEXT_RESET_NOTIFICATION_STRATEGY: int := 0x8256
  const ARB_NO_RESET_NOTIFICATION: int := 0x8261
  const ARB_LOSE_CONTEXT_ON_RESET: int := 0x8252

  // ---------------------------------------------------------------------
  // 32-bit view of EGLint values
  // ---------------------------------------------------------------------

  /**
   * The two's-complement bit pattern of an EGLint (so EGL_DONT_CARE is all
   * ones).  An EGLint never lies outside the 32-bit range; such integers map to 0.
   */
  function Bits(x: int): bv32
  {
    if 0 <= x < 0x1_0000_0000 then x as bv32
    else if -0x1_0000_0000 < x < 0 then (x + 0x1_0000_0000) as bv32
    else 0
  }

  /** Helper for the flag-bit lemmas: a 32-bit word read back as an unsigned value is the same word. */
  lemma BitsRoundTrip(x: bv32)
    ensures Bits(x as int) == x
  {
    var i := x as int;
    assert i < 0x1_0000_0000;
    assert Bits(i) == i as bv32;
  }

  /** `(q & c) == q`: every bit requested by `q` is present in `c`. */
  predicate HasAllBits(q: int, c: int)
  {
    Bits(q) & Bits(c) == Bits(q)
  }

  /** `q & c` is non-zero: the two values share at least one bit. */
  predicate SharesBit(q: int, c: int)
  {
    Bits(q) & Bits(c) != 0
  }

  /** `value & ~mask` is non-zero: `value` has a bit outside `mask`. */
  predicate HasBitOutside(value: int, mask: int)
  {
    Bits(value) & !Bits(mask) != 0
  }

  /** `x ? EGL_TRUE : EGL_FALSE`, the normalisation the backends apply to queried flags. */
  function AsBoolean(x: int): int
  {
    if x != 0 then EGL_TRUE else EGL_FALSE
  }

  // ---------------------------------------------------------------------
  // Order-preserving filter of a list (the walk that keeps some nodes)
  // ---------------------------------------------------------------------

  /** The elements of `s` that satisfy `keep`, in their original order. */
  function Filter<T>(keep: T -> bool, s: seq<T>): seq<T>
  {
    if s == [] then []
    else Filter(keep, s[..|s| - 1]) + (if keep(s[|s| - 1]) then [s[|s| - 1]] else [])
  }

  /** Filtering a prefix of the list gives a prefix of the filtered list. */
  lemma {:induction false} FilterPrefix<T>(keep: T -> bool, s: seq<T>, i: nat)
    requires i <= |s|
    ensures |Filter(keep, s[..i])| <= |Filter(keep, s)|
    ensures Filter(keep, s)[..|Filter(keep, s[..i])|] == Filter(keep, s[..i])
    decreases |s| - i
  {
    if i < |s| {
      FilterPrefix(keep, s, i + 1);
      assert s[..i + 1][..i] == s[..i];
    } else {
      assert s[..i] == s;
    }
  }

  /** The filter keeps exactly the elements that satisfy `keep`. */
  lemma {:induction false} FilterMembers<T>(keep: T -> bool, s: seq<T>, x: T)
    ensures x in Filter(keep, s) <==> x in s && keep(x)
  {
    if s != [] {
      FilterMembers(keep, s[..|s| - 1], x);
      assert s == s[..|s| - 1] + [s[|s| - 1]];
    }
  }

  lemma {:induction false} FilterLength<T>(keep: T -> bool, s: seq<T>)
    ensures |Filter(keep, s)| <= |s|
  {
    if s != [] {
      FilterLength(keep, s[..|s| - 1]);
    }
  }

  /** Filtering a concatenation filters each part. */
  lemma {:induction false} FilterAppend<T>(keep: T -> bool, s: seq<T>, t: seq<T>)
    ensures Filter(keep, s + t) == Filter(keep, s) + Filter(keep, t)
    decreases |t|
  {
    if t == [] {
      assert s + t == s;
    } else {
      var t' := t[..|t| - 1];
      FilterAppend(keep, s, t');
      assert (s + t)[..|s + t| - 1] == s + t';
      assert (s + t)[|s + t| - 1] == t[|t| - 1];
    }
  }

  // ---------------------------------------------------------------------
  // Attribute lists
  // ---------------------------------------------------------------------

  /**
   * A C attribute list as the API receives it: (attribute, value) pairs
   * followed by a single EGL_NONE.  Walkers only ever read a value slot
   * after an attribute slot that is not EGL_NONE, so a list of odd length
   * ending in EGL_NONE is all they need.
   */
  predicate Terminated(a: seq<int>)
  {
    |a| % 2 == 1 && a[|a| - 1] == EGL_NONE
  }

  // ---------------------------------------------------------------------
  // Config record (EGLConfigImpl)
  // ---------------------------------------------------------------------

  datatype Config = Config(
    alphaMaskSize: int,
    alphaSize: int,
    bindToTextureRGB: int,
    bindToTextureRGBA: int,
    blueSize: int,
    bufferSize: int,
    colorBufferType: int,
    configCaveat: int,
    configId: int,
    conformant: int,
    depthSize: int,
    greenSize: int,
    level: int,
    luminanceSize: int,
    matchNativePixmap: int,
    maxPBufferHeight: int,
    maxPBufferPixels: int,
    maxPBufferWidth: int,
    maxSwapInterval: int,
    minSwapInterval: int,
    nativeRenderable: int,
    nativeVisualId: int,
    nativeVisualType: int,
    redSize: int,
    renderableType: int,
    sampleBuffers: int,
    samples: int,
    stencilSize: int,
    surfaceType: int,
    transparentBlueValue: int,
    transparentGreenValue: int,
    transparentRedValue: int,
    transparentType: int,
    drawToWindow: int,
    drawToPixmap: int,
    drawToPBuffer: int,
    doubleBuffer: int)

  /**
   * The record `_eglInternalSetDefaultConfig` writes: the query defaults of
   * eglChooseConfig, also the starting point of every derived config.
   */
  function DefaultConfig(): Config
  {
    Config(
      alphaMaskSize := 0,
      alphaSize := 0,
      bindToTextureRGB := EGL_DONT_CARE,
      bindToTextureRGBA := EGL_DONT_CARE,
      blueSize := 0,
      bufferSize := 0,
      colorBufferType := EGL_DONT_CARE,
      configCaveat := EGL_DONT_CARE,
      configId := EGL_DONT_CARE,
      conformant := 0,
      depthSize := 0,
      greenSize := 0,
      level := 0,
      luminanceSize := 0,
      matchNativePixmap := EGL_NONE,
      maxPBufferHeight := EGL_DONT_CARE,
      maxPBufferPixels := EGL_DONT_CARE,
      maxPBufferWidth := EGL_DONT_CARE,
      maxSwapInterval := EGL_DONT_CARE,
      minSwapInterval := EGL_DONT_CARE,
      nativeRenderable := EGL_DONT_CARE,
      nativeVisualId := 0,
      nativeVisualType := EGL_NONE,
      redSize := 0,
      renderableType := EGL_OPENGL_ES_BIT,
      sampleBuffers := 0,
      samples := 0,
      stencilSize := 0,
      surfaceType := EGL_WINDOW_BIT,
      transparentBlueValue := EGL_DONT_CARE,
      transparentGreenValue := EGL_DONT_CARE,
      transparentRedValue := EGL_DONT_CARE,
      transparentType := EGL_NONE,
      drawToWindow := EGL_TRUE,
      drawToPixmap := EGL_FALSE,
      drawToPBuffer := EGL_FALSE,
      doubleBuffer := EGL_TRUE)
  }
}
