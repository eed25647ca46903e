// eglChooseConfig of the backend-independent layer (egl_common.cpp): the
// query template parsed from an attribute list, the per-config filter, the
// selection loop with its fixed-size match buffer, the sort comparator and the
// truncation to the caller's capacity.

module ConfigSelect {
  import opened EglDefs

  // ---------------------------------------------------------------------
  // Sort comparator (rules of section 3.4.1.2 of the EGL 1.5 specification)
  // ---------------------------------------------------------------------

  /** Total colour bits of a config, counted by its colour buffer type (rule 3). */
  function ColorBits(c: Config): int
  {
    if c.colorBufferType == EGL_RGB_BUFFER then c.redSize + c.greenSize + c.blueSize + c.alphaSize
    else if c.colorBufferType == EGL_LUMINANCE_BUFFER then c.luminanceSize + c.alphaSize
    else 0
  }

  /**
   * `_ChooseConfig_sort_predicate`: negative when `lhs` sorts first, positive
   * when `rhs` does.  Rule 10 (native visual type) is skipped.
   */
  function SortPredicate(lhs: Config, rhs: Config): int
  {
    if lhs.configCaveat != rhs.configCaveat then lhs.configCaveat - rhs.configCaveat
    else if lhs.colorBufferType != rhs.colorBufferType then lhs.colorBufferType - rhs.colorBufferType
    else if ColorBits(lhs) != ColorBits(rhs) then ColorBits(rhs) - ColorBits(lhs)
    else if lhs.bufferSize != rhs.bufferSize then lhs.bufferSize - rhs.bufferSize
    else if lhs.sampleBuffers != rhs.sampleBuffers then lhs.sampleBuffers - rhs.sampleBuffers
    else if lhs.samples != rhs.samples then lhs.samples - rhs.samples
    else if lhs.depthSize != rhs.depthSize then lhs.depthSize - rhs.depthSize
    else if lhs.stencilSize != rhs.stencilSize then lhs.stencilSize - rhs.stencilSize
    else if lhs.alphaMaskSize != rhs.alphaMaskSize then lhs.alphaMaskSize - rhs.alphaMaskSize
    else lhs.configId - rhs.configId
  }

  /**
   * The ten sort keys in priority order, each oriented so that a smaller key
   * sorts first (the colour-bit count is negated: more bits sort first).
   */
  function SortKeys(c: Config): (k: seq<int>)
    ensures |k| == 10
  {
    [c.configCaveat, c.colorBufferType, -ColorBits(c), c.bufferSize, c.sampleBuffers,
     c.samples, c.depthSize, c.stencilSize, c.alphaMaskSize, c.configId]
  }

  /**
   * Lexicographic comparison of two key vectors from position `i` on: the
   * difference at the first position where they differ, 0 when none does.
   */
  function LexDiff(x: seq<int>, y: seq<int>, i: nat): int
    requires |x| == |y| && i <= |x|
    decreases |x| - i
  {
    if i == |x| then 0
    else if x[i] != y[i] then x[i] - y[i]
    else LexDiff(x, y, i + 1)
  }

  /** The comparator is exactly the lexicographic comparison of the sort keys. */
  lemma SortPredicateIsLexicographic(lhs: Config, rhs: Config)
    ensures SortPredicate(lhs, rhs) == LexDiff(SortKeys(lhs), SortKeys(rhs), 0)
  {
    var x, y := SortKeys(lhs), SortKeys(rhs);
    assert LexDiff(x, y, 9) == x[9] - y[9];
    assert LexDiff(x, y, 8) == if x[8] != y[8] then x[8] - y[8] else LexDiff(x, y, 9);
    assert LexDiff(x, y, 7) == if x[7] != y[7] then x[7] - y[7] else LexDiff(x, y, 8);
    assert LexDiff(x, y, 6) == if x[6] != y[6] then x[6] - y[6] else LexDiff(x, y, 7);
    assert LexDiff(x, y, 5) == if x[5] != y[5] then x[5] - y[5] else LexDiff(x, y, 6);
    assert LexDiff(x, y, 4) == if x[4] != y[4] then x[4] - y[4] else LexDiff(x, y, 5);
    assert LexDiff(x, y, 3) == if x[3] != y[3] then x[3] - y[3] else LexDiff(x, y, 4);
    assert LexDiff(x, y, 2) == if x[2] != y[2] then x[2] - y[2] else LexDiff(x, y, 3);
    assert LexDiff(x, y, 1) == if x[1] != y[1] then x[1] - y[1] else LexDiff(x, y, 2);
  }

  lemma {:induction false} LexDiffAntisymmetric(x: seq<int>, y: seq<int>, i: nat)
    requires |x| == |y| && i <= |x|
    ensures LexDiff(y, x, i) == -LexDiff(x, y, i)
    decreases |x| - i
  {
    if i < |x| && x[i] == y[i] {
      LexDiffAntisymmetric(x, y, i + 1);
    }
  }

  lemma {:induction false} LexDiffZero(x: seq<int>, y: seq<int>, i: nat)
    requires |x| == |y| && i <= |x|
    ensures LexDiff(x, y, i) == 0 <==> x[i..] == y[i..]
    decreases |x| - i
  {
    if i < |x| {
      LexDiffZero(x, y, i + 1);
      assert x[i..] == [x[i]] + x[i + 1..] && y[i..] == [y[i]] + y[i + 1..];
    }
  }

  lemma {:induction false} LexDiffTransitive(x: seq<int>, y: seq<int>, z: seq<int>, i: nat)
    requires |x| == |y| == |z| && i <= |x|
    requires LexDiff(x, y, i) <= 0 && LexDiff(y, z, i) <= 0
    ensures LexDiff(x, z, i) <= 0
    decreases |x| - i
  {
    if i < |x| && x[i] == y[i] && y[i] == z[i] {
      LexDiffTransitive(x, y, z, i + 1);
    }
  }

  /** Swapping the arguments negates the comparator. */
  lemma SortPredicateAntisymmetric(a: Config, b: Config)
    ensures SortPredicate(b, a) == -SortPredicate(a, b)
  {
    SortPredicateIsLexicographic(a, b);
    SortPredicateIsLexicographic(b, a);
    LexDiffAntisymmetric(SortKeys(a), SortKeys(b), 0);
  }

  /** The comparator returns 0 only for configs with equal keys, in particular equal config ids. */
  lemma SortPredicateZero(a: Config, b: Config)
    ensures SortPredicate(a, b) == 0 <==> SortKeys(a) == SortKeys(b)
    ensures SortPredicate(a, b) == 0 ==> a.configId == b.configId
  {
    SortPredicateIsLexicographic(a, b);
    LexDiffZero(SortKeys(a), SortKeys(b), 0);
    assert SortKeys(a)[0..] == SortKeys(a) && SortKeys(b)[0..] == SortKeys(b);
    if SortPredicate(a, b) == 0 {
      assert SortKeys(a)[9] == SortKeys(b)[9];
    }
  }

  /** "Sorts no later than" is transitive, so the comparator is a total preorder. */
  lemma SortPredicateTransitive(a: Config, b: Config, c: Config)
    requires SortPredicate(a, b) <= 0 && SortPredicate(b, c) <= 0
    ensures SortPredicate(a, c) <= 0
  {
    SortPredicateIsLexicographic(a, b);
    SortPredicateIsLexicographic(b, c);
    SortPredicateIsLexicographic(a, c);
    LexDiffTransitive(SortKeys(a), SortKeys(b), SortKeys(c), 0);
  }

  // ---------------------------------------------------------------------
  // Query template
  // ---------------------------------------------------------------------

  /** No attribute list may hold this many pairs before its EGL_NONE. */
  const MAX_QUERY_PAIRS: int := 28

  /** Client API bits accepted in EGL_CONFORMANT and EGL_RENDERABLE_TYPE: OPENGL | OPENGL_ES | OPENGL_ES2 | OPENGL_ES3 | OPENVG. */
  const API_BITS: int := 0x004F

  /** Bits accepted in EGL_SURFACE_TYPE: MULTISAMPLE_RESOLVE_BOX | PBUFFER | PIXMAP | SWAP_BEHAVIOR_PRESERVED | VG_ALPHA_FORMAT_PRE | VG_COLORSPACE_LINEAR | WINDOW. */
  const SURFACE_BITS: int := 0x0667

  predicate SizeValueOk(v: int) { v == EGL_DONT_CARE || v >= 0 }
  predicate BooleanValueOk(v: int) { v == EGL_DONT_CARE || v == EGL_TRUE || v == EGL_FALSE }
  predicate MaskValueOk(v: int, mask: int) { v == EGL_DONT_CARE || !HasBitOutside(v, mask) }

  predicate ColorBufferTypeOk(v: int)
  {
    v == EGL_DONT_CARE || v == EGL_RGB_BUFFER || v == EGL_LUMINANCE_BUFFER
  }

  predicate CaveatOk(v: int)
  {
    v == EGL_DONT_CARE || v == EGL_NONE || v == EGL_SLOW_CONFIG || v == EGL_NON_CONFORMANT_CONFIG
  }

  /** The transparent-type test as written: it admits the attribute token EGL_TRANSPARENT_TYPE, not EGL_TRANSPARENT_RGB. */
  predicate TransparentTypeOk(v: int)
  {
    v == EGL_DONT_CARE || v == EGL_NONE || v == EGL_TRANSPARENT_TYPE
  }

  function Accept(ok: bool, q: Config): Result<Config>
  {
    if ok then Ok(q) else Err(EGL_BAD_ATTRIBUTE)
  }

  /** One case of the attribute switch: validate `v` and store it in the template. */
  function SetQueryAttribute(q: Config, attr: int, v: int): Result<Config>
  {
    if attr == EGL_ALPHA_MASK_SIZE then Accept(SizeValueOk(v), q.(alphaMaskSize := v))
    else if attr == EGL_ALPHA_SIZE then Accept(SizeValueOk(v), q.(alphaSize := v))
    else if attr == EGL_BIND_TO_TEXTURE_RGB then Accept(BooleanValueOk(v), q.(bindToTextureRGB := v))
    else if attr == EGL_BIND_TO_TEXTURE_RGBA then Accept(BooleanValueOk(v), q.(bindToTextureRGBA := v))
    else if attr == EGL_BLUE_SIZE then Accept(SizeValueOk(v), q.(blueSize := v))
    else if attr == EGL_BUFFER_SIZE then Accept(SizeValueOk(v), q.(bufferSize := v))
    else if attr == EGL_COLOR_BUFFER_TYPE then Accept(ColorBufferTypeOk(v), q.(colorBufferType := v))
    else if attr == EGL_CONFIG_CAVEAT then Accept(CaveatOk(v), q.(configCaveat := v))
    else if attr == EGL_CONFIG_ID then Ok(q.(configId := v))
    else if attr == EGL_CONFORMANT then Accept(MaskValueOk(v, API_BITS), q.(conformant := v))
    else if attr == EGL_DEPTH_SIZE then Accept(SizeValueOk(v), q.(depthSize := v))
    else if attr == EGL_GREEN_SIZE then Accept(SizeValueOk(v), q.(greenSize := v))
    else if attr == EGL_LEVEL then Accept(SizeValueOk(v), q.(level := v))
    else if attr == EGL_LUMINANCE_SIZE then Accept(SizeValueOk(v), q.(luminanceSize := v))
    else if attr == EGL_MATCH_NATIVE_PIXMAP then Ok(q.(matchNativePixmap := v))
    else if attr == EGL_NATIVE_RENDERABLE then Accept(BooleanValueOk(v), q.(nativeRenderable := v))
    else if attr == EGL_MAX_SWAP_INTERVAL then Accept(SizeValueOk(v), q.(maxSwapInterval := v))
    else if attr == EGL_MIN_SWAP_INTERVAL then Accept(SizeValueOk(v), q.(minSwapInterval := v))
    else if attr == EGL_RED_SIZE then Accept(SizeValueOk(v), q.(redSize := v))
    else if attr == EGL_SAMPLE_BUFFERS then Accept(SizeValueOk(v), q.(sampleBuffers := v))
    else if attr == EGL_SAMPLES then Accept(SizeValueOk(v), q.(samples := v))
    else if attr == EGL_STENCIL_SIZE then Accept(SizeValueOk(v), q.(stencilSize := v))
    else if attr == EGL_RENDERABLE_TYPE then Accept(MaskValueOk(v, API_BITS), q.(renderableType := v))
    else if attr == EGL_SURFACE_TYPE then Accept(MaskValueOk(v, SURFACE_BITS), q.(surfaceType := v))
    else if attr == EGL_TRANSPARENT_TYPE then Accept(TransparentTypeOk(v), q.(transparentType := v))
    else if attr == EGL_TRANSPARENT_RED_VALUE then Accept(SizeValueOk(v), q.(transparentRedValue := v))
    else if attr == EGL_TRANSPARENT_GREEN_VALUE then Accept(SizeValueOk(v), q.(transparentGreenValue := v))
    else if attr == EGL_TRANSPARENT_BLUE_VALUE then Accept(SizeValueOk(v), q.(transparentBlueValue := v))
    else Err(EGL_BAD_ATTRIBUTE)
  }

  /** The attributes the query switch knows. */
  predicate QueryAttribute(attr: int)
  {
    attr in {EGL_ALPHA_MASK_SIZE, EGL_ALPHA_SIZE, EGL_BIND_TO_TEXTURE_RGB, EGL_BIND_TO_TEXTURE_RGBA,
             EGL_BLUE_SIZE, EGL_BUFFER_SIZE, EGL_COLOR_BUFFER_TYPE, EGL_CONFIG_CAVEAT, EGL_CONFIG_ID,
             EGL_CONFORMANT, EGL_DEPTH_SIZE, EGL_GREEN_SIZE, EGL_LEVEL, EGL_LUMINANCE_SIZE,
             EGL_MATCH_NATIVE_PIXMAP, EGL_NATIVE_RENDERABLE, EGL_MAX_SWAP_INTERVAL, EGL_MIN_SWAP_INTERVAL,
             EGL_RED_SIZE, EGL_SAMPLE_BUFFERS, EGL_SAMPLES, EGL_STENCIL_SIZE, EGL_RENDERABLE_TYPE,
             EGL_SURFACE_TYPE, EGL_TRANSPARENT_TYPE, EGL_TRANSPARENT_RED_VALUE,
             EGL_TRANSPARENT_GREEN_VALUE, EGL_TRANSPARENT_BLUE_VALUE}
  }

  /** The template before the attribute list is applied: the defaults, with the caveat made don't-care. */
  function InitialQuery(): Config
  {
    DefaultConfig().(configCaveat := EGL_DONT_CARE)
  }

  /** The attribute loop from pair index `i / 2` on, starting from template `q`. */
  function ParseQueryFrom(a: seq<int>, i: nat, q: Config): Result<Config>
    requires Terminated(a) && i % 2 == 0 && i < |a|
    decreases |a| - i
  {
    if a[i] == EGL_NONE then Ok(q)
    else match SetQueryAttribute(q, a[i], a[i + 1])
      case Err(e) => Err(e)
      case Ok(q') => if i + 2 >= 2 * MAX_QUERY_PAIRS then Err(EGL_BAD_ATTRIBUTE) else ParseQueryFrom(a, i + 2, q')
  }

  /** The drawTo flags the parser derives from the requested surface type (the filter never reads them). */
  function WithDrawFlags(q: Config): Config
  {
    q.(drawToWindow := if SharesBit(q.surfaceType, EGL_WINDOW_BIT) then EGL_TRUE else EGL_FALSE,
       drawToPixmap := if SharesBit(q.surfaceType, EGL_PIXMAP_BIT) then EGL_TRUE else EGL_FALSE,
       drawToPBuffer := if SharesBit(q.surfaceType, EGL_PBUFFER_BIT) then EGL_TRUE else EGL_FALSE)
  }

  /** The query template for an attribute list, or EGL_BAD_ATTRIBUTE. */
  function QueryTemplate(a: seq<int>): Result<Config>
    requires Terminated(a)
  {
    match ParseQueryFrom(a, 0, InitialQuery())
    case Err(e) => Err(e)
    case Ok(q) => Ok(WithDrawFlags(q))
  }

  /** The attribute loop of eglChooseConfig, filling the template field by field. */
  method ParseQuery(a: seq<int>) returns (r: Result<Config>)
    requires Terminated(a)
    ensures r == QueryTemplate(a)
  {
    var config := InitialQuery();
    var index := 0;
    while a[index] != EGL_NONE
      invariant index % 2 == 0 && index < |a|
      invariant index < 2 * MAX_QUERY_PAIRS
      invariant ParseQueryFrom(a, index, config) == ParseQueryFrom(a, 0, InitialQuery())
      decreases |a| - index
    {
      var step := SetQueryAttribute(config, a[index], a[index + 1]);
      if step.Err? {
        return Err(EGL_BAD_ATTRIBUTE);
      }
      config := step.value;
      index := index + 2;
      if index >= 2 * MAX_QUERY_PAIRS {
        return Err(EGL_BAD_ATTRIBUTE);
      }
    }
    r := Ok(WithDrawFlags(config));
  }

  /** What a successfully parsed template can hold, field by field. */
  predicate QueryInDomain(q: Config)
  {
    && SizeValueOk(q.alphaMaskSize) && SizeValueOk(q.alphaSize) && SizeValueOk(q.blueSize)
    && SizeValueOk(q.bufferSize) && SizeValueOk(q.depthSize) && SizeValueOk(q.greenSize)
    && SizeValueOk(q.level) && SizeValueOk(q.luminanceSize) && SizeValueOk(q.redSize)
    && SizeValueOk(q.sampleBuffers) && SizeValueOk(q.samples) && SizeValueOk(q.stencilSize)
    && SizeValueOk(q.maxSwapInterval) && SizeValueOk(q.minSwapInterval)
    && SizeValueOk(q.transparentRedValue) && SizeValueOk(q.transparentGreenValue) && SizeValueOk(q.transparentBlueValue)
    && BooleanValueOk(q.bindToTextureRGB) && BooleanValueOk(q.bindToTextureRGBA) && BooleanValueOk(q.nativeRenderable)
    && ColorBufferTypeOk(q.colorBufferType) && CaveatOk(q.configCaveat) && TransparentTypeOk(q.transparentType)
    && MaskValueOk(q.conformant, API_BITS) && MaskValueOk(q.renderableType, API_BITS)
    && MaskValueOk(q.surfaceType, SURFACE_BITS)
    && q.doubleBuffer == EGL_TRUE
  }

  /** One attribute step keeps the template in the domain; its only error is EGL_BAD_ATTRIBUTE. */
  lemma SetQueryAttributeInDomain(q: Config, attr: int, v: int)
    requires QueryInDomain(q)
    ensures SetQueryAttribute(q, attr, v).Ok? ==> QueryInDomain(SetQueryAttribute(q, attr, v).value)
    ensures SetQueryAttribute(q, attr, v).Err? ==> SetQueryAttribute(q, attr, v).error == EGL_BAD_ATTRIBUTE
  {
    StepErrorIsBadAttribute(q, attr, v);
    if attr == EGL_ALPHA_MASK_SIZE || attr == EGL_ALPHA_SIZE || attr == EGL_BIND_TO_TEXTURE_RGB || attr == EGL_BIND_TO_TEXTURE_RGBA {
      StepInDomain1(q, attr, v);
    } else if attr == EGL_BLUE_SIZE || attr == EGL_BUFFER_SIZE || attr == EGL_COLOR_BUFFER_TYPE || attr == EGL_CONFIG_CAVEAT {
      StepInDomain2(q, attr, v);
    } else if attr == EGL_CONFIG_ID || attr == EGL_CONFORMANT || attr == EGL_DEPTH_SIZE || attr == EGL_GREEN_SIZE {
      StepInDomain3(q, attr, v);
    } else if attr == EGL_LEVEL || attr == EGL_LUMINANCE_SIZE || attr == EGL_MATCH_NATIVE_PIXMAP || attr == EGL_NATIVE_RENDERABLE {
      StepInDomain4(q, attr, v);
    } else if attr == EGL_MAX_SWAP_INTERVAL || attr == EGL_MIN_SWAP_INTERVAL || attr == EGL_RED_SIZE || attr == EGL_SAMPLE_BUFFERS {
      StepInDomain5(q, attr, v);
    } else if attr == EGL_SAMPLES || attr == EGL_STENCIL_SIZE || attr == EGL_RENDERABLE_TYPE || attr == EGL_SURFACE_TYPE {
      StepInDomain6(q, attr, v);
    } else if attr == EGL_TRANSPARENT_TYPE || attr == EGL_TRANSPARENT_RED_VALUE || attr == EGL_TRANSPARENT_GREEN_VALUE || attr == EGL_TRANSPARENT_BLUE_VALUE {
      StepInDomain7(q, attr, v);
    }
  }

  /** Helper for SetQueryAttributeInDomain: the one error the attribute switch sets. */
  lemma StepErrorIsBadAttribute(q: Config, attr: int, v: int)
    ensures SetQueryAttribute(q, attr, v).Err? ==> SetQueryAttribute(q, attr, v).error == EGL_BAD_ATTRIBUTE
  {
  }

  lemma StepInDomain1(q: Config, attr: int, v: int)
    requires QueryInDomain(q) && (attr == EGL_ALPHA_MASK_SIZE || attr == EGL_ALPHA_SIZE || attr == EGL_BIND_TO_TEXTURE_RGB || attr == EGL_BIND_TO_TEXTURE_RGBA)
    ensures SetQueryAttribute(q, attr, v).Ok? ==> QueryInDomain(SetQueryAttribute(q, attr, v).value)
  {
  }

  lemma StepInDomain2(q: Config, attr: int, v: int)
    requires QueryInDomain(q) && (attr == EGL_BLUE_SIZE || attr == EGL_BUFFER_SIZE || attr == EGL_COLOR_BUFFER_TYPE || attr == EGL_CONFIG_CAVEAT)
    ensures SetQueryAttribute(q, attr, v).Ok? ==> QueryInDomain(SetQueryAttribute(q, attr, v).value)
  {
  }

  lemma StepInDomain3(q: Config, attr: int, v: int)
    requires QueryInDomain(q) && (attr == EGL_CONFIG_ID || attr == EGL_CONFORMANT || attr == EGL_DEPTH_SIZE || attr == EGL_GREEN_SIZE)
    ensures SetQueryAttribute(q, attr, v).Ok? ==> QueryInDomain(SetQueryAttribute(q, attr, v).value)
  {
  }

  lemma StepInDomain4(q: Config, attr: int, v: int)
    requires QueryInDomain(q) && (attr == EGL_LEVEL || attr == EGL_LUMINANCE_SIZE || attr == EGL_MATCH_NATIVE_PIXMAP || attr == EGL_NATIVE_RENDERABLE)
    ensures SetQueryAttribute(q, attr, v).Ok? ==> QueryInDomain(SetQueryAttribute(q, attr, v).value)
  {
  }

  lemma StepInDomain5(q: Config, attr: int, v: int)
    requires QueryInDomain(q) && (attr == EGL_MAX_SWAP_INTERVAL || attr == EGL_MIN_SWAP_INTERVAL || attr == EGL_RED_SIZE || attr == EGL_SAMPLE_BUFFERS)
    ensures SetQueryAttribute(q, attr, v).Ok? ==> QueryInDomain(SetQueryAttribute(q, attr, v).value)
  {
  }

  lemma StepInDomain6(q: Config, attr: int, v: int)
    requires QueryInDomain(q) && (attr == EGL_SAMPLES || attr == EGL_STENCIL_SIZE || attr == EGL_RENDERABLE_TYPE || attr == EGL_SURFACE_TYPE)
    ensures SetQueryAttribute(q, attr, v).Ok? ==> QueryInDomain(SetQueryAttribute(q, attr, v).value)
  {
  }

  lemma StepInDomain7(q: Config, attr: int, v: int)
    requires QueryInDomain(q) && (attr == EGL_TRANSPARENT_TYPE || attr == EGL_TRANSPARENT_RED_VALUE || attr == EGL_TRANSPARENT_GREEN_VALUE || attr == EGL_TRANSPARENT_BLUE_VALUE)
    ensures SetQueryAttribute(q, attr, v).Ok? ==> QueryInDomain(SetQueryAttribute(q, attr, v).value)
  {
  }

  lemma {:induction false} ParseQueryFromInDomain(a: seq<int>, i: nat, q: Config)
    requires Terminated(a) && i % 2 == 0 && i < |a|
    requires QueryInDomain(q)
    ensures ParseQueryFrom(a, i, q).Ok? ==> QueryInDomain(ParseQueryFrom(a, i, q).value)
    ensures ParseQueryFrom(a, i, q).Err? ==> ParseQueryFrom(a, i, q).error == EGL_BAD_ATTRIBUTE
    decreases |a| - i
  {
    if a[i] != EGL_NONE {
      var step := SetQueryAttribute(q, a[i], a[i + 1]);
      SetQueryAttributeInDomain(q, a[i], a[i + 1]);
      if step.Ok? && i + 2 < 2 * MAX_QUERY_PAIRS {
        ParseQueryFromInDomain(a, i + 2, step.value);
      }
    }
  }

  /**
   * Every template eglChooseConfig accepts keeps each field inside the domain
   * the parser checks, and the only parse error is EGL_BAD_ATTRIBUTE.  In
   * particular a template never asks for EGL_TRANSPARENT_RGB.
   */
  lemma QueryTemplateInDomain(a: seq<int>)
    requires Terminated(a)
    ensures QueryTemplate(a).Ok? ==> QueryInDomain(QueryTemplate(a).value)
    ensures QueryTemplate(a).Ok? ==> QueryTemplate(a).value.transparentType != EGL_TRANSPARENT_RGB
    ensures QueryTemplate(a).Err? ==> QueryTemplate(a).error == EGL_BAD_ATTRIBUTE
  {
    InitialQueryInDomain();
    ParseQueryFromInDomain(a, 0, InitialQuery());
  }

  lemma InitialQueryInDomain()
    ensures QueryInDomain(InitialQuery())
  {
    assert Bits(EGL_OPENGL_ES_BIT) & !Bits(API_BITS) == 0;
    assert Bits(EGL_WINDOW_BIT) & !Bits(SURFACE_BITS) == 0;
    assert Bits(0) & !Bits(API_BITS) == 0;
  }

  /** An attribute the switch does not know is rejected. */
  lemma UnknownAttributeRejected(a: seq<int>)
    requires Terminated(a) && a[0] != EGL_NONE && !QueryAttribute(a[0])
    ensures QueryTemplate(a) == Err(EGL_BAD_ATTRIBUTE)
  {
  }

  /** The domain the attribute switch checks for the value of `attr`. */
  predicate QueryValueOk(attr: int, v: int)
  {
    if attr == EGL_CONFIG_ID || attr == EGL_MATCH_NATIVE_PIXMAP then true
    else if attr == EGL_BIND_TO_TEXTURE_RGB || attr == EGL_BIND_TO_TEXTURE_RGBA || attr == EGL_NATIVE_RENDERABLE then BooleanValueOk(v)
    else if attr == EGL_COLOR_BUFFER_TYPE then ColorBufferTypeOk(v)
    else if attr == EGL_CONFIG_CAVEAT then CaveatOk(v)
    else if attr == EGL_CONFORMANT || attr == EGL_RENDERABLE_TYPE then MaskValueOk(v, API_BITS)
    else if attr == EGL_SURFACE_TYPE then MaskValueOk(v, SURFACE_BITS)
    else if attr == EGL_TRANSPARENT_TYPE then TransparentTypeOk(v)
    else SizeValueOk(v)
  }

  /** The switch accepts a pair exactly when it knows the attribute and the value lies in that attribute's domain. */
  lemma SetQueryAttributeAccepts(q: Config, attr: int, v: int)
    ensures SetQueryAttribute(q, attr, v).Ok? <==> QueryAttribute(attr) && QueryValueOk(attr, v)
  {
  }

  /** A single pair is accepted exactly when its attribute is known and its value lies in that attribute's domain. */
  lemma SinglePairAccepted(attr: int, v: int)
    requires attr != EGL_NONE
    ensures QueryTemplate([attr, v, EGL_NONE]).Ok? <==> QueryAttribute(attr) && QueryValueOk(attr, v)
  {
    var a := [attr, v, EGL_NONE];
    var step := SetQueryAttribute(InitialQuery(), attr, v);
    SetQueryAttributeAccepts(InitialQuery(), attr, v);
    if step.Ok? {
      assert ParseQueryFrom(a, 2, step.value) == Ok(step.value);
    }
  }

  /** The specific attribute list eglChooseConfig cannot satisfy: a request for RGB transparency. */
  lemma TransparentRgbRequestRejected()
    ensures QueryTemplate([EGL_TRANSPARENT_TYPE, EGL_TRANSPARENT_RGB, EGL_NONE]) == Err(EGL_BAD_ATTRIBUTE)
  {
  }

  /** A list whose first 28 pairs are all present is rejected, whatever they hold. */
  lemma {:induction false} PairLimit(a: seq<int>, i: nat, q: Config)
    requires Terminated(a) && i % 2 == 0 && i < |a| && i < 2 * MAX_QUERY_PAIRS
    requires forall j :: i <= j < 2 * MAX_QUERY_PAIRS && j % 2 == 0 ==> j < |a| && a[j] != EGL_NONE
    ensures ParseQueryFrom(a, i, q) == Err(EGL_BAD_ATTRIBUTE)
    decreases |a| - i
  {
    var step := SetQueryAttribute(q, a[i], a[i + 1]);
    if step.Ok? && i + 2 < 2 * MAX_QUERY_PAIRS {
      PairLimit(a, i + 2, step.value);
    }
  }

  lemma TwentyEightPairsRejected(a: seq<int>)
    requires Terminated(a)
    requires forall j :: 0 <= j < 2 * MAX_QUERY_PAIRS && j % 2 == 0 ==> j < |a| && a[j] != EGL_NONE
    ensures QueryTemplate(a) == Err(EGL_BAD_ATTRIBUTE)
  {
    PairLimit(a, 0, InitialQuery());
  }

  // ---------------------------------------------------------------------
  // Filter
  // ---------------------------------------------------------------------

  /** A size test: the candidate has at least what is asked (EGL_DONT_CARE, -1, asks for nothing). */
  predicate AtLeast(asked: int, has: int) { !(asked > has) }

  /** An exact test that EGL_DONT_CARE switches off. */
  predicate DontCareOrEqual(asked: int, has: int) { asked == EGL_DONT_CARE || asked == has }

  /** The candidate test of the eglChooseConfig loop, one conjunct per `continue`. */
  predicate Matches(q: Config, c: Config)
  {
    && AtLeast(q.alphaMaskSize, c.alphaMaskSize)
    && AtLeast(q.alphaSize, c.alphaSize)
    && DontCareOrEqual(q.bindToTextureRGB, c.bindToTextureRGB)
    && DontCareOrEqual(q.bindToTextureRGBA, c.bindToTextureRGBA)
    && AtLeast(q.blueSize, c.blueSize)
    && AtLeast(q.bufferSize, c.bufferSize)
    && DontCareOrEqual(q.colorBufferType, c.colorBufferType)
    && DontCareOrEqual(q.configCaveat, c.configCaveat)
    && DontCareOrEqual(q.configId, c.configId)
    && HasAllBits(q.conformant, c.conformant)
    && AtLeast(q.depthSize, c.depthSize)
    && AtLeast(q.greenSize, c.greenSize)
    && q.level == c.level
    && AtLeast(q.luminanceSize, c.luminanceSize)
    && (q.matchNativePixmap == EGL_NONE || q.matchNativePixmap == c.matchNativePixmap)
    && DontCareOrEqual(q.nativeRenderable, c.nativeRenderable)
    && DontCareOrEqual(q.maxSwapInterval, c.maxSwapInterval)
    && DontCareOrEqual(q.minSwapInterval, c.minSwapInterval)
    && AtLeast(q.redSize, c.redSize)
    && AtLeast(q.sampleBuffers, c.sampleBuffers)
    && AtLeast(q.samples, c.samples)
    && DontCareOrEqual(q.stencilSize, c.stencilSize)
    && HasAllBits(q.renderableType, c.renderableType)
    && HasAllBits(q.surfaceType, c.surfaceType)
    && q.transparentType == c.transparentType
    && (c.transparentType == EGL_TRANSPARENT_RGB ==>
          && DontCareOrEqual(q.transparentRedValue, c.transparentRedValue)
          && DontCareOrEqual(q.transparentGreenValue, c.transparentGreenValue)
          && DontCareOrEqual(q.transparentBlueValue, c.transparentBlueValue))
    && DontCareOrEqual(q.doubleBuffer, c.doubleBuffer)
  }

  /**
   * What a match guarantees: sizes at least the requested ones, stencil size and
   * level exact, and the requested conformant, renderable and surface bits all present.
   */
  lemma MatchGuarantees(q: Config, c: Config)
    requires Matches(q, c)
    ensures c.alphaMaskSize >= q.alphaMaskSize && c.alphaSize >= q.alphaSize && c.blueSize >= q.blueSize
    ensures c.bufferSize >= q.bufferSize && c.depthSize >= q.depthSize && c.greenSize >= q.greenSize
    ensures c.luminanceSize >= q.luminanceSize && c.redSize >= q.redSize
    ensures c.sampleBuffers >= q.sampleBuffers && c.samples >= q.samples
    ensures q.stencilSize != EGL_DONT_CARE ==> c.stencilSize == q.stencilSize
    ensures c.level == q.level
    ensures Bits(q.conformant) & Bits(c.conformant) == Bits(q.conformant)
    ensures Bits(q.renderableType) & Bits(c.renderableType) == Bits(q.renderableType)
    ensures Bits(q.surfaceType) & Bits(c.surfaceType) == Bits(q.surfaceType)
  {
  }

  /** Transparent colour values only take part when the candidate's transparent type is EGL_TRANSPARENT_RGB. */
  lemma TransparentValuesIgnoredUnlessRgb(q: Config, c: Config, red: int, green: int, blue: int)
    requires c.transparentType != EGL_TRANSPARENT_RGB
    ensures Matches(q, c) <==>
      Matches(q, c.(transparentRedValue := red, transparentGreenValue := green, transparentBlueValue := blue))
  {
  }

  /** Because no template asks for EGL_TRANSPARENT_RGB, a config with RGB transparency is never chosen. */
  lemma TransparentRgbConfigNeverMatches(a: seq<int>, c: Config)
    requires Terminated(a) && QueryTemplate(a).Ok?
    requires c.transparentType == EGL_TRANSPARENT_RGB
    ensures !Matches(QueryTemplate(a).value, c)
  {
    QueryTemplateInDomain(a);
  }

  /** The template of an empty attribute list: the defaults, caveat don't-care, window drawing. */
  function EmptyQuery(): Config
  {
    WithDrawFlags(InitialQuery())
  }

  /**
   * What an empty attribute list asks for: non-negative sizes, zero stencil
   * size and level, the OpenGL ES bit, the window bit, no transparency and
   * double buffering.
   */
  lemma EmptyQueryTemplate()
    ensures QueryTemplate([EGL_NONE]) == Ok(EmptyQuery())
  {
  }

  lemma EmptyQueryBaseline(c: Config)
    ensures Matches(EmptyQuery(), c) <==>
      && c.alphaMaskSize >= 0 && c.alphaSize >= 0 && c.blueSize >= 0 && c.bufferSize >= 0
      && c.depthSize >= 0 && c.greenSize >= 0 && c.luminanceSize >= 0 && c.redSize >= 0
      && c.sampleBuffers >= 0 && c.samples >= 0
      && c.stencilSize == 0 && c.level == 0
      && Bits(c.renderableType) & Bits(EGL_OPENGL_ES_BIT) != 0
      && Bits(c.surfaceType) & Bits(EGL_WINDOW_BIT) != 0
      && c.transparentType == EGL_NONE
      && c.doubleBuffer == EGL_TRUE
  {
    var q := EmptyQuery();
    assert q == WithDrawFlags(InitialQuery());
    assert Bits(q.conformant) == 0;
    assert Bits(q.renderableType) == 1;
    assert Bits(q.surfaceType) == 4;
    assert HasAllBits(q.renderableType, c.renderableType) <==> Bits(c.renderableType) & 1 != 0;
    assert HasAllBits(q.surfaceType, c.surfaceType) <==> Bits(c.surfaceType) & 4 != 0;
  }

  // ---------------------------------------------------------------------
  // Selection loop
  // ---------------------------------------------------------------------

  /** sizeof(EGLConfig): the model takes a 64-bit build, where a config handle is an 8-byte pointer. */
  const POINTER_SIZE: int := 8

  /** Capacity of the 8 KiB stack buffer of config pointers (1024 on a 64-bit build). */
  const MAX_CONFIGS: int := 8192 / POINTER_SIZE

  /** All configs of the list that match the template, in list order. */
  function Matching(q: Config, cs: seq<Config>): seq<Config>
  {
    Filter((c: Config) => Matches(q, c), cs)
  }

  /** The first MAX_CONFIGS of a list of matches: what fits in the stack buffer. */
  function Capped(m: seq<Config>): seq<Config>
  {
    if |m| <= MAX_CONFIGS then m else m[..MAX_CONFIGS]
  }

  lemma MatchingMembers(q: Config, cs: seq<Config>, x: Config)
    ensures x in Matching(q, cs) <==> x in cs && Matches(q, x)
  {
    FilterMembers((c: Config) => Matches(q, c), cs, x);
  }

  /** The selection loop: collect matching configs in list order until the buffer is full. */
  method SelectMatching(q: Config, configs: seq<Config>) returns (found: seq<Config>)
    ensures found == Capped(Matching(q, configs))
  {
    found := [];
    var i := 0;
    while i < |configs| && |found| < MAX_CONFIGS
      invariant 0 <= i <= |configs|
      invariant found == Matching(q, configs[..i])
      invariant |found| <= MAX_CONFIGS
    {
      assert configs[..i + 1][..i] == configs[..i];
      if Matches(q, configs[i]) {
        found := found + [configs[i]];
      }
      i := i + 1;
    }
    FilterPrefix((c: Config) => Matches(q, c), configs, i);
    if i == |configs| {
      assert configs[..i] == configs;
    }
  }

  // ---------------------------------------------------------------------
  // Sort (the effect of qsort with the comparator)
  // ---------------------------------------------------------------------

  predicate Sorted(s: seq<Config>)
  {
    forall i :: 0 <= i < |s| - 1 ==> SortPredicate(s[i], s[i + 1]) <= 0
  }

  function Insert(x: Config, s: seq<Config>): seq<Config>
  {
    if s == [] then [x]
    else if SortPredicate(x, s[0]) <= 0 then [x] + s
    else [s[0]] + Insert(x, s[1..])
  }

  function SortConfigs(s: seq<Config>): seq<Config>
  {
    if s == [] then [] else Insert(s[0], SortConfigs(s[1..]))
  }

  lemma {:induction false} InsertPermutes(x: Config, s: seq<Config>)
    ensures multiset(Insert(x, s)) == multiset(s) + multiset{x}
    ensures |Insert(x, s)| == |s| + 1
    ensures Insert(x, s)[0] == x || (s != [] && Insert(x, s)[0] == s[0])
  {
    if s != [] && SortPredicate(x, s[0]) > 0 {
      var rest := Insert(x, s[1..]);
      InsertPermutes(x, s[1..]);
      assert Insert(x, s) == [s[0]] + rest;
      assert s == [s[0]] + s[1..];
      assert multiset(s) == multiset{s[0]} + multiset(s[1..]);
    }
  }

  lemma SortedTail(s: seq<Config>)
    requires Sorted(s) && s != []
    ensures Sorted(s[1..])
  {
    var t := s[1..];
    forall i | 0 <= i < |t| - 1 ensures SortPredicate(t[i], t[i + 1]) <= 0 {
      assert t[i] == s[i + 1] && t[i + 1] == s[i + 2];
    }
  }

  lemma SortedCons(x: Config, t: seq<Config>)
    requires Sorted(t) && (t != [] ==> SortPredicate(x, t[0]) <= 0)
    ensures Sorted([x] + t)
  {
    var r := [x] + t;
    forall i | 0 <= i < |r| - 1 ensures SortPredicate(r[i], r[i + 1]) <= 0 {
      if i > 0 {
        assert r[i] == t[i - 1] && r[i + 1] == t[i];
      }
    }
  }

  lemma {:induction false} InsertSorted(x: Config, s: seq<Config>)
    requires Sorted(s)
    ensures Sorted(Insert(x, s))
  {
    if s != [] {
      if SortPredicate(x, s[0]) <= 0 {
        SortedCons(x, s);
      } else {
        var t := s[1..];
        SortedTail(s);
        InsertSorted(x, t);
        InsertPermutes(x, t);
        SortPredicateAntisymmetric(x, s[0]);
        SortedCons(s[0], Insert(x, t));
      }
    }
  }

  /** Sorting yields a permutation of the matches that is ordered by the comparator. */
  lemma SortConfigsCorrect(s: seq<Config>)
    ensures Sorted(SortConfigs(s))
    ensures multiset(SortConfigs(s)) == multiset(s)
    ensures |SortConfigs(s)| == |s|
  {
    SortConfigsSorted(s);
    SortConfigsPermutes(s);
  }

  lemma {:induction false} SortConfigsSorted(s: seq<Config>)
    ensures Sorted(SortConfigs(s))
  {
    if s != [] {
      SortConfigsSorted(s[1..]);
      InsertSorted(s[0], SortConfigs(s[1..]));
    }
  }

  lemma {:induction false} SortConfigsPermutes(s: seq<Config>)
    ensures multiset(SortConfigs(s)) == multiset(s)
    ensures |SortConfigs(s)| == |s|
  {
    if s != [] {
      SortConfigsPermutes(s[1..]);
      InsertPermutes(s[0], SortConfigs(s[1..]));
      assert s == [s[0]] + s[1..];
    }
  }

  /** Adjacent order extends to every pair, by transitivity of the comparator. */
  lemma {:induction false} SortedPairwise(s: seq<Config>, i: int, j: int)
    requires Sorted(s) && 0 <= i <= j < |s|
    ensures SortPredicate(s[i], s[j]) <= 0
    decreases j - i
  {
    if i == j {
      SortPredicateZero(s[i], s[i]);
    } else {
      SortedPairwise(s, i + 1, j);
      SortPredicateTransitive(s[i], s[i + 1], s[j]);
    }
  }

  // ---------------------------------------------------------------------
  // The whole selection
  // ---------------------------------------------------------------------

  /** The configs eglChooseConfig returns for an accepted template: sorted matches, truncated to `configSize`. */
  function ChooseFrom(q: Config, configs: seq<Config>, configSize: nat): seq<Config>
  {
    var sorted := SortConfigs(Capped(Matching(q, configs)));
    if configSize < |sorted| then sorted[..configSize] else sorted
  }

  /** eglChooseConfig on a found, initialized display. */
  function ChooseConfigs(a: seq<int>, configs: seq<Config>, configSize: nat): Result<seq<Config>>
    requires Terminated(a)
  {
    match QueryTemplate(a)
    case Err(e) => Err(e)
    case Ok(q) => Ok(ChooseFrom(q, configs, configSize))
  }

  /** Parse, select, sort (qsort is modelled by SortConfigs), then copy out at most `configSize`. */
  method ChooseConfig(a: seq<int>, configs: seq<Config>, configSize: nat) returns (r: Result<seq<Config>>)
    requires Terminated(a)
    ensures r == ChooseConfigs(a, configs, configSize)
  {
    var query := ParseQuery(a);
    if query.Err? {
      return Err(query.error);
    }
    var found := SelectMatching(query.value, configs);
    var sorted := SortConfigs(found);
    SortConfigsCorrect(found);
    var count := if |found| < configSize then |found| else configSize;
    r := Ok(sorted[..count]);
    assert count == |sorted| ==> sorted[..count] == sorted;
  }

  /**
   * The returned list holds min(matches, configSize) configs, each one a
   * matching member of the display's list, ordered by the comparator, and
   * it is a prefix of the sorted matches; when nothing was cut off every
   * matching config is returned.
   */
  lemma ChooseFromCorrect(q: Config, configs: seq<Config>, configSize: nat)
    ensures var m := Capped(Matching(q, configs)); var r := ChooseFrom(q, configs, configSize);
      && |r| == (if |m| < configSize then |m| else configSize)
      && r == SortConfigs(m)[..|r|]
      && Sorted(r)
      && (forall x :: x in r ==> x in configs && Matches(q, x))
      && (|Matching(q, configs)| <= MAX_CONFIGS && |m| <= configSize ==>
            forall x :: x in configs && Matches(q, x) ==> x in r)
  {
    var m := Capped(Matching(q, configs));
    var s := SortConfigs(m);
    var r := ChooseFrom(q, configs, configSize);
    SortConfigsCorrect(m);
    assert Sorted(r) by {
      forall i | 0 <= i < |r| - 1 ensures SortPredicate(r[i], r[i + 1]) <= 0 {
        assert r[i] == s[i] && r[i + 1] == s[i + 1];
      }
    }
    forall x | x in r ensures x in configs && Matches(q, x) {
      assert x in multiset(s);
      assert x in m;
      if |Matching(q, configs)| > MAX_CONFIGS {
        assert x in Matching(q, configs);
      }
      MatchingMembers(q, configs, x);
    }
    if |Matching(q, configs)| <= MAX_CONFIGS && |m| <= configSize {
      forall x | x in configs && Matches(q, x) ensures x in r {
        MatchingMembers(q, configs, x);
        assert x in multiset(m);
        assert r == s;
      }
    }
  }
}
