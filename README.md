# Desktop EGL: a verified model of the registry, config selection and backend translators

This project models the core of a desktop implementation of EGL 1.5 that sits on top
of GLX (X11) or WGL (Windows). It covers the C++ front end `egl_common.cpp`, the control
logic of its two backends `egl_x11.cpp` and `egl_windows.cpp`, and the older self-contained
C variants `egl_x11.c` and `egl_windows.c`.

- **Registry** (`registry_model.dfy`, `registry.dfy`, `registry_properties.dfy`). This is
  the object model of `egl_common.cpp`:
  - a display list, each display holding configs, surfaces and contexts with their
    `initialized`/`destroy` flags and its current draw/read/context triple;
  - the thread's record of error, bound API and current context;
  - one native context per draw surface on every context.

  `RegistryModel` states every entry point as a function from the old state to the new
  state and the returned value. `Registry.Egl` is a class whose `seq` fields the entry
  points update with the source's list walkers, written as `while` loops. Each method is
  proved to leave exactly the state the function describes. The proved properties cover:
  - which objects the deferred-destruction sweep (`_eglInternalCleanup`) frees and keeps,
    including the head-skip behaviour of its walkers;
  - how `_eglMakeCurrent` lazily materialises shared native contexts along the
    `sharedCtx` chain (section 3.7.3 of the EGL 1.5 specification);
  - the invariant every entry point keeps: handles are fresh, no two displays share a
    handle, and a context only shares with an older one, so share chains end;
  - the answers of every entry point, and the error each refusal leaves for
    eglInitialize, eglTerminate, eglBindAPI, eglCreateContext, the surface creators,
    eglDestroyContext, eglDestroySurface and eglChooseConfig (for eglMakeCurrent, the
    EGL_BAD_MATCH of mismatched handles).
- **Config selection** (`config_select.dfy`). This is `_eglChooseConfig` and its `qsort`
  comparator. The comparator is proved to be a lexicographic order over the keys of
  section 3.4.1.2 of the EGL 1.5 specification. The template parse, the match test, the
  8 KiB stack cap, the sort (a sorted permutation) and the copy-out are each stated and
  proved. `legacy_config_select.dfy` is the exact-match, unsorted selection of the C
  variants.
- **Backend translators**:
  - `context_attribs.dfy` translates an EGL context attribute list into the
    GLX_ARB_create_context / WGL_ARB_create_context array. It covers both C++ backends
    and the inline loops of the C variants, as a method over an `array`.
  - `surface_attribs.dfy` holds the attribute and field logic of window and pbuffer
    surface creation.
  - `config_derive.dfy` derives EGL configs from native framebuffer configs or pixel
    formats, which are given as input sequences.
- **C variants** (`legacy_registry_model.dfy`, `legacy_registry.dfy`,
  `legacy_registry_properties.dfy`). They keep the same lists, so they share the state
  type. Their cleanup walkers can fail to return: the context walker's share guard never
  advances, and the Windows walkers read `next` through a null walker. Such an outcome is
  modelled as `Stuck(Hang)` or `Stuck(NullDeref)` instead of a result. The properties
  prove:
  - exactly when each happens;
  - that, when they return, cleanup, `_eglTerminate`, `_eglDestroyContext`,
    `_eglDestroySurface`, `_eglGetDisplay` (which has no default-display substitution)
    and the Windows `_eglMakeCurrent` leave the same state as the C++ model. Only their
    answers and the error they leave differ.

  Five entry points of the C variants differ from the C++ model in state too, and are
  stated on their own:
  - `_eglInitialize` refuses a display that is already initialised with
    EGL_NOT_INITIALIZED, and flags the display initialised before enumerating its configs;
  - `_eglCreateContext` has no version pre-scan and no OpenGL ES 3 check, and its
    attribute templates leave the profile word 0;
  - `_eglBindAPI` refuses OpenGL ES and keeps the bound API;
  - the X11 `_eglMakeCurrent` records the stale `ctx` field as the root ancestor's
    native context;
  - `_eglChooseConfig` matches exactly and does not sort.

Native calls (glX*, wgl*, X*, GetDC and the like) are inputs. Their success or failure,
and the configs they enumerate, are passed as parameters.

## Model

| member | source | states |
|---|---|---|
| ConfigSelect.SortPredicateIsLexicographic | EGL/src/egl_common.cpp:456-517 | The comparator is the lexicographic comparison of the keys: caveat, colour buffer type, total colour bits (descending, r+g+b+a or l+a), buffer size, sample buffers, samples, depth, stencil, alpha mask size, config id. |
| ConfigSelect.SortPredicateAntisymmetric | EGL/src/egl_common.cpp:456-517 | Swapping the two configs negates the comparator's answer. |
| ConfigSelect.SortPredicateZero | EGL/src/egl_common.cpp:456-517 | The comparator answers 0 exactly when all keys agree, so only for configs with the same id. |
| ConfigSelect.SortPredicateTransitive | EGL/src/egl_common.cpp:456-517 | "Not after" is transitive, so the comparator is a total preorder that qsort can use. |
| ConfigSelect.ParseQuery | EGL/src/egl_common.cpp:565-921 | The parse loop over the attribute list yields the query template: defaults with caveat don't-care, each pair applied in turn, the first bad pair ending with its error, and the drawTo flags derived from the surface type at the end. |
| ConfigSelect.InitialQueryInDomain | EGL/src/egl_common.cpp:327-386 | The default template has every attribute inside its value domain. |
| ConfigSelect.SetQueryAttributeInDomain | EGL/src/egl_common.cpp:576-909 | Each attribute case keeps the template inside its value domain; a refused pair gives EGL_BAD_ATTRIBUTE. |
| ConfigSelect.ParseQueryFromInDomain | EGL/src/egl_common.cpp:571-917 | The parse loop keeps the template inside its value domain; every error it ends with is EGL_BAD_ATTRIBUTE. |
| ConfigSelect.QueryTemplateInDomain | EGL/src/egl_common.cpp:852-861 | An accepted template is inside its domain and never asks for EGL_TRANSPARENT_RGB; every refusal is EGL_BAD_ATTRIBUTE. |
| ConfigSelect.UnknownAttributeRejected | EGL/src/egl_common.cpp:900-906 | An attribute outside the switch refuses the list with EGL_BAD_ATTRIBUTE. |
| ConfigSelect.SetQueryAttributeAccepts | EGL/src/egl_common.cpp:576-909 | A pair is accepted exactly when the attribute is known and the value is in its domain. |
| ConfigSelect.SinglePairAccepted | EGL/src/egl_common.cpp:571-917 | A one-pair list is accepted exactly when that pair is. |
| ConfigSelect.TransparentRgbRequestRejected | EGL/src/egl_common.cpp:852-861 | Asking for EGL_TRANSPARENT_RGB is refused with EGL_BAD_ATTRIBUTE. |
| ConfigSelect.PairLimit | EGL/src/egl_common.cpp:910-917 | From any pair on, a list without a terminator before the 28th pair is refused. |
| ConfigSelect.TwentyEightPairsRejected | EGL/src/egl_common.cpp:910-917 | A list with 28 pairs before EGL_NONE is refused with EGL_BAD_ATTRIBUTE, even when every pair is valid. |
| ConfigSelect.MatchGuarantees | EGL/src/egl_common.cpp:934-1146 | A matching config has at least the requested sizes and the requested level. Its stencil size is exact unless don't-care. Its conformant, renderable and surface type bits include the requested ones. |
| ConfigSelect.TransparentValuesIgnoredUnlessRgb | EGL/src/egl_common.cpp:1087-1107 | The transparent red/green/blue values of a config do not affect matching unless its transparent type is EGL_TRANSPARENT_RGB. |
| ConfigSelect.TransparentRgbConfigNeverMatches | EGL/src/egl_common.cpp:1081-1107 | No accepted template matches a config whose transparent type is EGL_TRANSPARENT_RGB. |
| ConfigSelect.EmptyQueryTemplate | EGL/src/egl_common.cpp:565-570 | The empty list yields the default template with caveat don't-care. |
| ConfigSelect.EmptyQueryBaseline | EGL/src/egl_common.cpp:934-1146 | The empty query still demands non-negative sizes, stencil 0, level 0, the ES renderable bit, the window bit, no transparency and double buffering. |
| ConfigSelect.MatchingMembers | EGL/src/egl_common.cpp:934-1146 | A config is selected exactly when it is in the display's list and matches. |
| ConfigSelect.SelectMatching | EGL/src/egl_common.cpp:926-1146 | The matching loop gathers the matches in list order and stops at the stack buffer's capacity of 8192 / sizeof(EGLConfig), 1024 on a 64-bit build. |
| ConfigSelect.SortConfigsCorrect | EGL/src/egl_common.cpp:1149-1150 | The sort yields a sorted permutation of the matches. |
| ConfigSelect.SortedPairwise | EGL/src/egl_common.cpp:1149-1150 | In a sorted list every earlier config compares not after every later one. |
| ConfigSelect.ChooseConfig | EGL/src/egl_common.cpp:565-1153 | Parse, select, sort and copy out compute the template's sorted, capped matches truncated to config_size, or the parse error. |
| ConfigSelect.ChooseFromCorrect | EGL/src/egl_common.cpp:926-1153 | The count is min(capped matches, config_size). The output is the front of the sorted match list, is sorted, and holds only matching configs of the display. When nothing was cut off, it holds every match. |
| LegacyConfigSelect.ParseQuery | EGL/src/egl_x11.c:650-1044 | The C parse loop yields the template: the don't-care defaults, then each pair applied in turn, the first bad pair ending with EGL_BAD_ATTRIBUTE. |
| LegacyConfigSelect.NegativeSizeRejected | EGL/src/egl_x11.c:705-1044 | A negative size, EGL_DONT_CARE included, is refused with EGL_BAD_ATTRIBUTE. |
| LegacyConfigSelect.ColorBufferTypeMustBeNamed | EGL/src/egl_x11.c:705-1044 | The colour buffer type is accepted exactly when it is RGB or LUMINANCE. |
| LegacyConfigSelect.PairLimit | EGL/src/egl_x11.c:705-1044 | From any pair on, a list without a terminator before the 28th pair is refused. |
| LegacyConfigSelect.TwentyEightPairsRejected | EGL/src/egl_x11.c:705-1044 | A 28th pair is refused with EGL_BAD_ATTRIBUTE. |
| LegacyConfigSelect.EmptyQueryBaseline | EGL/src/egl_windows.c:1199-1225 | The empty query demands drawToWindow and doubleBuffer TRUE. On Windows it also demands drawToPixmap and drawToPBuffer FALSE. |
| LegacyConfigSelect.SurfaceTypeTest | EGL/src/egl_x11.c:1192 | On X11 the surface type passes when it shares any bit with the request. On Windows it passes only when equal. |
| LegacyConfigSelect.SelectMatching | EGL/src/egl_x11.c:1048-1262 | The matching loop emits the matches in list order and stops at config_size. |
| LegacyConfigSelect.ChooseConfig | EGL/src/egl_windows.c:624-1237 | On a found display: the argument checks (EGL_BAD_PARAMETER for a null pointer or a zero config_size), then parse and select, compute the unsorted matches truncated to config_size, or the error. |
| LegacyConfigSelect.ArgumentChecks | EGL/src/egl_x11.c:650-675 | A null attribute list, output array or count pointer, or a zero config_size, gives EGL_BAD_PARAMETER before the list is read. Otherwise the call fails exactly when the list is refused, and then with EGL_BAD_ATTRIBUTE. |
| LegacyConfigSelect.ZeroCapacityRejected | EGL/src/egl_windows.c:640-644 | A zero config_size is refused with EGL_BAD_PARAMETER, even for the empty list. |
| LegacyConfigSelect.ChooseConfigsCorrect | EGL/src/egl_x11.c:1048-1262 | A call that succeeds passed the argument checks, so config_size is not 0. The count is min(matches, config_size), and 0 for a negative size. The output is the front of the match list and holds only matching configs. When the list was not cut off, it holds every match. |
| ContextAttribs.ProcessAttribList | EGL/src/egl_x11.cpp:380-543 | The loop fills the template array and copies it into the caller's array only on success. On error the target keeps its old contents. |
| ContextAttribs.TemplateDefaults | EGL/src/egl_windows.cpp:337-346 | An empty list yields the template: major 1, minor 0, flags 0, the ES profile for the ES API and core otherwise (0 in the C variants), no-reset strategy, a zero terminator, and on WGL a layer plane 0 pair. |
| ContextAttribs.StepAccepts | EGL/src/egl_x11.cpp:406-537 | A pair is accepted exactly when its attribute is known and its value allowed; otherwise the answer is EGL_BAD_ATTRIBUTE. |
| ContextAttribs.ContextAttribListWellFormed | EGL/src/egl_windows.cpp:356-490 | An accepted list yields an array with the template's keys, major at least 1, minor non-negative, only the three ARB flag bits, a known profile and reset strategy, and the terminator. Every refusal is EGL_BAD_ATTRIBUTE. |
| ContextAttribs.BadPairRejected | EGL/src/egl_x11.cpp:406-537 | Any refused pair before the terminator refuses the list: major below 1, negative minor, a bad profile, boolean or reset strategy, or an unknown attribute. |
| ContextAttribs.SeventhPairRejected | EGL/src/egl_windows.cpp:356-487 | A seventh pair is refused even when every pair is valid. |
| ContextAttribs.SetFlagEffect | EGL/src/egl_x11.cpp:448-501 | Setting a flag turns its bit on and clearing turns it off, and no other bit of the flags word moves. |
| ContextAttribs.FlagPairEffect | EGL/src/egl_windows.cpp:398-451 | The debug, forward-compatible and robust-access attributes rewrite only the flags word, with that set or clear of their non-zero bit. |
| ContextAttribs.VersionPairs | EGL/src/egl_x11.cpp:406-430 | A valid major/minor request lands in the major and minor value words of the template and nowhere else. |
| SurfaceAttribs.ParseWindowAttribs | EGL/src/egl_x11.cpp:643-727 | The window attribute loop computes the request (sRGB, double buffering) or the error of the first bad pair. |
| SurfaceAttribs.WindowStepErrors | EGL/src/egl_x11.cpp:643-727 | A window pair is accepted exactly when allowed. VG attributes and a render buffer that contradicts the config give EGL_BAD_MATCH; other refusals give EGL_BAD_ATTRIBUTE. |
| SurfaceAttribs.X11RenderBufferAgrees | EGL/src/egl_x11.cpp:671-692 | On X11 an accepted list never asks for double buffering on a single-buffered config. |
| SurfaceAttribs.WindowPairLimit | EGL/src/egl_x11.cpp:643-727 | From any pair on, a list without a terminator before the fourth pair is refused. |
| SurfaceAttribs.FourthWindowPairRejected | EGL/src/egl_windows.cpp:647-729 | A fourth window pair is refused. |
| SurfaceAttribs.UnknownWindowAttributeIgnored | EGL/src/egl_x11.cpp:643-727 | An unknown window attribute is skipped and leaves the default request. |
| SurfaceAttribs.X11WindowSurfaceFields | EGL/src/egl_x11.cpp:757-767 | A GLX window surface is created exactly when its list is accepted and a framebuffer config is found. It is window-only, with the config's double buffering and id. |
| SurfaceAttribs.WglWindowSurfaceFields | EGL/src/egl_windows.cpp:787-796 | A WGL window surface is created exactly when the DC, list, format and SetPixelFormat all succeed. It takes double buffering from the request and its id from the native format; without a DC the error is EGL_BAD_NATIVE_WINDOW. |
| SurfaceAttribs.WglRenderBufferUnchecked | EGL/src/egl_windows.cpp:647-729 | On WGL the render buffer only sets the requested double buffering, whatever the config has. |
| SurfaceAttribs.GlxWindowRequestSizes | EGL/src/egl_x11.cpp:731-741 | The glXChooseFBConfig request carries the config's buffer, level, red, green, blue, alpha, depth and stencil sizes under their own keys, green and blue not swapped, and the requested buffering under GLX_DOUBLEBUFFER. |
| SurfaceAttribs.GlxWindowRequestKind | EGL/src/egl_x11.cpp:742-747 | The request asks for an RGBA, window-only (GLX_DRAWABLE_TYPE = GLX_WINDOW_BIT), X-renderable config with the parsed sRGB flag, and ends in None. |
| SurfaceAttribs.WindowRequestBits | EGL/src/egl_x11.cpp:641-692 | The sRGB and double-buffer words of every accepted window request are 0 or 1. |
| SurfaceAttribs.GlxWindowRequestShape | EGL/src/egl_x11.cpp:641-747 | For an accepted X11 window list, GLX_DOUBLEBUFFER and the sRGB word are 0 or 1, double buffering is never asked of a single-buffered config, and the drawable type is window-only. |
| SurfaceAttribs.GlxEmptyListAsksSingleBuffer | EGL/src/egl_x11.cpp:641-642 | With no EGL_RENDER_BUFFER attribute, the X11 request asks for a single-buffered, linear config, even for a double-buffered EGL config. |
| SurfaceAttribs.WglColorSlotsSwapped | EGL/src/egl_windows.cpp:734-742 | The pixel-format request puts blueSize after the GREEN key and greenSize after the BLUE key. |
| SurfaceAttribs.ParsePbufferAttribs | EGL/src/egl_x11.cpp:571-590 | The pbuffer attribute loop computes the size, largest-pbuffer and sRGB request, or refuses a bad colorspace on WGL. |
| SurfaceAttribs.X11PbufferSurfaceFields | EGL/src/egl_x11.cpp:551-625 | A GLX pbuffer is refused without drawToPBuffer or a framebuffer config, and never sets an error. A created one is pbuffer-only, single-buffered and carries the config's id. |
| SurfaceAttribs.X11PbufferAttribsTotal | EGL/src/egl_x11.cpp:571-590 | From any pair on, the GLX pbuffer loop accepts the rest of the list and keeps width and height set. |
| SurfaceAttribs.X11PbufferAttribsAccepted | EGL/src/egl_x11.cpp:558-590 | Every GLX pbuffer list is accepted and yields a complete 7-word glXCreatePbuffer array. |
| SurfaceAttribs.PbufferSizeRequest | EGL/src/egl_windows.cpp:529-562 | The named width and height land in the request, and a repeated attribute keeps its last value. |
| SurfaceAttribs.WglPbufferSurfaceFields | EGL/src/egl_windows.cpp:545-600 | A bad colorspace fails without an error code. A WGL pbuffer is created exactly when the list, format, pbuffer and DC succeed. It is pbuffer-only and double-buffered (GL_TRUE), with the native format as id. |
| ConfigDerive.DeriveNonePersists | EGL/src/egl_x11.cpp:825-947 | Once a native query fails, the derivation fails. |
| ConfigDerive.DeriveSucceeds | EGL/src/egl_windows.cpp:856-956 | The derivation succeeds exactly when every native attribute query succeeds. |
| ConfigDerive.DeriveCharacterised | EGL/src/egl_x11.cpp:825-947 | The derived list is the eligible formats in enumeration order, each turned into a config with its own index. |
| ConfigDerive.DeriveGlxConfigs | EGL/src/egl_x11.cpp:825-947 | The GLX enumeration loop appends one config per eligible framebuffer config, or fails on a failed query or an empty list. |
| ConfigDerive.DeriveWglConfigs | EGL/src/egl_windows.cpp:856-956 | The WGL enumeration loop appends one config per eligible pixel format, or fails. |
| ConfigDerive.SurfaceBitsMirrorFlags | EGL/src/egl_x11.cpp:825-947 | The surface type has the window, pixmap and pbuffer bits exactly when the matching drawTo flags are set, and no other bits. |
| ConfigDerive.GlxConfigShape | EGL/src/egl_x11.cpp:825-947 | A GLX-derived config has the native index as id, RGB buffers, surface bits that mirror boolean drawTo flags, conformant equal to renderable, and the native sizes, buffering and visual. |
| ConfigDerive.WglConfigShape | EGL/src/egl_windows.cpp:856-956 | A WGL-derived config has the index as id, surface bits that mirror the drawTo flags, and drawToPBuffer false when its query fails. Without render texture it binds textures TRUE; it keeps the native sizes. |
| ConfigDerive.WglLegacyConfigShape | EGL/src/egl_windows.c:2329-2626 | A config of the Windows C variant is window-only, not pbuffer-capable, and OpenGL-conformant and renderable. |
| ConfigDerive.GlxConfigsCorrect | EGL/src/egl_x11.cpp:825-947 | GLX derivation succeeds exactly for a non-empty, fully readable list, and yields the eligible configs in order with the native index as id. |
| ConfigDerive.WglConfigsCorrect | EGL/src/egl_windows.cpp:856-956 | WGL derivation succeeds exactly for a fully readable list, and yields the eligible formats in order with the 1-based index as id. |
| RegistryModel.Find | EGL/src/egl_common.cpp:2157-2159 | A list walk answers the first element that matches, and none only when nothing does. |
| RegistryModel.FindContextFrom | EGL/src/egl_common.cpp:1250-1278 | A context handle is looked up over every display in list order, and none means no display holds it. |
| RegistryModel.Terminate | EGL/src/egl_common.cpp:2653-2691 | eglTerminate answers EGL_FALSE with EGL_BAD_DISPLAY set in every case. |
| RegistryModel.BindApi | EGL/src/egl_common.cpp:2790-2802 | eglBindAPI succeeds exactly for OpenGL and OpenGL ES and then only binds it. Otherwise only EGL_BAD_PARAMETER is set. |
| RegistryModel.DestroyContext | EGL/src/egl_common.cpp:1457-1516 | eglDestroyContext answers EGL_FALSE in every case. |
| RegistryModel.Walk | EGL/src/egl_common.cpp:2302-2349 | A root to materialise is a valid context no newer than the one the walk started from. |
| RegistryModel.ShareParent | EGL/src/egl_common.cpp:2300-2355 | A root to materialise is a strictly older context. |
| RegistryModel.AddNative | EGL/src/egl_common.cpp:2366-2369 | Prepending a native context changes no display, context handle or share link. |
| RegistryModel.Attach | EGL/src/egl_common.cpp:2277-2372 | Native context reuse or creation keeps the display list's length. The full effect is stated by RegistryProperties.AttachReuses and AttachCreates. |
| RegistryModel.CreateNative | EGL/src/egl_common.cpp:2291-2369 | Native context creation keeps the display list's length. |
| RegistryModel.X11MakeCurrentCall | EGL/src/egl_x11.cpp:1210-1225 | The GLX hook refuses exactly when one of surface and context is missing, and unbinds exactly when both are. |
| RegistryModel.WglMakeCurrentCall | EGL/src/egl_windows.cpp:1138-1150 | The WGL hook refuses exactly a context without a surface, and unbinds exactly when there is no context. |
| Registry.FindIndex | EGL/src/egl_common.cpp:2157-2159 | The walker loop finds what Find specifies. |
| Registry.LocateContext | EGL/src/egl_common.cpp:1250-1278 | The nested display/context walk finds what FindContext specifies. |
| Registry.ShareWalk | EGL/src/egl_common.cpp:2302-2349 | The sharedCtx loop computes Walk. |
| Registry.ChooseShareParent | EGL/src/egl_common.cpp:2300-2355 | The share-parent choice computes ShareParent. |
| Registry.SweepList | EGL/src/egl_common.cpp:191-217 | The unlinking walker loop computes Sweep, head skip included. |
| Registry.CopyFront | EGL/src/egl_common.cpp:1940-1952 | The copy loop returns the first config_size configs. |
| Registry.ScanRequestedVersion | EGL/src/egl_common.cpp:1185-1197 | The version scan yields the last major and minor requested. |
| Registry.CheckSurface | EGL/src/egl_common.cpp:2179-2207 | The surface walk gives EGL_BAD_SURFACE for an unknown handle and EGL_BAD_NATIVE_WINDOW for a dead one. |
| Registry.Egl.constructor | EGL/src/egl_common.cpp:140-146 | The registry starts empty, with no error, no API and no current context, and satisfies the invariant. |
| Registry.Egl.Cleanup | EGL/src/egl_common.cpp:173-325 | The three nested walkers leave exactly the swept state. |
| Registry.Egl.GetDisplay | EGL/src/egl_common.cpp:2021-2073 | eglGetDisplay leaves the state and answer of the model and keeps the invariant. |
| Registry.Egl.Initialize | EGL/src/egl_common.cpp:2089-2141 | eglInitialize leaves the state and answer of the model and keeps the invariant. |
| Registry.Egl.Terminate | EGL/src/egl_common.cpp:2653-2691 | eglTerminate leaves the state and answer of the model and keeps the invariant. |
| Registry.Egl.GetError | EGL/src/egl_common.cpp:2075-2087 | eglGetError returns the stored error and resets it. |
| Registry.Egl.BindApi | EGL/src/egl_common.cpp:2790-2802 | eglBindAPI leaves the model's state and answer. |
| Registry.Egl.VetContext | EGL/src/egl_common.cpp:1169-1300 | The checks of eglCreateContext run in the source's order and reach the model's verdict. |
| Registry.Egl.CreateContext | EGL/src/egl_common.cpp:1169-1326 | eglCreateContext leaves the state and answer of the model and keeps the invariant. |
| Registry.Egl.CreateSurface | EGL/src/egl_common.cpp:1328-1455 | Window and pbuffer surface creation leave the state and answer of the model and keep the invariant. |
| Registry.Egl.DestroyContext | EGL/src/egl_common.cpp:1457-1516 | eglDestroyContext leaves the state and answer of the model and keeps the invariant. |
| Registry.Egl.DestroySurface | EGL/src/egl_common.cpp:1518-1580 | eglDestroySurface leaves the state and answer of the model and keeps the invariant. |
| Registry.Egl.Attach | EGL/src/egl_common.cpp:2277-2372 | Native context reuse or creation leaves the model's state. |
| Registry.Egl.CreateNative | EGL/src/egl_common.cpp:2291-2369 | Creating the root's and the context's native contexts leaves the model's state. |
| Registry.Egl.Bind | EGL/src/egl_common.cpp:2375-2400 | The native bind, the current triple, the thread's context and the sweep leave the model's state. |
| Registry.Egl.MakeCurrent | EGL/src/egl_common.cpp:2143-2403 | eglMakeCurrent leaves the state and answer of the model and keeps the invariant. |
| Registry.Egl.MakeCurrentOn | EGL/src/egl_common.cpp:2163-2400 | The part of eglMakeCurrent after the display is found leaves the model's state and answer. |
| Registry.Egl.Switch | EGL/src/egl_common.cpp:2277-2400 | Attaching the context to the draw surface and then binding leave the model's state and answer. |
| Registry.Egl.QueryContext | EGL/src/egl_common.cpp:2405-2539 | eglQueryContext leaves the model's state and answer. |
| Registry.Egl.GetConfigs | EGL/src/egl_common.cpp:1900-1963 | eglGetConfigs leaves the model's state and answer. |
| Registry.Egl.ChooseConfig | EGL/src/egl_common.cpp:519-1166 | eglChooseConfig on the registry leaves the model's state and answer. |
| RegistryProperties.SweepClosedForm | EGL/src/egl_common.cpp:193-216 | A walker pass keeps every survivor in order, except that when the head is removed the next node is kept untested. |
| RegistryProperties.SurvivorsKeep | EGL/src/egl_common.cpp:193-216 | Every node that is not doomed survives the reference filter. |
| RegistryProperties.SurvivorsOnly | EGL/src/egl_common.cpp:193-216 | The reference filter keeps nothing doomed and adds nothing. |
| RegistryProperties.SweepKeepsLive | EGL/src/egl_common.cpp:193-271 | A pass keeps every live node and adds nothing new. |
| RegistryProperties.HeadSkip | EGL/src/egl_common.cpp:197-216 | Two doomed nodes at the head: the pass keeps the second. |
| RegistryProperties.SurfaceOutlivesSweep | EGL/src/egl_common.cpp:193-216 | Two unbound destroyed surfaces: the second survives the cleanup that should free it. |
| RegistryProperties.SweepLiveHead | EGL/src/egl_common.cpp:193-216 | With a live head, a pass is the reference filter. |
| RegistryProperties.CleanupKeepsBound | EGL/src/egl_common.cpp:193-271 | Cleanup keeps every bound or live surface and context of a display and frees nothing else. |
| RegistryProperties.ChainLinks | EGL/src/egl_common.cpp:2302-2349 | The share chain of a context follows the sharedCtx links one by one and ends at a context whose share handle is none or names no context in any list. |
| RegistryProperties.WalkFindsFirstMaterialised | EGL/src/egl_common.cpp:2302-2349 | The share walk answers the head native context of the first materialised context on the chain, or the chain's root when none is. |
| RegistryProperties.ShareParentFromAncestors | EGL/src/egl_common.cpp:2300-2355 | For a context with a share source, the share parent is found among its ancestors only. |
| RegistryProperties.ValidDescending | EGL/src/egl_common.cpp:1248-1306 | In a valid registry every context shares only with an older one. |
| RegistryProperties.SweepDistinct | EGL/src/egl_common.cpp:179-320 | The display walker of the cleanup, head skip included, never leaves two displays with one handle. |
| RegistryProperties.CleanupValid | EGL/src/egl_common.cpp:173-325 | The sweep keeps the registry invariant. |
| RegistryProperties.GetDisplayValid | EGL/src/egl_common.cpp:2021-2073 | eglGetDisplay keeps the registry invariant. |
| RegistryProperties.InitializeValid | EGL/src/egl_common.cpp:2089-2141 | eglInitialize keeps the registry invariant. |
| RegistryProperties.TerminateValid | EGL/src/egl_common.cpp:2653-2691 | eglTerminate keeps the registry invariant. |
| RegistryProperties.CreatedContext | EGL/src/egl_common.cpp:1169-1326 | A context is created only after every check passes: attributes, a bound API, the version limit, a live display, a known config, OpenGL ES 3 conformance of the config for OpenGL ES, an accepted translation, and a share context that is none or found initialised and not flagged destroyed. It is then new, live, without natives and prepended, and nothing else changes. |
| RegistryProperties.CreateContextAnswers | EGL/src/egl_common.cpp:1169-1326 | Each check in turn decides the call: EGL_BAD_PARAMETER, EGL_BAD_MATCH, a quiet refusal for the version limit or an unserved API, EGL_BAD_DISPLAY, EGL_NOT_INITIALIZED, EGL_BAD_CONFIG, a quiet refusal for a config without OpenGL ES 3 conformance, the translation's error, EGL_BAD_CONTEXT for a dead or absent share context, and the next handle once all pass. Each refusal changes only its error, and a quiet one changes nothing. |
| RegistryProperties.DeadShareRefused | EGL/src/egl_common.cpp:1250-1286 | No context is created over a named share context that is absent, uninitialised or flagged destroyed. |
| RegistryProperties.RefusedContext | EGL/src/egl_common.cpp:1169-1326 | A refused context creation changes at most the error. |
| RegistryProperties.FoundContextFresh | EGL/src/egl_common.cpp:1288-1306 | Every context found in a valid registry has a handle below the next fresh one. |
| RegistryProperties.CreateContextValid | EGL/src/egl_common.cpp:1169-1326 | eglCreateContext keeps the registry invariant. |
| RegistryProperties.CreateSurfaceValid | EGL/src/egl_common.cpp:1328-1455 | Surface creation keeps the registry invariant. |
| RegistryProperties.DestroyContextValid | EGL/src/egl_common.cpp:1457-1516 | eglDestroyContext keeps the registry invariant. |
| RegistryProperties.DestroySurfaceValid | EGL/src/egl_common.cpp:1518-1580 | eglDestroySurface keeps the registry invariant. |
| RegistryProperties.AttachValid | EGL/src/egl_common.cpp:2277-2372 | Native context creation keeps the registry invariant. |
| RegistryProperties.BindValid | EGL/src/egl_common.cpp:2375-2400 | The final bind keeps the registry invariant. |
| RegistryProperties.MakeCurrentValid | EGL/src/egl_common.cpp:2143-2403 | eglMakeCurrent keeps the registry invariant. |
| RegistryProperties.MakeCurrentOnValid | EGL/src/egl_common.cpp:2163-2400 | The part of eglMakeCurrent after the display is found keeps the registry invariant. |
| RegistryProperties.InitialValid | EGL/src/egl_common.cpp:140-146 | The empty registry satisfies the invariant, with no error and no API. |
| RegistryProperties.AttachReuses | EGL/src/egl_common.cpp:2279-2289 | A native context that already exists for the draw surface is reused, and nothing changes. |
| RegistryProperties.AttachKeepsDisplay | EGL/src/egl_common.cpp:2277-2372 | Native context creation changes no display's handle or destroy flag. |
| RegistryProperties.AttachCreates | EGL/src/egl_common.cpp:2291-2369 | Otherwise a new native context is prepended, sharing with the share parent. When the root has to be materialised, its entry is prepended first, unshared, and the new one shares with it. |
| RegistryProperties.CreateSharing | EGL/src/egl_common.cpp:2350-2369 | When a share parent is at hand, a successful creation takes one fresh handle and prepends one native context that shares with that parent. |
| RegistryProperties.CreateWithRoot | EGL/src/egl_common.cpp:2321-2369 | When the root ancestor is materialised, a successful creation takes two fresh handles. The root gets the first, unshared, and the context gets the second, sharing with the root. |
| RegistryProperties.BindBinds | EGL/src/egl_common.cpp:2384-2400 | A successful bind records the triple on the display and the context on the thread, and leaves EGL_BAD_DISPLAY set. |
| RegistryProperties.MakeCurrentBinds | EGL/src/egl_common.cpp:2143-2403 | eglMakeCurrent succeeds only for matching handles and a successful native bind. It then records the triple and the context and leaves EGL_BAD_DISPLAY set. |
| RegistryProperties.MakeCurrentMismatch | EGL/src/egl_common.cpp:2150-2155 | A missing context with a surface, or a context with a missing surface, gives EGL_BAD_MATCH before any lookup and changes nothing else. |
| RegistryProperties.MakeCurrentReuses | EGL/src/egl_common.cpp:2279-2289 | Binding a context to a surface it already has a native context for allocates nothing. |
| RegistryProperties.NativeGuardsAgree | EGL/src/egl_common.cpp:2150-2155 | After the front end's check, both hooks agree: they never refuse, and they unbind exactly for no context. |
| RegistryProperties.NativeGuardsDiffer | EGL/src/egl_x11.cpp:1212-1221 | Called directly with a surface and no context, GLX refuses where WGL unbinds. |
| RegistryProperties.GetDisplayExisting | EGL/src/egl_common.cpp:2029-2043 | A known native display answers its existing handle and changes nothing. |
| RegistryProperties.GetDisplayNew | EGL/src/egl_common.cpp:2045-2072 | An unknown one gets a fresh handle and a prepended, empty, uninitialised display. For id 0 it stores the default display instead. |
| RegistryProperties.GetDefaultDisplayTwice | EGL/src/egl_common.cpp:2034-2059 | Asking twice for display 0 gives two different displays. |
| RegistryProperties.InitializeAnswers | EGL/src/egl_common.cpp:2089-2141 | eglInitialize answers version 1.5 exactly for a live display that is initialised or enumerates. Otherwise it leaves the displays and sets an error. |
| RegistryProperties.InitializeIdempotent | EGL/src/egl_common.cpp:2089-2141 | Initialising an initialised display again changes nothing. |
| RegistryProperties.GetErrorResets | EGL/src/egl_common.cpp:2075-2087 | eglGetError answers the stored error, and a second call answers EGL_SUCCESS. |
| RegistryProperties.OlderVersionRefused | EGL/src/egl_common.cpp:1199-1203 | With a limit of 4.1, a request for 3.3 is refused, because major and minor are compared separately. |
| RegistryProperties.CreateSurfaceAnswers | EGL/src/egl_common.cpp:1328-1455 | A surface is created exactly when the display is known and live, has a config with the id, and the backend hook succeeds. It takes the next handle, is live, carries the hook's fields and is prepended. A refusal allocates nothing and sets only the error: EGL_BAD_DISPLAY, EGL_NOT_INITIALIZED or EGL_BAD_CONFIG in lookup order, or the hook's own error. |
| RegistryProperties.DestroyContextAnswers | EGL/src/egl_common.cpp:1457-1516 | eglDestroyContext always answers EGL_FALSE. A live context of a live display is flagged destroyed, the sweep runs and EGL_BAD_DISPLAY is left. An unknown display gives EGL_BAD_DISPLAY, a dead one EGL_NOT_INITIALIZED, and an unknown or destroyed context EGL_BAD_CONTEXT, changing only the error. |
| RegistryProperties.DestroySurfaceAnswers | EGL/src/egl_common.cpp:1518-1580 | eglDestroySurface answers TRUE exactly for a live surface of a live display. The surface is then flagged uninitialised and destroyed, the sweep runs and EGL_BAD_DISPLAY is left. An unknown display gives EGL_BAD_DISPLAY, a dead one EGL_NOT_INITIALIZED, and an unknown or destroyed surface EGL_BAD_SURFACE, changing only the error. |
| RegistryProperties.TerminateAnswers | EGL/src/egl_common.cpp:2653-2691 | eglTerminate answers EGL_FALSE and leaves EGL_BAD_DISPLAY. An unknown or dead display changes nothing else. A live one is flagged uninitialised and destroyed, and the sweep runs. |
| RegistryProperties.TerminateLeavesNoLiveDisplay | EGL/src/egl_common.cpp:2672-2689 | In a valid registry, no live display with the terminated handle remains after the call. |
| RegistryProperties.QueryContextAnswers | EGL/src/egl_common.cpp:2405-2539 | eglQueryContext changes nothing but the error, and nothing at all when it answers. It always reports the OpenGL client type and never answers the client version. |
| RegistryProperties.GetConfigsFront | EGL/src/egl_common.cpp:1900-1963 | eglGetConfigs returns the first min(config_size, count) configs of the display. |
| RegistryProperties.ChooseConfigAnswers | EGL/src/egl_common.cpp:519-1166 | eglChooseConfig refuses missing arguments or a zero size with EGL_BAD_PARAMETER. It changes nothing but the error, and on a live display with an accepted template it answers the engine's sorted, capped, truncated matches. |
| LegacyRegistryModel.BindApi | EGL/src/egl_windows.c:3245-3257 | The C eglBindAPI accepts only OpenGL; anything else sets EGL_BAD_PARAMETER and changes nothing else. |
| LegacyRegistryModel.CreateNative | EGL/src/egl_x11.c:2876-2953 | Native context creation keeps the display list's length. |
| LegacyRegistryModel.Attach | EGL/src/egl_x11.c:2860-2957 | Native context reuse or creation keeps the display list's length. |
| LegacyRegistry.PassList | EGL/src/egl_windows.c:366-391 | The C walker loop computes Pass, including its hang and its null-pointer read. |
| LegacyRegistry.ShareGuardScan | EGL/src/egl_x11.c:419-428 | The inner loop's test tells whether some context names the walked one as share source. |
| LegacyRegistry.ContextPass | EGL/src/egl_x11.c:416-468 | The C context walker with its share guard computes Pass. |
| LegacyRegistry.LegacyEgl.constructor | EGL/src/egl_x11.c:241 | The registry starts empty and satisfies the invariant. |
| LegacyRegistry.LegacyEgl.Cleanup | EGL/src/egl_x11.c:370-521 | The C cleanup either leaves exactly the model's state, or reports the same hang or null-pointer read as the model. |
| LegacyRegistry.LegacyEgl.GetDisplay | EGL/src/egl_x11.c:2276-2318 | The C eglGetDisplay leaves the model's state and answer. |
| LegacyRegistry.LegacyEgl.Initialize | EGL/src/egl_x11.c:2334-2729 | The C eglInitialize leaves the model's state and answer. |
| LegacyRegistry.LegacyEgl.ChooseConfig | EGL/src/egl_x11.c:650-1273 | The C eglChooseConfig leaves the model's state and answer: argument checks, display lookup, exact-match selection. |
| LegacyRegistry.LegacyEgl.Terminate | EGL/src/egl_x11.c:3228-3257 | The C eglTerminate settles as the model does and keeps the invariant when it returns. |
| LegacyRegistry.LegacyEgl.GetError | EGL/src/egl_windows.c:2315-2322 | The C eglGetError returns the stored error and resets it. |
| LegacyRegistry.LegacyEgl.BindApi | EGL/src/egl_x11.c:3352-3364 | The C eglBindAPI leaves the model's state and answer. |
| LegacyRegistry.LegacyEgl.CreateContext | EGL/src/egl_windows.c:1249-1514 | The C eglCreateContext leaves the model's state and answer. |
| LegacyRegistry.LegacyEgl.AddContext | EGL/src/egl_windows.c:1284-1497 | The inline translation into a fresh array, the share check and the prepend leave the model's state. |
| LegacyRegistry.LegacyEgl.DestroyContext | EGL/src/egl_x11.c:1743-1793 | The C eglDestroyContext settles as the model does and keeps the invariant when it returns. |
| LegacyRegistry.LegacyEgl.DestroySurface | EGL/src/egl_windows.c:1790-1842 | The C eglDestroySurface settles as the model does and keeps the invariant when it returns. |
| LegacyRegistry.LegacyEgl.Attach | EGL/src/egl_windows.c:2757-2853 | Native context reuse or creation leaves the model's state. |
| LegacyRegistry.LegacyEgl.CreateNative | EGL/src/egl_x11.c:2876-2953 | Native context creation, including the X11 root that records the stale `ctx` field, leaves the model's state. |
| LegacyRegistry.LegacyEgl.Bind | EGL/src/egl_windows.c:2856-2874 | The native bind, the current triple and the sweep settle as the model does. |
| LegacyRegistry.LegacyEgl.MakeCurrent | EGL/src/egl_x11.c:2731-2985 | The C eglMakeCurrent settles as the model does and keeps the invariant when it returns. |
| LegacyRegistry.LegacyEgl.MakeCurrentOn | EGL/src/egl_windows.c:2757-2882 | The part after the surface checks settles as the model does. |
| LegacyRegistryProperties.CleanupAgrees | EGL/src/egl_windows.c:350-495 | When the C cleanup returns, it leaves exactly what the C++ sweep leaves. |
| LegacyRegistryProperties.CleanupValid | EGL/src/egl_x11.c:370-521 | When the C cleanup returns, it keeps the registry invariant. |
| LegacyRegistryProperties.X11CleanupNoNullDeref | EGL/src/egl_x11.c:386-468 | The X11 walkers test their walker, so the X11 cleanup never reads through null. |
| LegacyRegistryProperties.KeptNoNullDeref | EGL/src/egl_windows.c:366-441 | An unchecked pass reads through null only while nothing lies before the walker. |
| LegacyRegistryProperties.UncheckedNullDeref | EGL/src/egl_windows.c:366-391 | An unchecked pass reads through null exactly when the list is a single, unguarded, doomed node. |
| LegacyRegistryProperties.WindowsLoneSurfaceCrash | EGL/src/egl_windows.c:1790-1842 | On Windows, destroying the only surface of a display, when it is not bound, crashes the cleanup. |
| LegacyRegistryProperties.UnguardedPass | EGL/src/egl_windows.c:366-391 | A pass without a guard never hangs, and with null checks it always returns. |
| LegacyRegistryProperties.NoSharePass | EGL/src/egl_x11.c:416-468 | The context pass never hangs when no context names another as share source. With null checks it always returns. |
| LegacyRegistryProperties.NoShareCleanupFrom | EGL/src/egl_x11.c:376-515 | With null checks and no share sources, the display walker always returns. |
| LegacyRegistryProperties.X11CleanupTerminates | EGL/src/egl_x11.c:370-521 | The X11 cleanup returns whenever no context on any display names a share source. |
| LegacyRegistryProperties.SharedPassHangs | EGL/src/egl_x11.c:419-428 | A context pass hangs when it reaches a context that some context names as share source. |
| LegacyRegistryProperties.SharedContextsHang | EGL/src/egl_x11.c:419-428 | If a display keeps all its contexts and one names another as share source, the X11 cleanup hangs. |
| LegacyRegistryProperties.GetDisplayAsCommon | EGL/src/egl_x11.c:2285-2317 | The C eglGetDisplay is the C++ one without the default-display substitution. |
| LegacyRegistryProperties.GetDisplayTwice | EGL/src/egl_x11.c:2285-2317 | Asking twice for the same id, 0 included, gives the same display and changes nothing the second time. |
| LegacyRegistryProperties.GetDisplayValid | EGL/src/egl_windows.c:2271-2313 | The C eglGetDisplay keeps the registry invariant. |
| LegacyRegistryProperties.ChooseConfigAnswers | EGL/src/egl_windows.c:624-1245 | The C eglChooseConfig gives EGL_BAD_PARAMETER for a null pointer or a zero config_size before the lookup, EGL_BAD_DISPLAY for an unknown handle, EGL_NOT_INITIALIZED for a dead display and EGL_BAD_ATTRIBUTE for a refused list. Otherwise it answers the display's exactly matching configs, unsorted and cut to config_size, with the state unchanged. |
| LegacyRegistryProperties.InitializeAnswers | EGL/src/egl_x11.c:2342-2350 | The C eglInitialize answers 1.5 exactly for a found, uninitialised, live display whose enumeration completes. Otherwise the error is EGL_BAD_DISPLAY or EGL_NOT_INITIALIZED. |
| LegacyRegistryProperties.InitializeOnce | EGL/src/egl_x11.c:2342-2350 | Initialising a found display a second time fails with EGL_NOT_INITIALIZED, even after a failed first attempt, since the flag was set first. |
| LegacyRegistryProperties.InitializeValid | EGL/src/egl_windows.c:2329-2626 | The C eglInitialize keeps the registry invariant. |
| LegacyRegistryProperties.TerminateAgrees | EGL/src/egl_windows.c:3123-3152 | When the C eglTerminate returns, it answers TRUE exactly for a live display. It leaves the C++ state, except that on success the error is left alone. |
| LegacyRegistryProperties.TerminateValid | EGL/src/egl_x11.c:3228-3257 | When the C eglTerminate returns, it keeps the registry invariant. |
| LegacyRegistryProperties.BindApiNarrower | EGL/src/egl_windows.c:3245-3257 | Whatever the C eglBindAPI accepts the C++ one accepts the same way. OpenGL ES is accepted only by the C++ one. |
| LegacyRegistryProperties.CreatedContext | EGL/src/egl_windows.c:1249-1514 | A C context is created only for a bound API, a live display, a known config, an accepted translation, and a share context that is none or found initialised and not flagged destroyed. It is then new, live, without natives and prepended. |
| LegacyRegistryProperties.CreateContextAnswers | EGL/src/egl_windows.c:1249-1514 | Each check in turn decides the C call: EGL_BAD_PARAMETER, EGL_BAD_MATCH, EGL_BAD_DISPLAY, EGL_NOT_INITIALIZED, EGL_BAD_CONFIG, the translation's error, EGL_BAD_CONTEXT for a dead or absent share context, and the next handle once all pass. There is no version or OpenGL ES 3 check. Each refusal changes only its error. |
| LegacyRegistryProperties.CreateContextNeedsApi | EGL/src/egl_windows.c:1258-1263 | Without a bound API, context creation fails with EGL_BAD_MATCH. |
| LegacyRegistryProperties.CreateContextValid | EGL/src/egl_x11.c:1275-1539 | The C eglCreateContext keeps the registry invariant. |
| LegacyRegistryProperties.CheckedContextValid | EGL/src/egl_x11.c:1310-1522 | The C eglCreateContext keeps the registry invariant once the display and the config are found. |
| LegacyRegistryProperties.DestroyContextAgrees | EGL/src/egl_windows.c:1738-1788 | When the C eglDestroyContext returns, it answers TRUE exactly for a live context of a live display. It leaves the C++ state, except that on success the error is left alone. |
| LegacyRegistryProperties.DestroyContextValid | EGL/src/egl_x11.c:1743-1793 | When the C eglDestroyContext returns, it keeps the registry invariant. |
| LegacyRegistryProperties.DestroySurfaceAgrees | EGL/src/egl_windows.c:1790-1842 | When the C eglDestroySurface returns, it answers TRUE exactly for a live surface of a live display. It leaves the C++ state, except that on success the error is left alone. |
| LegacyRegistryProperties.DestroySurfaceValid | EGL/src/egl_x11.c:1795-1847 | When the C eglDestroySurface returns, it keeps the registry invariant. |
| LegacyRegistryProperties.X11RootRecordsStale | EGL/src/egl_x11.c:2907-2941 | On X11 a materialised root does not depend on whether the native creation succeeded. Its entry and the new context's share both name the stale `ctx` value, and a zero there fails the call. |
| LegacyRegistryProperties.WindowsRootShared | EGL/src/egl_windows.c:2773-2853 | On Windows the root's new native context is stored, and the context's new one shares with it. |
| LegacyRegistryProperties.AttachKeepsError | EGL/src/egl_x11.c:2860-2957 | Native context creation in the C variants never sets an error. |
| LegacyRegistryProperties.WindowsMakeCurrentAgrees | EGL/src/egl_windows.c:2628-2882 | When the Windows eglMakeCurrent returns, it answers as the C++ one. It leaves the same state, except that on success the error is left alone. |
| LegacyRegistryProperties.AttachValid | EGL/src/egl_x11.c:2876-2953 | C native context creation, the stale root included, keeps the registry invariant. |
| LegacyRegistryProperties.BindValid | EGL/src/egl_windows.c:2856-2874 | When the C bind returns, it keeps the registry invariant. |
| LegacyRegistryProperties.MakeCurrentValid | EGL/src/egl_x11.c:2731-2985 | When the C eglMakeCurrent returns, it keeps the registry invariant. |

## Left out

- Concurrency: the reader/writer spinlock, the per-display mutex and thread-local storage. One thread is modelled, and its record (error, API, current context) is a field of the state.
- Native I/O and library loading: every glX*, wgl*, X* and Win32 call, and dlopen/LoadLibrary. Their outcomes (success, chosen format, enumerated configs) are parameters.
- `_eglInternalTerminate` when the display list becomes empty (EGL/src/egl_common.cpp:321-324): it only unloads the native layer.
- `__internalInit` version probing depends on what the driver accepts. The highest supported versions are a `Limits` parameter.
- Native context deletion (`__deleteContext`) when cleanup frees a context, and native surface destruction: they are native calls with no effect on the registry.
- Memory: malloc failure, addresses and their reuse. Handles are fresh naturals from a counter, and configs are named by their id.
- The dangling `sharedCtx` that the disabled share guard of egl_common.cpp allows: a share source that is no longer in any list simply ends the chain. The C variants of egl_x11.c and egl_windows.c are modelled the same way: their share guard scans only the context's own display, so a share source on another display can be freed, and the chain then ends there too.
- LegacyRegistryModel.CreateContextChecked: the X11 C variant copies GLX_ATTRIB_LIST_SIZE (13) words out of its 11-word local `glx_attrib_list` (egl_x11.c:39, 1310-1317, 1511), reading two words past the array. The model stores the 11 translated words and leaves out the two over-read words, whose values are undefined.
- ConfigDerive.Derive: when a native query fails part-way through the enumeration, the source has already linked the configs appended before it into the display's list (egl_x11.cpp:887-899, and the same in egl_windows.cpp). The model answers None and drops them. The display stays uninitialised, so no config query reads them. A later eglInitialize starts a fresh list at `rootConfig` and leaks the leftovers.
- `_eglGetConfigAttrib`, `_eglQueryString`, `_eglQuerySurface`, `_eglGetCurrent*`, `_eglQueryAPI`, swap buffers, swap interval and the wait calls: they are lookups or native pass-throughs.
- The C variants' `_eglCreateWindowSurface`, `_eglGetConfigs` and `_eglQueryContext` are not part of this model. Their C++ counterparts are.
- The wayland stub and the internal structure header, which have no logic.
- Hangs and null-pointer reads in the C cleanup are outcomes (`Stuck(Hang)`, `Stuck(NullDeref)`), not non-termination or a crash.
- The X11 C variant's make-current reads the `ctx` field of a node it just allocated. What that field holds is the parameter `stale`.
- The C variants' config enumeration during `_eglInitialize` is given as its result: the configs appended, and whether it completed.
- ConfigSelect.SortConfigs: qsort's order among configs that compare equal is not modelled. The comparator's subtractions are taken on unbounded integers, with no 32-bit overflow.
- RegistryModel.ChooseConfig: a negative config_size is excluded by its precondition, because the source then hands a negative count to memcpy.
- Registry.Egl.ChooseConfig: the same negative config_size is excluded.
- ContextAttribs.FlagPairEffect: it states the flags-word update through SetFlag. What SetFlag does to the bits is stated by ContextAttribs.SetFlagEffect.
- ConfigSelect.SelectMatching: the stack-buffer cap is taken for a 64-bit build (8-byte config handles, so 1024 configs). A 32-bit build caps at 2048; `POINTER_SIZE` fixes the choice.
