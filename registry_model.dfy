// The object registry of egl_common.cpp as values: displays, surfaces,
// contexts and the per-context native contexts, the thread's record
// (error, bound API, current context), and every entry point as a function
// from the old state to the new state and the value returned.  The class in
// registry.dfy performs the same steps with the source's list walkers and is
// proved to agree with these functions.

module RegistryModel {
  import opened EglDefs
  import ConfigSelect
  import ContextAttribs
  import SurfaceAttribs

  /** EGL_NO_DISPLAY, EGL_NO_SURFACE and EGL_NO_CONTEXT. */
  const NO_HANDLE: nat := 0

  /** A native (GLX or WGL) context made for one draw surface; `share` is the native context it shares with, or none. */
  datatype NativeContext = NativeContext(surface: nat, handle: nat, share: nat)

  datatype Surface = Surface(handle: nat, initialized: bool, destroy: bool, info: SurfaceAttribs.SurfaceInfo)

  /** An EGL context: its translated attribute array and its native contexts, newest first. */
  datatype Context = Context(
    handle: nat, initialized: bool, destroy: bool, configId: int,
    sharedCtx: nat, attribs: seq<int>, natives: seq<NativeContext>)

  datatype Display = Display(
    handle: nat, displayId: int, initialized: bool, destroy: bool,
    configs: seq<Config>, surfaces: seq<Surface>, contexts: seq<Context>,
    currentDraw: nat, currentRead: nat, currentCtx: nat)

  /**
   * The whole registry: the display list (newest first), the thread's
   * record, and the next fresh handle (standing for a new allocation).
   */
  datatype State = State(displays: seq<Display>, error: int, api: int, currentCtx: nat, nextHandle: nat)

  /** What an entry point leaves behind and returns. */
  datatype Reply<R> = Reply(state: State, result: R)

  /** The thread record starts with no error, no bound API and no current context. */
  function InitialState(): State
  {
    State([], EGL_SUCCESS, EGL_NONE, NO_HANDLE, 1)
  }

  // ---------------------------------------------------------------------
  // Lookups: every list walk stops at the first match
  // ---------------------------------------------------------------------

  function Find<T>(s: seq<T>, p: T -> bool): (r: Option<nat>)
    ensures r.Some? ==> r.value < |s| && p(s[r.value]) && forall j :: 0 <= j < r.value ==> !p(s[j])
    ensures r.None? ==> forall j :: 0 <= j < |s| ==> !p(s[j])
    decreases |s|
  {
    if |s| == 0 then None
    else if p(s[0]) then Some(0)
    else match Find(s[1..], p)
      case None => None
      case Some(k) => Some(k + 1)
  }

  function DisplayHandle(h: nat): Display -> bool { (d: Display) => d.handle == h }
  function DisplayId(id: int): Display -> bool { (d: Display) => d.displayId == id }
  function SurfaceHandle(h: nat): Surface -> bool { (s: Surface) => s.handle == h }
  function ContextHandle(h: nat): Context -> bool { (c: Context) => c.handle == h }
  function ConfigWithId(id: int): Config -> bool { (c: Config) => c.configId == id }
  function ForSurface(h: nat): NativeContext -> bool { (n: NativeContext) => n.surface == h }

  /** Where a context sits: display index and context index. */
  datatype Loc = Loc(d: nat, c: nat)

  predicate ValidLoc(ds: seq<Display>, l: Loc)
  {
    l.d < |ds| && l.c < |ds[l.d].contexts|
  }

  function ContextAt(ds: seq<Display>, l: Loc): Context
    requires ValidLoc(ds, l)
  {
    ds[l.d].contexts[l.c]
  }

  /** A context handle looked up over every display, in list order (share contexts may live on any display). */
  function FindContextFrom(ds: seq<Display>, h: nat, k: nat): (r: Option<Loc>)
    requires k <= |ds|
    ensures r.Some? ==> ValidLoc(ds, r.value) && k <= r.value.d && ContextAt(ds, r.value).handle == h
    ensures r.None? ==> forall d, c :: k <= d < |ds| && 0 <= c < |ds[d].contexts| ==> ds[d].contexts[c].handle != h
    decreases |ds| - k
  {
    if k == |ds| then None
    else match Find(ds[k].contexts, ContextHandle(h))
      case Some(c) => Some(Loc(k, c))
      case None => FindContextFrom(ds, h, k + 1)
  }

  function FindContext(ds: seq<Display>, h: nat): Option<Loc>
  {
    FindContextFrom(ds, h, 0)
  }

  /** A share context passes eglCreateContext's check: none is named, or the one named is live on some display. */
  predicate ShareUsable(ds: seq<Display>, share: nat)
  {
    share == NO_HANDLE ||
    (FindContext(ds, share).Some? && ContextAt(ds, FindContext(ds, share).value).initialized
       && !ContextAt(ds, FindContext(ds, share).value).destroy)
  }

  // ---------------------------------------------------------------------
  // The registry invariant
  // ---------------------------------------------------------------------

  predicate Fresh(h: nat, next: nat) { 0 < h < next }

  predicate ContextOk(c: Context, next: nat)
  {
    Fresh(c.handle, next) && c.sharedCtx < c.handle
  }

  predicate DisplayOk(d: Display, next: nat)
  {
    && Fresh(d.handle, next)
    && (forall s :: s in d.surfaces ==> Fresh(s.handle, next))
    && (forall c :: c in d.contexts ==> ContextOk(c, next))
  }

  /**
   * Every handle was handed out before `nextHandle`, so a new one is fresh,
   * a context only shares with an older one, so share chains end, and no
   * two displays share a handle.
   */
  predicate Valid(st: State)
  {
    && 0 < st.nextHandle
    && (forall d :: d in st.displays ==> DisplayOk(d, st.nextHandle))
    && DistinctDisplays(st.displays)
  }

  /** No two displays share a handle. */
  predicate DistinctDisplays(ds: seq<Display>)
  {
    forall j, k :: 0 <= j < k < |ds| ==> ds[j].handle != ds[k].handle
  }

  // ---------------------------------------------------------------------
  // _eglInternalCleanup
  // ---------------------------------------------------------------------

  /**
   * One walker pass over a list as the source writes it: `kept` is what lies
   * before the walker.  Removing a node that has no predecessor makes the
   * next node the new head and the walker moves past it without examining
   * it.  `clean` is what the pass does to a node before testing it.
   */
  function SweepFrom<T>(kept: seq<T>, rest: seq<T>, clean: T -> T, doomed: T -> bool): seq<T>
    decreases |rest|
  {
    if |rest| == 0 then kept
    else
      var x := clean(rest[0]);
      if doomed(x) then
        if |kept| == 0 then (if |rest| == 1 then [] else SweepFrom([rest[1]], rest[2..], clean, doomed))
        else SweepFrom(kept, rest[1..], clean, doomed)
      else SweepFrom(kept + [x], rest[1..], clean, doomed)
  }

  function Sweep<T>(s: seq<T>, clean: T -> T, doomed: T -> bool): seq<T>
  {
    SweepFrom([], s, clean, doomed)
  }

  /** The reference: every node cleaned, the doomed ones dropped, order kept. */
  function Survivors<T>(s: seq<T>, clean: T -> T, doomed: T -> bool): seq<T>
    decreases |s|
  {
    if |s| == 0 then []
    else (if doomed(clean(s[0])) then [] else [clean(s[0])]) + Survivors(s[1..], clean, doomed)
  }

  function Unchanged<T>(x: T): T { x }

  function SurfaceDoomed(draw: nat, read: nat): Surface -> bool
  {
    (s: Surface) => s.destroy && s.handle != draw && s.handle != read
  }

  function ContextDoomed(current: nat, threadCurrent: nat): Context -> bool
  {
    (c: Context) => c.destroy && c.handle != current && c.handle != threadCurrent
  }

  /** The surface and context passes over one display. */
  function CleanDisplay(threadCurrent: nat): Display -> Display
  {
    (d: Display) => d.(surfaces := Sweep(d.surfaces, Unchanged, SurfaceDoomed(d.currentDraw, d.currentRead)),
            contexts := Sweep(d.contexts, Unchanged, ContextDoomed(d.currentCtx, threadCurrent)))
  }

  /** A display is freed once terminated, empty and bound to nothing. */
  predicate DisplayDoomed(d: Display)
  {
    d.destroy && |d.surfaces| == 0 && |d.contexts| == 0
    && d.currentDraw == NO_HANDLE && d.currentRead == NO_HANDLE && d.currentCtx == NO_HANDLE
  }

  function Cleanup(st: State): State
  {
    st.(displays := Sweep(st.displays, CleanDisplay(st.currentCtx), DisplayDoomed))
  }

  // ---------------------------------------------------------------------
  // Entry points
  // ---------------------------------------------------------------------

  /**
   * `_eglGetDisplay`: `nativeReady` is whether the native layer could be
   * set up, `defaultId` the native default display it opened.  An unknown
   * id gets a new display, prepended, whose stored id is the default display
   * when the caller passed 0.
   */
  function GetDisplay(st: State, displayId: int, defaultId: int, nativeReady: bool): Reply<nat>
  {
    if !nativeReady then Reply(st, NO_HANDLE)
    else match Find(st.displays, DisplayId(displayId))
      case Some(i) => Reply(st, st.displays[i].handle)
      case None =>
        var d := Display(st.nextHandle, if displayId != 0 then displayId else defaultId, false, false,
                         [], [], [], NO_HANDLE, NO_HANDLE, NO_HANDLE);
        Reply(st.(displays := [d] + st.displays, nextHandle := st.nextHandle + 1), st.nextHandle)
  }

  datatype Version = Version(major: int, minor: int)

  /**
   * `_eglInitialize`: `derived` is what the backend's config enumeration
   * yields for this display (None when it fails, having set
   * EGL_NOT_INITIALIZED).  An initialised display is not enumerated again.
   */
  function Initialize(st: State, dpy: nat, derived: Option<seq<Config>>): Reply<Option<Version>>
  {
    match Find(st.displays, DisplayHandle(dpy))
    case None => Reply(st.(error := EGL_BAD_DISPLAY), None)
    case Some(i) =>
      var d := st.displays[i];
      if d.destroy then Reply(st.(error := EGL_NOT_INITIALIZED), None)
      else if d.initialized then Reply(st, Some(Version(1, 5)))
      else match derived
        case None => Reply(st.(error := EGL_NOT_INITIALIZED), None)
        case Some(cs) => Reply(st.(displays := st.displays[i := d.(initialized := true, configs := cs)]), Some(Version(1, 5)))
  }

  /** `_eglTerminate`: flags a live display, sweeps, and returns EGL_FALSE with EGL_BAD_DISPLAY in every case. */
  function Terminate(st: State, dpy: nat): (r: Reply<bool>)
    ensures !r.result && r.state.error == EGL_BAD_DISPLAY
  {
    match Find(st.displays, DisplayHandle(dpy))
    case None => Reply(st.(error := EGL_BAD_DISPLAY), false)
    case Some(i) =>
      var d := st.displays[i];
      if !d.initialized || d.destroy then Reply(st.(error := EGL_BAD_DISPLAY), false)
      else
        var flagged := st.(displays := st.displays[i := d.(initialized := false, destroy := true)]);
        Reply(Cleanup(flagged).(error := EGL_BAD_DISPLAY), false)
  }

  /** `_eglGetError`: the stored error, reset to EGL_SUCCESS. */
  function GetError(st: State): Reply<int>
  {
    Reply(st.(error := EGL_SUCCESS), st.error)
  }

  /** `_eglBindAPI`: OpenGL and OpenGL ES may be bound. */
  function BindApi(st: State, api: int): (r: Reply<bool>)
    ensures r.result <==> api == EGL_OPENGL_API || api == EGL_OPENGL_ES_API
    ensures r.result ==> r.state == st.(api := api)
    ensures !r.result ==> r.state == st.(error := EGL_BAD_PARAMETER)
  {
    if api == EGL_OPENGL_API || api == EGL_OPENGL_ES_API then Reply(st.(api := api), true)
    else Reply(st.(error := EGL_BAD_PARAMETER), false)
  }

  /** The highest context versions the native layer accepts, per API. */
  datatype Limits = Limits(gl: Version, es: Version)

  /** The version scan of `_eglCreateContext`: the last major and minor pairs before EGL_NONE. */
  function ScanVersion(a: seq<int>, i: nat, v: Version): Version
    requires Terminated(a) && i % 2 == 0 && i < |a|
    decreases |a| - i
  {
    if a[i] == EGL_NONE then v
    else
      var v' := if a[i] == EGL_CONTEXT_MAJOR_VERSION then v.(major := a[i + 1])
                else if a[i] == EGL_CONTEXT_MINOR_VERSION then v.(minor := a[i + 1])
                else v;
      ScanVersion(a, i + 2, v')
  }

  function RequestedVersion(a: seq<int>): Version
    requires Terminated(a)
  {
    ScanVersion(a, 0, Version(1, 0))
  }

  /** The version test compares major and minor separately. */
  predicate WithinLimit(v: Version, max: Version)
  {
    !(v.major > max.major || v.minor > max.minor)
  }

  function Fail<R>(st: State, error: int, r: R): Reply<R>
  {
    Reply(st.(error := error), r)
  }

  /** What the checks of `_eglCreateContext` decide: refuse, setting an error or not, or create on display `i` with the translated attributes. */
  datatype ContextVerdict = Reject(error: Option<int>) | Admit(i: nat, target: seq<int>)

  /** The checks of `_eglCreateContext`, in the source's order; the backend is the one `__processAttribList` belongs to. */
  function VetContext(st: State, limits: Limits, backend: ContextAttribs.Backend,
                      dpy: nat, configId: int, share: nat, attribs: Option<seq<int>>): (v: ContextVerdict)
    requires attribs.Some? ==> Terminated(attribs.value)
    ensures v.Admit? ==> v.i < |st.displays|
  {
    if attribs.None? then Reject(Some(EGL_BAD_PARAMETER))
    else if st.api == EGL_NONE then Reject(Some(EGL_BAD_MATCH))
    else if st.api == EGL_OPENGL_API && !WithinLimit(RequestedVersion(attribs.value), limits.gl) then Reject(None)
    else if st.api == EGL_OPENGL_ES_API && !WithinLimit(RequestedVersion(attribs.value), limits.es) then Reject(None)
    else if st.api != EGL_OPENGL_API && st.api != EGL_OPENGL_ES_API then Reject(None)
    else match Find(st.displays, DisplayHandle(dpy))
      case None => Reject(Some(EGL_BAD_DISPLAY))
      case Some(i) =>
        var d := st.displays[i];
        if !d.initialized || d.destroy then Reject(Some(EGL_NOT_INITIALIZED))
        else match Find(d.configs, ConfigWithId(configId))
          case None => Reject(Some(EGL_BAD_CONFIG))
          case Some(k) =>
            if st.api == EGL_OPENGL_ES_API && !SharesBit(d.configs[k].conformant, EGL_OPENGL_ES3_BIT) then Reject(None)
            else match ContextAttribs.ContextAttribList(backend, st.api, attribs.value)
              case Err(e) => Reject(Some(e))
              case Ok(target) =>
                if !ShareUsable(st.displays, share) then Reject(Some(EGL_BAD_CONTEXT))
                else Admit(i, target)
  }

  /**
   * `_eglCreateContext`: the new context is live, has no native context
   * yet, and is prepended to the display's list.
   */
  function CreateContext(st: State, limits: Limits, backend: ContextAttribs.Backend,
                         dpy: nat, configId: int, share: nat, attribs: Option<seq<int>>): Reply<nat>
    requires attribs.Some? ==> Terminated(attribs.value)
  {
    match VetContext(st, limits, backend, dpy, configId, share, attribs)
    case Reject(e) => Reply(if e.Some? then st.(error := e.value) else st, NO_HANDLE)
    case Admit(i, target) =>
      var d := st.displays[i];
      var c := Context(st.nextHandle, true, false, configId, share, target, []);
      Reply(st.(displays := st.displays[i := d.(contexts := [c] + d.contexts)], nextHandle := st.nextHandle + 1), st.nextHandle)
  }

  /**
   * `_eglCreateWindowSurface` and `_eglCreatePbufferSurface`: `hook` is the
   * backend's surface creation for the config found (its outcome, and the
   * error it sets when it fails).  A created surface is prepended.
   */
  function CreateSurface(st: State, dpy: nat, configId: int, hook: Config -> SurfaceAttribs.Outcome): Reply<nat>
  {
    match Find(st.displays, DisplayHandle(dpy))
    case None => Fail(st, EGL_BAD_DISPLAY, NO_HANDLE)
    case Some(i) =>
      var d := st.displays[i];
      if !d.initialized || d.destroy then Fail(st, EGL_NOT_INITIALIZED, NO_HANDLE)
      else match Find(d.configs, ConfigWithId(configId))
        case None => Fail(st, EGL_BAD_CONFIG, NO_HANDLE)
        case Some(k) =>
          match hook(d.configs[k])
          case Failed(e) => Reply(if e.Some? then st.(error := e.value) else st, NO_HANDLE)
          case Created(info) =>
            var s := Surface(st.nextHandle, true, false, info);
            Reply(st.(displays := st.displays[i := d.(surfaces := [s] + d.surfaces)], nextHandle := st.nextHandle + 1), st.nextHandle)
  }

  /** `_eglDestroyContext`: flags a live context and sweeps; it answers EGL_FALSE in every case. */
  function DestroyContext(st: State, dpy: nat, ctx: nat): (r: Reply<bool>)
    ensures !r.result
  {
    match Find(st.displays, DisplayHandle(dpy))
    case None => Fail(st, EGL_BAD_DISPLAY, false)
    case Some(i) =>
      var d := st.displays[i];
      if !d.initialized || d.destroy then Fail(st, EGL_NOT_INITIALIZED, false)
      else match Find(d.contexts, ContextHandle(ctx))
        case None => Fail(st, EGL_BAD_CONTEXT, false)
        case Some(k) =>
          var c := d.contexts[k];
          if !c.initialized || c.destroy then Fail(st, EGL_BAD_CONTEXT, false)
          else
            var d' := d.(contexts := d.contexts[k := c.(initialized := false, destroy := true)]);
            Fail(Cleanup(st.(displays := st.displays[i := d'])), EGL_BAD_DISPLAY, false)
  }

  /** `_eglDestroySurface`: flags a live surface and sweeps; success still leaves EGL_BAD_DISPLAY as the error. */
  function DestroySurface(st: State, dpy: nat, surface: nat): Reply<bool>
  {
    match Find(st.displays, DisplayHandle(dpy))
    case None => Fail(st, EGL_BAD_DISPLAY, false)
    case Some(i) =>
      var d := st.displays[i];
      if !d.initialized || d.destroy then Fail(st, EGL_NOT_INITIALIZED, false)
      else match Find(d.surfaces, SurfaceHandle(surface))
        case None => Fail(st, EGL_BAD_SURFACE, false)
        case Some(k) =>
          var s := d.surfaces[k];
          if !s.initialized || s.destroy then Fail(st, EGL_BAD_SURFACE, false)
          else
            var d' := d.(surfaces := d.surfaces[k := s.(initialized := false, destroy := true)]);
            Fail(Cleanup(st.(displays := st.displays[i := d'])), EGL_BAD_DISPLAY, true)
  }

  // ---------------------------------------------------------------------
  // _eglMakeCurrent
  // ---------------------------------------------------------------------

  /** The surfaces and the context must be all absent or all present. */
  predicate HandlesMismatch(draw: nat, read: nat, ctx: nat)
  {
    (ctx == NO_HANDLE && (draw != NO_HANDLE || read != NO_HANDLE)) || (ctx != NO_HANDLE && (draw == NO_HANDLE || read == NO_HANDLE))
  }

  /** Share with an existing native context (NO_HANDLE: none), or first create one for the root ancestor at `root`. */
  datatype ShareChoice = ShareWith(native: nat) | MaterialiseRoot(root: Loc)

  /** Contexts share only with older contexts. */
  predicate Descending(ds: seq<Display>)
  {
    forall d, c :: 0 <= d < |ds| && 0 <= c < |ds[d].contexts| ==> ds[d].contexts[c].sharedCtx < ds[d].contexts[c].handle
  }

  /** The share-source link; a source no longer in any list ends the chain. */
  function Link(ds: seq<Display>, c: Context): Option<Loc>
  {
    if c.sharedCtx == NO_HANDLE then None else FindContext(ds, c.sharedCtx)
  }

  /** The share walk from the context at `l`: the first ancestor with a native context, else the root. */
  function Walk(ds: seq<Display>, l: Loc): (r: ShareChoice)
    requires ValidLoc(ds, l) && Descending(ds)
    ensures r.MaterialiseRoot? ==> ValidLoc(ds, r.root) && ContextAt(ds, r.root).handle <= ContextAt(ds, l).handle
    decreases ContextAt(ds, l).handle
  {
    var c := ContextAt(ds, l);
    if |c.natives| > 0 then ShareWith(c.natives[0].handle)
    else match Link(ds, c)
      case None => MaterialiseRoot(l)
      case Some(next) => Walk(ds, next)
  }

  /** The native context a new one for the context at `l` shares with: along its share chain, or else its own newest one. */
  function ShareParent(ds: seq<Display>, l: Loc): (r: ShareChoice)
    requires ValidLoc(ds, l) && Descending(ds)
    ensures r.MaterialiseRoot? ==> ValidLoc(ds, r.root) && ContextAt(ds, r.root).handle < ContextAt(ds, l).handle
  {
    var c := ContextAt(ds, l);
    match Link(ds, c)
    case Some(l) => Walk(ds, l)
    case None => ShareWith(if |c.natives| > 0 then c.natives[0].handle else NO_HANDLE)
  }

  /** What the native layer answers: creating the root's context, the context's own, and binding. */
  datatype NativeResults = NativeResults(rootCreated: bool, ctxCreated: bool, bound: bool)

  /** Prepend a native context to the context at `l`; nothing else changes. */
  function AddNative(ds: seq<Display>, l: Loc, n: NativeContext): (r: seq<Display>)
    requires ValidLoc(ds, l)
    ensures |r| == |ds|
    ensures forall k :: 0 <= k < |ds| ==> r[k].handle == ds[k].handle && |r[k].contexts| == |ds[k].contexts|
    ensures forall k, j :: 0 <= k < |ds| && 0 <= j < |ds[k].contexts| ==>
      r[k].contexts[j].handle == ds[k].contexts[j].handle && r[k].contexts[j].sharedCtx == ds[k].contexts[j].sharedCtx
  {
    var c := ContextAt(ds, l);
    ds[l.d := ds[l.d].(contexts := ds[l.d].contexts[l.c := c.(natives := [n] + c.natives)])]
  }

  /**
   * The native context of the context at `l` for `draw`: reused when there
   * is one, else created sharing with the share parent.
   */
  function Attach(st: State, l: Loc, draw: nat, native: NativeResults): (r: Reply<bool>)
    requires ValidLoc(st.displays, l) && Descending(st.displays)
    ensures |r.state.displays| == |st.displays|
  {
    var c := ContextAt(st.displays, l);
    if Find(c.natives, ForSurface(draw)).Some? then Reply(st, true)
    else CreateNative(st, l, draw, native, ShareParent(st.displays, l))
  }

  /**
   * A new native context for the context at `l`, sharing with `parent`;
   * when the root ancestor has to be materialised, its native context is
   * created first.  A native failure returns false, keeping what was
   * created before it.
   */
  function CreateNative(st: State, l: Loc, draw: nat, native: NativeResults, parent: ShareChoice): (r: Reply<bool>)
    requires ValidLoc(st.displays, l) && (parent.MaterialiseRoot? ==> ValidLoc(st.displays, parent.root))
    ensures |r.state.displays| == |st.displays|
  {
    match parent
    case MaterialiseRoot(root) =>
      if !native.rootCreated then Reply(st, false)
      else
        var rootNative := NativeContext(draw, st.nextHandle, NO_HANDLE);
        var st1 := st.(displays := AddNative(st.displays, root, rootNative), nextHandle := st.nextHandle + 1);
        if !native.ctxCreated then Reply(st1, false)
        else
          var own := NativeContext(draw, st1.nextHandle, rootNative.handle);
          Reply(st1.(displays := AddNative(st1.displays, l, own), nextHandle := st1.nextHandle + 1), true)
    case ShareWith(p) =>
      if !native.ctxCreated then Reply(st, false)
      else
        var own := NativeContext(draw, st.nextHandle, p);
        Reply(st.(displays := AddNative(st.displays, l, own), nextHandle := st.nextHandle + 1), true)
  }

  /** The final native bind, then the display's current triple and the thread's context. */
  function Bind(st: State, i: nat, draw: nat, read: nat, ctx: nat, bound: bool): Reply<bool>
    requires i < |st.displays|
  {
    if !bound then Fail(st, EGL_BAD_MATCH, false)
    else
      var d := st.displays[i].(currentDraw := draw, currentRead := read, currentCtx := ctx);
      Fail(Cleanup(st.(displays := st.displays[i := d], currentCtx := ctx)), EGL_BAD_DISPLAY, true)
  }

  /** A surface handle of the display, checked as `_eglMakeCurrent` does. */
  function SurfaceCheck(d: Display, h: nat): Result<nat>
  {
    if h == NO_HANDLE then Ok(NO_HANDLE)
    else match Find(d.surfaces, SurfaceHandle(h))
      case None => Err(EGL_BAD_SURFACE)
      case Some(k) =>
        if !d.surfaces[k].initialized || d.surfaces[k].destroy then Err(EGL_BAD_NATIVE_WINDOW) else Ok(h)
  }

  /** `_eglMakeCurrent` */
  function MakeCurrent(st: State, dpy: nat, draw: nat, read: nat, ctx: nat, native: NativeResults): Reply<bool>
    requires Descending(st.displays)
  {
    if HandlesMismatch(draw, read, ctx) then Fail(st, EGL_BAD_MATCH, false)
    else match Find(st.displays, DisplayHandle(dpy))
      case None => Fail(st, EGL_BAD_DISPLAY, false)
      case Some(i) => MakeCurrentOn(st, i, draw, read, ctx, native)
  }

  /** `_eglMakeCurrent` once the display is found at index `i`. */
  function MakeCurrentOn(st: State, i: nat, draw: nat, read: nat, ctx: nat, native: NativeResults): Reply<bool>
    requires i < |st.displays| && Descending(st.displays)
  {
    var d := st.displays[i];
    if !d.initialized || d.destroy then Fail(st, EGL_NOT_INITIALIZED, false)
    else if SurfaceCheck(d, draw).Err? then Fail(st, SurfaceCheck(d, draw).error, false)
    else if SurfaceCheck(d, read).Err? then Fail(st, SurfaceCheck(d, read).error, false)
    else if ctx == NO_HANDLE then Bind(st, i, NO_HANDLE, NO_HANDLE, NO_HANDLE, native.bound)
    else match Find(d.contexts, ContextHandle(ctx))
      case None => Fail(st, EGL_BAD_CONTEXT, false)
      case Some(k) =>
        if !d.contexts[k].initialized || d.contexts[k].destroy then Fail(st, EGL_BAD_CONTEXT, false)
        else Switch(st, Loc(i, k), draw, read, ctx, native)
  }

  /** The context at `l` made current: its native context for `draw` is found or created, then bound. */
  function Switch(st: State, l: Loc, draw: nat, read: nat, ctx: nat, native: NativeResults): Reply<bool>
    requires ValidLoc(st.displays, l) && Descending(st.displays)
  {
    var attached := Attach(st, l, draw, native);
    if !attached.result then attached
    else Bind(attached.state, l.d, draw, read, ctx, native.bound)
  }

  // ---------------------------------------------------------------------
  // Queries
  // ---------------------------------------------------------------------

  /** `_eglQueryContext`: whether it succeeds, and what it writes to `*value`. */
  datatype QueryAnswer = QueryAnswer(ok: bool, value: Option<int>)

  /** EGL_RENDER_BUFFER of a context: the buffer its current draw (or read) surface renders to. */
  function RenderBuffer(d: Display, ctx: nat): QueryAnswer
  {
    if d.currentCtx != ctx then QueryAnswer(false, Some(EGL_NONE))
    else
      var current := if d.currentDraw != NO_HANDLE then d.currentDraw else d.currentRead;
      match (if current == NO_HANDLE then None else Find(d.surfaces, SurfaceHandle(current)))
      case None => QueryAnswer(false, Some(EGL_NONE))
      case Some(k) =>
        var info := d.surfaces[k].info;
        if info.drawToWindow != 0 then QueryAnswer(true, Some(if info.doubleBuffer != 0 then EGL_BACK_BUFFER else EGL_SINGLE_BUFFER))
        else if info.drawToPixmap != 0 then QueryAnswer(true, Some(EGL_SINGLE_BUFFER))
        else if info.drawToPBuffer != 0 then QueryAnswer(true, Some(EGL_BACK_BUFFER))
        else QueryAnswer(false, Some(EGL_NONE))
  }

  function QueryContext(st: State, dpy: nat, ctx: nat, attribute: int): Reply<QueryAnswer>
  {
    match Find(st.displays, DisplayHandle(dpy))
    case None => Fail(st, EGL_BAD_DISPLAY, QueryAnswer(false, None))
    case Some(i) =>
      var d := st.displays[i];
      if !d.initialized || d.destroy then Fail(st, EGL_NOT_INITIALIZED, QueryAnswer(false, None))
      else match Find(d.contexts, ContextHandle(ctx))
        case None => Fail(st, EGL_BAD_CONTEXT, QueryAnswer(false, None))
        case Some(k) =>
          var c := d.contexts[k];
          if !c.initialized || c.destroy then Reply(st, QueryAnswer(false, None))
          else if attribute == EGL_CONFIG_ID then Reply(st, QueryAnswer(true, Some(c.configId)))
          else if attribute == EGL_CONTEXT_CLIENT_TYPE then Reply(st, QueryAnswer(true, Some(EGL_OPENGL_API)))
          else if attribute == EGL_CONTEXT_CLIENT_VERSION then Reply(st, QueryAnswer(false, None))
          else if attribute == EGL_RENDER_BUFFER then Reply(st, RenderBuffer(d, ctx))
          else Fail(st, EGL_BAD_PARAMETER, QueryAnswer(false, None))
  }

  /** The first `n` configs of a list (none for n <= 0). */
  function Front(cs: seq<Config>, n: int): seq<Config>
  {
    if n <= 0 then [] else if n < |cs| then cs[..n] else cs
  }

  /** `_eglGetConfigs`: the output and count pointers are reduced to whether they are null. */
  function GetConfigs(st: State, dpy: nat, configsGiven: bool, configSize: int, countGiven: bool): Reply<Option<seq<Config>>>
  {
    if !configsGiven || configSize == 0 || !countGiven then Fail(st, EGL_BAD_PARAMETER, None)
    else match Find(st.displays, DisplayHandle(dpy))
      case None => Fail(st, EGL_BAD_DISPLAY, None)
      case Some(i) =>
        var d := st.displays[i];
        if !d.initialized || d.destroy then Fail(st, EGL_NOT_INITIALIZED, None)
        else Reply(st, Some(Front(d.configs, configSize)))
  }

  /** `_eglChooseConfig` on the registry: argument checks, display lookup, then the selection engine. */
  function ChooseConfig(st: State, dpy: nat, attribs: Option<seq<int>>, configsGiven: bool, configSize: int, countGiven: bool): Reply<Option<seq<Config>>>
    requires attribs.Some? ==> Terminated(attribs.value)
    requires configSize >= 0
  {
    if attribs.None? || !configsGiven || configSize == 0 || !countGiven then Fail(st, EGL_BAD_PARAMETER, None)
    else match Find(st.displays, DisplayHandle(dpy))
      case None => Fail(st, EGL_BAD_DISPLAY, None)
      case Some(i) =>
        var d := st.displays[i];
        if !d.initialized || d.destroy then Fail(st, EGL_NOT_INITIALIZED, None)
        else match ConfigSelect.ChooseConfigs(attribs.value, d.configs, configSize)
          case Err(e) => Fail(st, e, None)
          case Ok(cs) => Reply(st, Some(cs))
  }

  // ---------------------------------------------------------------------
  // The native make-current hooks' argument guards
  // ---------------------------------------------------------------------

  datatype NativeCall = Refuse | Unbind | BindNative

  /** `__makeCurrent` of egl_x11.cpp: surface and context must both be given or both be absent. */
  function X11MakeCurrentCall(hasSurface: bool, hasContext: bool): (r: NativeCall)
    ensures r == Refuse <==> (hasSurface && !hasContext) || (!hasSurface && hasContext)
    ensures r == Unbind <==> !hasSurface && !hasContext
  {
    if hasSurface != hasContext then Refuse else if !hasContext then Unbind else BindNative
  }

  /** `__makeCurrent` of egl_windows.cpp: only a context without a surface is refused. */
  function WglMakeCurrentCall(hasSurface: bool, hasContext: bool): (r: NativeCall)
    ensures r == Refuse <==> hasContext && !hasSurface
    ensures r == Unbind <==> !hasContext
  {
    if hasContext && !hasSurface then Refuse else if !hasContext then Unbind else BindNative
  }
}
