// The registry of the self-contained C variants egl_x11.c and egl_windows.c
// as values.  They keep the same lists as egl_common.cpp, so the state is
// RegistryModel's; what differs is written here: the cleanup walkers (a
// share guard that never advances, and on Windows a `next` read through a
// null walker), the success answers, the OpenGL-only API, the context
// creation without version checks, and the X11 root materialisation that
// drops the native context it creates.

module LegacyRegistryModel {
  import opened EglDefs
  import ContextAttribs
  import opened RegistryModel
  import LegacyConfigSelect

  /** Why a call never comes back: a loop that stops advancing, or a read through a null walker. */
  datatype Fault = Hang | NullDeref

  /** What a call that may not come back yields. */
  datatype Outcome<T> = Done(value: T) | Stuck(fault: Fault)

  /** The X11 walkers test the walker before stepping to `next`; the Windows surface and context walkers do not. */
  predicate NullChecked(p: Platform) { p == X11 }

  /** The inline attribute translation each variant carries. */
  function LegacyBackend(p: Platform): ContextAttribs.Backend
  {
    if p == X11 then ContextAttribs.GlxLegacy else ContextAttribs.WglLegacy
  }

  // ---------------------------------------------------------------------
  // _eglInternalCleanup
  // ---------------------------------------------------------------------

  /** Some context of `list` names `c` as its share source: the inner loop of the context walker then spins. */
  predicate NamedAsShare(list: seq<Context>, c: Context)
  {
    exists j :: 0 <= j < |list| && list[j].sharedCtx == c.handle
  }

  /** The surface walker has no guard. */
  function NoGuard<T>(): (seq<T>, T) -> bool
  {
    (list: seq<T>, x: T) => false
  }

  /** The context walker's guard, tested on the whole current list before the node is. */
  function ShareGuard(): (seq<Context>, Context) -> bool
  {
    (list: seq<Context>, c: Context) => NamedAsShare(list, c)
  }

  /**
   * One walker pass of the C variants: `kept` lies before the walker and
   * `kept + rest` is the list as it stands.  `guard` is tested on each node
   * the walker reaches; when it holds, the pass never ends.  Removing a node
   * without predecessor makes the next one the head, which the walker steps
   * past; with no next node an unchecked walker then reads through null.
   */
  function PassFrom<T>(kept: seq<T>, rest: seq<T>, guard: (seq<T>, T) -> bool, doomed: T -> bool, checked: bool): Outcome<seq<T>>
    decreases |rest|
  {
    if |rest| == 0 then Done(kept)
    else if guard(kept + rest, rest[0]) then Stuck(Hang)
    else if doomed(rest[0]) then
      if |kept| > 0 then PassFrom(kept, rest[1..], guard, doomed, checked)
      else if |rest| > 1 then PassFrom([rest[1]], rest[2..], guard, doomed, checked)
      else if checked then Done([])
      else Stuck(NullDeref)
    else PassFrom(kept + [rest[0]], rest[1..], guard, doomed, checked)
  }

  function Pass<T>(s: seq<T>, guard: (seq<T>, T) -> bool, doomed: T -> bool, checked: bool): Outcome<seq<T>>
  {
    PassFrom([], s, guard, doomed, checked)
  }

  /** The surface pass, then the context pass, over one display. */
  function CleanDisplay(d: Display, threadCurrent: nat, checked: bool): Outcome<Display>
  {
    match Pass(d.surfaces, NoGuard(), SurfaceDoomed(d.currentDraw, d.currentRead), checked)
    case Stuck(f) => Stuck(f)
    case Done(surfaces) =>
      match Pass(d.contexts, ShareGuard(), ContextDoomed(d.currentCtx, threadCurrent), checked)
      case Stuck(f) => Stuck(f)
      case Done(contexts) => Done(d.(surfaces := surfaces, contexts := contexts))
  }

  /** The display walker, which tests its walker in both variants. */
  function CleanupFrom(kept: seq<Display>, rest: seq<Display>, threadCurrent: nat, checked: bool): Outcome<seq<Display>>
    decreases |rest|
  {
    if |rest| == 0 then Done(kept)
    else match CleanDisplay(rest[0], threadCurrent, checked)
      case Stuck(f) => Stuck(f)
      case Done(x) =>
        if DisplayDoomed(x) then
          if |kept| > 0 then CleanupFrom(kept, rest[1..], threadCurrent, checked)
          else if |rest| > 1 then CleanupFrom([rest[1]], rest[2..], threadCurrent, checked)
          else Done([])
        else CleanupFrom(kept + [x], rest[1..], threadCurrent, checked)
  }

  function Cleanup(st: State, p: Platform): Outcome<State>
  {
    match CleanupFrom([], st.displays, st.currentCtx, NullChecked(p))
    case Stuck(f) => Stuck(f)
    case Done(ds) => Done(st.(displays := ds))
  }

  /** A cleanup ending an entry point that answers `r` once it comes back. */
  function Finish<R>(o: Outcome<State>, r: R): Outcome<Reply<R>>
  {
    match o
    case Stuck(f) => Stuck(f)
    case Done(st) => Done(Reply(st, r))
  }

  // ---------------------------------------------------------------------
  // Entry points
  // ---------------------------------------------------------------------

  /** `_eglGetDisplay`: an unknown id gets a new display, prepended, storing the id as given. */
  function GetDisplay(st: State, displayId: int, nativeReady: bool): Reply<nat>
  {
    if !nativeReady then Reply(st, NO_HANDLE)
    else match Find(st.displays, DisplayId(displayId))
      case Some(i) => Reply(st, st.displays[i].handle)
      case None =>
        var d := Display(st.nextHandle, displayId, false, false, [], [], [], NO_HANDLE, NO_HANDLE, NO_HANDLE);
        Reply(st.(displays := [d] + st.displays, nextHandle := st.nextHandle + 1), st.nextHandle)
  }

  /**
   * `_eglInitialize`: a display is initialised at most once.  It is flagged
   * initialised before its configs are enumerated; `enumerated` is the list
   * the enumeration appended before it ended, `complete` whether it ended
   * without a native failure.
   */
  function Initialize(st: State, dpy: nat, enumerated: seq<Config>, complete: bool): Reply<Option<Version>>
  {
    match Find(st.displays, DisplayHandle(dpy))
    case None => Fail(st, EGL_BAD_DISPLAY, None)
    case Some(i) =>
      var d := st.displays[i];
      if d.initialized || d.destroy then Fail(st, EGL_NOT_INITIALIZED, None)
      else
        var d' := d.(initialized := true, configs := if |enumerated| == 0 then d.configs else enumerated);
        var st' := st.(displays := st.displays[i := d']);
        if complete then Reply(st', Some(Version(1, 5))) else Fail(st', EGL_NOT_INITIALIZED, None)
  }

  /**
   * `_eglChooseConfig` of the C variants: the argument checks, then the
   * display lookup (EGL_NOT_INITIALIZED for a dead display, EGL_BAD_DISPLAY
   * for an unknown handle), then the exact-match selection.
   */
  function ChooseConfig(st: State, p: Platform, dpy: nat, attribs: Option<seq<int>>, configsGiven: bool,
                        configSize: int, countGiven: bool): Reply<Option<seq<Config>>>
    requires attribs.Some? ==> Terminated(attribs.value)
  {
    if !LegacyConfigSelect.ArgumentsOk(attribs, configsGiven, configSize, countGiven) then Fail(st, EGL_BAD_PARAMETER, None)
    else match Find(st.displays, DisplayHandle(dpy))
      case None => Fail(st, EGL_BAD_DISPLAY, None)
      case Some(i) =>
        var d := st.displays[i];
        if !d.initialized || d.destroy then Fail(st, EGL_NOT_INITIALIZED, None)
        else match LegacyConfigSelect.ChooseConfigs(p, attribs, configsGiven, d.configs, configSize, countGiven)
          case Err(e) => Fail(st, e, None)
          case Ok(cs) => Reply(st, Some(cs))
  }

  /** `_eglTerminate`: flags a live display and sweeps, answering EGL_TRUE. */
  function Terminate(st: State, p: Platform, dpy: nat): Outcome<Reply<bool>>
  {
    match Find(st.displays, DisplayHandle(dpy))
    case None => Done(Fail(st, EGL_BAD_DISPLAY, false))
    case Some(i) =>
      var d := st.displays[i];
      if !d.initialized || d.destroy then Done(Fail(st, EGL_BAD_DISPLAY, false))
      else Finish(Cleanup(st.(displays := st.displays[i := d.(initialized := false, destroy := true)]), p), true)
  }

  /** `_eglBindAPI`: only OpenGL may be bound. */
  function BindApi(st: State, api: int): (r: Reply<bool>)
    ensures r.result <==> api == EGL_OPENGL_API
    ensures r.state.api == (if api == EGL_OPENGL_API then api else st.api)
    ensures r.state.error == (if api == EGL_OPENGL_API then st.error else EGL_BAD_PARAMETER)
    ensures r.state.displays == st.displays && r.state.currentCtx == st.currentCtx && r.state.nextHandle == st.nextHandle
  {
    if api == EGL_OPENGL_API then Reply(st.(api := api), true)
    else Reply(st.(error := EGL_BAD_PARAMETER), false)
  }

  /**
   * `_eglCreateContext`: no version or conformance test; the attributes
   * are translated by the inline loop, and a share context must be live on
   * some display.  The new context is prepended.
   */
  function CreateContext(st: State, p: Platform, dpy: nat, configId: int, share: nat, attribs: Option<seq<int>>): Reply<nat>
    requires attribs.Some? ==> Terminated(attribs.value)
  {
    if attribs.None? then Fail(st, EGL_BAD_PARAMETER, NO_HANDLE)
    else if st.api == EGL_NONE then Fail(st, EGL_BAD_MATCH, NO_HANDLE)
    else match Find(st.displays, DisplayHandle(dpy))
      case None => Fail(st, EGL_BAD_DISPLAY, NO_HANDLE)
      case Some(i) =>
        var d := st.displays[i];
        if !d.initialized || d.destroy then Fail(st, EGL_NOT_INITIALIZED, NO_HANDLE)
        else match Find(d.configs, ConfigWithId(configId))
          case None => Fail(st, EGL_BAD_CONFIG, NO_HANDLE)
          case Some(k) => CreateContextChecked(st, p, i, configId, share, attribs.value)
  }

  /** The rest of `_eglCreateContext` once the display at `i` and the config are found. */
  function CreateContextChecked(st: State, p: Platform, i: nat, configId: int, share: nat, attribs: seq<int>): Reply<nat>
    requires Terminated(attribs) && i < |st.displays|
  {
    match ContextAttribs.ContextAttribList(LegacyBackend(p), st.api, attribs)
    case Err(e) => Fail(st, e, NO_HANDLE)
    case Ok(target) =>
      if !ShareUsable(st.displays, share) then Fail(st, EGL_BAD_CONTEXT, NO_HANDLE)
      else
        var d := st.displays[i];
        var c := Context(st.nextHandle, true, false, configId, share, target, []);
        Reply(st.(displays := st.displays[i := d.(contexts := [c] + d.contexts)], nextHandle := st.nextHandle + 1), st.nextHandle)
  }

  /** `_eglDestroyContext`: flags a live context and sweeps, answering EGL_TRUE. */
  function DestroyContext(st: State, p: Platform, dpy: nat, ctx: nat): Outcome<Reply<bool>>
  {
    match Find(st.displays, DisplayHandle(dpy))
    case None => Done(Fail(st, EGL_BAD_DISPLAY, false))
    case Some(i) =>
      var d := st.displays[i];
      if !d.initialized || d.destroy then Done(Fail(st, EGL_NOT_INITIALIZED, false))
      else match Find(d.contexts, ContextHandle(ctx))
        case None => Done(Fail(st, EGL_BAD_CONTEXT, false))
        case Some(k) =>
          var c := d.contexts[k];
          if !c.initialized || c.destroy then Done(Fail(st, EGL_BAD_CONTEXT, false))
          else
            var d' := d.(contexts := d.contexts[k := c.(initialized := false, destroy := true)]);
            Finish(Cleanup(st.(displays := st.displays[i := d']), p), true)
  }

  /** `_eglDestroySurface`: flags a live surface and sweeps, answering EGL_TRUE. */
  function DestroySurface(st: State, p: Platform, dpy: nat, surface: nat): Outcome<Reply<bool>>
  {
    match Find(st.displays, DisplayHandle(dpy))
    case None => Done(Fail(st, EGL_BAD_DISPLAY, false))
    case Some(i) =>
      var d := st.displays[i];
      if !d.initialized || d.destroy then Done(Fail(st, EGL_NOT_INITIALIZED, false))
      else match Find(d.surfaces, SurfaceHandle(surface))
        case None => Done(Fail(st, EGL_BAD_SURFACE, false))
        case Some(k) =>
          var s := d.surfaces[k];
          if !s.initialized || s.destroy then Done(Fail(st, EGL_BAD_SURFACE, false))
          else
            var d' := d.(surfaces := d.surfaces[k := s.(initialized := false, destroy := true)]);
            Finish(Cleanup(st.(displays := st.displays[i := d']), p), true)
  }

  // ---------------------------------------------------------------------
  // _eglMakeCurrent
  // ---------------------------------------------------------------------

  /**
   * A new native context for the context at `l`.  Windows does what
   * egl_common.cpp does.  X11, when it has to materialise the root ancestor,
   * drops the context the native layer creates and records instead what
   * the fresh node's `ctx` field held, `stale`; a zero there fails the
   * call, and otherwise the root's entry and the new context's share both
   * name `stale`.
   */
  function CreateNative(st: State, p: Platform, l: Loc, draw: nat, native: NativeResults, parent: ShareChoice, stale: nat): (r: Reply<bool>)
    requires ValidLoc(st.displays, l) && (parent.MaterialiseRoot? ==> ValidLoc(st.displays, parent.root))
    ensures |r.state.displays| == |st.displays|
  {
    if p == Windows || parent.ShareWith? then RegistryModel.CreateNative(st, l, draw, native, parent)
    else if stale == NO_HANDLE then Reply(st, false)
    else
      var st1 := st.(displays := AddNative(st.displays, parent.root, NativeContext(draw, stale, NO_HANDLE)));
      if !native.ctxCreated then Reply(st1, false)
      else Reply(st1.(displays := AddNative(st1.displays, l, NativeContext(draw, st1.nextHandle, stale)), nextHandle := st1.nextHandle + 1), true)
  }

  /** The native context of the context at `l` for `draw`: reused when there is one. */
  function Attach(st: State, p: Platform, l: Loc, draw: nat, native: NativeResults, stale: nat): (r: Reply<bool>)
    requires ValidLoc(st.displays, l) && Descending(st.displays)
    ensures |r.state.displays| == |st.displays|
  {
    var c := ContextAt(st.displays, l);
    if Find(c.natives, ForSurface(draw)).Some? then Reply(st, true)
    else CreateNative(st, p, l, draw, native, ShareParent(st.displays, l), stale)
  }

  /** The native bind, then the current triple, the thread's context and the sweep. */
  function Bind(st: State, p: Platform, i: nat, draw: nat, read: nat, ctx: nat, bound: bool): Outcome<Reply<bool>>
    requires i < |st.displays|
  {
    if !bound then Done(Fail(st, EGL_BAD_MATCH, false))
    else
      var d := st.displays[i].(currentDraw := draw, currentRead := read, currentCtx := ctx);
      Finish(Cleanup(st.(displays := st.displays[i := d], currentCtx := ctx), p), true)
  }

  /** `_eglMakeCurrent`: the checks of egl_common.cpp in the same order. */
  function MakeCurrent(st: State, p: Platform, dpy: nat, draw: nat, read: nat, ctx: nat, native: NativeResults, stale: nat): Outcome<Reply<bool>>
    requires Descending(st.displays)
  {
    if HandlesMismatch(draw, read, ctx) then Done(Fail(st, EGL_BAD_MATCH, false))
    else match Find(st.displays, DisplayHandle(dpy))
      case None => Done(Fail(st, EGL_BAD_DISPLAY, false))
      case Some(i) =>
        var d := st.displays[i];
        if !d.initialized || d.destroy then Done(Fail(st, EGL_NOT_INITIALIZED, false))
        else if SurfaceCheck(d, draw).Err? then Done(Fail(st, SurfaceCheck(d, draw).error, false))
        else if SurfaceCheck(d, read).Err? then Done(Fail(st, SurfaceCheck(d, read).error, false))
        else MakeCurrentOn(st, p, i, draw, read, ctx, native, stale)
  }

  /** The rest of `_eglMakeCurrent` once the display at `i` and both surfaces have passed their checks. */
  function MakeCurrentOn(st: State, p: Platform, i: nat, draw: nat, read: nat, ctx: nat, native: NativeResults, stale: nat): Outcome<Reply<bool>>
    requires i < |st.displays| && Descending(st.displays)
  {
    var d := st.displays[i];
    if ctx == NO_HANDLE then Bind(st, p, i, NO_HANDLE, NO_HANDLE, NO_HANDLE, native.bound)
    else match Find(d.contexts, ContextHandle(ctx))
      case None => Done(Fail(st, EGL_BAD_CONTEXT, false))
      case Some(k) =>
        if !d.contexts[k].initialized || d.contexts[k].destroy then Done(Fail(st, EGL_BAD_CONTEXT, false))
        else
          var attached := Attach(st, p, Loc(i, k), draw, native, stale);
          if !attached.result then Done(attached)
          else Bind(attached.state, p, i, draw, read, ctx, native.bound)
  }
}
