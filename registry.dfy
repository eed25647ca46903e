// The registry as egl_common.cpp keeps it: one object holding the display
// list and the thread's record, whose entry points walk the lists with
// loops, relink them and update the record in place.  Each entry point is
// proved to leave exactly the state, and return exactly the value, that the
// function of the same name in RegistryModel describes, and to keep the
// registry invariant.

module Registry {
  import opened EglDefs
  import ConfigSelect
  import ContextAttribs
  import SurfaceAttribs
  import opened RegistryModel
  import RegistryProperties

  // ---------------------------------------------------------------------
  // The list walkers
  // ---------------------------------------------------------------------

  /** A `while (walker)` search: the position of the first element satisfying `p`. */
  method FindIndex<T>(s: seq<T>, p: T -> bool) returns (r: Option<nat>)
    ensures r == Find(s, p)
  {
    var i := 0;
    while i < |s|
      invariant 0 <= i <= |s|
      invariant forall j :: 0 <= j < i ==> !p(s[j])
    {
      if p(s[i]) {
        return Some(i);
      }
      i := i + 1;
    }
    return None;
  }

  /** The share-context search: every display's context list in turn. */
  method LocateContext(ds: seq<Display>, h: nat) returns (r: Option<Loc>)
    ensures r == FindContext(ds, h)
  {
    var k := 0;
    while k < |ds|
      invariant 0 <= k <= |ds|
      invariant FindContextFrom(ds, h, k) == FindContext(ds, h)
    {
      var c := FindIndex(ds[k].contexts, ContextHandle(h));
      if c.Some? {
        return Some(Loc(k, c.value));
      }
      k := k + 1;
    }
    return None;
  }

  /** The walk up the share chain of `_eglMakeCurrent`; it ends because every context shares with an older one. */
  method ShareWalk(ds: seq<Display>, l: Loc) returns (r: ShareChoice)
    requires ValidLoc(ds, l) && Descending(ds)
    ensures r == Walk(ds, l)
  {
    var cur := l;
    while true
      invariant ValidLoc(ds, cur) && Walk(ds, cur) == Walk(ds, l)
      decreases ContextAt(ds, cur).handle
    {
      var c := ContextAt(ds, cur);
      if |c.natives| > 0 {
        return ShareWith(c.natives[0].handle);
      }
      if c.sharedCtx == NO_HANDLE {
        return MaterialiseRoot(cur);
      }
      var next := LocateContext(ds, c.sharedCtx);
      if next.None? {
        return MaterialiseRoot(cur);
      }
      cur := next.value;
    }
  }

  /** The share parent of the context at `l`: along its share chain, or else its own newest native context. */
  method ChooseShareParent(ds: seq<Display>, l: Loc) returns (r: ShareChoice)
    requires ValidLoc(ds, l) && Descending(ds)
    ensures r == ShareParent(ds, l)
  {
    var c := ContextAt(ds, l);
    var link: Option<Loc> := None;
    if c.sharedCtx != NO_HANDLE {
      link := LocateContext(ds, c.sharedCtx);
    }
    if link.None? {
      return ShareWith(if |c.natives| > 0 then c.natives[0].handle else NO_HANDLE);
    }
    r := ShareWalk(ds, link.value);
  }

  /**
   * One cleanup walker over a list.  A removed node with no predecessor
   * makes its successor the new head, and the walker then moves past that
   * successor without testing it.
   */
  method SweepList<T>(s: seq<T>, doomed: T -> bool) returns (r: seq<T>)
    ensures r == Sweep(s, Unchanged, doomed)
  {
    r := [];
    var i := 0;
    while i < |s|
      invariant 0 <= i <= |s|
      invariant SweepFrom(r, s[i..], Unchanged, doomed) == Sweep(s, Unchanged, doomed)
      decreases |s| - i
    {
      assert s[i..][0] == s[i] && s[i..][1..] == s[i + 1..];
      if !doomed(s[i]) {
        r := r + [s[i]];
        i := i + 1;
      } else if |r| > 0 {
        i := i + 1;
      } else if i + 1 < |s| {
        assert s[i..][1] == s[i + 1] && s[i..][2..] == s[i + 2..];
        r := [s[i + 1]];
        i := i + 2;
      } else {
        i := i + 1;
      }
    }
    assert s[i..] == [];
  }

  /** The copy loop of `_eglGetConfigs`: at most `n` configs from the front of the list. */
  method CopyFront(cs: seq<Config>, n: int) returns (r: seq<Config>)
    ensures r == Front(cs, n)
  {
    r := [];
    var i := 0;
    while i < |cs| && i < n
      invariant 0 <= i <= |cs| && (i == 0 || i <= n)
      invariant r == cs[..i]
    {
      r := r + [cs[i]];
      i := i + 1;
    }
    if n > 0 && n < |cs| {
      assert i == n;
    } else if n > 0 {
      assert cs[..i] == cs;
    }
  }

  /** The version scan of `_eglCreateContext`. */
  method ScanRequestedVersion(a: seq<int>) returns (v: Version)
    requires Terminated(a)
    ensures v == RequestedVersion(a)
  {
    v := Version(1, 0);
    var i := 0;
    while a[i] != EGL_NONE
      invariant i % 2 == 0 && i < |a|
      invariant ScanVersion(a, i, v) == RequestedVersion(a)
      decreases |a| - i
    {
      if a[i] == EGL_CONTEXT_MAJOR_VERSION {
        v := v.(major := a[i + 1]);
      } else if a[i] == EGL_CONTEXT_MINOR_VERSION {
        v := v.(minor := a[i + 1]);
      }
      i := i + 2;
    }
  }

  /** A surface handle of the display, looked up and checked as `_eglMakeCurrent` does. */
  method CheckSurface(d: Display, h: nat) returns (r: Result<nat>)
    ensures r == SurfaceCheck(d, h)
  {
    if h == NO_HANDLE {
      return Ok(NO_HANDLE);
    }
    var k := FindIndex(d.surfaces, SurfaceHandle(h));
    if k.None? {
      return Err(EGL_BAD_SURFACE);
    }
    var s := d.surfaces[k.value];
    if !s.initialized || s.destroy {
      return Err(EGL_BAD_NATIVE_WINDOW);
    }
    return Ok(h);
  }

  // ---------------------------------------------------------------------
  // The registry object
  // ---------------------------------------------------------------------

  class Egl {
    /** The display list, newest first; each display holds its configs, surfaces and contexts. */
    var displays: seq<Display>
    /** The thread's record. */
    var error: int
    var api: int
    var currentCtx: nat
    /** The next fresh handle: what an allocation returns. */
    var nextHandle: nat

    /** The highest context versions the native layer accepts, found when the library starts. */
    const limits: Limits
    /** The back end whose `__processAttribList` translates context attributes. */
    const backend: ContextAttribs.Backend
    /** The id of the native default display. */
    const defaultId: int

    function Model(): State
      reads this
    {
      State(displays, error, api, currentCtx, nextHandle)
    }

    /** The registry is valid; so its contexts share only with older ones, as the share walk needs. */
    predicate Inv()
      reads this
      ensures Inv() ==> Descending(displays)
    {
      if Valid(Model()) then RegistryProperties.ValidDescending(Model()); true else false
    }

    constructor(limits: Limits, backend: ContextAttribs.Backend, defaultId: int)
      ensures Model() == InitialState() && Inv()
      ensures this.limits == limits && this.backend == backend && this.defaultId == defaultId
    {
      this.limits := limits;
      this.backend := backend;
      this.defaultId := defaultId;
      displays := [];
      error := EGL_SUCCESS;
      api := EGL_NONE;
      currentCtx := NO_HANDLE;
      nextHandle := 1;
    }

    /** `_eglInternalCleanup`: the display walker, cleaning each display's surfaces and contexts before testing it. */
    method Cleanup()
      modifies this
      ensures Model() == RegistryModel.Cleanup(old(Model()))
    {
      var ds := displays;
      var threadCurrent := currentCtx;
      var clean := CleanDisplay(threadCurrent);
      var kept: seq<Display> := [];
      var i := 0;
      while i < |ds|
        invariant 0 <= i <= |ds|
        invariant SweepFrom(kept, ds[i..], clean, DisplayDoomed) == Sweep(ds, clean, DisplayDoomed)
        invariant Model() == old(Model())
        decreases |ds| - i
      {
        assert ds[i..][0] == ds[i] && ds[i..][1..] == ds[i + 1..];
        var d := ds[i];
        var surfaces := SweepList(d.surfaces, SurfaceDoomed(d.currentDraw, d.currentRead));
        var contexts := SweepList(d.contexts, ContextDoomed(d.currentCtx, threadCurrent));
        var x := d.(surfaces := surfaces, contexts := contexts);
        assert x == clean(d);
        if !DisplayDoomed(x) {
          kept := kept + [x];
          i := i + 1;
        } else if |kept| > 0 {
          i := i + 1;
        } else if i + 1 < |ds| {
          assert ds[i..][1] == ds[i + 1] && ds[i..][2..] == ds[i + 2..];
          kept := [ds[i + 1]];
          i := i + 2;
        } else {
          i := i + 1;
        }
      }
      assert ds[i..] == [];
      displays := kept;
    }

    /** `_eglGetDisplay`; `nativeReady` is whether the native layer could be set up. */
    method GetDisplay(displayId: int, nativeReady: bool) returns (dpy: nat)
      requires Inv()
      modifies this
      ensures Inv()
      ensures Model() == RegistryModel.GetDisplay(old(Model()), displayId, defaultId, nativeReady).state
      ensures dpy == RegistryModel.GetDisplay(old(Model()), displayId, defaultId, nativeReady).result
    {
      RegistryProperties.GetDisplayValid(Model(), displayId, defaultId, nativeReady);
      if !nativeReady {
        return NO_HANDLE;
      }
      var i := FindIndex(displays, DisplayId(displayId));
      if i.Some? {
        return displays[i.value].handle;
      }
      var d := Display(nextHandle, if displayId != 0 then displayId else defaultId, false, false,
                       [], [], [], NO_HANDLE, NO_HANDLE, NO_HANDLE);
      displays := [d] + displays;
      dpy := nextHandle;
      nextHandle := nextHandle + 1;
    }

    /** `_eglInitialize`; `derived` is what the back end's config derivation yields for the display. */
    method Initialize(dpy: nat, derived: Option<seq<Config>>) returns (version: Option<Version>)
      requires Inv()
      modifies this
      ensures Inv()
      ensures Model() == RegistryModel.Initialize(old(Model()), dpy, derived).state
      ensures version == RegistryModel.Initialize(old(Model()), dpy, derived).result
    {
      RegistryProperties.InitializeValid(Model(), dpy, derived);
      var i := FindIndex(displays, DisplayHandle(dpy));
      if i.None? {
        error := EGL_BAD_DISPLAY;
        return None;
      }
      var d := displays[i.value];
      if d.destroy {
        error := EGL_NOT_INITIALIZED;
        return None;
      }
      if d.initialized {
        return Some(Version(1, 5));
      }
      if derived.None? {
        error := EGL_NOT_INITIALIZED;
        return None;
      }
      displays := displays[i.value := d.(initialized := true, configs := derived.value)];
      return Some(Version(1, 5));
    }

    /** `_eglTerminate` */
    method Terminate(dpy: nat) returns (ok: bool)
      requires Inv()
      modifies this
      ensures Inv()
      ensures Model() == RegistryModel.Terminate(old(Model()), dpy).state
      ensures ok == RegistryModel.Terminate(old(Model()), dpy).result
    {
      RegistryProperties.TerminateValid(Model(), dpy);
      var i := FindIndex(displays, DisplayHandle(dpy));
      if i.Some? {
        var d := displays[i.value];
        if d.initialized && !d.destroy {
          displays := displays[i.value := d.(initialized := false, destroy := true)];
          Cleanup();
        }
      }
      error := EGL_BAD_DISPLAY;
      return false;
    }

    /** `_eglGetError` */
    method GetError() returns (e: int)
      modifies this
      ensures Model() == RegistryModel.GetError(old(Model())).state
      ensures e == RegistryModel.GetError(old(Model())).result
    {
      e := error;
      error := EGL_SUCCESS;
    }

    /** `_eglBindAPI` */
    method BindApi(requested: int) returns (ok: bool)
      modifies this
      ensures Model() == RegistryModel.BindApi(old(Model()), requested).state
      ensures ok == RegistryModel.BindApi(old(Model()), requested).result
    {
      if requested == EGL_OPENGL_API || requested == EGL_OPENGL_ES_API {
        api := requested;
        return true;
      }
      error := EGL_BAD_PARAMETER;
      return false;
    }

    /** The checks of `_eglCreateContext`, translating the attributes into a new array. */
    method VetContext(dpy: nat, configId: int, share: nat, attribs: Option<seq<int>>) returns (v: ContextVerdict)
      requires attribs.Some? ==> Terminated(attribs.value)
      ensures v == RegistryModel.VetContext(Model(), limits, backend, dpy, configId, share, attribs)
    {
      if attribs.None? {
        return Reject(Some(EGL_BAD_PARAMETER));
      }
      if api == EGL_NONE {
        return Reject(Some(EGL_BAD_MATCH));
      }
      var requested := ScanRequestedVersion(attribs.value);
      if api == EGL_OPENGL_API && !WithinLimit(requested, limits.gl) {
        return Reject(None);
      }
      if api == EGL_OPENGL_ES_API && !WithinLimit(requested, limits.es) {
        return Reject(None);
      }
      if api != EGL_OPENGL_API && api != EGL_OPENGL_ES_API {
        return Reject(None);
      }
      var i := FindIndex(displays, DisplayHandle(dpy));
      if i.None? {
        return Reject(Some(EGL_BAD_DISPLAY));
      }
      var d := displays[i.value];
      if !d.initialized || d.destroy {
        return Reject(Some(EGL_NOT_INITIALIZED));
      }
      var k := FindIndex(d.configs, ConfigWithId(configId));
      if k.None? {
        return Reject(Some(EGL_BAD_CONFIG));
      }
      if api == EGL_OPENGL_ES_API && !SharesBit(d.configs[k.value].conformant, EGL_OPENGL_ES3_BIT) {
        return Reject(None);
      }
      var target := new int[|ContextAttribs.Template(backend, api)|];
      var failed := ContextAttribs.ProcessAttribList(backend, api, target, attribs.value);
      if failed.Some? {
        return Reject(failed);
      }
      if share != NO_HANDLE {
        var s := LocateContext(displays, share);
        if s.None? || !ContextAt(displays, s.value).initialized || ContextAt(displays, s.value).destroy {
          return Reject(Some(EGL_BAD_CONTEXT));
        }
      }
      return Admit(i.value, target[..]);
    }

    /** `_eglCreateContext`; `attribs` is None for a null attribute list. */
    method CreateContext(dpy: nat, configId: int, share: nat, attribs: Option<seq<int>>) returns (ctx: nat)
      requires Inv() && (attribs.Some? ==> Terminated(attribs.value))
      modifies this
      ensures Inv()
      ensures Model() == RegistryModel.CreateContext(old(Model()), limits, backend, dpy, configId, share, attribs).state
      ensures ctx == RegistryModel.CreateContext(old(Model()), limits, backend, dpy, configId, share, attribs).result
    {
      RegistryProperties.CreateContextValid(Model(), limits, backend, dpy, configId, share, attribs);
      var v := VetContext(dpy, configId, share, attribs);
      match v
      case Reject(e) =>
        if e.Some? {
          error := e.value;
        }
        return NO_HANDLE;
      case Admit(i, target) =>
        var d := displays[i];
        var c := Context(nextHandle, true, false, configId, share, target, []);
        displays := displays[i := d.(contexts := [c] + d.contexts)];
        ctx := nextHandle;
        nextHandle := nextHandle + 1;
    }

    /** `_eglCreateWindowSurface` and `_eglCreatePbufferSurface`; `hook` is the back end's creation step. */
    method CreateSurface(dpy: nat, configId: int, hook: Config -> SurfaceAttribs.Outcome) returns (surface: nat)
      requires Inv()
      modifies this
      ensures Inv()
      ensures Model() == RegistryModel.CreateSurface(old(Model()), dpy, configId, hook).state
      ensures surface == RegistryModel.CreateSurface(old(Model()), dpy, configId, hook).result
    {
      RegistryProperties.CreateSurfaceValid(Model(), dpy, configId, hook);
      var i := FindIndex(displays, DisplayHandle(dpy));
      if i.None? {
        error := EGL_BAD_DISPLAY;
        return NO_HANDLE;
      }
      var d := displays[i.value];
      if !d.initialized || d.destroy {
        error := EGL_NOT_INITIALIZED;
        return NO_HANDLE;
      }
      var k := FindIndex(d.configs, ConfigWithId(configId));
      if k.None? {
        error := EGL_BAD_CONFIG;
        return NO_HANDLE;
      }
      match hook(d.configs[k.value])
      case Failed(e) =>
        if e.Some? {
          error := e.value;
        }
        return NO_HANDLE;
      case Created(info) =>
        var s := Surface(nextHandle, true, false, info);
        displays := displays[i.value := d.(surfaces := [s] + d.surfaces)];
        surface := nextHandle;
        nextHandle := nextHandle + 1;
    }

    /** `_eglDestroyContext` */
    method DestroyContext(dpy: nat, ctx: nat) returns (ok: bool)
      requires Inv()
      modifies this
      ensures Inv()
      ensures Model() == RegistryModel.DestroyContext(old(Model()), dpy, ctx).state
      ensures ok == RegistryModel.DestroyContext(old(Model()), dpy, ctx).result
    {
      RegistryProperties.DestroyContextValid(Model(), dpy, ctx);
      ok := false;
      var i := FindIndex(displays, DisplayHandle(dpy));
      if i.None? {
        error := EGL_BAD_DISPLAY;
        return;
      }
      var d := displays[i.value];
      if !d.initialized || d.destroy {
        error := EGL_NOT_INITIALIZED;
        return;
      }
      var k := FindIndex(d.contexts, ContextHandle(ctx));
      if k.None? || !d.contexts[k.value].initialized || d.contexts[k.value].destroy {
        error := EGL_BAD_CONTEXT;
        return;
      }
      var c := d.contexts[k.value];
      displays := displays[i.value := d.(contexts := d.contexts[k.value := c.(initialized := false, destroy := true)])];
      Cleanup();
      error := EGL_BAD_DISPLAY;
    }

    /** `_eglDestroySurface` */
    method DestroySurface(dpy: nat, surface: nat) returns (ok: bool)
      requires Inv()
      modifies this
      ensures Inv()
      ensures Model() == RegistryModel.DestroySurface(old(Model()), dpy, surface).state
      ensures ok == RegistryModel.DestroySurface(old(Model()), dpy, surface).result
    {
      RegistryProperties.DestroySurfaceValid(Model(), dpy, surface);
      ok := false;
      var i := FindIndex(displays, DisplayHandle(dpy));
      if i.None? {
        error := EGL_BAD_DISPLAY;
        return;
      }
      var d := displays[i.value];
      if !d.initialized || d.destroy {
        error := EGL_NOT_INITIALIZED;
        return;
      }
      var k := FindIndex(d.surfaces, SurfaceHandle(surface));
      if k.None? || !d.surfaces[k.value].initialized || d.surfaces[k.value].destroy {
        error := EGL_BAD_SURFACE;
        return;
      }
      var s := d.surfaces[k.value];
      displays := displays[i.value := d.(surfaces := d.surfaces[k.value := s.(initialized := false, destroy := true)])];
      Cleanup();
      error := EGL_BAD_DISPLAY;
      ok := true;
    }

    /** The native context of the context at `l` for `draw`: found, or created along the share chain. */
    method Attach(l: Loc, draw: nat, native: NativeResults) returns (ok: bool)
      requires ValidLoc(displays, l) && Descending(displays)
      modifies this
      ensures Model() == RegistryModel.Attach(old(Model()), l, draw, native).state
      ensures ok == RegistryModel.Attach(old(Model()), l, draw, native).result
    {
      var c := ContextAt(displays, l);
      var existing := FindIndex(c.natives, ForSurface(draw));
      if existing.Some? {
        return true;
      }
      var parent := ChooseShareParent(displays, l);
      ok := CreateNative(l, draw, native, parent);
    }

    /** The native context creation of `_eglMakeCurrent`, the root ancestor's first when it has none. */
    method CreateNative(l: Loc, draw: nat, native: NativeResults, parent: ShareChoice) returns (ok: bool)
      requires ValidLoc(displays, l) && (parent.MaterialiseRoot? ==> ValidLoc(displays, parent.root))
      modifies this
      ensures Model() == RegistryModel.CreateNative(old(Model()), l, draw, native, parent).state
      ensures ok == RegistryModel.CreateNative(old(Model()), l, draw, native, parent).result
    {
      match parent
      case MaterialiseRoot(root) =>
        if !native.rootCreated {
          return false;
        }
        var rootNative := NativeContext(draw, nextHandle, NO_HANDLE);
        displays := AddNative(displays, root, rootNative);
        nextHandle := nextHandle + 1;
        if !native.ctxCreated {
          return false;
        }
        displays := AddNative(displays, l, NativeContext(draw, nextHandle, rootNative.handle));
        nextHandle := nextHandle + 1;
        return true;
      case ShareWith(p) =>
        if !native.ctxCreated {
          return false;
        }
        displays := AddNative(displays, l, NativeContext(draw, nextHandle, p));
        nextHandle := nextHandle + 1;
        return true;
    }

    /** The last step of `_eglMakeCurrent`: the native bind, then the current triple and the thread's context. */
    method Bind(i: nat, draw: nat, read: nat, ctx: nat, bound: bool) returns (ok: bool)
      requires i < |displays|
      modifies this
      ensures Model() == RegistryModel.Bind(old(Model()), i, draw, read, ctx, bound).state
      ensures ok == RegistryModel.Bind(old(Model()), i, draw, read, ctx, bound).result
    {
      if !bound {
        error := EGL_BAD_MATCH;
        return false;
      }
      displays := displays[i := displays[i].(currentDraw := draw, currentRead := read, currentCtx := ctx)];
      currentCtx := ctx;
      Cleanup();
      error := EGL_BAD_DISPLAY;
      return true;
    }

    /** `_eglMakeCurrent`; `native` is what the native layer answers to its three calls. */
    method MakeCurrent(dpy: nat, draw: nat, read: nat, ctx: nat, native: NativeResults) returns (ok: bool)
      requires Inv()
      modifies this
      ensures Inv()
      ensures Model() == RegistryModel.MakeCurrent(old(Model()), dpy, draw, read, ctx, native).state
      ensures ok == RegistryModel.MakeCurrent(old(Model()), dpy, draw, read, ctx, native).result
    {
      RegistryProperties.MakeCurrentValid(Model(), dpy, draw, read, ctx, native);
      if HandlesMismatch(draw, read, ctx) {
        error := EGL_BAD_MATCH;
        return false;
      }
      var i := FindIndex(displays, DisplayHandle(dpy));
      if i.None? {
        error := EGL_BAD_DISPLAY;
        return false;
      }
      ok := MakeCurrentOn(i.value, draw, read, ctx, native);
    }

    /** `_eglMakeCurrent` on the display at index `i`. */
    method MakeCurrentOn(i: nat, draw: nat, read: nat, ctx: nat, native: NativeResults) returns (ok: bool)
      requires i < |displays| && Descending(displays)
      modifies this
      ensures Model() == RegistryModel.MakeCurrentOn(old(Model()), i, draw, read, ctx, native).state
      ensures ok == RegistryModel.MakeCurrentOn(old(Model()), i, draw, read, ctx, native).result
    {
      var d := displays[i];
      if !d.initialized || d.destroy {
        error := EGL_NOT_INITIALIZED;
        return false;
      }
      var drawOk := CheckSurface(d, draw);
      if drawOk.Err? {
        error := drawOk.error;
        return false;
      }
      var readOk := CheckSurface(d, read);
      if readOk.Err? {
        error := readOk.error;
        return false;
      }
      if ctx == NO_HANDLE {
        ok := Bind(i, NO_HANDLE, NO_HANDLE, NO_HANDLE, native.bound);
        return;
      }
      var k := FindIndex(d.contexts, ContextHandle(ctx));
      if k.None? || !d.contexts[k.value].initialized || d.contexts[k.value].destroy {
        error := EGL_BAD_CONTEXT;
        return false;
      }
      ok := Switch(Loc(i, k.value), draw, read, ctx, native);
    }

    /** The context at `l` made current: attached to `draw`, then bound. */
    method Switch(l: Loc, draw: nat, read: nat, ctx: nat, native: NativeResults) returns (ok: bool)
      requires ValidLoc(displays, l) && Descending(displays)
      modifies this
      ensures Model() == RegistryModel.Switch(old(Model()), l, draw, read, ctx, native).state
      ensures ok == RegistryModel.Switch(old(Model()), l, draw, read, ctx, native).result
    {
      ok := Attach(l, draw, native);
      if !ok {
        return;
      }
      ok := Bind(l.d, draw, read, ctx, native.bound);
    }

    /** `_eglQueryContext`: whether it succeeds, and what it writes to `*value`. */
    method QueryContext(dpy: nat, ctx: nat, attribute: int) returns (answer: QueryAnswer)
      modifies this
      ensures Model() == RegistryModel.QueryContext(old(Model()), dpy, ctx, attribute).state
      ensures answer == RegistryModel.QueryContext(old(Model()), dpy, ctx, attribute).result
    {
      var i := FindIndex(displays, DisplayHandle(dpy));
      if i.None? {
        error := EGL_BAD_DISPLAY;
        return QueryAnswer(false, None);
      }
      var d := displays[i.value];
      if !d.initialized || d.destroy {
        error := EGL_NOT_INITIALIZED;
        return QueryAnswer(false, None);
      }
      var k := FindIndex(d.contexts, ContextHandle(ctx));
      if k.None? {
        error := EGL_BAD_CONTEXT;
        return QueryAnswer(false, None);
      }
      var c := d.contexts[k.value];
      if !c.initialized || c.destroy {
        return QueryAnswer(false, None);
      }
      if attribute == EGL_CONFIG_ID {
        answer := QueryAnswer(true, Some(c.configId));
      } else if attribute == EGL_CONTEXT_CLIENT_TYPE {
        answer := QueryAnswer(true, Some(EGL_OPENGL_API));
      } else if attribute == EGL_CONTEXT_CLIENT_VERSION {
        answer := QueryAnswer(false, None);
      } else if attribute == EGL_RENDER_BUFFER {
        answer := RenderBuffer(d, ctx);
      } else {
        error := EGL_BAD_PARAMETER;
        answer := QueryAnswer(false, None);
      }
    }

    /** `_eglGetConfigs`; the output and count pointers are reduced to whether they are null. */
    method GetConfigs(dpy: nat, configsGiven: bool, configSize: int, countGiven: bool) returns (r: Option<seq<Config>>)
      modifies this
      ensures Model() == RegistryModel.GetConfigs(old(Model()), dpy, configsGiven, configSize, countGiven).state
      ensures r == RegistryModel.GetConfigs(old(Model()), dpy, configsGiven, configSize, countGiven).result
    {
      if !configsGiven || configSize == 0 || !countGiven {
        error := EGL_BAD_PARAMETER;
        return None;
      }
      var i := FindIndex(displays, DisplayHandle(dpy));
      if i.None? {
        error := EGL_BAD_DISPLAY;
        return None;
      }
      var d := displays[i.value];
      if !d.initialized || d.destroy {
        error := EGL_NOT_INITIALIZED;
        return None;
      }
      var cs := CopyFront(d.configs, configSize);
      return Some(cs);
    }

    /** `_eglChooseConfig`; `attribs` is None for a null attribute list. */
    method ChooseConfig(dpy: nat, attribs: Option<seq<int>>, configsGiven: bool, configSize: int, countGiven: bool)
      returns (r: Option<seq<Config>>)
      requires (attribs.Some? ==> Terminated(attribs.value)) && configSize >= 0
      modifies this
      ensures Model() == RegistryModel.ChooseConfig(old(Model()), dpy, attribs, configsGiven, configSize, countGiven).state
      ensures r == RegistryModel.ChooseConfig(old(Model()), dpy, attribs, configsGiven, configSize, countGiven).result
    {
      if attribs.None? || !configsGiven || configSize == 0 || !countGiven {
        error := EGL_BAD_PARAMETER;
        return None;
      }
      var i := FindIndex(displays, DisplayHandle(dpy));
      if i.None? {
        error := EGL_BAD_DISPLAY;
        return None;
      }
      var d := displays[i.value];
      if !d.initialized || d.destroy {
        error := EGL_NOT_INITIALIZED;
        return None;
      }
      var chosen := ConfigSelect.ChooseConfig(attribs.value, d.configs, configSize);
      match chosen
      case Err(e) =>
        error := e;
        return None;
      case Ok(cs) =>
        return Some(cs);
    }
  }
}
