// The registry of egl_x11.c and egl_windows.c as those files keep it: the
// same lists as egl_common.cpp, walked and relinked in place.  Each entry
// point is proved to do what the function of the same name in
// LegacyRegistryModel describes.  Where the C code would spin or read
// through null, the method stops and reports the fault instead, with the
// registry left as it stood.

module LegacyRegistry {
  import opened EglDefs
  import ContextAttribs
  import opened RegistryModel
  import RegistryProperties
  import Registry
  import Legacy = LegacyRegistryModel
  import LegacyConfigSelect
  import LegacyProps = LegacyRegistryProperties

  /** The method's answer and the registry's new state are the ones the model gives, or its fault when it has one. */
  predicate Settles<R(==)>(o: Legacy.Outcome<Reply<R>>, st: State, r: Legacy.Outcome<R>)
  {
    match o
    case Done(reply) => r == Legacy.Done(reply.result) && st == reply.state
    case Stuck(f) => r == Legacy.Stuck(f)
  }

  // ---------------------------------------------------------------------
  // The cleanup walkers
  // ---------------------------------------------------------------------

  /**
   * One walker pass over a list with the guard `guard`.  Removing the head
   * makes its successor the head, and the walker steps past it untested;
   * an unchecked walker that finds no successor reads through null.
   */
  method PassList<T>(s: seq<T>, guard: (seq<T>, T) -> bool, doomed: T -> bool, checked: bool) returns (o: Legacy.Outcome<seq<T>>)
    ensures o == Legacy.Pass(s, guard, doomed, checked)
  {
    var kept: seq<T> := [];
    var i := 0;
    while i < |s|
      invariant 0 <= i <= |s|
      invariant Legacy.PassFrom(kept, s[i..], guard, doomed, checked) == Legacy.Pass(s, guard, doomed, checked)
      decreases |s| - i
    {
      assert s[i..][0] == s[i] && s[i..][1..] == s[i + 1..];
      if guard(kept + s[i..], s[i]) {
        return Legacy.Stuck(Legacy.Hang);
      }
      if !doomed(s[i]) {
        kept := kept + [s[i]];
        i := i + 1;
      } else if |kept| > 0 {
        i := i + 1;
      } else if i + 1 < |s| {
        assert s[i..][1] == s[i + 1] && s[i..][2..] == s[i + 2..];
        kept := [s[i + 1]];
        i := i + 2;
      } else if checked {
        i := i + 1;
      } else {
        return Legacy.Stuck(Legacy.NullDeref);
      }
    }
    assert s[i..] == [];
    return Legacy.Done(kept);
  }

  /** The inner loop of the context walker: whether some context of `list` shares with `c`, where it would spin. */
  method ShareGuardScan(list: seq<Context>, c: Context) returns (named: bool)
    ensures named == Legacy.NamedAsShare(list, c)
  {
    var j := 0;
    while j < |list|
      invariant 0 <= j <= |list|
      invariant forall m :: 0 <= m < j ==> list[m].sharedCtx != c.handle
    {
      if list[j].sharedCtx == c.handle {
        return true;
      }
      j := j + 1;
    }
    return false;
  }

  /** The context walker: PassList's steps, with the share guard scanned before each node. */
  method ContextPass(s: seq<Context>, doomed: Context -> bool, checked: bool) returns (o: Legacy.Outcome<seq<Context>>)
    ensures o == Legacy.Pass(s, Legacy.ShareGuard(), doomed, checked)
  {
    var kept: seq<Context> := [];
    var i := 0;
    while i < |s|
      invariant 0 <= i <= |s|
      invariant Legacy.PassFrom(kept, s[i..], Legacy.ShareGuard(), doomed, checked) == Legacy.Pass(s, Legacy.ShareGuard(), doomed, checked)
      decreases |s| - i
    {
      assert s[i..][0] == s[i] && s[i..][1..] == s[i + 1..];
      var spins := ShareGuardScan(kept + s[i..], s[i]);
      if spins {
        return Legacy.Stuck(Legacy.Hang);
      }
      if !doomed(s[i]) {
        kept := kept + [s[i]];
        i := i + 1;
      } else if |kept| > 0 {
        i := i + 1;
      } else if i + 1 < |s| {
        assert s[i..][1] == s[i + 1] && s[i..][2..] == s[i + 2..];
        kept := [s[i + 1]];
        i := i + 2;
      } else if checked {
        i := i + 1;
      } else {
        return Legacy.Stuck(Legacy.NullDeref);
      }
    }
    assert s[i..] == [];
    return Legacy.Done(kept);
  }

  // ---------------------------------------------------------------------
  // The registry object
  // ---------------------------------------------------------------------

  class LegacyEgl {
    /** The display list, newest first. */
    var displays: seq<Display>
    /** The thread's record. */
    var error: int
    var api: int
    var currentCtx: nat
    /** The next fresh handle. */
    var nextHandle: nat

    /** Which of the two files this is. */
    const platform: Platform

    function Model(): State
      reads this
    {
      State(displays, error, api, currentCtx, nextHandle)
    }

    /** The registry is valid; so its contexts share only with older ones, as the share walk needs. */
    predicate Inv()
      reads this
      ensures Inv() ==> Descending(displays)
    {
      if Valid(Model()) then RegistryProperties.ValidDescending(Model()); true else false
    }

    constructor(platform: Platform)
      ensures Model() == InitialState() && Inv() && this.platform == platform
    {
      this.platform := platform;
      displays := [];
      error := EGL_SUCCESS;
      api := EGL_NONE;
      currentCtx := NO_HANDLE;
      nextHandle := 1;
      RegistryProperties.InitialValid();
    }

    /** `_eglInternalCleanup`: the display walker, running the surface and the context walker on each display. */
    method Cleanup() returns (fault: Option<Legacy.Fault>)
      modifies this
      ensures fault.None? <==> Legacy.Cleanup(old(Model()), platform).Done?
      ensures fault.None? ==> Model() == Legacy.Cleanup(old(Model()), platform).value
      ensures fault.Some? ==> Legacy.Cleanup(old(Model()), platform) == Legacy.Stuck(fault.value)
    {
      var ds := displays;
      var threadCurrent := currentCtx;
      var checked := Legacy.NullChecked(platform);
      var kept: seq<Display> := [];
      var i := 0;
      while i < |ds|
        invariant 0 <= i <= |ds|
        invariant Legacy.CleanupFrom(kept, ds[i..], threadCurrent, checked) == Legacy.CleanupFrom([], ds, threadCurrent, checked)
        invariant Model() == old(Model())
        decreases |ds| - i
      {
        assert ds[i..][0] == ds[i] && ds[i..][1..] == ds[i + 1..];
        var d := ds[i];
        var surfaces := PassList(d.surfaces, Legacy.NoGuard(), SurfaceDoomed(d.currentDraw, d.currentRead), checked);
        if surfaces.Stuck? {
          return Some(surfaces.fault);
        }
        var contexts := ContextPass(d.contexts, ContextDoomed(d.currentCtx, threadCurrent), checked);
        if contexts.Stuck? {
          return Some(contexts.fault);
        }
        var x := d.(surfaces := surfaces.value, contexts := contexts.value);
        assert Legacy.CleanDisplay(d, threadCurrent, checked) == Legacy.Done(x);
        if !DisplayDoomed(x) {
          kept := kept + [x];
          i := i + 1;
        } else if |kept| > 0 {
          i := i + 1;
        } else if i + 1 < |ds| {
          assert ds[i..][1] == ds[i + 1] && ds[i..][2..] == ds[i + 2..];
          kept := [ds[i + 1]];
          i := i + 2;
        } else {
          kept := [];
          i := i + 1;
        }
      }
      assert ds[i..] == [];
      displays := kept;
      return None;
    }

    /** `eglGetDisplay`; `nativeReady` is whether the native layer could be opened. */
    method GetDisplay(displayId: int, nativeReady: bool) returns (dpy: nat)
      requires Inv()
      modifies this
      ensures Inv()
      ensures Model() == Legacy.GetDisplay(old(Model()), displayId, nativeReady).state
      ensures dpy == Legacy.GetDisplay(old(Model()), displayId, nativeReady).result
    {
      LegacyProps.GetDisplayValid(Model(), displayId, nativeReady);
      if !nativeReady {
        return NO_HANDLE;
      }
      var i := Registry.FindIndex(displays, DisplayId(displayId));
      if i.Some? {
        return displays[i.value].handle;
      }
      var d := Display(nextHandle, displayId, false, false, [], [], [], NO_HANDLE, NO_HANDLE, NO_HANDLE);
      displays := [d] + displays;
      dpy := nextHandle;
      nextHandle := nextHandle + 1;
    }

    /** `eglInitialize`; `enumerated` is what the config enumeration appended, `complete` whether it ended without failure. */
    method Initialize(dpy: nat, enumerated: seq<Config>, complete: bool) returns (version: Option<Version>)
      requires Inv()
      modifies this
      ensures Inv()
      ensures Model() == Legacy.Initialize(old(Model()), dpy, enumerated, complete).state
      ensures version == Legacy.Initialize(old(Model()), dpy, enumerated, complete).result
    {
      LegacyProps.InitializeValid(Model(), dpy, enumerated, complete);
      var i := Registry.FindIndex(displays, DisplayHandle(dpy));
      if i.None? {
        error := EGL_BAD_DISPLAY;
        return None;
      }
      var d := displays[i.value];
      if d.initialized || d.destroy {
        error := EGL_NOT_INITIALIZED;
        return None;
      }
      displays := displays[i.value := d.(initialized := true, configs := if |enumerated| == 0 then d.configs else enumerated)];
      if !complete {
        error := EGL_NOT_INITIALIZED;
        return None;
      }
      return Some(Version(1, 5));
    }

    /** `eglChooseConfig`; `attribs` is None for a null attribute list. */
    method ChooseConfig(dpy: nat, attribs: Option<seq<int>>, configsGiven: bool, configSize: int, countGiven: bool)
      returns (r: Option<seq<Config>>)
      requires attribs.Some? ==> Terminated(attribs.value)
      modifies this
      ensures Model() == Legacy.ChooseConfig(old(Model()), platform, dpy, attribs, configsGiven, configSize, countGiven).state
      ensures r == Legacy.ChooseConfig(old(Model()), platform, dpy, attribs, configsGiven, configSize, countGiven).result
    {
      if attribs.None? || !configsGiven || configSize == 0 || !countGiven {
        error := EGL_BAD_PARAMETER;
        return None;
      }
      var i := Registry.FindIndex(displays, DisplayHandle(dpy));
      if i.None? {
        error := EGL_BAD_DISPLAY;
        return None;
      }
      var d := displays[i.value];
      if !d.initialized || d.destroy {
        error := EGL_NOT_INITIALIZED;
        return None;
      }
      var chosen := LegacyConfigSelect.ChooseConfig(platform, attribs, configsGiven, d.configs, configSize, countGiven);
      match chosen
      case Err(e) =>
        error := e;
        return None;
      case Ok(cs) =>
        return Some(cs);
    }

    /** `eglTerminate` */
    method Terminate(dpy: nat) returns (r: Legacy.Outcome<bool>)
      requires Inv()
      modifies this
      ensures Settles(Legacy.Terminate(old(Model()), platform, dpy), Model(), r)
      ensures r.Done? ==> Inv()
    {
      var i := Registry.FindIndex(displays, DisplayHandle(dpy));
      if i.None? || !displays[i.value].initialized || displays[i.value].destroy {
        error := EGL_BAD_DISPLAY;
        return Legacy.Done(false);
      }
      var d := displays[i.value];
      displays := displays[i.value := d.(initialized := false, destroy := true)];
      var fault := Cleanup();
      if fault.Some? {
        return Legacy.Stuck(fault.value);
      }
      LegacyProps.TerminateValid(old(Model()), platform, dpy);
      return Legacy.Done(true);
    }

    /** `eglGetError`: as egl_common.cpp. */
    method GetError() returns (e: int)
      modifies this
      ensures Model() == RegistryModel.GetError(old(Model())).state
      ensures e == RegistryModel.GetError(old(Model())).result
    {
      e := error;
      error := EGL_SUCCESS;
    }

    /** `eglBindAPI` */
    method BindApi(requested: int) returns (ok: bool)
      modifies this
      ensures Model() == Legacy.BindApi(old(Model()), requested).state
      ensures ok == Legacy.BindApi(old(Model()), requested).result
    {
      if requested == EGL_OPENGL_API {
        api := requested;
        return true;
      }
      error := EGL_BAD_PARAMETER;
      return false;
    }

    /** `eglCreateContext`; `attribs` is None for a null attribute list. */
    method CreateContext(dpy: nat, configId: int, share: nat, attribs: Option<seq<int>>) returns (ctx: nat)
      requires Inv() && (attribs.Some? ==> Terminated(attribs.value))
      modifies this
      ensures Inv()
      ensures Model() == Legacy.CreateContext(old(Model()), platform, dpy, configId, share, attribs).state
      ensures ctx == Legacy.CreateContext(old(Model()), platform, dpy, configId, share, attribs).result
    {
      LegacyProps.CreateContextValid(Model(), platform, dpy, configId, share, attribs);
      if attribs.None? {
        error := EGL_BAD_PARAMETER;
        return NO_HANDLE;
      }
      if api == EGL_NONE {
        error := EGL_BAD_MATCH;
        return NO_HANDLE;
      }
      var i := Registry.FindIndex(displays, DisplayHandle(dpy));
      if i.None? {
        error := EGL_BAD_DISPLAY;
        return NO_HANDLE;
      }
      var d := displays[i.value];
      if !d.initialized || d.destroy {
        error := EGL_NOT_INITIALIZED;
        return NO_HANDLE;
      }
      var k := Registry.FindIndex(d.configs, ConfigWithId(configId));
      if k.None? {
        error := EGL_BAD_CONFIG;
        return NO_HANDLE;
      }
      ctx := AddContext(i.value, configId, share, attribs.value);
    }

    /** The second half of `eglCreateContext`, once the display and the config are found: translation, share check, insertion. */
    method AddContext(i: nat, configId: int, share: nat, attribs: seq<int>) returns (ctx: nat)
      requires Terminated(attribs) && api != EGL_NONE && i < |displays|
      requires displays[i].initialized && !displays[i].destroy
      requires Find(displays[i].configs, ConfigWithId(configId)).Some?
      modifies this
      ensures Legacy.CreateContextChecked(old(Model()), platform, i, configId, share, attribs) == Reply(Model(), ctx)
    {
      var d := displays[i];
      var b := Legacy.LegacyBackend(platform);
      var target := new int[|ContextAttribs.Template(b, api)|];
      var failed := ContextAttribs.ProcessAttribList(b, api, target, attribs);
      if failed.Some? {
        error := failed.value;
        return NO_HANDLE;
      }
      if share != NO_HANDLE {
        var s := Registry.LocateContext(displays, share);
        if s.None? || !ContextAt(displays, s.value).initialized || ContextAt(displays, s.value).destroy {
          error := EGL_BAD_CONTEXT;
          return NO_HANDLE;
        }
      }
      var c := Context(nextHandle, true, false, configId, share, target[..], []);
      assert Legacy.CreateContextChecked(Model(), platform, i, configId, share, attribs) ==
        Reply(Model().(displays := displays[i := d.(contexts := [c] + d.contexts)], nextHandle := nextHandle + 1), nextHandle);
      displays := displays[i := d.(contexts := [c] + d.contexts)];
      ctx := nextHandle;
      nextHandle := nextHandle + 1;
    }

    /** `eglDestroyContext` */
    method DestroyContext(dpy: nat, ctx: nat) returns (r: Legacy.Outcome<bool>)
      requires Inv()
      modifies this
      ensures Settles(Legacy.DestroyContext(old(Model()), platform, dpy, ctx), Model(), r)
      ensures r.Done? ==> Inv()
    {
      var i := Registry.FindIndex(displays, DisplayHandle(dpy));
      if i.None? {
        error := EGL_BAD_DISPLAY;
        return Legacy.Done(false);
      }
      var d := displays[i.value];
      if !d.initialized || d.destroy {
        error := EGL_NOT_INITIALIZED;
        return Legacy.Done(false);
      }
      var k := Registry.FindIndex(d.contexts, ContextHandle(ctx));
      if k.None? || !d.contexts[k.value].initialized || d.contexts[k.value].destroy {
        error := EGL_BAD_CONTEXT;
        return Legacy.Done(false);
      }
      var c := d.contexts[k.value];
      displays := displays[i.value := d.(contexts := d.contexts[k.value := c.(initialized := false, destroy := true)])];
      var fault := Cleanup();
      if fault.Some? {
        return Legacy.Stuck(fault.value);
      }
      LegacyProps.DestroyContextValid(old(Model()), platform, dpy, ctx);
      return Legacy.Done(true);
    }

    /** `eglDestroySurface` */
    method DestroySurface(dpy: nat, surface: nat) returns (r: Legacy.Outcome<bool>)
      requires Inv()
      modifies this
      ensures Settles(Legacy.DestroySurface(old(Model()), platform, dpy, surface), Model(), r)
      ensures r.Done? ==> Inv()
    {
      var i := Registry.FindIndex(displays, DisplayHandle(dpy));
      if i.None? {
        error := EGL_BAD_DISPLAY;
        return Legacy.Done(false);
      }
      var d := displays[i.value];
      if !d.initialized || d.destroy {
        error := EGL_NOT_INITIALIZED;
        return Legacy.Done(false);
      }
      var k := Registry.FindIndex(d.surfaces, SurfaceHandle(surface));
      if k.None? || !d.surfaces[k.value].initialized || d.surfaces[k.value].destroy {
        error := EGL_BAD_SURFACE;
        return Legacy.Done(false);
      }
      var s := d.surfaces[k.value];
      displays := displays[i.value := d.(surfaces := d.surfaces[k.value := s.(initialized := false, destroy := true)])];
      var fault := Cleanup();
      if fault.Some? {
        return Legacy.Stuck(fault.value);
      }
      LegacyProps.DestroySurfaceValid(old(Model()), platform, dpy, surface);
      return Legacy.Done(true);
    }

    /** The native context of the context at `l` for `draw`: found, or created along the share chain. */
    method Attach(l: Loc, draw: nat, native: NativeResults, stale: nat) returns (ok: bool)
      requires ValidLoc(displays, l) && Descending(displays)
      modifies this
      ensures Model() == Legacy.Attach(old(Model()), platform, l, draw, native, stale).state
      ensures ok == Legacy.Attach(old(Model()), platform, l, draw, native, stale).result
    {
      var c := ContextAt(displays, l);
      var existing := Registry.FindIndex(c.natives, ForSurface(draw));
      if existing.Some? {
        return true;
      }
      var parent := Registry.ChooseShareParent(displays, l);
      ok := CreateNative(l, draw, native, parent, stale);
    }

    /**
     * The native context creation of `eglMakeCurrent`.  On X11 the root
     * ancestor's new entry records the `ctx` field of the fresh node,
     * `stale`, rather than the context the native layer created.
     */
    method CreateNative(l: Loc, draw: nat, native: NativeResults, parent: ShareChoice, stale: nat) returns (ok: bool)
      requires ValidLoc(displays, l) && (parent.MaterialiseRoot? ==> ValidLoc(displays, parent.root))
      modifies this
      ensures Model() == Legacy.CreateNative(old(Model()), platform, l, draw, native, parent, stale).state
      ensures ok == Legacy.CreateNative(old(Model()), platform, l, draw, native, parent, stale).result
    {
      match parent
      case MaterialiseRoot(root) =>
        var rootHandle: nat;
        if platform == X11 {
          if stale == NO_HANDLE {
            return false;
          }
          rootHandle := stale;
        } else {
          if !native.rootCreated {
            return false;
          }
          rootHandle := nextHandle;
          nextHandle := nextHandle + 1;
        }
        displays := AddNative(displays, root, NativeContext(draw, rootHandle, NO_HANDLE));
        if !native.ctxCreated {
          return false;
        }
        displays := AddNative(displays, l, NativeContext(draw, nextHandle, rootHandle));
        nextHandle := nextHandle + 1;
        return true;
      case ShareWith(p) =>
        if !native.ctxCreated {
          return false;
        }
        displays := AddNative(displays, l, NativeContext(draw, nextHandle, p));
        nextHandle := nextHandle + 1;
        return true;
    }

    /** The last step of `eglMakeCurrent`: the native bind, then the current triple, the thread's context and the sweep. */
    method Bind(i: nat, draw: nat, read: nat, ctx: nat, bound: bool) returns (r: Legacy.Outcome<bool>)
      requires i < |displays|
      modifies this
      ensures Settles(Legacy.Bind(old(Model()), platform, i, draw, read, ctx, bound), Model(), r)
    {
      if !bound {
        error := EGL_BAD_MATCH;
        return Legacy.Done(false);
      }
      displays := displays[i := displays[i].(currentDraw := draw, currentRead := read, currentCtx := ctx)];
      currentCtx := ctx;
      var fault := Cleanup();
      if fault.Some? {
        return Legacy.Stuck(fault.value);
      }
      return Legacy.Done(true);
    }

    /** `eglMakeCurrent`; `native` is what the native layer answers, `stale` what a fresh node's `ctx` field holds. */
    method MakeCurrent(dpy: nat, draw: nat, read: nat, ctx: nat, native: NativeResults, stale: nat) returns (r: Legacy.Outcome<bool>)
      requires Inv()
      modifies this
      ensures Settles(Legacy.MakeCurrent(old(Model()), platform, dpy, draw, read, ctx, native, stale), Model(), r)
      ensures r.Done? ==> Inv()
    {
      if Legacy.MakeCurrent(Model(), platform, dpy, draw, read, ctx, native, stale).Done? {
        LegacyProps.MakeCurrentValid(Model(), platform, dpy, draw, read, ctx, native, stale);
      }
      if HandlesMismatch(draw, read, ctx) {
        error := EGL_BAD_MATCH;
        return Legacy.Done(false);
      }
      var i := Registry.FindIndex(displays, DisplayHandle(dpy));
      if i.None? {
        error := EGL_BAD_DISPLAY;
        return Legacy.Done(false);
      }
      var d := displays[i.value];
      if !d.initialized || d.destroy {
        error := EGL_NOT_INITIALIZED;
        return Legacy.Done(false);
      }
      var drawOk := Registry.CheckSurface(d, draw);
      if drawOk.Err? {
        error := drawOk.error;
        return Legacy.Done(false);
      }
      var readOk := Registry.CheckSurface(d, read);
      if readOk.Err? {
        error := readOk.error;
        return Legacy.Done(false);
      }
      r := MakeCurrentOn(i.value, draw, read, ctx, native, stale);
    }

    /** The rest of `eglMakeCurrent`, once the display at `i` and both surfaces have passed their checks. */
    method MakeCurrentOn(i: nat, draw: nat, read: nat, ctx: nat, native: NativeResults, stale: nat) returns (r: Legacy.Outcome<bool>)
      requires i < |displays| && Descending(displays)
      modifies this
      ensures Settles(Legacy.MakeCurrentOn(old(Model()), platform, i, draw, read, ctx, native, stale), Model(), r)
    {
      if ctx == NO_HANDLE {
        r := Bind(i, NO_HANDLE, NO_HANDLE, NO_HANDLE, native.bound);
        return;
      }
      var d := displays[i];
      var k := Registry.FindIndex(d.contexts, ContextHandle(ctx));
      if k.None? || !d.contexts[k.value].initialized || d.contexts[k.value].destroy {
        error := EGL_BAD_CONTEXT;
        return Legacy.Done(false);
      }
      var ok := Attach(Loc(i, k.value), draw, native, stale);
      if !ok {
        return Legacy.Done(false);
      }
      r := Bind(i, draw, read, ctx, native.bound);
    }
  }
}
