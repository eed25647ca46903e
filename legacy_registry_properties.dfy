// What the C variants' registry does, and how it relates to egl_common.cpp:
// whenever a legacy cleanup comes back it leaves exactly what the C++
// sweep leaves; the X11 walkers never read through null and the Windows
// ones do exactly when a pass removes a lone node; the share guard spins
// as soon as the walker reaches a context another one shares with; and
// the entry points answer EGL_TRUE where egl_common.cpp answers EGL_FALSE,
// with the same state otherwise.

module LegacyRegistryProperties {
  import opened EglDefs
  import ContextAttribs
  import opened RegistryModel
  import RegistryProperties
  import Legacy = LegacyRegistryModel
  import LegacyConfigSelect

  // ---------------------------------------------------------------------
  // The passes against the egl_common.cpp sweep
  // ---------------------------------------------------------------------

  /** A pass that comes back keeps what the C++ walker keeps. */
  lemma {:induction false} PassAgreesFrom<T>(kept: seq<T>, rest: seq<T>, guard: (seq<T>, T) -> bool, doomed: T -> bool, checked: bool)
    requires Legacy.PassFrom(kept, rest, guard, doomed, checked).Done?
    ensures Legacy.PassFrom(kept, rest, guard, doomed, checked).value == SweepFrom(kept, rest, Unchanged, doomed)
    decreases |rest|
  {
    if |rest| > 0 && !guard(kept + rest, rest[0]) {
      if !doomed(rest[0]) {
        PassAgreesFrom(kept + [rest[0]], rest[1..], guard, doomed, checked);
      } else if |kept| > 0 {
        PassAgreesFrom(kept, rest[1..], guard, doomed, checked);
      } else if |rest| > 1 {
        PassAgreesFrom([rest[1]], rest[2..], guard, doomed, checked);
      }
    }
  }

  lemma CleanDisplayAgrees(d: Display, threadCurrent: nat, checked: bool)
    requires Legacy.CleanDisplay(d, threadCurrent, checked).Done?
    ensures Legacy.CleanDisplay(d, threadCurrent, checked).value == CleanDisplay(threadCurrent)(d)
  {
    PassAgreesFrom([], d.surfaces, Legacy.NoGuard(), SurfaceDoomed(d.currentDraw, d.currentRead), checked);
    PassAgreesFrom([], d.contexts, Legacy.ShareGuard(), ContextDoomed(d.currentCtx, threadCurrent), checked);
  }

  lemma {:induction false} CleanupFromAgrees(kept: seq<Display>, rest: seq<Display>, threadCurrent: nat, checked: bool)
    requires Legacy.CleanupFrom(kept, rest, threadCurrent, checked).Done?
    ensures Legacy.CleanupFrom(kept, rest, threadCurrent, checked).value == SweepFrom(kept, rest, CleanDisplay(threadCurrent), DisplayDoomed)
    decreases |rest|
  {
    if |rest| > 0 {
      CleanDisplayAgrees(rest[0], threadCurrent, checked);
      var x := Legacy.CleanDisplay(rest[0], threadCurrent, checked).value;
      if !DisplayDoomed(x) {
        CleanupFromAgrees(kept + [x], rest[1..], threadCurrent, checked);
      } else if |kept| > 0 {
        CleanupFromAgrees(kept, rest[1..], threadCurrent, checked);
      } else if |rest| > 1 {
        CleanupFromAgrees([rest[1]], rest[2..], threadCurrent, checked);
      }
    }
  }

  /** On both platforms a cleanup that comes back leaves what `_eglInternalCleanup` of egl_common.cpp leaves. */
  lemma CleanupAgrees(st: State, p: Platform)
    requires Legacy.Cleanup(st, p).Done?
    ensures Legacy.Cleanup(st, p).value == Cleanup(st)
  {
    CleanupFromAgrees([], st.displays, st.currentCtx, Legacy.NullChecked(p));
  }

  lemma CleanupValid(st: State, p: Platform)
    requires Valid(st) && Legacy.Cleanup(st, p).Done?
    ensures Valid(Legacy.Cleanup(st, p).value)
  {
    CleanupAgrees(st, p);
    RegistryProperties.CleanupValid(st);
  }

  // ---------------------------------------------------------------------
  // Null walkers
  // ---------------------------------------------------------------------

  lemma {:induction false} CheckedPassNoNullDeref<T>(kept: seq<T>, rest: seq<T>, guard: (seq<T>, T) -> bool, doomed: T -> bool)
    ensures Legacy.PassFrom(kept, rest, guard, doomed, true) != Legacy.Stuck(Legacy.NullDeref)
    decreases |rest|
  {
    if |rest| > 0 && !guard(kept + rest, rest[0]) {
      if !doomed(rest[0]) {
        CheckedPassNoNullDeref(kept + [rest[0]], rest[1..], guard, doomed);
      } else if |kept| > 0 {
        CheckedPassNoNullDeref(kept, rest[1..], guard, doomed);
      } else if |rest| > 1 {
        CheckedPassNoNullDeref([rest[1]], rest[2..], guard, doomed);
      }
    }
  }

  lemma {:induction false} CheckedCleanupFrom(kept: seq<Display>, rest: seq<Display>, threadCurrent: nat)
    ensures Legacy.CleanupFrom(kept, rest, threadCurrent, true) != Legacy.Stuck(Legacy.NullDeref)
    decreases |rest|
  {
    if |rest| > 0 {
      var d := rest[0];
      CheckedPassNoNullDeref([], d.surfaces, Legacy.NoGuard(), SurfaceDoomed(d.currentDraw, d.currentRead));
      CheckedPassNoNullDeref([], d.contexts, Legacy.ShareGuard(), ContextDoomed(d.currentCtx, threadCurrent));
      match Legacy.CleanDisplay(d, threadCurrent, true)
      case Stuck(f) =>
      case Done(x) =>
        if !DisplayDoomed(x) {
          CheckedCleanupFrom(kept + [x], rest[1..], threadCurrent);
        } else if |kept| > 0 {
          CheckedCleanupFrom(kept, rest[1..], threadCurrent);
        } else if |rest| > 1 {
          CheckedCleanupFrom([rest[1]], rest[2..], threadCurrent);
        }
    }
  }

  /** The X11 cleanup tests every walker before it steps, so it never reads through null. */
  lemma X11CleanupNoNullDeref(st: State)
    ensures Legacy.Cleanup(st, X11) != Legacy.Stuck(Legacy.NullDeref)
  {
    CheckedCleanupFrom([], st.displays, st.currentCtx);
  }

  /** Once a node lies behind the walker, it is never the null walker that steps. */
  lemma {:induction false} KeptNoNullDeref<T>(kept: seq<T>, rest: seq<T>, guard: (seq<T>, T) -> bool, doomed: T -> bool, checked: bool)
    requires |kept| > 0
    ensures Legacy.PassFrom(kept, rest, guard, doomed, checked) != Legacy.Stuck(Legacy.NullDeref)
    decreases |rest|
  {
    if |rest| > 0 && !guard(kept + rest, rest[0]) {
      if !doomed(rest[0]) {
        KeptNoNullDeref(kept + [rest[0]], rest[1..], guard, doomed, checked);
      } else {
        KeptNoNullDeref(kept, rest[1..], guard, doomed, checked);
      }
    }
  }

  /**
   * A Windows pass reads through null exactly when the list is a single
   * node that the walker reaches and removes: the head goes, the walker
   * becomes the empty head, and its `next` is read.
   */
  lemma UncheckedNullDeref<T>(s: seq<T>, guard: (seq<T>, T) -> bool, doomed: T -> bool)
    ensures Legacy.Pass(s, guard, doomed, false) == Legacy.Stuck(Legacy.NullDeref)
      <==> |s| == 1 && !guard(s, s[0]) && doomed(s[0])
  {
    assert [] + s == s;
    if |s| > 0 && !guard(s, s[0]) {
      if !doomed(s[0]) {
        assert [] + [s[0]] == [s[0]];
        KeptNoNullDeref([s[0]], s[1..], guard, doomed, false);
      } else if |s| > 1 {
        KeptNoNullDeref([s[1]], s[2..], guard, doomed, false);
      }
    }
  }

  /**
   * Destroying the only surface of the first display, when it is not
   * current, crashes the Windows cleanup in its surface pass.
   */
  lemma WindowsLoneSurfaceCrash(st: State, s: Surface)
    requires |st.displays| > 0
    requires var d := st.displays[0];
      && d.initialized && !d.destroy && d.surfaces == [s]
      && s.initialized && !s.destroy && s.handle != d.currentDraw && s.handle != d.currentRead
    ensures Legacy.DestroySurface(st, Windows, st.displays[0].handle, s.handle) == Legacy.Stuck(Legacy.NullDeref)
  {
    var d := st.displays[0];
    assert DisplayHandle(d.handle)(st.displays[0]);
    assert SurfaceHandle(s.handle)(d.surfaces[0]);
    var d' := d.(surfaces := [s.(initialized := false, destroy := true)]);
    var flagged := st.(displays := st.displays[0 := d']);
    UncheckedNullDeref(d'.surfaces, Legacy.NoGuard(), SurfaceDoomed(d'.currentDraw, d'.currentRead));
    assert flagged.displays[0] == d';
  }

  // ---------------------------------------------------------------------
  // The share guard
  // ---------------------------------------------------------------------

  /** No context of the list names another of the list as its share source. */
  predicate NoShareWithin(list: seq<Context>)
  {
    forall x, y :: x in list && y in list ==> y.sharedCtx != x.handle
  }

  lemma {:induction false} UnguardedPass<T>(kept: seq<T>, rest: seq<T>, doomed: T -> bool, checked: bool)
    ensures Legacy.PassFrom(kept, rest, Legacy.NoGuard(), doomed, checked) != Legacy.Stuck(Legacy.Hang)
    ensures checked ==> Legacy.PassFrom(kept, rest, Legacy.NoGuard(), doomed, checked).Done?
    decreases |rest|
  {
    if |rest| > 0 {
      if !doomed(rest[0]) {
        UnguardedPass(kept + [rest[0]], rest[1..], doomed, checked);
      } else if |kept| > 0 {
        UnguardedPass(kept, rest[1..], doomed, checked);
      } else if |rest| > 1 {
        UnguardedPass([rest[1]], rest[2..], doomed, checked);
      }
    }
  }

  lemma {:induction false} NoSharePass(kept: seq<Context>, rest: seq<Context>, doomed: Context -> bool, checked: bool)
    requires NoShareWithin(kept + rest)
    ensures Legacy.PassFrom(kept, rest, Legacy.ShareGuard(), doomed, checked) != Legacy.Stuck(Legacy.Hang)
    ensures checked ==> Legacy.PassFrom(kept, rest, Legacy.ShareGuard(), doomed, checked).Done?
    decreases |rest|
  {
    if |rest| > 0 {
      var list := kept + rest;
      assert rest[0] in list;
      assert !Legacy.NamedAsShare(list, rest[0]) by {
        forall j | 0 <= j < |list| ensures list[j].sharedCtx != rest[0].handle {
          assert list[j] in list;
        }
      }
      if !doomed(rest[0]) {
        assert (kept + [rest[0]]) + rest[1..] == list;
        NoSharePass(kept + [rest[0]], rest[1..], doomed, checked);
      } else if |kept| > 0 {
        assert forall x :: x in kept + rest[1..] ==> x in list;
        NoSharePass(kept, rest[1..], doomed, checked);
      } else if |rest| > 1 {
        assert [rest[1]] + rest[2..] == rest[1..];
        assert forall x :: x in rest[1..] ==> x in list;
        NoSharePass([rest[1]], rest[2..], doomed, checked);
      }
    }
  }

  lemma {:induction false} NoShareCleanupFrom(kept: seq<Display>, rest: seq<Display>, threadCurrent: nat)
    requires forall d :: d in rest ==> NoShareWithin(d.contexts)
    ensures Legacy.CleanupFrom(kept, rest, threadCurrent, true).Done?
    decreases |rest|
  {
    if |rest| > 0 {
      var d := rest[0];
      assert d in rest && [] + d.contexts == d.contexts;
      CheckedPassNoNullDeref([], d.surfaces, Legacy.NoGuard(), SurfaceDoomed(d.currentDraw, d.currentRead));
      UnguardedPass([], d.surfaces, SurfaceDoomed(d.currentDraw, d.currentRead), true);
      CheckedPassNoNullDeref([], d.contexts, Legacy.ShareGuard(), ContextDoomed(d.currentCtx, threadCurrent));
      NoSharePass([], d.contexts, ContextDoomed(d.currentCtx, threadCurrent), true);
      var x := Legacy.CleanDisplay(d, threadCurrent, true).value;
      assert forall e :: e in rest[1..] ==> e in rest;
      if !DisplayDoomed(x) {
        NoShareCleanupFrom(kept + [x], rest[1..], threadCurrent);
      } else if |kept| > 0 {
        NoShareCleanupFrom(kept, rest[1..], threadCurrent);
      } else if |rest| > 1 {
        assert forall e :: e in rest[2..] ==> e in rest;
        NoShareCleanupFrom([rest[1]], rest[2..], threadCurrent);
      }
    }
  }

  /** Where no context shares with another on its own display, the X11 cleanup comes back. */
  lemma X11CleanupTerminates(st: State)
    requires forall d :: d in st.displays ==> NoShareWithin(d.contexts)
    ensures Legacy.Cleanup(st, X11).Done?
  {
    NoShareCleanupFrom([], st.displays, st.currentCtx);
  }

  /** Walking over live contexts, the guard spins at the first one another context shares with. */
  lemma {:induction false} SharedPassHangs(kept: seq<Context>, rest: seq<Context>, doomed: Context -> bool, checked: bool)
    requires forall j :: 0 <= j < |rest| ==> !doomed(rest[j])
    requires exists i :: 0 <= i < |rest| && Legacy.NamedAsShare(kept + rest, rest[i])
    ensures Legacy.PassFrom(kept, rest, Legacy.ShareGuard(), doomed, checked) == Legacy.Stuck(Legacy.Hang)
    decreases |rest|
  {
    var i :| 0 <= i < |rest| && Legacy.NamedAsShare(kept + rest, rest[i]);
    if !Legacy.NamedAsShare(kept + rest, rest[0]) {
      assert (kept + [rest[0]]) + rest[1..] == kept + rest;
      assert rest[1..][i - 1] == rest[i];
      SharedPassHangs(kept + [rest[0]], rest[1..], doomed, checked);
    }
  }

  /**
   * With nothing to free on the first display and one of its contexts
   * sharing with another of them, every X11 cleanup spins: the program
   * hangs in whatever entry point sweeps next.
   */
  lemma SharedContextsHang(st: State)
    requires |st.displays| > 0
    requires var d := st.displays[0];
      && (forall j :: 0 <= j < |d.contexts| ==> !ContextDoomed(d.currentCtx, st.currentCtx)(d.contexts[j]))
      && exists i :: 0 <= i < |d.contexts| && Legacy.NamedAsShare(d.contexts, d.contexts[i])
    ensures Legacy.Cleanup(st, X11) == Legacy.Stuck(Legacy.Hang)
  {
    var d := st.displays[0];
    assert [] + d.contexts == d.contexts;
    CheckedPassNoNullDeref([], d.surfaces, Legacy.NoGuard(), SurfaceDoomed(d.currentDraw, d.currentRead));
    UnguardedPass([], d.surfaces, SurfaceDoomed(d.currentDraw, d.currentRead), true);
    SharedPassHangs([], d.contexts, ContextDoomed(d.currentCtx, st.currentCtx), true);
    assert Legacy.CleanDisplay(d, st.currentCtx, true) == Legacy.Stuck(Legacy.Hang);
  }

  // ---------------------------------------------------------------------
  // Displays, the error and the API
  // ---------------------------------------------------------------------

  /** The C variants store the id as given: egl_common.cpp's lookup with no default substituted for 0. */
  lemma GetDisplayAsCommon(st: State, displayId: int, nativeReady: bool)
    ensures Legacy.GetDisplay(st, displayId, nativeReady) == GetDisplay(st, displayId, displayId, nativeReady)
  {
  }

  /** Asking twice for the same id, 0 included, answers the same display and adds nothing. */
  lemma GetDisplayTwice(st: State, displayId: int)
    ensures var first := Legacy.GetDisplay(st, displayId, true);
      Legacy.GetDisplay(first.state, displayId, true) == first
  {
    var first := Legacy.GetDisplay(st, displayId, true);
    if Find(st.displays, DisplayId(displayId)).None? {
      assert DisplayId(displayId)(first.state.displays[0]);
    }
  }

  lemma GetDisplayValid(st: State, displayId: int, nativeReady: bool)
    requires Valid(st)
    ensures Valid(Legacy.GetDisplay(st, displayId, nativeReady).state)
  {
    GetDisplayAsCommon(st, displayId, nativeReady);
    RegistryProperties.GetDisplayValid(st, displayId, displayId, nativeReady);
  }

  /**
   * Initialisation answers version 1.5 exactly when the display is known,
   * neither initialised nor terminated, and its enumeration completes; a
   * failure leaves an error set.
   */
  lemma InitializeAnswers(st: State, dpy: nat, enumerated: seq<Config>, complete: bool)
    ensures var r := Legacy.Initialize(st, dpy, enumerated, complete);
      && (r.result.Some? <==>
            complete && exists i ::
              Find(st.displays, DisplayHandle(dpy)) == Some(i) && !st.displays[i].initialized && !st.displays[i].destroy)
      && (r.result.Some? ==> r.result.value == Version(1, 5))
      && (r.result.None? ==> r.state.error == EGL_BAD_DISPLAY || r.state.error == EGL_NOT_INITIALIZED)
  {
  }

  /**
   * eglChooseConfig of the C variants: a null pointer or a zero capacity
   * gives EGL_BAD_PARAMETER before the display is looked up, an unknown
   * handle EGL_BAD_DISPLAY, a dead display EGL_NOT_INITIALIZED and a refused
   * list EGL_BAD_ATTRIBUTE; otherwise the display's configs that match
   * exactly, unsorted and cut to the capacity, with the state untouched.
   */
  lemma ChooseConfigAnswers(st: State, p: Platform, dpy: nat, attribs: Option<seq<int>>, configsGiven: bool,
                            configSize: int, countGiven: bool)
    requires attribs.Some? ==> Terminated(attribs.value)
    ensures var r := Legacy.ChooseConfig(st, p, dpy, attribs, configsGiven, configSize, countGiven);
      && r.state == st.(error := r.state.error)
      && (!LegacyConfigSelect.ArgumentsOk(attribs, configsGiven, configSize, countGiven) ==>
            r == Reply(st.(error := EGL_BAD_PARAMETER), None))
      && (LegacyConfigSelect.ArgumentsOk(attribs, configsGiven, configSize, countGiven) && Find(st.displays, DisplayHandle(dpy)).None? ==>
            r == Reply(st.(error := EGL_BAD_DISPLAY), None))
      && (r.result.Some? <==>
            && LegacyConfigSelect.ArgumentsOk(attribs, configsGiven, configSize, countGiven)
            && LegacyConfigSelect.QueryTemplate(p, attribs.value).Ok?
            && exists i ::
                 Find(st.displays, DisplayHandle(dpy)) == Some(i) && st.displays[i].initialized && !st.displays[i].destroy)
      && (r.result.Some? ==>
            && r.state == st
            && exists i ::
                 && Find(st.displays, DisplayHandle(dpy)) == Some(i)
                 && var q := LegacyConfigSelect.QueryTemplate(p, attribs.value).value;
                    r.result.value == LegacyConfigSelect.Take(LegacyConfigSelect.Matching(p, q, st.displays[i].configs), configSize))
      && (r.result.None? ==>
            r.state.error in {EGL_BAD_PARAMETER, EGL_BAD_DISPLAY, EGL_NOT_INITIALIZED, EGL_BAD_ATTRIBUTE})
  {
    match Find(st.displays, DisplayHandle(dpy))
    case None =>
    case Some(i) =>
      LegacyConfigSelect.ArgumentChecks(p, attribs, configsGiven, st.displays[i].configs, configSize, countGiven);
  }

  /**
   * A display is initialised once: whether the first call succeeded or its
   * enumeration failed, a second call on it fails with EGL_NOT_INITIALIZED
   * and changes nothing else.
   */
  lemma InitializeOnce(st: State, dpy: nat, enumerated: seq<Config>, complete: bool, again: seq<Config>, completeAgain: bool)
    requires Find(st.displays, DisplayHandle(dpy)).Some?
    ensures var first := Legacy.Initialize(st, dpy, enumerated, complete);
      Legacy.Initialize(first.state, dpy, again, completeAgain) == Fail(first.state, EGL_NOT_INITIALIZED, None)
  {
    var i := Find(st.displays, DisplayHandle(dpy)).value;
    var d := st.displays[i];
    if !d.initialized && !d.destroy {
      var d' := d.(initialized := true, configs := if |enumerated| == 0 then d.configs else enumerated);
      FindDisplayAfterUpdate(st.displays, dpy, i, d');
    }
  }

  lemma FindDisplayAfterUpdate(ds: seq<Display>, h: nat, i: nat, d: Display)
    requires Find(ds, DisplayHandle(h)) == Some(i) && d.handle == h
    ensures Find(ds[i := d], DisplayHandle(h)) == Some(i)
  {
    RegistryProperties.FindDisplayAfterUpdate(ds, h, i, d);
  }

  lemma InitializeValid(st: State, dpy: nat, enumerated: seq<Config>, complete: bool)
    requires Valid(st)
    ensures Valid(Legacy.Initialize(st, dpy, enumerated, complete).state)
  {
    match Find(st.displays, DisplayHandle(dpy))
    case None =>
    case Some(i) =>
      var d := st.displays[i];
      assert d in st.displays;
      if !d.initialized && !d.destroy {
        var d' := d.(initialized := true, configs := if |enumerated| == 0 then d.configs else enumerated);
        RegistryProperties.ReplaceDisplayValid(st, i, d', st.nextHandle);
      }
  }

  /**
   * Termination answers EGL_TRUE exactly for a live display, and then
   * leaves what egl_common.cpp leaves except that the error is untouched.
   */
  lemma TerminateAgrees(st: State, p: Platform, dpy: nat)
    requires Legacy.Terminate(st, p, dpy).Done?
    ensures var r := Legacy.Terminate(st, p, dpy).value; var c := Terminate(st, dpy);
      && (r.result <==> exists i ::
            Find(st.displays, DisplayHandle(dpy)) == Some(i) && st.displays[i].initialized && !st.displays[i].destroy)
      && r.state == (if r.result then c.state.(error := st.error) else c.state)
  {
    match Find(st.displays, DisplayHandle(dpy))
    case None =>
    case Some(i) =>
      var d := st.displays[i];
      if d.initialized && !d.destroy {
        CleanupAgrees(st.(displays := st.displays[i := d.(initialized := false, destroy := true)]), p);
      }
  }

  lemma TerminateValid(st: State, p: Platform, dpy: nat)
    requires Valid(st) && Legacy.Terminate(st, p, dpy).Done?
    ensures Valid(Legacy.Terminate(st, p, dpy).value.state)
  {
    TerminateAgrees(st, p, dpy);
    RegistryProperties.TerminateValid(st, dpy);
  }

  /** Where the C variants accept an API they bind it as egl_common.cpp does; OpenGL ES they refuse. */
  lemma BindApiNarrower(st: State, api: int)
    ensures Legacy.BindApi(st, api).result ==> Legacy.BindApi(st, api) == BindApi(st, api)
    ensures !Legacy.BindApi(st, EGL_OPENGL_ES_API).result && BindApi(st, EGL_OPENGL_ES_API).result
  {
  }

  // ---------------------------------------------------------------------
  // Contexts and surfaces
  // ---------------------------------------------------------------------

  /**
   * A created context: the API was bound, the display live, the config
   * known, the attributes translated by the variant's inline loop and the
   * share context live; it is prepended with a fresh handle and no native
   * context.
   */
  lemma CreatedContext(st: State, p: Platform, dpy: nat, configId: int, share: nat, attribs: Option<seq<int>>)
    requires attribs.Some? ==> Terminated(attribs.value)
    requires Legacy.CreateContext(st, p, dpy, configId, share, attribs).result != NO_HANDLE
    ensures var r := Legacy.CreateContext(st, p, dpy, configId, share, attribs);
      && attribs.Some? && st.api != EGL_NONE
      && Find(st.displays, DisplayHandle(dpy)).Some?
      && var i := Find(st.displays, DisplayHandle(dpy)).value;
      && var d := st.displays[i];
      && d.initialized && !d.destroy
      && Find(d.configs, ConfigWithId(configId)).Some?
      && ContextAttribs.ContextAttribList(Legacy.LegacyBackend(p), st.api, attribs.value).Ok?
      && ShareUsable(st.displays, share)
      && r.result == st.nextHandle
      && r.state == st.(displays := st.displays[i := d.(contexts := [Context(st.nextHandle, true, false, configId, share,
                          ContextAttribs.ContextAttribList(Legacy.LegacyBackend(p), st.api, attribs.value).value, [])] + d.contexts)],
                        nextHandle := st.nextHandle + 1)
  {
  }

  /**
   * The C eglCreateContext answers a fresh handle exactly when an attribute
   * list is given, an API is bound, the display is live, the config known,
   * the list translated and the share context usable; there is no version
   * or OpenGL ES 3 check.  Each refusal leaves exactly its error:
   * EGL_BAD_PARAMETER, EGL_BAD_MATCH, EGL_BAD_DISPLAY, EGL_NOT_INITIALIZED,
   * EGL_BAD_CONFIG, the translation's error, or EGL_BAD_CONTEXT.
   */
  lemma CreateContextAnswers(st: State, p: Platform, dpy: nat, configId: int, share: nat, attribs: Option<seq<int>>)
    requires attribs.Some? ==> Terminated(attribs.value)
    ensures var r := Legacy.CreateContext(st, p, dpy, configId, share, attribs);
      && (r.result != NO_HANDLE ==> r.result == st.nextHandle)
      && (attribs.None? ==> r == Reply(st.(error := EGL_BAD_PARAMETER), NO_HANDLE))
      && (attribs.Some? && st.api == EGL_NONE ==> r == Reply(st.(error := EGL_BAD_MATCH), NO_HANDLE))
      && (attribs.Some? && st.api != EGL_NONE ==>
            && (Find(st.displays, DisplayHandle(dpy)).None? ==> r == Reply(st.(error := EGL_BAD_DISPLAY), NO_HANDLE))
            && (forall i :: Find(st.displays, DisplayHandle(dpy)) == Some(i) ==>
                  var d := st.displays[i];
                  && (!d.initialized || d.destroy ==> r == Reply(st.(error := EGL_NOT_INITIALIZED), NO_HANDLE))
                  && (d.initialized && !d.destroy && Find(d.configs, ConfigWithId(configId)).None? ==>
                        r == Reply(st.(error := EGL_BAD_CONFIG), NO_HANDLE))
                  && (d.initialized && !d.destroy && Find(d.configs, ConfigWithId(configId)).Some? ==>
                        match ContextAttribs.ContextAttribList(Legacy.LegacyBackend(p), st.api, attribs.value)
                        case Err(e) => r == Reply(st.(error := e), NO_HANDLE)
                        case Ok(_) =>
                          if ShareUsable(st.displays, share) then r.result == st.nextHandle
                          else r == Reply(st.(error := EGL_BAD_CONTEXT), NO_HANDLE))))
  {
  }

  /** Without a bound API nothing is created and the error is EGL_BAD_MATCH. */
  lemma CreateContextNeedsApi(st: State, p: Platform, dpy: nat, configId: int, share: nat, attribs: seq<int>)
    requires Terminated(attribs) && st.api == EGL_NONE
    ensures Legacy.CreateContext(st, p, dpy, configId, share, Some(attribs)) == Fail(st, EGL_BAD_MATCH, NO_HANDLE)
  {
  }

  lemma CreateContextValid(st: State, p: Platform, dpy: nat, configId: int, share: nat, attribs: Option<seq<int>>)
    requires Valid(st) && (attribs.Some? ==> Terminated(attribs.value))
    ensures Valid(Legacy.CreateContext(st, p, dpy, configId, share, attribs).state)
  {
    if attribs.Some? && st.api != EGL_NONE {
      match Find(st.displays, DisplayHandle(dpy))
      case None =>
      case Some(i) =>
        CheckedContextValid(st, p, i, configId, share, attribs.value);
    }
  }

  lemma CheckedContextValid(st: State, p: Platform, i: nat, configId: int, share: nat, attribs: seq<int>)
    requires Valid(st) && Terminated(attribs) && i < |st.displays|
    ensures Valid(Legacy.CreateContextChecked(st, p, i, configId, share, attribs).state)
  {
    var r := Legacy.CreateContextChecked(st, p, i, configId, share, attribs);
    match ContextAttribs.ContextAttribList(Legacy.LegacyBackend(p), st.api, attribs)
    case Err(_) =>
    case Ok(target) =>
      if r.result != NO_HANDLE {
        var d := st.displays[i];
        assert d in st.displays;
        if share != NO_HANDLE {
          RegistryProperties.FoundContextFresh(st, share);
        }
        var c := Context(st.nextHandle, true, false, configId, share, target, []);
        assert r.state == st.(displays := st.displays[i := d.(contexts := [c] + d.contexts)], nextHandle := st.nextHandle + 1);
        assert DisplayOk(d.(contexts := [c] + d.contexts), st.nextHandle + 1);
        RegistryProperties.ReplaceDisplayValid(st, i, d.(contexts := [c] + d.contexts), st.nextHandle + 1);
      }
  }

  /**
   * Destroying a context answers EGL_TRUE exactly when it was live on a
   * live display, and then leaves what egl_common.cpp leaves except that
   * the error is untouched; a refusal is egl_common.cpp's refusal.
   */
  lemma DestroyContextAgrees(st: State, p: Platform, dpy: nat, ctx: nat)
    requires Legacy.DestroyContext(st, p, dpy, ctx).Done?
    ensures var r := Legacy.DestroyContext(st, p, dpy, ctx).value; var c := DestroyContext(st, dpy, ctx);
      && (r.result <==> exists i, k ::
            && Find(st.displays, DisplayHandle(dpy)) == Some(i)
            && st.displays[i].initialized && !st.displays[i].destroy
            && Find(st.displays[i].contexts, ContextHandle(ctx)) == Some(k)
            && st.displays[i].contexts[k].initialized && !st.displays[i].contexts[k].destroy)
      && r.state == (if r.result then c.state.(error := st.error) else c.state)
  {
    match Find(st.displays, DisplayHandle(dpy))
    case None =>
    case Some(i) =>
      var d := st.displays[i];
      if d.initialized && !d.destroy {
        match Find(d.contexts, ContextHandle(ctx))
        case None =>
        case Some(k) =>
          var c := d.contexts[k];
          if c.initialized && !c.destroy {
            var d' := d.(contexts := d.contexts[k := c.(initialized := false, destroy := true)]);
            CleanupAgrees(st.(displays := st.displays[i := d']), p);
          }
      }
  }

  lemma DestroyContextValid(st: State, p: Platform, dpy: nat, ctx: nat)
    requires Valid(st) && Legacy.DestroyContext(st, p, dpy, ctx).Done?
    ensures Valid(Legacy.DestroyContext(st, p, dpy, ctx).value.state)
  {
    DestroyContextAgrees(st, p, dpy, ctx);
    RegistryProperties.DestroyContextValid(st, dpy, ctx);
  }

  /** The surface counterpart of DestroyContextAgrees. */
  lemma DestroySurfaceAgrees(st: State, p: Platform, dpy: nat, surface: nat)
    requires Legacy.DestroySurface(st, p, dpy, surface).Done?
    ensures var r := Legacy.DestroySurface(st, p, dpy, surface).value; var c := DestroySurface(st, dpy, surface);
      && (r.result <==> exists i, k ::
            && Find(st.displays, DisplayHandle(dpy)) == Some(i)
            && st.displays[i].initialized && !st.displays[i].destroy
            && Find(st.displays[i].surfaces, SurfaceHandle(surface)) == Some(k)
            && st.displays[i].surfaces[k].initialized && !st.displays[i].surfaces[k].destroy)
      && r.state == (if r.result then c.state.(error := st.error) else c.state)
  {
    match Find(st.displays, DisplayHandle(dpy))
    case None =>
    case Some(i) =>
      var d := st.displays[i];
      if d.initialized && !d.destroy {
        match Find(d.surfaces, SurfaceHandle(surface))
        case None =>
        case Some(k) =>
          var s := d.surfaces[k];
          if s.initialized && !s.destroy {
            var d' := d.(surfaces := d.surfaces[k := s.(initialized := false, destroy := true)]);
            CleanupAgrees(st.(displays := st.displays[i := d']), p);
          }
      }
  }

  lemma DestroySurfaceValid(st: State, p: Platform, dpy: nat, surface: nat)
    requires Valid(st) && Legacy.DestroySurface(st, p, dpy, surface).Done?
    ensures Valid(Legacy.DestroySurface(st, p, dpy, surface).value.state)
  {
    DestroySurfaceAgrees(st, p, dpy, surface);
    RegistryProperties.DestroySurfaceValid(st, dpy, surface);
  }

  // ---------------------------------------------------------------------
  // Make-current
  // ---------------------------------------------------------------------

  /**
   * On X11 the root ancestor's entry records `stale`, whatever the native
   * layer answered for the context it created: a zero there fails the
   * call with nothing changed, and otherwise the new context shares with
   * `stale` rather than with a context the native layer made.
   */
  lemma X11RootRecordsStale(st: State, l: Loc, draw: nat, native: NativeResults, root: Loc, stale: nat)
    requires ValidLoc(st.displays, l) && ValidLoc(st.displays, root) && root != l
    ensures var r := Legacy.CreateNative(st, X11, l, draw, native, MaterialiseRoot(root), stale);
      && r == Legacy.CreateNative(st, X11, l, draw, native.(rootCreated := !native.rootCreated), MaterialiseRoot(root), stale)
      && (stale == NO_HANDLE ==> r == Reply(st, false))
      && (stale != NO_HANDLE ==>
            && r.result == native.ctxCreated
            && ValidLoc(r.state.displays, root)
            && ContextAt(r.state.displays, root).natives[0] == NativeContext(draw, stale, NO_HANDLE))
      && (stale != NO_HANDLE && native.ctxCreated ==>
            && ValidLoc(r.state.displays, l)
            && ContextAt(r.state.displays, l).natives[0] == NativeContext(draw, st.nextHandle, stale))
  {
    if stale != NO_HANDLE {
      var ds1 := AddNative(st.displays, root, NativeContext(draw, stale, NO_HANDLE));
      RegistryProperties.AddNativeAt(st.displays, root, NativeContext(draw, stale, NO_HANDLE), root);
      RegistryProperties.AddNativeAt(st.displays, root, NativeContext(draw, stale, NO_HANDLE), l);
      if native.ctxCreated {
        RegistryProperties.AddNativeAt(ds1, l, NativeContext(draw, st.nextHandle, stale), root);
        RegistryProperties.AddNativeAt(ds1, l, NativeContext(draw, st.nextHandle, stale), l);
      }
    }
  }

  /**
   * On Windows the root ancestor's entry is the context the native layer
   * created, and the new context shares with it.
   */
  lemma WindowsRootShared(st: State, l: Loc, draw: nat, native: NativeResults, root: Loc, stale: nat)
    requires ValidLoc(st.displays, l) && ValidLoc(st.displays, root) && root != l
    requires native.rootCreated && native.ctxCreated
    ensures var r := Legacy.CreateNative(st, Windows, l, draw, native, MaterialiseRoot(root), stale);
      && r.result
      && ValidLoc(r.state.displays, root) && ValidLoc(r.state.displays, l)
      && ContextAt(r.state.displays, root).natives[0] == NativeContext(draw, st.nextHandle, NO_HANDLE)
      && ContextAt(r.state.displays, l).natives[0] == NativeContext(draw, st.nextHandle + 1, st.nextHandle)
  {
    var ds1 := AddNative(st.displays, root, NativeContext(draw, st.nextHandle, NO_HANDLE));
    RegistryProperties.AddNativeAt(st.displays, root, NativeContext(draw, st.nextHandle, NO_HANDLE), root);
    RegistryProperties.AddNativeAt(st.displays, root, NativeContext(draw, st.nextHandle, NO_HANDLE), l);
    RegistryProperties.AddNativeAt(ds1, l, NativeContext(draw, st.nextHandle + 1, st.nextHandle), root);
    RegistryProperties.AddNativeAt(ds1, l, NativeContext(draw, st.nextHandle + 1, st.nextHandle), l);
  }

  /** Attaching sets no error. */
  lemma AttachKeepsError(st: State, p: Platform, l: Loc, draw: nat, native: NativeResults, stale: nat)
    requires ValidLoc(st.displays, l) && Descending(st.displays)
    ensures Legacy.Attach(st, p, l, draw, native, stale).state.error == st.error
  {
  }

  /**
   * `_eglMakeCurrent` of egl_windows.c answers what egl_common.cpp answers
   * and, when it comes back, leaves the same state, except that success
   * leaves the error untouched where egl_common.cpp sets EGL_BAD_DISPLAY.
   */
  lemma WindowsMakeCurrentAgrees(st: State, dpy: nat, draw: nat, read: nat, ctx: nat, native: NativeResults, stale: nat)
    requires Descending(st.displays)
    requires Legacy.MakeCurrent(st, Windows, dpy, draw, read, ctx, native, stale).Done?
    ensures var r := Legacy.MakeCurrent(st, Windows, dpy, draw, read, ctx, native, stale).value;
      var c := MakeCurrent(st, dpy, draw, read, ctx, native);
      && r.result == c.result
      && r.state == (if r.result then c.state.(error := st.error) else c.state)
  {
    if !HandlesMismatch(draw, read, ctx) {
      match Find(st.displays, DisplayHandle(dpy))
      case None =>
      case Some(i) =>
        var d := st.displays[i];
        if d.initialized && !d.destroy && SurfaceCheck(d, draw).Ok? && SurfaceCheck(d, read).Ok? {
          WindowsMakeCurrentOnAgrees(st, i, dpy, draw, read, ctx, native, stale);
        }
    }
  }

  /** WindowsMakeCurrentAgrees past the display and surface checks. */
  lemma WindowsMakeCurrentOnAgrees(st: State, i: nat, dpy: nat, draw: nat, read: nat, ctx: nat, native: NativeResults, stale: nat)
    requires Descending(st.displays) && i < |st.displays|
    requires Legacy.MakeCurrentOn(st, Windows, i, draw, read, ctx, native, stale).Done?
    requires !HandlesMismatch(draw, read, ctx) && Find(st.displays, DisplayHandle(dpy)) == Some(i)
    requires var d := st.displays[i]; d.initialized && !d.destroy && SurfaceCheck(d, draw).Ok? && SurfaceCheck(d, read).Ok?
    ensures var r := Legacy.MakeCurrentOn(st, Windows, i, draw, read, ctx, native, stale).value;
      var c := MakeCurrent(st, dpy, draw, read, ctx, native);
      && r.result == c.result
      && r.state == (if r.result then c.state.(error := st.error) else c.state)
  {
    var d := st.displays[i];
    if ctx == NO_HANDLE {
      if native.bound {
        var d' := d.(currentDraw := NO_HANDLE, currentRead := NO_HANDLE, currentCtx := NO_HANDLE);
        CleanupAgrees(st.(displays := st.displays[i := d'], currentCtx := NO_HANDLE), Windows);
      }
    } else {
      match Find(d.contexts, ContextHandle(ctx))
      case None =>
      case Some(k) =>
        if d.contexts[k].initialized && !d.contexts[k].destroy {
          var attached := Legacy.Attach(st, Windows, Loc(i, k), draw, native, stale);
          assert attached == Attach(st, Loc(i, k), draw, native);
          AttachKeepsError(st, Windows, Loc(i, k), draw, native, stale);
          if attached.result && native.bound {
            var d' := attached.state.displays[i].(currentDraw := draw, currentRead := read, currentCtx := ctx);
            CleanupAgrees(attached.state.(displays := attached.state.displays[i := d'], currentCtx := ctx), Windows);
          }
        }
    }
  }

  lemma AttachValid(st: State, p: Platform, l: Loc, draw: nat, native: NativeResults, stale: nat)
    requires Valid(st) && ValidLoc(st.displays, l) && Descending(st.displays)
    ensures Valid(Legacy.Attach(st, p, l, draw, native, stale).state)
  {
    var c := ContextAt(st.displays, l);
    if Find(c.natives, ForSurface(draw)).None? {
      var parent := ShareParent(st.displays, l);
      if p == Windows || parent.ShareWith? {
        RegistryProperties.AttachValid(st, l, draw, native);
      } else if stale != NO_HANDLE {
        var rootNative := NativeContext(draw, stale, NO_HANDLE);
        RegistryProperties.AddNativeValid(st, parent.root, rootNative, st.nextHandle);
        var st1 := st.(displays := AddNative(st.displays, parent.root, rootNative));
        if native.ctxCreated {
          RegistryProperties.AddNativeValid(st1, l, NativeContext(draw, st1.nextHandle, stale), st1.nextHandle + 1);
        }
      }
    }
  }

  lemma BindValid(st: State, p: Platform, i: nat, draw: nat, read: nat, ctx: nat, bound: bool)
    requires Valid(st) && i < |st.displays| && Legacy.Bind(st, p, i, draw, read, ctx, bound).Done?
    ensures Valid(Legacy.Bind(st, p, i, draw, read, ctx, bound).value.state)
  {
    if bound {
      var d := st.displays[i];
      assert d in st.displays;
      var d' := d.(currentDraw := draw, currentRead := read, currentCtx := ctx);
      RegistryProperties.ReplaceDisplayValid(st, i, d', st.nextHandle);
      CleanupValid(st.(displays := st.displays[i := d'], currentCtx := ctx), p);
    }
  }

  lemma MakeCurrentValid(st: State, p: Platform, dpy: nat, draw: nat, read: nat, ctx: nat, native: NativeResults, stale: nat)
    requires Valid(st) && Descending(st.displays)
    requires Legacy.MakeCurrent(st, p, dpy, draw, read, ctx, native, stale).Done?
    ensures Valid(Legacy.MakeCurrent(st, p, dpy, draw, read, ctx, native, stale).value.state)
  {
    if !HandlesMismatch(draw, read, ctx) {
      match Find(st.displays, DisplayHandle(dpy))
      case None =>
      case Some(i) =>
        var d := st.displays[i];
        if d.initialized && !d.destroy && SurfaceCheck(d, draw).Ok? && SurfaceCheck(d, read).Ok? {
          MakeCurrentOnValid(st, p, i, draw, read, ctx, native, stale);
        }
    }
  }

  lemma MakeCurrentOnValid(st: State, p: Platform, i: nat, draw: nat, read: nat, ctx: nat, native: NativeResults, stale: nat)
    requires Valid(st) && Descending(st.displays) && i < |st.displays|
    requires Legacy.MakeCurrentOn(st, p, i, draw, read, ctx, native, stale).Done?
    ensures Valid(Legacy.MakeCurrentOn(st, p, i, draw, read, ctx, native, stale).value.state)
  {
    var d := st.displays[i];
    if ctx == NO_HANDLE {
      BindValid(st, p, i, NO_HANDLE, NO_HANDLE, NO_HANDLE, native.bound);
    } else {
      match Find(d.contexts, ContextHandle(ctx))
      case None =>
      case Some(k) =>
        if d.contexts[k].initialized && !d.contexts[k].destroy {
          var attached := Legacy.Attach(st, p, Loc(i, k), draw, native, stale);
          AttachValid(st, p, Loc(i, k), draw, native, stale);
          if attached.result {
            BindValid(attached.state, p, i, draw, read, ctx, native.bound);
          }
        }
    }
  }
}
