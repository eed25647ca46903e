// Properties of the registry model: what the cleanup sweep removes and
// keeps, the share walk of make-current, the invariant every entry point
// preserves, and the answers and error codes of the entry points.

module RegistryProperties {
  import opened EglDefs
  import ConfigSelect
  import ContextAttribs
  import SurfaceAttribs
  import opened RegistryModel

  // ---------------------------------------------------------------------
  // The sweep
  // ---------------------------------------------------------------------

  /** Once something lies before the walker, the pass is the reference filter. */
  lemma {:induction false} SweepAfterHead<T>(kept: seq<T>, rest: seq<T>, clean: T -> T, doomed: T -> bool)
    requires |kept| > 0
    ensures SweepFrom(kept, rest, clean, doomed) == kept + Survivors(rest, clean, doomed)
    decreases |rest|
  {
    if |rest| > 0 {
      var x := clean(rest[0]);
      SweepAfterHead(if doomed(x) then kept else kept + [x], rest[1..], clean, doomed);
    }
  }

  /**
   * One pass removes exactly the doomed nodes, keeping order, except that
   * when the head is removed the node after it survives unexamined.
   */
  lemma SweepClosedForm<T>(s: seq<T>, clean: T -> T, doomed: T -> bool)
    ensures Sweep(s, clean, doomed) ==
      if |s| > 0 && doomed(clean(s[0])) then (if |s| == 1 then [] else [s[1]] + Survivors(s[2..], clean, doomed))
      else Survivors(s, clean, doomed)
  {
    if |s| > 0 {
      var x := clean(s[0]);
      if !doomed(x) {
        assert [] + [x] == [x];
        calc {
          Sweep(s, clean, doomed);
          SweepFrom([] + [x], s[1..], clean, doomed);
          SweepFrom([x], s[1..], clean, doomed);
          { SweepAfterHead([x], s[1..], clean, doomed); }
          [x] + Survivors(s[1..], clean, doomed);
          ([] + [x]) + Survivors(s[1..], clean, doomed);
          Survivors(s, clean, doomed);
        }
      } else if |s| > 1 {
        calc {
          Sweep(s, clean, doomed);
          SweepFrom([s[1]], s[2..], clean, doomed);
          { SweepAfterHead([s[1]], s[2..], clean, doomed); }
          [s[1]] + Survivors(s[2..], clean, doomed);
        }
      }
    }
  }

  /** The reference filter keeps every node that is not doomed once cleaned... */
  lemma {:induction false} SurvivorsKeep<T>(s: seq<T>, clean: T -> T, doomed: T -> bool)
    ensures forall y :: y in s && !doomed(clean(y)) ==> clean(y) in Survivors(s, clean, doomed)
    decreases |s|
  {
    if |s| > 0 {
      SurvivorsKeep(s[1..], clean, doomed);
      forall y | y in s && !doomed(clean(y)) ensures clean(y) in Survivors(s, clean, doomed) {
        if y != s[0] {
          assert y in s[1..];
        }
      }
    }
  }

  /** ...and nothing else. */
  lemma {:induction false} SurvivorsOnly<T>(s: seq<T>, clean: T -> T, doomed: T -> bool)
    ensures forall x :: x in Survivors(s, clean, doomed) ==> !doomed(x) && exists y :: y in s && x == clean(y)
    decreases |s|
  {
    if |s| > 0 {
      SurvivorsOnly(s[1..], clean, doomed);
      forall x | x in Survivors(s, clean, doomed) ensures !doomed(x) && exists y :: y in s && x == clean(y) {
        if x != clean(s[0]) {
          assert x in Survivors(s[1..], clean, doomed);
          var y :| y in s[1..] && x == clean(y);
          assert y in s;
        }
      }
    }
  }

  /** A node that is not doomed is never removed; only doomed nodes are. */
  lemma SweepKeepsLive<T>(s: seq<T>, clean: T -> T, doomed: T -> bool)
    ensures forall y :: y in s && !doomed(clean(y)) ==> clean(y) in Sweep(s, clean, doomed) || y in Sweep(s, clean, doomed)
    ensures forall x :: x in Sweep(s, clean, doomed) ==> exists y :: y in s && (x == y || (x == clean(y) && !doomed(x)))
  {
    var r := Sweep(s, clean, doomed);
    SweepClosedForm(s, clean, doomed);
    if |s| > 0 && doomed(clean(s[0])) {
      if |s| > 1 {
        var tail := s[2..];
        assert r == [s[1]] + Survivors(tail, clean, doomed);
        SurvivorsKeep(tail, clean, doomed);
        SurvivorsOnly(tail, clean, doomed);
        forall y | y in s && !doomed(clean(y)) ensures clean(y) in r || y in r {
          if y != s[1] {
            var k :| 0 <= k < |s| && s[k] == y;
            assert y in tail by { assert tail[k - 2] == y; }
          }
        }
        forall x | x in r ensures exists y :: y in s && (x == y || (x == clean(y) && !doomed(x))) {
          if x != s[1] {
            assert x in Survivors(tail, clean, doomed);
            var y :| y in tail && x == clean(y);
            assert y in s;
          } else {
            assert s[1] in s;
          }
        }
      }
    } else {
      assert r == Survivors(s, clean, doomed);
      SurvivorsKeep(s, clean, doomed);
      SurvivorsOnly(s, clean, doomed);
    }
  }

  /** Two nodes that are both due for removal: one pass frees only the first. */
  lemma HeadSkip<T>(a: T, b: T, clean: T -> T, doomed: T -> bool)
    requires doomed(clean(a)) && doomed(clean(b))
    ensures Sweep([a, b], clean, doomed) == [b]
  {
    var s := [a, b];
    assert s[0] == a && s[1] == b && s[2..] == [];
    assert SweepFrom([], s, clean, doomed) == SweepFrom([s[1]], s[2..], clean, doomed);
    assert SweepFrom([b], [], clean, doomed) == [b];
  }

  /** ...and so a destroyed, unbound surface can outlive the sweep. */
  lemma SurfaceOutlivesSweep(a: Surface, b: Surface, draw: nat, read: nat)
    requires a.destroy && b.destroy && a.handle !in {draw, read} && b.handle !in {draw, read}
    ensures Sweep([a, b], Unchanged, SurfaceDoomed(draw, read)) == [b]
    ensures SurfaceDoomed(draw, read)(b)
  {
    HeadSkip(a, b, Unchanged, SurfaceDoomed(draw, read));
  }

  /** When the head stays, the pass removes every doomed node. */
  lemma SweepLiveHead<T>(s: seq<T>, clean: T -> T, doomed: T -> bool)
    requires |s| > 0 && !doomed(clean(s[0]))
    ensures Sweep(s, clean, doomed) == Survivors(s, clean, doomed)
  {
    SweepClosedForm(s, clean, doomed);
  }

  /**
   * The cleanup never frees a surface its display is drawing to or reading
   * from, nor a context that is current; every node it keeps was there.
   */
  lemma CleanupKeepsBound(d: Display, threadCurrent: nat)
    ensures var d' := CleanDisplay(threadCurrent)(d);
      && (forall s :: s in d.surfaces && (s.handle == d.currentDraw || s.handle == d.currentRead || !s.destroy) ==> s in d'.surfaces)
      && (forall c :: c in d.contexts && (c.handle == d.currentCtx || c.handle == threadCurrent || !c.destroy) ==> c in d'.contexts)
      && (forall s :: s in d'.surfaces ==> s in d.surfaces)
      && (forall c :: c in d'.contexts ==> c in d.contexts)
  {
    SweepKeepsLive(d.surfaces, Unchanged, SurfaceDoomed(d.currentDraw, d.currentRead));
    SweepKeepsLive(d.contexts, Unchanged, ContextDoomed(d.currentCtx, threadCurrent));
  }

  // ---------------------------------------------------------------------
  // The share walk of make-current
  // ---------------------------------------------------------------------

  /** The share chain from the context at `l`: it, its share source, that one's, and so on. */
  function Chain(ds: seq<Display>, l: Loc): (r: seq<Loc>)
    requires ValidLoc(ds, l) && Descending(ds)
    ensures |r| > 0 && r[0] == l
    ensures forall k :: 0 <= k < |r| ==> ValidLoc(ds, r[k])
    decreases ContextAt(ds, l).handle
  {
    match Link(ds, ContextAt(ds, l))
    case None => [l]
    case Some(next) => [l] + Chain(ds, next)
  }

  /** Each element of the chain links to the next, and the last has no share source left. */
  lemma {:induction false} ChainLinks(ds: seq<Display>, l: Loc)
    requires ValidLoc(ds, l) && Descending(ds)
    ensures var ch := Chain(ds, l);
      && (forall k :: 0 <= k < |ch| - 1 ==> Link(ds, ContextAt(ds, ch[k])) == Some(ch[k + 1]))
      && Link(ds, ContextAt(ds, ch[|ch| - 1])).None?
    decreases ContextAt(ds, l).handle
  {
    match Link(ds, ContextAt(ds, l))
    case None =>
    case Some(next) =>
      ChainLinks(ds, next);
      var ch := Chain(ds, l);
      assert ch == [l] + Chain(ds, next);
      forall k | 0 <= k < |ch| - 1 ensures Link(ds, ContextAt(ds, ch[k])) == Some(ch[k + 1]) {
        if k > 0 {
          assert ch[k] == Chain(ds, next)[k - 1] && ch[k + 1] == Chain(ds, next)[k];
        }
      }
  }

  predicate Materialised(ds: seq<Display>, l: Loc)
    requires ValidLoc(ds, l)
  {
    |ContextAt(ds, l).natives| > 0
  }

  /** Position `k` is the first materialised context of the chain `ch`. */
  predicate FirstMaterialised(ds: seq<Display>, ch: seq<Loc>, k: int)
    requires forall i :: 0 <= i < |ch| ==> ValidLoc(ds, ch[i])
  {
    0 <= k < |ch| && Materialised(ds, ch[k]) && forall j :: 0 <= j < k ==> !Materialised(ds, ch[j])
  }

  /** Position `k` is the first materialised context of `ch`, and `n` is its newest native context. */
  predicate SharesWithAt(ds: seq<Display>, ch: seq<Loc>, k: int, n: nat)
    requires forall i :: 0 <= i < |ch| ==> ValidLoc(ds, ch[i])
  {
    FirstMaterialised(ds, ch, k) && n == ContextAt(ds, ch[k]).natives[0].handle
  }

  /**
   * The walk shares with the newest native context of the first ancestor on
   * the chain that has one; when none has, it names the chain's root.
   */
  lemma {:induction false} WalkFindsFirstMaterialised(ds: seq<Display>, l: Loc)
    requires ValidLoc(ds, l) && Descending(ds)
    ensures Walk(ds, l).ShareWith? ==> exists k :: SharesWithAt(ds, Chain(ds, l), k, Walk(ds, l).native)
    ensures Walk(ds, l).MaterialiseRoot? ==>
      Walk(ds, l).root == Chain(ds, l)[|Chain(ds, l)| - 1] && forall j :: 0 <= j < |Chain(ds, l)| ==> !Materialised(ds, Chain(ds, l)[j])
    decreases ContextAt(ds, l).handle
  {
    var ch := Chain(ds, l);
    if Materialised(ds, l) {
      var w := Walk(ds, l);
      assert w == ShareWith(ContextAt(ds, l).natives[0].handle);
      assert SharesWithAt(ds, ch, 0, w.native);
    } else {
      match Link(ds, ContextAt(ds, l))
      case None =>
        assert ch == [l];
      case Some(next) =>
        WalkFindsFirstMaterialised(ds, next);
        var tail := Chain(ds, next);
        assert ch == [l] + tail;
        if Walk(ds, next).ShareWith? {
          var k :| SharesWithAt(ds, tail, k, Walk(ds, next).native);
          assert ch[k + 1] == tail[k];
          forall j | 0 <= j < k + 1 ensures !Materialised(ds, ch[j]) {
            if j > 0 {
              assert ch[j] == tail[j - 1];
            }
          }
          assert SharesWithAt(ds, ch, k + 1, Walk(ds, l).native);
        } else {
          forall j | 0 <= j < |ch| ensures !Materialised(ds, ch[j]) {
            if j > 0 {
              assert ch[j] == tail[j - 1];
            }
          }
        }
    }
  }

  // ---------------------------------------------------------------------
  // The registry invariant is kept by every entry point
  // ---------------------------------------------------------------------

  /** Share chains only go to older contexts, so every walk along them ends. */
  lemma ValidDescending(st: State)
    requires Valid(st)
    ensures Descending(st.displays)
  {
    forall d, c | 0 <= d < |st.displays| && 0 <= c < |st.displays[d].contexts|
      ensures st.displays[d].contexts[c].sharedCtx < st.displays[d].contexts[c].handle
    {
      assert st.displays[d] in st.displays;
      assert st.displays[d].contexts[c] in st.displays[d].contexts;
    }
  }

  lemma DisplayOkGrows(d: Display, next: nat, next': nat)
    requires DisplayOk(d, next) && next <= next'
    ensures DisplayOk(d, next')
  {
  }

  /** Replacing one display by one that is sound keeps the registry sound. */
  lemma ReplaceDisplayValid(st: State, i: nat, d: Display, next: nat)
    requires Valid(st) && i < |st.displays| && d.handle == st.displays[i].handle && DisplayOk(d, next) && st.nextHandle <= next
    ensures Valid(st.(displays := st.displays[i := d], nextHandle := next))
  {
    var ds := st.displays[i := d];
    forall x | x in ds ensures DisplayOk(x, next) {
      var j :| 0 <= j < |ds| && ds[j] == x;
      if j != i {
        assert st.displays[j] in st.displays;
        DisplayOkGrows(x, st.nextHandle, next);
      }
    }
  }

  lemma CleanDisplayOk(d: Display, threadCurrent: nat, next: nat)
    requires DisplayOk(d, next)
    ensures DisplayOk(CleanDisplay(threadCurrent)(d), next)
  {
    CleanupKeepsBound(d, threadCurrent);
  }

  /** A display whose handle no display of `rest` has can head it. */
  lemma PrependDistinct(x: Display, rest: seq<Display>)
    requires DistinctDisplays(rest) && forall y :: y in rest ==> y.handle != x.handle
    ensures DistinctDisplays([x] + rest)
  {
    forall j, k | 0 <= j < k < |[x] + rest| ensures ([x] + rest)[j].handle != ([x] + rest)[k].handle {
      if j == 0 {
        assert ([x] + rest)[k] == rest[k - 1];
        assert rest[k - 1] in rest;
      } else {
        assert ([x] + rest)[j] == rest[j - 1] && ([x] + rest)[k] == rest[k - 1];
      }
    }
  }

  /** The head of a list of distinct displays has a handle none of the rest has. */
  lemma HeadDistinct(s: seq<Display>)
    requires |s| > 0 && DistinctDisplays(s)
    ensures DistinctDisplays(s[1..]) && forall y :: y in s[1..] ==> y.handle != s[0].handle
  {
    forall y | y in s[1..] ensures y.handle != s[0].handle {
      var m :| 0 <= m < |s[1..]| && s[1..][m] == y;
      assert s[m + 1] == y;
    }
  }

  /** The reference filter over displays keeps their handles distinct, and takes each handle from the list. */
  lemma {:induction false} SurvivorsDistinct(s: seq<Display>, threadCurrent: nat)
    requires DistinctDisplays(s)
    ensures DistinctDisplays(Survivors(s, CleanDisplay(threadCurrent), DisplayDoomed))
    ensures forall x :: x in Survivors(s, CleanDisplay(threadCurrent), DisplayDoomed) ==> exists y :: y in s && x.handle == y.handle
    decreases |s|
  {
    var clean := CleanDisplay(threadCurrent);
    if |s| > 0 {
      HeadDistinct(s);
      SurvivorsDistinct(s[1..], threadCurrent);
      var rest := Survivors(s[1..], clean, DisplayDoomed);
      if !DisplayDoomed(clean(s[0])) {
        forall y | y in rest ensures y.handle != clean(s[0]).handle {
          var z :| z in s[1..] && y.handle == z.handle;
        }
        PrependDistinct(clean(s[0]), rest);
      }
      forall x | x in Survivors(s, clean, DisplayDoomed) ensures exists y :: y in s && x.handle == y.handle {
        if x in rest {
          var z :| z in s[1..] && x.handle == z.handle;
          assert z in s;
        } else {
          assert x == clean(s[0]);
          assert s[0] in s;
        }
      }
    }
  }

  /** The cleanup keeps display handles distinct, head skip included. */
  lemma SweepDistinct(s: seq<Display>, threadCurrent: nat)
    requires DistinctDisplays(s)
    ensures DistinctDisplays(Sweep(s, CleanDisplay(threadCurrent), DisplayDoomed))
  {
    var clean := CleanDisplay(threadCurrent);
    SweepClosedForm(s, clean, DisplayDoomed);
    if |s| > 1 && DisplayDoomed(clean(s[0])) {
      HeadDistinct(s);
      HeadDistinct(s[1..]);
      SurvivorsDistinct(s[2..], threadCurrent);
      assert s[1..][1..] == s[2..] && s[1..][0] == s[1];
      forall y | y in Survivors(s[2..], clean, DisplayDoomed) ensures y.handle != s[1].handle {
        var z :| z in s[2..] && y.handle == z.handle;
      }
      PrependDistinct(s[1], Survivors(s[2..], clean, DisplayDoomed));
    } else {
      SurvivorsDistinct(s, threadCurrent);
    }
  }

  /** The cleanup keeps the registry sound. */
  lemma CleanupValid(st: State)
    requires Valid(st)
    ensures Valid(Cleanup(st))
  {
    var clean := CleanDisplay(st.currentCtx);
    SweepKeepsLive(st.displays, clean, DisplayDoomed);
    SweepDistinct(st.displays, st.currentCtx);
    forall x | x in Cleanup(st).displays ensures DisplayOk(x, st.nextHandle) {
      var y :| y in st.displays && (x == y || (x == clean(y) && !DisplayDoomed(x)));
      if x != y {
        CleanDisplayOk(y, st.currentCtx, st.nextHandle);
      }
    }
  }

  lemma GetDisplayValid(st: State, displayId: int, defaultId: int, nativeReady: bool)
    requires Valid(st)
    ensures Valid(GetDisplay(st, displayId, defaultId, nativeReady).state)
  {
    var st' := GetDisplay(st, displayId, defaultId, nativeReady).state;
    forall x | x in st'.displays ensures DisplayOk(x, st'.nextHandle) {
      if x in st.displays {
        DisplayOkGrows(x, st.nextHandle, st'.nextHandle);
      }
    }
    if st'.displays != st.displays {
      PrependDistinct(st'.displays[0], st.displays);
      assert st'.displays == [st'.displays[0]] + st.displays;
    }
  }

  lemma InitializeValid(st: State, dpy: nat, derived: Option<seq<Config>>)
    requires Valid(st)
    ensures Valid(Initialize(st, dpy, derived).state)
  {
    match Find(st.displays, DisplayHandle(dpy))
    case None =>
    case Some(i) =>
      var d := st.displays[i];
      assert d in st.displays;
      if !d.destroy && !d.initialized && derived.Some? {
        ReplaceDisplayValid(st, i, d.(initialized := true, configs := derived.value), st.nextHandle);
      }
  }

  lemma TerminateValid(st: State, dpy: nat)
    requires Valid(st)
    ensures Valid(Terminate(st, dpy).state)
  {
    match Find(st.displays, DisplayHandle(dpy))
    case None =>
    case Some(i) =>
      var d := st.displays[i];
      assert d in st.displays;
      if d.initialized && !d.destroy {
        var d' := d.(initialized := false, destroy := true);
        ReplaceDisplayValid(st, i, d', st.nextHandle);
        CleanupValid(st.(displays := st.displays[i := d']));
      }
  }

  /**
   * A created context: every check passed, and the new live context, with
   * the fresh handle, no native context yet and the translated attributes,
   * heads its display's list; nothing else changes.
   */
  lemma CreatedContext(st: State, limits: Limits, backend: ContextAttribs.Backend,
                       dpy: nat, configId: int, share: nat, attribs: Option<seq<int>>)
    requires attribs.Some? ==> Terminated(attribs.value)
    requires CreateContext(st, limits, backend, dpy, configId, share, attribs).result != NO_HANDLE
    ensures var r := CreateContext(st, limits, backend, dpy, configId, share, attribs);
      && attribs.Some? && (st.api == EGL_OPENGL_API || st.api == EGL_OPENGL_ES_API)
      && WithinLimit(RequestedVersion(attribs.value), if st.api == EGL_OPENGL_API then limits.gl else limits.es)
      && Find(st.displays, DisplayHandle(dpy)).Some?
      && var i := Find(st.displays, DisplayHandle(dpy)).value;
      && var d := st.displays[i];
      && d.initialized && !d.destroy
      && Find(d.configs, ConfigWithId(configId)).Some?
      && (st.api == EGL_OPENGL_ES_API ==> SharesBit(d.configs[Find(d.configs, ConfigWithId(configId)).value].conformant, EGL_OPENGL_ES3_BIT))
      && ContextAttribs.ContextAttribList(backend, st.api, attribs.value).Ok?
      && ShareUsable(st.displays, share)
      && r.result == st.nextHandle
      && r.state == st.(displays := st.displays[i := d.(contexts := [Context(st.nextHandle, true, false, configId, share,
                          ContextAttribs.ContextAttribList(backend, st.api, attribs.value).value, [])] + d.contexts)],
                        nextHandle := st.nextHandle + 1)
  {
  }

  /** The bound API is one eglCreateContext serves, and the requested version is within its limit. */
  predicate VersionAdmitted(st: State, limits: Limits, a: seq<int>)
    requires Terminated(a)
  {
    || (st.api == EGL_OPENGL_API && WithinLimit(RequestedVersion(a), limits.gl))
    || (st.api == EGL_OPENGL_ES_API && WithinLimit(RequestedVersion(a), limits.es))
  }

  /**
   * eglCreateContext answers a fresh handle exactly when every check passes,
   * in the source's order: an attribute list, a bound API it serves within
   * the version limit, a live display, a known config (OpenGL ES 3
   * conformant for OpenGL ES), a translated list and a usable share
   * context.  Each refusal leaves exactly its error: EGL_BAD_PARAMETER,
   * EGL_BAD_MATCH, none for the version, API and ES 3 refusals,
   * EGL_BAD_DISPLAY, EGL_NOT_INITIALIZED, EGL_BAD_CONFIG, the translation's
   * error, or EGL_BAD_CONTEXT.
   */
  lemma CreateContextAnswers(st: State, limits: Limits, backend: ContextAttribs.Backend,
                             dpy: nat, configId: int, share: nat, attribs: Option<seq<int>>)
    requires attribs.Some? ==> Terminated(attribs.value)
    ensures var r := CreateContext(st, limits, backend, dpy, configId, share, attribs);
      && (r.result != NO_HANDLE ==> r.result == st.nextHandle)
      && (attribs.None? ==> r == Reply(st.(error := EGL_BAD_PARAMETER), NO_HANDLE))
      && (attribs.Some? && st.api == EGL_NONE ==> r == Reply(st.(error := EGL_BAD_MATCH), NO_HANDLE))
      && (attribs.Some? && st.api != EGL_NONE && !VersionAdmitted(st, limits, attribs.value) ==> r == Reply(st, NO_HANDLE))
      && (attribs.Some? && VersionAdmitted(st, limits, attribs.value) ==>
            && (Find(st.displays, DisplayHandle(dpy)).None? ==> r == Reply(st.(error := EGL_BAD_DISPLAY), NO_HANDLE))
            && (forall i :: Find(st.displays, DisplayHandle(dpy)) == Some(i) ==>
                  var d := st.displays[i];
                  && (!d.initialized || d.destroy ==> r == Reply(st.(error := EGL_NOT_INITIALIZED), NO_HANDLE))
                  && (d.initialized && !d.destroy && Find(d.configs, ConfigWithId(configId)).None? ==>
                        r == Reply(st.(error := EGL_BAD_CONFIG), NO_HANDLE))
                  && (forall k :: d.initialized && !d.destroy && Find(d.configs, ConfigWithId(configId)) == Some(k) ==>
                        if st.api == EGL_OPENGL_ES_API && !SharesBit(d.configs[k].conformant, EGL_OPENGL_ES3_BIT) then r == Reply(st, NO_HANDLE)
                        else match ContextAttribs.ContextAttribList(backend, st.api, attribs.value)
                          case Err(e) => r == Reply(st.(error := e), NO_HANDLE)
                          case Ok(_) =>
                            if ShareUsable(st.displays, share) then r.result == st.nextHandle
                            else r == Reply(st.(error := EGL_BAD_CONTEXT), NO_HANDLE))))
  {
  }

  /** No context is created over a named share context that is absent, uninitialised or flagged destroyed. */
  lemma DeadShareRefused(st: State, limits: Limits, backend: ContextAttribs.Backend,
                         dpy: nat, configId: int, share: nat, attribs: Option<seq<int>>)
    requires attribs.Some? ==> Terminated(attribs.value)
    requires !ShareUsable(st.displays, share)
    ensures CreateContext(st, limits, backend, dpy, configId, share, attribs).result == NO_HANDLE
  {
  }

  /** A refused creation changes only the error. */
  lemma RefusedContext(st: State, limits: Limits, backend: ContextAttribs.Backend,
                       dpy: nat, configId: int, share: nat, attribs: Option<seq<int>>)
    requires attribs.Some? ==> Terminated(attribs.value)
    requires CreateContext(st, limits, backend, dpy, configId, share, attribs).result == NO_HANDLE
    requires st.nextHandle != NO_HANDLE
    ensures CreateContext(st, limits, backend, dpy, configId, share, attribs).state
      == st.(error := CreateContext(st, limits, backend, dpy, configId, share, attribs).state.error)
  {
  }

  /** A context handle that lookup finds is one handed out already. */
  lemma FoundContextFresh(st: State, h: nat)
    requires Valid(st) && FindContext(st.displays, h).Some?
    ensures Fresh(h, st.nextHandle)
  {
    var l := FindContext(st.displays, h).value;
    assert st.displays[l.d] in st.displays;
    assert ContextAt(st.displays, l) in st.displays[l.d].contexts;
  }

  lemma CreateContextValid(st: State, limits: Limits, backend: ContextAttribs.Backend,
                           dpy: nat, configId: int, share: nat, attribs: Option<seq<int>>)
    requires Valid(st) && (attribs.Some? ==> Terminated(attribs.value))
    ensures Valid(CreateContext(st, limits, backend, dpy, configId, share, attribs).state)
  {
    var r := CreateContext(st, limits, backend, dpy, configId, share, attribs);
    if r.result == NO_HANDLE {
      RefusedContext(st, limits, backend, dpy, configId, share, attribs);
    } else {
      CreatedContext(st, limits, backend, dpy, configId, share, attribs);
      var i := Find(st.displays, DisplayHandle(dpy)).value;
      var d := st.displays[i];
      assert d in st.displays;
      if share != NO_HANDLE {
        FoundContextFresh(st, share);
      }
      var c := r.state.displays[i].contexts[0];
      assert DisplayOk(d.(contexts := [c] + d.contexts), st.nextHandle + 1);
      ReplaceDisplayValid(st, i, d.(contexts := [c] + d.contexts), st.nextHandle + 1);
    }
  }

  lemma CreateSurfaceValid(st: State, dpy: nat, configId: int, hook: Config -> SurfaceAttribs.Outcome)
    requires Valid(st)
    ensures Valid(CreateSurface(st, dpy, configId, hook).state)
  {
    var r := CreateSurface(st, dpy, configId, hook);
    if r.state.nextHandle != st.nextHandle {
      var i := Find(st.displays, DisplayHandle(dpy)).value;
      var d := st.displays[i];
      assert d in st.displays;
      var k := Find(d.configs, ConfigWithId(configId)).value;
      var s := Surface(st.nextHandle, true, false, hook(d.configs[k]).info);
      ReplaceDisplayValid(st, i, d.(surfaces := [s] + d.surfaces), st.nextHandle + 1);
    }
  }

  lemma DestroyContextValid(st: State, dpy: nat, ctx: nat)
    requires Valid(st)
    ensures Valid(DestroyContext(st, dpy, ctx).state)
  {
    match Find(st.displays, DisplayHandle(dpy))
    case None =>
    case Some(i) =>
      var d := st.displays[i];
      assert d in st.displays;
      if d.initialized && !d.destroy {
        match Find(d.contexts, ContextHandle(ctx))
        case None =>
        case Some(k) =>
          var c := d.contexts[k];
          if c.initialized && !c.destroy {
            var d' := d.(contexts := d.contexts[k := c.(initialized := false, destroy := true)]);
            assert c in d.contexts;
            forall x | x in d'.contexts ensures ContextOk(x, st.nextHandle) {
              var j :| 0 <= j < |d'.contexts| && d'.contexts[j] == x;
              if j != k {
                assert d.contexts[j] in d.contexts;
              }
            }
            ReplaceDisplayValid(st, i, d', st.nextHandle);
            CleanupValid(st.(displays := st.displays[i := d']));
          }
      }
  }

  lemma DestroySurfaceValid(st: State, dpy: nat, surface: nat)
    requires Valid(st)
    ensures Valid(DestroySurface(st, dpy, surface).state)
  {
    match Find(st.displays, DisplayHandle(dpy))
    case None =>
    case Some(i) =>
      var d := st.displays[i];
      assert d in st.displays;
      if d.initialized && !d.destroy {
        match Find(d.surfaces, SurfaceHandle(surface))
        case None =>
        case Some(k) =>
          var s := d.surfaces[k];
          if s.initialized && !s.destroy {
            var d' := d.(surfaces := d.surfaces[k := s.(initialized := false, destroy := true)]);
            assert s in d.surfaces;
            forall x | x in d'.surfaces ensures Fresh(x.handle, st.nextHandle) {
              var j :| 0 <= j < |d'.surfaces| && d'.surfaces[j] == x;
              if j != k {
                assert d.surfaces[j] in d.surfaces;
              }
            }
            ReplaceDisplayValid(st, i, d', st.nextHandle);
            CleanupValid(st.(displays := st.displays[i := d']));
          }
      }
  }

  /** Adding a native context changes no handle and no share link. */
  lemma AddNativeValid(st: State, l: Loc, n: NativeContext, next: nat)
    requires Valid(st) && ValidLoc(st.displays, l) && st.nextHandle <= next
    ensures Valid(st.(displays := AddNative(st.displays, l, n), nextHandle := next))
  {
    var d := st.displays[l.d];
    var c := ContextAt(st.displays, l);
    assert d in st.displays && c in d.contexts;
    var d' := d.(contexts := d.contexts[l.c := c.(natives := [n] + c.natives)]);
    forall x | x in d'.contexts ensures ContextOk(x, next) {
      var j :| 0 <= j < |d'.contexts| && d'.contexts[j] == x;
      assert d.contexts[j] in d.contexts;
    }
    ReplaceDisplayValid(st, l.d, d', next);
  }

  lemma AttachValid(st: State, l: Loc, draw: nat, native: NativeResults)
    requires Valid(st) && ValidLoc(st.displays, l) && Descending(st.displays)
    ensures Valid(Attach(st, l, draw, native).state)
  {
    var c := ContextAt(st.displays, l);
    if Find(c.natives, ForSurface(draw)).None? {
      match ShareParent(st.displays, l)
      case MaterialiseRoot(root) =>
        if native.rootCreated {
          var rootNative := NativeContext(draw, st.nextHandle, NO_HANDLE);
          AddNativeValid(st, root, rootNative, st.nextHandle + 1);
          var st1 := st.(displays := AddNative(st.displays, root, rootNative), nextHandle := st.nextHandle + 1);
          if native.ctxCreated {
            AddNativeValid(st1, l, NativeContext(draw, st1.nextHandle, rootNative.handle), st1.nextHandle + 1);
          }
        }
      case ShareWith(parent) =>
        if native.ctxCreated {
          AddNativeValid(st, l, NativeContext(draw, st.nextHandle, parent), st.nextHandle + 1);
        }
    }
  }

  lemma BindValid(st: State, i: nat, draw: nat, read: nat, ctx: nat, bound: bool)
    requires Valid(st) && i < |st.displays|
    ensures Valid(Bind(st, i, draw, read, ctx, bound).state)
  {
    if bound {
      var d := st.displays[i];
      assert d in st.displays;
      var d' := d.(currentDraw := draw, currentRead := read, currentCtx := ctx);
      ReplaceDisplayValid(st, i, d', st.nextHandle);
      CleanupValid(st.(displays := st.displays[i := d'], currentCtx := ctx));
    }
  }

  lemma MakeCurrentValid(st: State, dpy: nat, draw: nat, read: nat, ctx: nat, native: NativeResults)
    requires Valid(st) && Descending(st.displays)
    ensures Valid(MakeCurrent(st, dpy, draw, read, ctx, native).state)
  {
    if !HandlesMismatch(draw, read, ctx) {
      match Find(st.displays, DisplayHandle(dpy))
      case None =>
      case Some(i) =>
        MakeCurrentOnValid(st, i, draw, read, ctx, native);
    }
  }

  lemma MakeCurrentOnValid(st: State, i: nat, draw: nat, read: nat, ctx: nat, native: NativeResults)
    requires Valid(st) && Descending(st.displays) && i < |st.displays|
    ensures Valid(MakeCurrentOn(st, i, draw, read, ctx, native).state)
  {
    var d := st.displays[i];
    if d.initialized && !d.destroy && SurfaceCheck(d, draw).Ok? && SurfaceCheck(d, read).Ok? {
      if ctx == NO_HANDLE {
        BindValid(st, i, NO_HANDLE, NO_HANDLE, NO_HANDLE, native.bound);
      } else {
        match Find(d.contexts, ContextHandle(ctx))
        case None =>
        case Some(k) =>
          if d.contexts[k].initialized && !d.contexts[k].destroy {
            var attached := Attach(st, Loc(i, k), draw, native);
            AttachValid(st, Loc(i, k), draw, native);
            if attached.result {
              BindValid(attached.state, i, draw, read, ctx, native.bound);
            }
          }
      }
    }
  }

  /** From the first state on, every sequence of entry points keeps the registry sound. */
  lemma InitialValid()
    ensures Valid(InitialState()) && InitialState().error == EGL_SUCCESS && InitialState().api == EGL_NONE
  {
  }

  // ---------------------------------------------------------------------
  // Make-current
  // ---------------------------------------------------------------------

  /**
   * A context with a share source takes its share parent from its
   * ancestors: the newest native context of the first one that has any,
   * else it names the root ancestor to be materialised first.
   */
  lemma ShareParentFromAncestors(ds: seq<Display>, l: Loc)
    requires ValidLoc(ds, l) && Descending(ds) && Link(ds, ContextAt(ds, l)).Some?
    ensures var ancestors := Chain(ds, l)[1..]; var p := ShareParent(ds, l);
      && (p.ShareWith? ==> exists k :: SharesWithAt(ds, ancestors, k, p.native))
      && (p.MaterialiseRoot? ==> p.root == ancestors[|ancestors| - 1] && forall j :: 0 <= j < |ancestors| ==> !Materialised(ds, ancestors[j]))
  {
    var next := Link(ds, ContextAt(ds, l)).value;
    WalkFindsFirstMaterialised(ds, next);
    assert Chain(ds, l)[1..] == Chain(ds, next);
  }

  /** A native context already made for the draw surface is reused: nothing is created. */
  lemma AttachReuses(st: State, l: Loc, draw: nat, native: NativeResults)
    requires ValidLoc(st.displays, l) && Descending(st.displays)
    requires exists j :: 0 <= j < |ContextAt(st.displays, l).natives| && ContextAt(st.displays, l).natives[j].surface == draw
    ensures Attach(st, l, draw, native) == Reply(st, true)
  {
    var j :| 0 <= j < |ContextAt(st.displays, l).natives| && ContextAt(st.displays, l).natives[j].surface == draw;
    assert ForSurface(draw)(ContextAt(st.displays, l).natives[j]);
  }

  lemma AddNativeAt(ds: seq<Display>, l: Loc, n: NativeContext, m: Loc)
    requires ValidLoc(ds, l) && ValidLoc(ds, m)
    ensures ValidLoc(AddNative(ds, l, n), m)
    ensures ContextAt(AddNative(ds, l, n), m).natives ==
      if m == l then [n] + ContextAt(ds, l).natives else ContextAt(ds, m).natives
  {
  }

  /** Attaching changes no display's handle or flags. */
  lemma AttachKeepsDisplay(st: State, l: Loc, draw: nat, native: NativeResults, i: nat)
    requires ValidLoc(st.displays, l) && Descending(st.displays) && i < |st.displays|
    ensures var r := Attach(st, l, draw, native).state;
      r.displays[i].handle == st.displays[i].handle && r.displays[i].destroy == st.displays[i].destroy
  {
  }

  /**
   * A first bind to `draw` prepends one native context for it, sharing with
   * the share parent; when the root ancestor has to be materialised, its
   * native context is made first (sharing with nothing) and the new one
   * shares with it.
   */
  lemma AttachCreates(st: State, l: Loc, draw: nat, native: NativeResults)
    requires ValidLoc(st.displays, l) && Descending(st.displays)
    requires forall j :: 0 <= j < |ContextAt(st.displays, l).natives| ==> ContextAt(st.displays, l).natives[j].surface != draw
    requires Attach(st, l, draw, native).result
    ensures var r := Attach(st, l, draw, native).state; var c := ContextAt(st.displays, l);
      && ValidLoc(r.displays, l)
      && match ShareParent(st.displays, l)
         case ShareWith(parent) =>
           && r.nextHandle == st.nextHandle + 1
           && ContextAt(r.displays, l).natives == [NativeContext(draw, st.nextHandle, parent)] + c.natives
         case MaterialiseRoot(root) =>
           && ValidLoc(r.displays, root) && root != l
           && r.nextHandle == st.nextHandle + 2
           && ContextAt(r.displays, root).natives == [NativeContext(draw, st.nextHandle, NO_HANDLE)] + ContextAt(st.displays, root).natives
           && ContextAt(r.displays, l).natives == [NativeContext(draw, st.nextHandle + 1, st.nextHandle)] + c.natives
  {
    assert Find(ContextAt(st.displays, l).natives, ForSurface(draw)).None?;
    match ShareParent(st.displays, l)
    case ShareWith(parent) =>
      CreateSharing(st, l, draw, native, parent);
    case MaterialiseRoot(root) =>
      CreateWithRoot(st, l, draw, native, root);
  }

  /** A native context made for a context with a share parent at hand: one handle, prepended. */
  lemma CreateSharing(st: State, l: Loc, draw: nat, native: NativeResults, parent: nat)
    requires ValidLoc(st.displays, l) && CreateNative(st, l, draw, native, ShareWith(parent)).result
    ensures var r := CreateNative(st, l, draw, native, ShareWith(parent)).state;
      && ValidLoc(r.displays, l)
      && r.nextHandle == st.nextHandle + 1
      && ContextAt(r.displays, l).natives == [NativeContext(draw, st.nextHandle, parent)] + ContextAt(st.displays, l).natives
  {
    AddNativeAt(st.displays, l, NativeContext(draw, st.nextHandle, parent), l);
  }

  /** A native context made after materialising the root ancestor: two handles, the root's first. */
  lemma CreateWithRoot(st: State, l: Loc, draw: nat, native: NativeResults, root: Loc)
    requires ValidLoc(st.displays, l) && ValidLoc(st.displays, root) && root != l
    requires CreateNative(st, l, draw, native, MaterialiseRoot(root)).result
    ensures var r := CreateNative(st, l, draw, native, MaterialiseRoot(root)).state;
      && ValidLoc(r.displays, l) && ValidLoc(r.displays, root)
      && r.nextHandle == st.nextHandle + 2
      && ContextAt(r.displays, root).natives == [NativeContext(draw, st.nextHandle, NO_HANDLE)] + ContextAt(st.displays, root).natives
      && ContextAt(r.displays, l).natives == [NativeContext(draw, st.nextHandle + 1, st.nextHandle)] + ContextAt(st.displays, l).natives
  {
    var rootNative := NativeContext(draw, st.nextHandle, NO_HANDLE);
    var ds1 := AddNative(st.displays, root, rootNative);
    var own := NativeContext(draw, st.nextHandle + 1, st.nextHandle);
    var r := CreateNative(st, l, draw, native, MaterialiseRoot(root)).state;
    assert r.displays == AddNative(ds1, l, own) && r.nextHandle == st.nextHandle + 2;
    AddNativeAt(st.displays, root, rootNative, root);
    AddNativeAt(st.displays, root, rootNative, l);
    AddNativeAt(ds1, l, own, root);
    AddNativeAt(ds1, l, own, l);
  }

  /** The bind leaves the display bound to the triple, the thread current on `ctx`, and EGL_BAD_DISPLAY as the error. */
  lemma BindBinds(st: State, i: nat, draw: nat, read: nat, ctx: nat)
    requires i < |st.displays| && !st.displays[i].destroy
    ensures var r := Bind(st, i, draw, read, ctx, true);
      && r.result && r.state.currentCtx == ctx && r.state.error == EGL_BAD_DISPLAY
      && exists d :: d in r.state.displays && d.handle == st.displays[i].handle
           && d.currentDraw == draw && d.currentRead == read && d.currentCtx == ctx
  {
    var d := st.displays[i].(currentDraw := draw, currentRead := read, currentCtx := ctx);
    var ds := st.displays[i := d];
    SweepKeepsLive(ds, CleanDisplay(ctx), DisplayDoomed);
    assert ds[i] == d;
    var cleaned := CleanDisplay(ctx)(d);
    assert !DisplayDoomed(cleaned);
    var r := Bind(st, i, draw, read, ctx, true);
    if cleaned in r.state.displays {
      assert cleaned.handle == d.handle && cleaned.currentDraw == draw && cleaned.currentRead == read && cleaned.currentCtx == ctx;
    } else {
      assert d in r.state.displays;
    }
  }

  /**
   * A make-current that succeeds had consistent handles, and leaves the
   * display bound to (draw, read, ctx), the thread current on `ctx`, and
   * EGL_BAD_DISPLAY as the error.
   */
  lemma MakeCurrentBinds(st: State, dpy: nat, draw: nat, read: nat, ctx: nat, native: NativeResults)
    requires Descending(st.displays)
    requires MakeCurrent(st, dpy, draw, read, ctx, native).result
    ensures var r := MakeCurrent(st, dpy, draw, read, ctx, native).state;
      && !HandlesMismatch(draw, read, ctx) && native.bound
      && r.currentCtx == ctx && r.error == EGL_BAD_DISPLAY
      && exists d :: d in r.displays && d.handle == dpy && d.currentDraw == draw && d.currentRead == read && d.currentCtx == ctx
  {
    if !HandlesMismatch(draw, read, ctx) {
      match Find(st.displays, DisplayHandle(dpy))
      case None =>
      case Some(i) =>
        var d := st.displays[i];
        if d.initialized && !d.destroy && SurfaceCheck(d, draw).Ok? && SurfaceCheck(d, read).Ok? {
          if ctx == NO_HANDLE {
            BindBinds(st, i, NO_HANDLE, NO_HANDLE, NO_HANDLE);
          } else {
            match Find(d.contexts, ContextHandle(ctx))
            case None =>
            case Some(k) =>
              if d.contexts[k].initialized && !d.contexts[k].destroy {
                var attached := Attach(st, Loc(i, k), draw, native);
                AttachKeepsDisplay(st, Loc(i, k), draw, native, i);
                if attached.result {
                  BindBinds(attached.state, i, draw, read, ctx);
                }
              }
          }
        }
    }
  }

  /** Inconsistent handles are refused before any lookup, changing only the error. */
  lemma MakeCurrentMismatch(st: State, dpy: nat, draw: nat, read: nat, ctx: nat, native: NativeResults)
    requires Descending(st.displays)
    requires (ctx == NO_HANDLE && (draw != NO_HANDLE || read != NO_HANDLE)) || (ctx != NO_HANDLE && (draw == NO_HANDLE || read == NO_HANDLE))
    ensures MakeCurrent(st, dpy, draw, read, ctx, native) == Reply(st.(error := EGL_BAD_MATCH), false)
  {
  }

  /** Binding again to a surface that already has its native context creates nothing. */
  lemma MakeCurrentReuses(st: State, dpy: nat, draw: nat, read: nat, ctx: nat, native: NativeResults, i: nat, k: nat)
    requires Descending(st.displays)
    requires Find(st.displays, DisplayHandle(dpy)) == Some(i) && k < |st.displays[i].contexts| && ctx != NO_HANDLE
    requires Find(st.displays[i].contexts, ContextHandle(ctx)) == Some(k)
    requires exists j :: 0 <= j < |ContextAt(st.displays, Loc(i, k)).natives| && ContextAt(st.displays, Loc(i, k)).natives[j].surface == draw
    ensures MakeCurrent(st, dpy, draw, read, ctx, native).state.nextHandle == st.nextHandle
  {
    AttachReuses(st, Loc(i, k), draw, native);
    assert Switch(st, Loc(i, k), draw, read, ctx, native).state.nextHandle == st.nextHandle;
    assert MakeCurrentOn(st, i, draw, read, ctx, native).state.nextHandle == st.nextHandle;
  }

  /**
   * The registry only reaches the native hook with consistent handles, and
   * for those the two back ends agree and never refuse.
   */
  lemma NativeGuardsAgree(draw: nat, read: nat, ctx: nat)
    requires !HandlesMismatch(draw, read, ctx)
    ensures var call := X11MakeCurrentCall(draw != NO_HANDLE, ctx != NO_HANDLE);
      && call != Refuse && call == WglMakeCurrentCall(draw != NO_HANDLE, ctx != NO_HANDLE)
      && (call == Unbind <==> ctx == NO_HANDLE)
  {
  }

  /** The back ends part ways on a surface without a context: X11 refuses, WGL unbinds. */
  lemma NativeGuardsDiffer()
    ensures X11MakeCurrentCall(true, false) == Refuse && WglMakeCurrentCall(true, false) == Unbind
  {
  }

  // ---------------------------------------------------------------------
  // Displays, errors and the bound API
  // ---------------------------------------------------------------------

  /** A known display id returns that display and changes nothing. */
  lemma GetDisplayExisting(st: State, displayId: int, defaultId: int, i: nat)
    requires i < |st.displays| && st.displays[i].displayId == displayId
    ensures var r := GetDisplay(st, displayId, defaultId, true);
      && r.state == st
      && exists j :: 0 <= j < |st.displays| && st.displays[j].displayId == displayId && r.result == st.displays[j].handle
  {
    assert DisplayId(displayId)(st.displays[i]);
  }

  /**
   * An unknown id gets a fresh, uninitialised, empty and unbound display at
   * the head of the list; id 0 stores the native default display's id.
   */
  lemma GetDisplayNew(st: State, displayId: int, defaultId: int)
    requires Valid(st)
    requires forall j :: 0 <= j < |st.displays| ==> st.displays[j].displayId != displayId
    ensures var r := GetDisplay(st, displayId, defaultId, true);
      && r.result != NO_HANDLE
      && (forall d :: d in st.displays ==> d.handle != r.result)
      && r.state.displays == [Display(r.result, if displayId == 0 then defaultId else displayId, false, false,
                                      [], [], [], NO_HANDLE, NO_HANDLE, NO_HANDLE)] + st.displays
  {
  }

  /**
   * Because id 0 is stored as the default display's id, asking twice for
   * the default display creates two displays.
   */
  lemma GetDefaultDisplayTwice(st: State, defaultId: int)
    requires Valid(st) && defaultId != 0
    requires forall j :: 0 <= j < |st.displays| ==> st.displays[j].displayId != 0
    ensures var first := GetDisplay(st, 0, defaultId, true);
      var second := GetDisplay(first.state, 0, defaultId, true);
      && first.result != NO_HANDLE && second.result != NO_HANDLE && first.result != second.result
      && |second.state.displays| == |st.displays| + 2
  {
    var first := GetDisplay(st, 0, defaultId, true);
    GetDisplayNew(st, 0, defaultId);
    GetDisplayValid(st, 0, defaultId, true);
    forall j | 0 <= j < |first.state.displays| ensures first.state.displays[j].displayId != 0 {
      if j > 0 {
        assert first.state.displays[j] == st.displays[j - 1];
      }
    }
    GetDisplayNew(first.state, 0, defaultId);
    assert first.state.displays[0].handle == first.result;
  }

  /** Lookup in a list where one entry was replaced by one with the same key. */
  lemma FindDisplayAfterUpdate(ds: seq<Display>, h: nat, i: nat, d: Display)
    requires Find(ds, DisplayHandle(h)) == Some(i) && d.handle == h
    ensures Find(ds[i := d], DisplayHandle(h)) == Some(i)
  {
    var ds' := ds[i := d];
    var r := Find(ds', DisplayHandle(h));
    assert DisplayHandle(h)(ds'[i]);
    forall j | 0 <= j < i ensures !DisplayHandle(h)(ds'[j]) {
      assert ds'[j] == ds[j];
    }
  }

  /**
   * Initialisation answers version 1.5 exactly when the display is known,
   * not terminated, and either already initialised or its configs could
   * be derived; an initialised display keeps its configs.
   */
  lemma InitializeAnswers(st: State, dpy: nat, derived: Option<seq<Config>>)
    ensures var r := Initialize(st, dpy, derived);
      && (r.result.Some? <==>
            exists i ::
              Find(st.displays, DisplayHandle(dpy)) == Some(i) && !st.displays[i].destroy && (st.displays[i].initialized || derived.Some?))
      && (r.result.Some? ==> r.result.value == Version(1, 5))
      && (r.result.None? ==> r.state.displays == st.displays && r.state.error != EGL_SUCCESS)
  {
  }

  /** A second initialisation changes nothing and answers the same. */
  lemma InitializeIdempotent(st: State, dpy: nat, derived: Option<seq<Config>>, again: Option<seq<Config>>)
    requires Initialize(st, dpy, derived).result.Some?
    ensures var first := Initialize(st, dpy, derived);
      Initialize(first.state, dpy, again) == first
  {
    var i := Find(st.displays, DisplayHandle(dpy)).value;
    var d := st.displays[i];
    if !d.initialized {
      var d' := d.(initialized := true, configs := derived.value);
      FindDisplayAfterUpdate(st.displays, dpy, i, d');
      assert Initialize(st, dpy, derived).state.displays == st.displays[i := d'];
    }
  }

  /** Reading the error resets it: a second read answers EGL_SUCCESS. */
  lemma GetErrorResets(st: State)
    ensures GetError(st).result == st.error
    ensures GetError(GetError(st).state).result == EGL_SUCCESS
    ensures GetError(st).state.displays == st.displays
  {
  }

  // ---------------------------------------------------------------------
  // Contexts and surfaces
  // ---------------------------------------------------------------------

  /**
   * The version test compares components separately: with OpenGL 4.1 as
   * the highest version, a request for 3.3 is refused (quietly, leaving the
   * error as it was), though 3.3 is the older version.
   */
  lemma OlderVersionRefused(st: State, backend: ContextAttribs.Backend, dpy: nat, configId: int, share: nat)
    requires st.api == EGL_OPENGL_API
    ensures var a := [EGL_CONTEXT_MAJOR_VERSION, 3, EGL_CONTEXT_MINOR_VERSION, 3, EGL_NONE];
      && Terminated(a)
      && CreateContext(st, Limits(Version(4, 1), Version(3, 2)), backend, dpy, configId, share, Some(a)) == Reply(st, NO_HANDLE)
  {
    var a := [EGL_CONTEXT_MAJOR_VERSION, 3, EGL_CONTEXT_MINOR_VERSION, 3, EGL_NONE];
    assert Terminated(a) by {
      assert a[4] == EGL_NONE;
    }
    assert a[0] == EGL_CONTEXT_MAJOR_VERSION && a[2] == EGL_CONTEXT_MINOR_VERSION && a[4] == EGL_NONE;
    assert ScanVersion(a, 4, Version(3, 3)) == Version(3, 3);
    assert ScanVersion(a, 2, Version(3, 0)) == Version(3, 3);
    assert ScanVersion(a, 0, Version(1, 0)) == Version(3, 3);
  }

  /**
   * Creating a surface yields a handle exactly when the display is known and
   * live, it holds a config with the id and the backend hook builds the
   * surface.  The new surface takes the next handle, is live, carries the
   * hook's fields and is prepended to the display's list.  A refusal
   * allocates nothing and changes only the error: EGL_BAD_DISPLAY,
   * EGL_NOT_INITIALIZED or EGL_BAD_CONFIG from the lookups in that order,
   * or whatever the hook set.
   */
  lemma CreateSurfaceAnswers(st: State, dpy: nat, configId: int, hook: Config -> SurfaceAttribs.Outcome)
    requires st.nextHandle != NO_HANDLE
    ensures var r := CreateSurface(st, dpy, configId, hook);
      && (r.result != NO_HANDLE <==>
            exists i, k ::
              && Find(st.displays, DisplayHandle(dpy)) == Some(i)
              && st.displays[i].initialized && !st.displays[i].destroy
              && Find(st.displays[i].configs, ConfigWithId(configId)) == Some(k)
              && hook(st.displays[i].configs[k]).Created?)
      && (r.result != NO_HANDLE ==>
            && r.result == st.nextHandle
            && r.state.nextHandle == st.nextHandle + 1
            && r.state.error == st.error && r.state.api == st.api && r.state.currentCtx == st.currentCtx
            && exists i, k ::
                 && Find(st.displays, DisplayHandle(dpy)) == Some(i)
                 && Find(st.displays[i].configs, ConfigWithId(configId)) == Some(k)
                 && var info := hook(st.displays[i].configs[k]).info;
                    r.state.displays == st.displays[i := st.displays[i].(surfaces := [Surface(st.nextHandle, true, false, info)] + st.displays[i].surfaces)])
      && (r.result == NO_HANDLE ==> r.state == st.(error := r.state.error))
      && (Find(st.displays, DisplayHandle(dpy)).None? ==> r.state.error == EGL_BAD_DISPLAY)
      && (forall i :: Find(st.displays, DisplayHandle(dpy)) == Some(i) ==>
            && (!st.displays[i].initialized || st.displays[i].destroy ==> r.state.error == EGL_NOT_INITIALIZED)
            && (st.displays[i].initialized && !st.displays[i].destroy && Find(st.displays[i].configs, ConfigWithId(configId)).None? ==>
                  r.state.error == EGL_BAD_CONFIG)
            && (forall k ::
                  (st.displays[i].initialized && !st.displays[i].destroy &&
                   Find(st.displays[i].configs, ConfigWithId(configId)) == Some(k)) ==>
                    match hook(st.displays[i].configs[k])
                    case Failed(e) => r.state.error == (if e.Some? then e.value else st.error)
                    case Created(_) => r.state.error == st.error))
  {
  }

  /**
   * Destroying a context always answers EGL_FALSE.  A live context of a live
   * display is flagged destroyed, the sweep runs, and the error is left at
   * EGL_BAD_DISPLAY, as for an unknown display.  A dead display gives
   * EGL_NOT_INITIALIZED, and an unknown or already destroyed context
   * EGL_BAD_CONTEXT; these refusals change only the error.
   */
  lemma DestroyContextAnswers(st: State, dpy: nat, ctx: nat)
    ensures var r := DestroyContext(st, dpy, ctx);
      && !r.result
      && (Find(st.displays, DisplayHandle(dpy)).None? ==> r == Reply(st.(error := EGL_BAD_DISPLAY), false))
      && (forall i :: Find(st.displays, DisplayHandle(dpy)) == Some(i) ==>
            var d := st.displays[i];
            && (!d.initialized || d.destroy ==> r == Reply(st.(error := EGL_NOT_INITIALIZED), false))
            && (d.initialized && !d.destroy && Find(d.contexts, ContextHandle(ctx)).None? ==>
                  r == Reply(st.(error := EGL_BAD_CONTEXT), false))
            && (forall k :: d.initialized && !d.destroy && Find(d.contexts, ContextHandle(ctx)) == Some(k) ==>
                  var c := d.contexts[k];
                  if !c.initialized || c.destroy then r == Reply(st.(error := EGL_BAD_CONTEXT), false)
                  else
                    var flagged := d.(contexts := d.contexts[k := c.(initialized := false, destroy := true)]);
                    r.state == Cleanup(st.(displays := st.displays[i := flagged])).(error := EGL_BAD_DISPLAY)))
      && (r.state.error == EGL_BAD_DISPLAY || r.state.error == EGL_NOT_INITIALIZED || r.state.error == EGL_BAD_CONTEXT)
  {
  }

  /**
   * Destroying a surface answers true exactly for a live surface of a live
   * display: the surface is flagged, the sweep runs and EGL_BAD_DISPLAY is
   * left.  Every refusal sets only its error, in lookup order.
   */
  lemma DestroySurfaceAnswers(st: State, dpy: nat, surface: nat)
    ensures var r := DestroySurface(st, dpy, surface);
      && (r.result <==>
            exists i, k ::
              && Find(st.displays, DisplayHandle(dpy)) == Some(i)
              && st.displays[i].initialized && !st.displays[i].destroy
              && Find(st.displays[i].surfaces, SurfaceHandle(surface)) == Some(k)
              && st.displays[i].surfaces[k].initialized && !st.displays[i].surfaces[k].destroy)
      && (Find(st.displays, DisplayHandle(dpy)).None? ==> r == Reply(st.(error := EGL_BAD_DISPLAY), false))
      && (forall i :: Find(st.displays, DisplayHandle(dpy)) == Some(i) ==>
            var d := st.displays[i];
            && (!d.initialized || d.destroy ==> r == Reply(st.(error := EGL_NOT_INITIALIZED), false))
            && (d.initialized && !d.destroy && Find(d.surfaces, SurfaceHandle(surface)).None? ==>
                  r == Reply(st.(error := EGL_BAD_SURFACE), false))
            && (forall k :: d.initialized && !d.destroy && Find(d.surfaces, SurfaceHandle(surface)) == Some(k) ==>
                  var s := d.surfaces[k];
                  if !s.initialized || s.destroy then r == Reply(st.(error := EGL_BAD_SURFACE), false)
                  else
                    var flagged := d.(surfaces := d.surfaces[k := s.(initialized := false, destroy := true)]);
                    r == Reply(Cleanup(st.(displays := st.displays[i := flagged])).(error := EGL_BAD_DISPLAY), true)))
      && (r.state.error == EGL_BAD_DISPLAY || r.state.error == EGL_NOT_INITIALIZED || r.state.error == EGL_BAD_SURFACE)
  {
  }

  /**
   * eglTerminate always answers EGL_FALSE and leaves EGL_BAD_DISPLAY.  An
   * unknown or dead display changes nothing else; a live one is flagged
   * uninitialised and destroyed, and the sweep runs.
   */
  lemma TerminateAnswers(st: State, dpy: nat)
    ensures var r := Terminate(st, dpy);
      && !r.result
      && (Find(st.displays, DisplayHandle(dpy)).None? ==> r.state == st.(error := EGL_BAD_DISPLAY))
      && (forall i :: Find(st.displays, DisplayHandle(dpy)) == Some(i) ==>
            var d := st.displays[i];
            if !d.initialized || d.destroy then r.state == st.(error := EGL_BAD_DISPLAY)
            else r.state == Cleanup(st.(displays := st.displays[i := d.(initialized := false, destroy := true)])).(error := EGL_BAD_DISPLAY))
  {
  }

  /** After eglTerminate no live display with the terminated handle remains, whichever path was taken. */
  lemma TerminateLeavesNoLiveDisplay(st: State, dpy: nat)
    requires Valid(st)
    ensures forall x :: x in Terminate(st, dpy).state.displays && x.handle == dpy ==> !x.initialized || x.destroy
  {
    match Find(st.displays, DisplayHandle(dpy))
    case None =>
    case Some(i) =>
      var d := st.displays[i];
      if d.initialized && !d.destroy {
        var ds := st.displays[i := d.(initialized := false, destroy := true)];
        SweepKeepsLive(ds, CleanDisplay(st.currentCtx), DisplayDoomed);
        forall x | x in Terminate(st, dpy).state.displays && x.handle == dpy
          ensures !x.initialized || x.destroy
        {
          var y :| y in ds && (x == y || (x == CleanDisplay(st.currentCtx)(y) && !DisplayDoomed(x)));
          var j :| 0 <= j < |ds| && ds[j] == y;
          assert j == i by {
            assert st.displays[j].handle == dpy == st.displays[i].handle;
          }
        }
      }
  }

  /**
   * A context query answers only for a live context of a live display and
   * changes nothing but the error; the client type is always OpenGL, even
   * for a context made for OpenGL ES, and the client version is never
   * answered.
   */
  lemma QueryContextAnswers(st: State, dpy: nat, ctx: nat, attribute: int)
    ensures var r := QueryContext(st, dpy, ctx, attribute);
      && r.state.displays == st.displays
      && (r.result.ok ==> r.result.value.Some? && r.state == st)
      && (r.result.ok && attribute == EGL_CONTEXT_CLIENT_TYPE ==> r.result.value == Some(EGL_OPENGL_API))
      && (attribute == EGL_CONTEXT_CLIENT_VERSION ==> !r.result.ok)
  {
  }

  /** The configs returned are the first min(config_size, count) of the display's list. */
  lemma GetConfigsFront(st: State, dpy: nat, configSize: int)
    ensures var r := GetConfigs(st, dpy, true, configSize, true);
      && r.state.displays == st.displays
      && (r.result.Some? ==>
            exists i ::
              && Find(st.displays, DisplayHandle(dpy)) == Some(i)
              && var cs := st.displays[i].configs;
              && |r.result.value| == (if configSize < 0 then 0 else if configSize < |cs| then configSize else |cs|)
              && r.result.value == cs[..|r.result.value|])
  {
    var r := GetConfigs(st, dpy, true, configSize, true);
    if r.result.Some? {
      var i := Find(st.displays, DisplayHandle(dpy)).value;
      var cs := st.displays[i].configs;
      assert cs[..|cs|] == cs;
    }
  }

  /**
   * eglChooseConfig on the registry refuses a missing argument or a zero
   * capacity with EGL_BAD_PARAMETER before any lookup, changes nothing but
   * the error, and on a live display with an accepted template answers the
   * selection engine's sorted, capped matches.
   */
  lemma ChooseConfigAnswers(st: State, dpy: nat, attribs: Option<seq<int>>, configsGiven: bool, configSize: int, countGiven: bool)
    requires attribs.Some? ==> Terminated(attribs.value)
    requires configSize >= 0
    ensures var r := ChooseConfig(st, dpy, attribs, configsGiven, configSize, countGiven);
      && r.state.displays == st.displays
      && (attribs.None? || !configsGiven || configSize == 0 || !countGiven ==> r == Reply(st.(error := EGL_BAD_PARAMETER), None))
      && (r.result.Some? <==>
            && attribs.Some? && configsGiven && configSize > 0 && countGiven
            && ConfigSelect.QueryTemplate(attribs.value).Ok?
            && exists i ::
                 Find(st.displays, DisplayHandle(dpy)) == Some(i) && st.displays[i].initialized && !st.displays[i].destroy)
      && (r.result.Some? ==>
            && r.state == st
            && attribs.Some? && ConfigSelect.QueryTemplate(attribs.value).Ok?
            && exists i ::
                 && Find(st.displays, DisplayHandle(dpy)) == Some(i)
                 && r.result.value == ConfigSelect.ChooseFrom(ConfigSelect.QueryTemplate(attribs.value).value, st.displays[i].configs, configSize))
  {
  }
}
