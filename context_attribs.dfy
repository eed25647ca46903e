// Translation of an EGL context attribute list into the attribute array of
// GLX_ARB_create_context / WGL_ARB_create_context: `__processAttribList` of
// egl_x11.cpp and egl_windows.cpp, and the same loop written inline in
// `_eglCreateContext` of egl_x11.c and egl_windows.c.

module ContextAttribs {
  import opened EglDefs

  /** CONTEXT_ATTRIB_LIST_SIZE, the length of the stored ARB attribute array. */
  const CONTEXT_ATTRIB_LIST_SIZE := 13
  /** The loop refuses the attribute list once it has read this many pairs. */
  const MAX_CONTEXT_PAIRS := 7

  /** The four places the translation is written. */
  datatype Backend = GlxCpp | WglCpp | GlxLegacy | WglLegacy

  predicate IsWgl(b: Backend) { b == WglCpp || b == WglLegacy }

  /** Index of the value word of the flags pair; WGL has a layer-plane pair before it. */
  function FlagsSlot(b: Backend): nat { if IsWgl(b) then 7 else 5 }
  function ProfileSlot(b: Backend): nat { FlagsSlot(b) + 2 }
  function ResetSlot(b: Backend): nat { FlagsSlot(b) + 4 }

  /**
   * The profile requested when the caller names none: the C++ backends ask
   * for the ES profile under the OpenGL ES API and the core profile
   * otherwise; the C variants leave the word 0.
   */
  function DefaultProfile(b: Backend, api: int): int
  {
    if b == GlxLegacy || b == WglLegacy then 0
    else if api == EGL_OPENGL_ES_API then ARB_CONTEXT_ES_PROFILE_BIT
    else ARB_CONTEXT_CORE_PROFILE_BIT
  }

  /** The template array before any attribute is applied. */
  function Template(b: Backend, api: int): seq<int>
  {
    var head := [ARB_CONTEXT_MAJOR_VERSION, 1, ARB_CONTEXT_MINOR_VERSION, 0];
    var tail := [ARB_CONTEXT_FLAGS, 0,
                 ARB_CONTEXT_PROFILE_MASK, DefaultProfile(b, api),
                 ARB_CONTEXT_RESET_NOTIFICATION_STRATEGY, ARB_NO_RESET_NOTIFICATION, 0];
    match b
    case GlxCpp => head + tail + [0, 0]
    case WglCpp => head + [ARB_CONTEXT_LAYER_PLANE, 0] + tail
    case GlxLegacy => head + tail
    case WglLegacy => head + [ARB_CONTEXT_LAYER_PLANE, 0] + tail
  }

  /** `flags |= bit` when `on`, `flags &= ~bit` otherwise, on a 32-bit word. */
  function SetFlag(flags: int, bit: int, on: bool): int
  {
    if on then (Bits(flags) | Bits(bit)) as int else (Bits(flags) & !Bits(bit)) as int
  }

  /** The ARB flag bit an EGL boolean context attribute controls, 0 for other attributes. */
  function FlagBit(attr: int): int
  {
    if attr == EGL_CONTEXT_OPENGL_DEBUG then ARB_CONTEXT_DEBUG_BIT
    else if attr == EGL_CONTEXT_OPENGL_FORWARD_COMPATIBLE then ARB_CONTEXT_FORWARD_COMPATIBLE_BIT
    else if attr == EGL_CONTEXT_OPENGL_ROBUST_ACCESS then ARB_CONTEXT_ROBUST_ACCESS_BIT
    else 0
  }

  /** One case of the attribute switch. */
  function Step(b: Backend, t: seq<int>, attr: int, v: int): Result<seq<int>>
    requires ResetSlot(b) < |t|
  {
    if attr == EGL_CONTEXT_MAJOR_VERSION then
      if v < 1 then Err(EGL_BAD_ATTRIBUTE) else Ok(t[1 := v])
    else if attr == EGL_CONTEXT_MINOR_VERSION then
      if v < 0 then Err(EGL_BAD_ATTRIBUTE) else Ok(t[3 := v])
    else if attr == EGL_CONTEXT_OPENGL_PROFILE_MASK then
      if v == EGL_CONTEXT_OPENGL_CORE_PROFILE_BIT then Ok(t[ProfileSlot(b) := ARB_CONTEXT_CORE_PROFILE_BIT])
      else if v == EGL_CONTEXT_OPENGL_COMPATIBILITY_PROFILE_BIT then Ok(t[ProfileSlot(b) := ARB_CONTEXT_COMPATIBILITY_PROFILE_BIT])
      else Err(EGL_BAD_ATTRIBUTE)
    else if FlagBit(attr) != 0 then
      if v == EGL_TRUE then Ok(t[FlagsSlot(b) := SetFlag(t[FlagsSlot(b)], FlagBit(attr), true)])
      else if v == EGL_FALSE then Ok(t[FlagsSlot(b) := SetFlag(t[FlagsSlot(b)], FlagBit(attr), false)])
      else Err(EGL_BAD_ATTRIBUTE)
    else if attr == EGL_CONTEXT_OPENGL_RESET_NOTIFICATION_STRATEGY then
      if v == EGL_NO_RESET_NOTIFICATION then Ok(t[ResetSlot(b) := ARB_NO_RESET_NOTIFICATION])
      else if v == EGL_LOSE_CONTEXT_ON_RESET then Ok(t[ResetSlot(b) := ARB_LOSE_CONTEXT_ON_RESET])
      else Err(EGL_BAD_ATTRIBUTE)
    else Err(EGL_BAD_ATTRIBUTE)
  }

  /** The loop from pair index `i / 2` on, with the 7-pair limit. */
  function ParseFrom(b: Backend, a: seq<int>, i: nat, t: seq<int>): Result<seq<int>>
    requires Terminated(a) && i % 2 == 0 && i < |a| && ResetSlot(b) < |t|
    decreases |a| - i
  {
    if a[i] == EGL_NONE then Ok(t)
    else match Step(b, t, a[i], a[i + 1])
      case Err(e) => Err(e)
      case Ok(t') =>
        if i + 2 >= 2 * MAX_CONTEXT_PAIRS then Err(EGL_BAD_ATTRIBUTE)
        else
          StepKeepsLength(b, t, a[i], a[i + 1]);
          ParseFrom(b, a, i + 2, t')
  }

  /** The ARB attribute array an EGL attribute list translates to, or the error. */
  function ContextAttribList(b: Backend, api: int, a: seq<int>): Result<seq<int>>
    requires Terminated(a)
  {
    ParseFrom(b, a, 0, Template(b, api))
  }

  lemma StepKeepsLength(b: Backend, t: seq<int>, attr: int, v: int)
    requires ResetSlot(b) < |t|
    ensures Step(b, t, attr, v).Ok? ==> |Step(b, t, attr, v).value| == |t|
  {
  }

  /**
   * `__processAttribList`: build the template in a local array, and copy it
   * into the caller's array only once the whole list has been accepted.
   */
  method ProcessAttribList(b: Backend, api: int, target: array<int>, a: seq<int>) returns (error: Option<int>)
    requires Terminated(a) && target.Length == |Template(b, api)|
    modifies target
    ensures ContextAttribList(b, api, a).Ok? ==> error == None && target[..] == ContextAttribList(b, api, a).value
    ensures ContextAttribList(b, api, a).Err? ==> error == Some(ContextAttribList(b, api, a).error) && target[..] == old(target[..])
  {
    var template := Template(b, api);
    assert ResetSlot(b) < |template|;
    var index := 0;
    while a[index] != EGL_NONE
      invariant index % 2 == 0 && index < |a| && index < 2 * MAX_CONTEXT_PAIRS
      invariant |template| == target.Length && ResetSlot(b) < |template|
      invariant ParseFrom(b, a, index, template) == ContextAttribList(b, api, a)
      invariant target[..] == old(target[..])
      decreases |a| - index
    {
      StepKeepsLength(b, template, a[index], a[index + 1]);
      StepAccepts(b, template, a[index], a[index + 1]);
      var step := Step(b, template, a[index], a[index + 1]);
      if step.Err? {
        return Some(EGL_BAD_ATTRIBUTE);
      }
      template := step.value;
      index := index + 2;
      if index >= 2 * MAX_CONTEXT_PAIRS {
        return Some(EGL_BAD_ATTRIBUTE);
      }
    }
    CopyInto(target, template);
    error := None;
  }

  /** The final memcpy of the finished template into the caller's array. */
  method CopyInto(target: array<int>, template: seq<int>)
    requires target.Length == |template|
    modifies target
    ensures target[..] == template
  {
    var k := 0;
    while k < target.Length
      invariant 0 <= k <= target.Length
      invariant target[..k] == template[..k]
    {
      target[k] := template[k];
      k := k + 1;
    }
    assert target[..] == target[..k];
    assert template == template[..k];
  }

  // ---------------------------------------------------------------------
  // Properties
  // ---------------------------------------------------------------------

  /**
   * With no attributes the array asks for version 1.0, no flags, the
   * backend's default profile and no reset notification, and ends in 0.
   */
  lemma TemplateDefaults(b: Backend, api: int)
    ensures ContextAttribList(b, api, [EGL_NONE]) == Ok(Template(b, api))
    ensures var t := Template(b, api);
      && |t| == (if b == GlxLegacy then 11 else CONTEXT_ATTRIB_LIST_SIZE)
      && t[0] == ARB_CONTEXT_MAJOR_VERSION && t[1] == 1
      && t[2] == ARB_CONTEXT_MINOR_VERSION && t[3] == 0
      && t[FlagsSlot(b) - 1] == ARB_CONTEXT_FLAGS && t[FlagsSlot(b)] == 0
      && t[ProfileSlot(b) - 1] == ARB_CONTEXT_PROFILE_MASK && t[ProfileSlot(b)] == DefaultProfile(b, api)
      && t[ResetSlot(b) - 1] == ARB_CONTEXT_RESET_NOTIFICATION_STRATEGY && t[ResetSlot(b)] == ARB_NO_RESET_NOTIFICATION
      && t[|t| - 1] == 0
      && (IsWgl(b) ==> t[4] == ARB_CONTEXT_LAYER_PLANE && t[5] == 0)
  {
  }

  /** Whether one (attribute, value) pair is accepted. */
  predicate PairOk(attr: int, v: int)
  {
    || (attr == EGL_CONTEXT_MAJOR_VERSION && v >= 1)
    || (attr == EGL_CONTEXT_MINOR_VERSION && v >= 0)
    || (attr == EGL_CONTEXT_OPENGL_PROFILE_MASK &&
        (v == EGL_CONTEXT_OPENGL_CORE_PROFILE_BIT || v == EGL_CONTEXT_OPENGL_COMPATIBILITY_PROFILE_BIT))
    || (attr in {EGL_CONTEXT_OPENGL_DEBUG, EGL_CONTEXT_OPENGL_FORWARD_COMPATIBLE, EGL_CONTEXT_OPENGL_ROBUST_ACCESS} &&
        (v == EGL_TRUE || v == EGL_FALSE))
    || (attr == EGL_CONTEXT_OPENGL_RESET_NOTIFICATION_STRATEGY &&
        (v == EGL_NO_RESET_NOTIFICATION || v == EGL_LOSE_CONTEXT_ON_RESET))
  }

  /** A step succeeds exactly on the accepted pairs and otherwise fails with EGL_BAD_ATTRIBUTE. */
  lemma StepAccepts(b: Backend, t: seq<int>, attr: int, v: int)
    requires ResetSlot(b) < |t|
    ensures Step(b, t, attr, v).Ok? <==> PairOk(attr, v)
    ensures Step(b, t, attr, v).Err? ==> Step(b, t, attr, v).error == EGL_BAD_ATTRIBUTE
  {
  }

  /** The key words of the template are never overwritten: every step writes a value slot. */
  predicate SameKeys(t: seq<int>, u: seq<int>)
  {
    |t| == |u| && forall k :: 0 <= k < |t| && k % 2 == 0 ==> t[k] == u[k]
  }

  /** What every produced array satisfies, given the template it started from. */
  predicate WellFormed(b: Backend, api: int, t: seq<int>)
  {
    && SameKeys(Template(b, api), t)
    && t[1] >= 1 && t[3] >= 0
    && 0 <= t[FlagsSlot(b)] < 8
    && t[ProfileSlot(b)] in {DefaultProfile(b, api), ARB_CONTEXT_CORE_PROFILE_BIT, ARB_CONTEXT_COMPATIBILITY_PROFILE_BIT}
    && t[ResetSlot(b)] in {ARB_NO_RESET_NOTIFICATION, ARB_LOSE_CONTEXT_ON_RESET}
    && (IsWgl(b) ==> t[5] == 0)
    && t[|t| - 1] == 0
  }

  /** The word SetFlag produces, seen as 32 bits. */
  lemma SetFlagBits(flags: int, bit: int, on: bool)
    ensures Bits(SetFlag(flags, bit, on)) == if on then Bits(flags) | Bits(bit) else Bits(flags) & !Bits(bit)
  {
    BitsRoundTrip(if on then Bits(flags) | Bits(bit) else Bits(flags) & !Bits(bit));
  }

  lemma SetFlagInRange(flags: int, bit: int, on: bool)
    requires 0 <= flags < 8 && bit in {1, 2, 4}
    ensures 0 <= SetFlag(flags, bit, on) < 8
  {
    assert Bits(flags) < 8 && Bits(bit) < 8;
    if on {
      assert Bits(flags) | Bits(bit) < 8;
    } else {
      assert Bits(flags) & !Bits(bit) <= Bits(flags);
    }
  }

  /** Setting turns the bit on, clearing turns it off, and no other bit moves. */
  lemma SetFlagEffect(flags: int, bit: int, on: bool)
    ensures Bits(SetFlag(flags, bit, on)) & !Bits(bit) == Bits(flags) & !Bits(bit)
    ensures Bits(bit) != 0 ==> (Bits(SetFlag(flags, bit, on)) & Bits(bit) != 0 <==> on)
  {
    SetFlagBits(flags, bit, on);
    MaskLaws(Bits(flags), Bits(bit));
  }

  lemma MaskLaws(f: bv32, m: bv32)
    ensures (f | m) & !m == f & !m && (f & !m) & !m == f & !m
    ensures (f & !m) & m == 0 && (m != 0 ==> (f | m) & m != 0)
  {
  }

  lemma FlagStepWellFormed(b: Backend, api: int, t: seq<int>, attr: int, v: int)
    requires ResetSlot(b) < |t| && WellFormed(b, api, t)
    requires FlagBit(attr) != 0 && (v == EGL_TRUE || v == EGL_FALSE)
    ensures Step(b, t, attr, v).Ok? && WellFormed(b, api, Step(b, t, attr, v).value)
  {
    var k := FlagsSlot(b);
    FlagPairEffect(b, t, attr, v);
    FlagBitNonZero(attr);
    SetFlagInRange(t[k], FlagBit(attr), v == EGL_TRUE);
    FlagsWordWellFormed(b, api, t, SetFlag(t[k], FlagBit(attr), v == EGL_TRUE));
  }

  /** Any flags word below 8 keeps an array well formed. */
  lemma FlagsWordWellFormed(b: Backend, api: int, t: seq<int>, f: int)
    requires ResetSlot(b) < |t| && WellFormed(b, api, t) && 0 <= f < 8
    ensures WellFormed(b, api, t[FlagsSlot(b) := f])
  {
    assert SameKeys(t, t[FlagsSlot(b) := f]);
  }

  lemma StepWellFormed(b: Backend, api: int, t: seq<int>, attr: int, v: int)
    requires ResetSlot(b) < |t| && WellFormed(b, api, t)
    ensures Step(b, t, attr, v).Ok? ==> WellFormed(b, api, Step(b, t, attr, v).value)
  {
    if FlagBit(attr) != 0 {
      if v == EGL_TRUE || v == EGL_FALSE {
        FlagStepWellFormed(b, api, t, attr, v);
      }
    } else if Step(b, t, attr, v).Ok? {
      var u := Step(b, t, attr, v).value;
      assert SameKeys(t, u);
    }
  }

  lemma {:induction false} ParseFromWellFormed(b: Backend, api: int, a: seq<int>, i: nat, t: seq<int>)
    requires Terminated(a) && i % 2 == 0 && i < |a| && ResetSlot(b) < |t|
    requires WellFormed(b, api, t)
    ensures ParseFrom(b, a, i, t).Ok? ==> WellFormed(b, api, ParseFrom(b, a, i, t).value)
    ensures ParseFrom(b, a, i, t).Err? ==> ParseFrom(b, a, i, t).error == EGL_BAD_ATTRIBUTE
    decreases |a| - i
  {
    if a[i] != EGL_NONE {
      StepWellFormed(b, api, t, a[i], a[i + 1]);
      StepAccepts(b, t, a[i], a[i + 1]);
      var step := Step(b, t, a[i], a[i + 1]);
      if step.Ok? && i + 2 < 2 * MAX_CONTEXT_PAIRS && ResetSlot(b) < |step.value| {
        ParseFromWellFormed(b, api, a, i + 2, step.value);
      }
    }
  }

  /**
   * Every accepted list yields an array with the template's keys, a major
   * version of at least 1, a non-negative minor version, only the three ARB
   * flag bits, a known profile and reset strategy, and the 0 terminator;
   * every refused list yields EGL_BAD_ATTRIBUTE.
   */
  lemma ContextAttribListWellFormed(b: Backend, api: int, a: seq<int>)
    requires Terminated(a)
    ensures ContextAttribList(b, api, a).Ok? ==> WellFormed(b, api, ContextAttribList(b, api, a).value)
    ensures ContextAttribList(b, api, a).Err? ==> ContextAttribList(b, api, a).error == EGL_BAD_ATTRIBUTE
  {
    ParseFromWellFormed(b, api, a, 0, Template(b, api));
  }

  lemma {:induction false} BadPairFrom(b: Backend, a: seq<int>, i: nat, t: seq<int>, k: nat)
    requires Terminated(a) && i % 2 == 0 && i < |a| && ResetSlot(b) < |t|
    requires i <= k && k % 2 == 0 && k < |a|
    requires forall j :: i <= j <= k && j % 2 == 0 ==> a[j] != EGL_NONE
    requires !PairOk(a[k], a[k + 1])
    ensures ParseFrom(b, a, i, t) == Err(EGL_BAD_ATTRIBUTE)
    decreases |a| - i
  {
    StepAccepts(b, t, a[i], a[i + 1]);
    StepKeepsLength(b, t, a[i], a[i + 1]);
    if i < k {
      var step := Step(b, t, a[i], a[i + 1]);
      if step.Ok? && i + 2 < 2 * MAX_CONTEXT_PAIRS {
        BadPairFrom(b, a, i + 2, step.value, k);
      }
    }
  }

  /**
   * A list holding a refused pair before its terminator is refused with
   * EGL_BAD_ATTRIBUTE: a major version below 1, a negative minor version, an
   * unknown profile, boolean or reset strategy, or an unknown attribute.
   */
  lemma BadPairRejected(b: Backend, api: int, a: seq<int>, k: nat)
    requires Terminated(a) && k % 2 == 0 && k < |a|
    requires forall j :: 0 <= j <= k && j % 2 == 0 ==> a[j] != EGL_NONE
    requires !PairOk(a[k], a[k + 1])
    ensures ContextAttribList(b, api, a) == Err(EGL_BAD_ATTRIBUTE)
  {
    BadPairFrom(b, a, 0, Template(b, api), k);
  }

  lemma {:induction false} PairLimitFrom(b: Backend, a: seq<int>, i: nat, t: seq<int>)
    requires Terminated(a) && i % 2 == 0 && i < |a| && i < 2 * MAX_CONTEXT_PAIRS && ResetSlot(b) < |t|
    requires forall j :: i <= j < 2 * MAX_CONTEXT_PAIRS && j % 2 == 0 ==> j < |a| && a[j] != EGL_NONE
    ensures ParseFrom(b, a, i, t) == Err(EGL_BAD_ATTRIBUTE)
    decreases |a| - i
  {
    StepAccepts(b, t, a[i], a[i + 1]);
    StepKeepsLength(b, t, a[i], a[i + 1]);
    var step := Step(b, t, a[i], a[i + 1]);
    if step.Ok? && i + 2 < 2 * MAX_CONTEXT_PAIRS {
      PairLimitFrom(b, a, i + 2, step.value);
    }
  }

  /** A seventh pair is refused even when every pair is valid. */
  lemma SeventhPairRejected(b: Backend, api: int, a: seq<int>)
    requires Terminated(a)
    requires forall j :: 0 <= j < 2 * MAX_CONTEXT_PAIRS && j % 2 == 0 ==> j < |a| && a[j] != EGL_NONE
    ensures ContextAttribList(b, api, a) == Err(EGL_BAD_ATTRIBUTE)
  {
    PairLimitFrom(b, a, 0, Template(b, api));
  }

  /**
   * The three boolean attributes rewrite only the flags word, with SetFlag
   * (SetFlagEffect: EGL_TRUE sets their bit, EGL_FALSE clears it, no other
   * bit moves).
   */
  lemma FlagPairEffect(b: Backend, t: seq<int>, attr: int, v: int)
    requires ResetSlot(b) < |t|
    requires FlagBit(attr) != 0 && (v == EGL_TRUE || v == EGL_FALSE)
    ensures Step(b, t, attr, v) == Ok(t[FlagsSlot(b) := SetFlag(t[FlagsSlot(b)], FlagBit(attr), v == EGL_TRUE)])
    ensures Bits(FlagBit(attr)) != 0
  {
    FlagBitNonZero(attr);
  }

  lemma FlagBitNonZero(attr: int)
    requires FlagBit(attr) != 0
    ensures FlagBit(attr) in {1, 2, 4} && Bits(FlagBit(attr)) != 0
  {
    assert FlagBit(attr) in {ARB_CONTEXT_DEBUG_BIT, ARB_CONTEXT_FORWARD_COMPATIBLE_BIT, ARB_CONTEXT_ROBUST_ACCESS_BIT};
  }

  /** The requested version lands in the major and minor value words. */
  lemma VersionPairs(b: Backend, api: int, major: int, minor: int)
    requires major >= 1 && minor >= 0
    ensures var r := ContextAttribList(b, api, [EGL_CONTEXT_MAJOR_VERSION, major, EGL_CONTEXT_MINOR_VERSION, minor, EGL_NONE]);
      r.Ok? && r.value == Template(b, api)[1 := major][3 := minor]
  {
    var a := [EGL_CONTEXT_MAJOR_VERSION, major, EGL_CONTEXT_MINOR_VERSION, minor, EGL_NONE];
    var t1 := Template(b, api)[1 := major];
    assert ParseFrom(b, a, 4, t1[3 := minor]) == Ok(t1[3 := minor]);
    assert ParseFrom(b, a, 2, t1) == Ok(t1[3 := minor]);
  }
}
