/**
 The state after a run of reports is a left fold of `process` over them.
 Each field ends up with the value decoded from the LAST report whose tag is
 its channel, or keeps its starting value when no report carried it, and the
 time is that of the last report processed.
 */
module Merge {
  import opened Bits
  import opened Buttons
  import opened Device

  /** One call of `process`: the bytes read and the clock reading taken for it. */
  datatype Report = Report(data: seq<Byte>, now: real)

  /** Every report of the run fits a state with `nButtons` buttons. */
  predicate AllFit(spec: DeviceSpec, nButtons: nat, rs: seq<Report>)
  {
    forall k :: 0 <= k < |rs| ==> Fits(spec, nButtons, rs[k].data)
  }

  /** `process` applied to each report in order, oldest first. */
  function Run(spec: DeviceSpec, s: State, rs: seq<Report>): (s': State)
    requires AllFit(spec, |s.buttons|, rs)
    ensures |s'.buttons| == |s.buttons|
    ensures rs != [] ==> s'.t == rs[|rs| - 1].now
    ensures rs == [] ==> s' == s
  {
    if rs == [] then s
    else
      var prev := Run(spec, s, rs[..|rs| - 1]);
      Process(spec, prev, rs[|rs| - 1].data, rs[|rs| - 1].now)
  }

  /** A report whose tag is no mapping's channel changes the time and nothing else. */
  lemma UnmatchedTagOnlyStamps(spec: DeviceSpec, s: State, data: seq<Byte>, now: real)
    requires Fits(spec, |s.buttons|, data)
    requires forall a: Axis :: !AxisMatches(spec, a, data)
    requires forall i :: 0 <= i < |spec.buttonMapping| ==> !ButtonMatches(spec, i, data)
    ensures Process(spec, s, data, now) == s.(t := now)
  {
    var s' := Process(spec, s, data, now);
    assert s'.Get(X) == s.x && s'.Get(Y) == s.y && s'.Get(Z) == s.z;
    assert s'.Get(Roll) == s.roll && s'.Get(Pitch) == s.pitch && s'.Get(Yaw) == s.yaw;
    assert s'.buttons == s.buttons;
  }

  /** Two states that agree on every axis, button and the time are equal. */
  lemma StateExt(s1: State, s2: State)
    requires s1.t == s2.t
    requires forall a: Axis :: s1.Get(a) == s2.Get(a)
    requires |s1.buttons| == |s2.buttons|
    requires forall i :: 0 <= i < |s1.buttons| ==> s1.buttons[i] == s2.buttons[i]
    ensures s1 == s2
  {
    assert s1.Get(X) == s2.Get(X) && s1.Get(Y) == s2.Get(Y) && s1.Get(Z) == s2.Get(Z);
    assert s1.Get(Roll) == s2.Get(Roll) && s1.Get(Pitch) == s2.Get(Pitch) && s1.Get(Yaw) == s2.Get(Yaw);
  }

  /** Processing the same report twice is processing it once, at the later time. */
  lemma ProcessIdempotent(spec: DeviceSpec, s: State, data: seq<Byte>, t1: real, t2: real)
    requires Fits(spec, |s.buttons|, data)
    ensures Process(spec, Process(spec, s, data, t1), data, t2) == Process(spec, s, data, t2)
  {
    StateExt(Process(spec, Process(spec, s, data, t1), data, t2), Process(spec, s, data, t2));
  }

  /**
   Reports with different tags touch disjoint fields, so the order in which
   two of them arrive does not change the merged state.
   */
  lemma DifferentTagsCommute(spec: DeviceSpec, s: State, d1: seq<Byte>, d2: seq<Byte>, t1: real, t2: real)
    requires Fits(spec, |s.buttons|, d1) && Fits(spec, |s.buttons|, d2)
    requires |d1| > 0 && |d2| > 0 && d1[0] != d2[0]
    ensures Process(spec, Process(spec, s, d1, t1), d2, t2) == Process(spec, Process(spec, s, d2, t1), d1, t2)
  {
    StateExt(Process(spec, Process(spec, s, d1, t1), d2, t2), Process(spec, Process(spec, s, d2, t1), d1, t2));
  }

  /** An axis that the j-th report carries and no later report carries ends with the j-th report's value. */
  lemma {:induction false} AxisLastWriteWins(spec: DeviceSpec, s: State, rs: seq<Report>, a: Axis, j: nat)
    requires AllFit(spec, |s.buttons|, rs)
    requires j < |rs| && AxisMatches(spec, a, rs[j].data)
    requires forall k :: j < k < |rs| ==> !AxisMatches(spec, a, rs[k].data)
    ensures Run(spec, s, rs).Get(a) == DecodeAxis(spec.mappings[a], rs[j].data, spec.axisScale)
  {
    var init := rs[..|rs| - 1];
    assert AllFit(spec, |s.buttons|, init);
    if j < |rs| - 1 {
      AxisLastWriteWins(spec, s, init, a, j);
    }
  }

  /** An axis that no report of the run carries keeps its starting value. */
  lemma {:induction false} AxisUntouched(spec: DeviceSpec, s: State, rs: seq<Report>, a: Axis)
    requires AllFit(spec, |s.buttons|, rs)
    requires forall k :: 0 <= k < |rs| ==> !AxisMatches(spec, a, rs[k].data)
    ensures Run(spec, s, rs).Get(a) == s.Get(a)
  {
    if rs != [] {
      var init := rs[..|rs| - 1];
      assert AllFit(spec, |s.buttons|, init);
      AxisUntouched(spec, s, init, a);
    }
  }

  /** A button that the j-th report carries and no later report carries ends with the j-th report's bit. */
  lemma {:induction false} ButtonLastWriteWins(spec: DeviceSpec, s: State, rs: seq<Report>, i: nat, j: nat)
    requires AllFit(spec, |s.buttons|, rs)
    requires i < |s.buttons|
    requires j < |rs| && ButtonMatches(spec, i, rs[j].data)
    requires forall k :: j < k < |rs| ==> !ButtonMatches(spec, i, rs[k].data)
    ensures Run(spec, s, rs).buttons[i] == DecodeButton(spec.buttonMapping[i], rs[j].data)
  {
    var init := rs[..|rs| - 1];
    assert AllFit(spec, |s.buttons|, init);
    if j < |rs| - 1 {
      ButtonLastWriteWins(spec, s, init, i, j);
    }
  }

  /** A button that no report of the run carries keeps its starting value. */
  lemma {:induction false} ButtonUntouched(spec: DeviceSpec, s: State, rs: seq<Report>, i: nat)
    requires AllFit(spec, |s.buttons|, rs)
    requires i < |s.buttons|
    requires forall k :: 0 <= k < |rs| ==> !ButtonMatches(spec, i, rs[k].data)
    ensures Run(spec, s, rs).buttons[i] == s.buttons[i]
  {
    if rs != [] {
      var init := rs[..|rs| - 1];
      assert AllFit(spec, |s.buttons|, init);
      ButtonUntouched(spec, s, init, i);
    }
  }

  /**
   On the reference device a translation report and a button report, in
   either order, leave the translation from the first and the buttons from
   the second.
   */
  lemma ReferenceAxisThenButtons(s: State, axes: seq<Byte>, keys: seq<Byte>, t1: real, t2: real)
    requires |s.buttons| == 2
    requires |axes| == ReportLength && axes[0] == 1
    requires |keys| == ReportLength && keys[0] == 3
    ensures Fits(SpaceMouseWireless, 2, axes) && Fits(SpaceMouseWireless, 2, keys)
    ensures var s' := Process(SpaceMouseWireless, Process(SpaceMouseWireless, s, axes, t1), keys, t2);
      && s' == Process(SpaceMouseWireless, Process(SpaceMouseWireless, s, keys, t1), axes, t2)
      && s'.x == Process(SpaceMouseWireless, s, axes, t1).x
      && s'.y == Process(SpaceMouseWireless, s, axes, t1).y
      && s'.z == Process(SpaceMouseWireless, s, axes, t1).z
      && s'.buttons == [keys[1] % 2, (keys[1] / 2) % 2]
      && s'.t == t2
  {
    ReferenceFits(axes);
    ReferenceFits(keys);
    var s1 := Process(SpaceMouseWireless, s, axes, t1);
    ReferenceButtons(s1, keys, t2);
    DifferentTagsCommute(SpaceMouseWireless, s, axes, keys, t1, t2);
    var s' := Process(SpaceMouseWireless, s1, keys, t2);
    assert s'.Get(X) == s'.x && s'.Get(Y) == s'.y && s'.Get(Z) == s'.z;
    assert s1.Get(X) == s1.x && s1.Get(Y) == s1.y && s1.Get(Z) == s1.z;
  }
}
