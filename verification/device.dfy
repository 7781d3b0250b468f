/**
 `DeviceSpec`: the mapping tables of one HID device and the state that
 `process` merges raw reports into. Byte 0 of a report is its channel tag;
 a report rewrites exactly the axes and buttons mapped to that channel and
 stamps the state with the time of the call.

 The program keeps the state twice, as a dict it mutates and as a named tuple
 rebuilt from the dict after every change. Here the state is an immutable
 value, so the snapshot handed out by `read` is that value itself.
 */
module Device {
  import opened Bits
  import opened Buttons
  import Int16

  datatype Option<T> = None | Some(value: T)

  /** The six degrees of freedom, the keys of the program's `mappings` dict. */
  datatype Axis = X | Y | Z | Roll | Pitch | Yaw

  /**
   Where an axis lives: the channel tag of its report, the offsets of its low
   and high byte, and a sign. The program names the sign field `scale`; the
   divisor is the device's `axisScale`.
   */
  datatype AxisSpec = AxisSpec(channel: int, byte1: nat, byte2: nat, flip: int)

  /** Where a button lives: channel tag, byte offset and bit position. */
  datatype ButtonSpec = ButtonSpec(channel: int, byte: nat, bit: nat)

  datatype DeviceSpec = DeviceSpec(
    name: string,
    hidId: seq<int>,
    ledId: seq<int>,
    mappings: map<Axis, AxisSpec>,
    buttonMapping: seq<ButtonSpec>,
    axisScale: real)

  /** The fields of the program's `SpaceNavigator` tuple. */
  datatype State = State(
    t: real,
    x: real, y: real, z: real,
    roll: real, pitch: real, yaw: real,
    buttons: seq<Flag>)
  {
    function Get(a: Axis): real
    {
      match a
      case X => x
      case Y => y
      case Z => z
      case Roll => roll
      case Pitch => pitch
      case Yaw => yaw
    }
  }

  /** A device object: its tables, whether a HID handle is attached, and its state. */
  datatype Device = Device(spec: DeviceSpec, attached: bool, state: State)

  /** The number of bytes `read` asks the HID handle for. */
  const ReportLength: nat := 13

  /** The state built by the constructor: time -1, every axis 0, one released button per button mapping. */
  function InitialState(spec: DeviceSpec): (s: State)
    ensures s.t == -1.0
    ensures forall a: Axis :: s.Get(a) == 0.0
    ensures |s.buttons| == |spec.buttonMapping|
    ensures forall i :: 0 <= i < |s.buttons| ==> s.buttons[i] == 0
    ensures ToInt(s.buttons) == 0
  {
    var buttons := seq(|spec.buttonMapping|, _ => 0);
    ToIntZero(buttons);
    State(-1.0, 0.0, 0.0, 0.0, 0.0, 0.0, 0.0, buttons)
  }

  /** A freshly constructed device: no handle yet, initial state. */
  function NewDevice(spec: DeviceSpec): (d: Device)
    ensures d.spec == spec && !d.attached && d.state == InitialState(spec)
    ensures |d.state.buttons| == |spec.buttonMapping| && ToInt(d.state.buttons) == 0
  {
    Device(spec, false, InitialState(spec))
  }

  /** Axis a is mapped and the report's tag is its channel. */
  predicate AxisMatches(spec: DeviceSpec, a: Axis, data: seq<Byte>)
  {
    a in spec.mappings && |data| > 0 && data[0] == spec.mappings[a].channel
  }

  /** Button i is mapped and the report's tag is its channel. */
  predicate ButtonMatches(spec: DeviceSpec, i: int, data: seq<Byte>)
  {
    0 <= i < |spec.buttonMapping| && |data| > 0 && data[0] == spec.buttonMapping[i].channel
  }

  /**
   What `process` needs so that none of its indexing or its division raises:
   the tag byte exists as soon as any mapping is consulted, and every offset
   a matching entry reads lies inside the report, the divisor of a matching
   axis is not zero, and a matching button has a slot in a state with
   `nButtons` buttons.
   */
  predicate Fits(spec: DeviceSpec, nButtons: nat, data: seq<Byte>)
  {
    && (|data| == 0 ==> spec.mappings == map[] && spec.buttonMapping == [])
    && (forall a: Axis :: AxisMatches(spec, a, data) ==>
          spec.mappings[a].byte1 < |data| && spec.mappings[a].byte2 < |data| && spec.axisScale != 0.0)
    && (forall i :: 0 <= i < |spec.buttonMapping| && ButtonMatches(spec, i, data) ==>
          spec.buttonMapping[i].byte < |data| && i < nButtons)
  }

  /** `flip * to_int16(data[b1], data[b2]) / float(axis_scale)`. */
  function DecodeAxis(m: AxisSpec, data: seq<Byte>, axisScale: real): real
    requires m.byte1 < |data| && m.byte2 < |data| && axisScale != 0.0
  {
    (m.flip * Int16.ToInt16(data[m.byte1], data[m.byte2])) as real / axisScale
  }

  /**
   `1 if (data[byte] & (1 << bit)) != 0 else 0`: the button's bit of its byte,
   which is the byte divided by 2^bit, taken mod 2.
   */
  function DecodeButton(m: ButtonSpec, data: seq<Byte>): (v: Flag)
    requires m.byte < |data|
    ensures v == (data[m.byte] / Pow2(m.bit)) % 2
  {
    MaskTest(data[m.byte], m.bit);
    BitIsBinary(data[m.byte], m.bit);
    BitIsDivMod(data[m.byte], m.bit);
    if And(data[m.byte], Shl(1, m.bit)) != 0 then 1 else 0
  }

  function NewAxis(spec: DeviceSpec, s: State, data: seq<Byte>, a: Axis): real
    requires Fits(spec, |s.buttons|, data)
  {
    if AxisMatches(spec, a, data) then DecodeAxis(spec.mappings[a], data, spec.axisScale) else s.Get(a)
  }

  function NewButtons(spec: DeviceSpec, buttons: seq<Flag>, data: seq<Byte>): seq<Flag>
    requires Fits(spec, |buttons|, data)
  {
    seq(|buttons|, i requires 0 <= i < |buttons| =>
      if ButtonMatches(spec, i, data) then DecodeButton(spec.buttonMapping[i], data) else buttons[i])
  }

  /**
   `DeviceSpec.process(data)` at clock reading `now`: every axis and button
   whose channel is the report's tag takes its decoded value, every other one
   keeps its value, the button list keeps its length, and the time becomes
   `now` whether or not anything matched.
   */
  function Process(spec: DeviceSpec, s: State, data: seq<Byte>, now: real): (s': State)
    requires Fits(spec, |s.buttons|, data)
    ensures s'.t == now
    ensures forall a: Axis ::
              s'.Get(a) ==
                if AxisMatches(spec, a, data)
                then (spec.mappings[a].flip
                      * Int16.ToInt16(data[spec.mappings[a].byte1], data[spec.mappings[a].byte2])) as real
                     / spec.axisScale
                else s.Get(a)
    ensures |s'.buttons| == |s.buttons|
    ensures forall i :: 0 <= i < |s.buttons| ==>
              s'.buttons[i] ==
                if ButtonMatches(spec, i, data)
                then (data[spec.buttonMapping[i].byte] / Pow2(spec.buttonMapping[i].bit)) % 2
                else s.buttons[i]
  {
    State(
      now,
      NewAxis(spec, s, data, X), NewAxis(spec, s, data, Y), NewAxis(spec, s, data, Z),
      NewAxis(spec, s, data, Roll), NewAxis(spec, s, data, Pitch), NewAxis(spec, s, data, Yaw),
      NewButtons(spec, s.buttons, data))
  }

  /**
   `DeviceSpec.read()`, with the bytes the HID handle returned passed in as
   `data` and the clock reading as `now`. Without a handle it returns None
   and changes nothing; on an empty read it returns the current snapshot
   unchanged; otherwise it processes the report and returns the new snapshot.
   */
  function Read(d: Device, data: seq<Byte>, now: real): (r: (Option<State>, Device))
    requires d.attached && data != [] ==> Fits(d.spec, |d.state.buttons|, data)
    ensures !d.attached ==> r.0 == None && r.1 == d
    ensures d.attached && data == [] ==> r.0 == Some(d.state) && r.1 == d
    ensures d.attached && data != [] ==>
      && r.1 == d.(state := Process(d.spec, d.state, data, now))
      && r.0 == Some(r.1.state)
      && r.1.state.t == now
    ensures r.1.spec == d.spec && |r.1.state.buttons| == |d.state.buttons|
  {
    if !d.attached then (None, d)
    else
      var d' := if data != [] then d.(state := Process(d.spec, d.state, data, now)) else d;
      (Some(d'.state), d')
  }

  /**
   The shape the reference device's tables have: every axis has a ±1 sign,
   every offset is a payload byte (not the tag) inside a report of
   `ReportLength` bytes, every bit is a bit of a byte, and the divisor is
   positive.
   */
  predicate WellFormed(spec: DeviceSpec)
  {
    && (forall a :: a in spec.mappings ==>
          && (spec.mappings[a].flip == 1 || spec.mappings[a].flip == -1)
          && 1 <= spec.mappings[a].byte1 < ReportLength
          && 1 <= spec.mappings[a].byte2 < ReportLength)
    && (forall i :: 0 <= i < |spec.buttonMapping| ==>
          && 1 <= spec.buttonMapping[i].byte < ReportLength
          && spec.buttonMapping[i].bit < 8)
    && spec.axisScale > 0.0
  }

  /** A well-formed table accepts every full-length report for a state it built. */
  lemma WellFormedFits(spec: DeviceSpec, data: seq<Byte>)
    requires WellFormed(spec)
    requires |data| == ReportLength
    ensures Fits(spec, |spec.buttonMapping|, data)
  {
  }

  /** `spacemouse_wireless_spec`. */
  const SpaceMouseWireless: DeviceSpec := DeviceSpec(
    "SpaceNavigator",
    [0x46D, 0xC626],
    [0x8, 0x4B],
    map[
      X := AxisSpec(1, 1, 2, 1),
      Y := AxisSpec(1, 3, 4, -1),
      Z := AxisSpec(1, 5, 6, -1),
      Pitch := AxisSpec(2, 1, 2, -1),
      Roll := AxisSpec(2, 3, 4, -1),
      Yaw := AxisSpec(2, 5, 6, 1)
    ],
    [ButtonSpec(3, 1, 0), ButtonSpec(3, 1, 1)],
    350.0)

  /**
   The reference table is well formed, maps all six axes, and splits its
   entries into three disjoint pages: translation on channel 1, rotation on
   channel 2, the two buttons (bits 0 and 1 of byte 1) on channel 3.
   */
  lemma ReferenceTable()
    ensures WellFormed(SpaceMouseWireless)
    ensures forall a: Axis :: a in SpaceMouseWireless.mappings
    ensures forall a: Axis :: SpaceMouseWireless.mappings[a].channel == (if a in {X, Y, Z} then 1 else 2)
    ensures forall i :: 0 <= i < |SpaceMouseWireless.buttonMapping| ==> SpaceMouseWireless.buttonMapping[i].channel == 3
    ensures |InitialState(SpaceMouseWireless).buttons| == 2
  {
    var m := SpaceMouseWireless.mappings;
    forall a: Axis
      ensures a in m
      ensures m[a].channel == (if a in {X, Y, Z} then 1 else 2)
    {
      match a
      case X =>
      case Y =>
      case Z =>
      case Roll =>
      case Pitch =>
      case Yaw =>
    }
  }

  /** Every full-length report fits the reference tables and their two-button state. */
  lemma ReferenceFits(data: seq<Byte>)
    requires |data| == ReportLength
    ensures Fits(SpaceMouseWireless, 2, data)
  {
    ReferenceTable();
    WellFormedFits(SpaceMouseWireless, data);
  }

  /**
   A channel-1 report on the reference device sets the translation: x from
   bytes 1-2, y from bytes 3-4 and z from bytes 5-6, y and z with their sign
   flipped, each divided by 350; rotation and buttons keep their values.
   */
  lemma ReferenceTranslation(s: State, data: seq<Byte>, now: real)
    requires |s.buttons| == 2
    requires |data| == ReportLength && data[0] == 1
    ensures Fits(SpaceMouseWireless, |s.buttons|, data)
    ensures var s' := Process(SpaceMouseWireless, s, data, now);
      && s'.x == Int16.ToInt16(data[1], data[2]) as real / 350.0
      && s'.y == -Int16.ToInt16(data[3], data[4]) as real / 350.0
      && s'.z == -Int16.ToInt16(data[5], data[6]) as real / 350.0
      && s'.roll == s.roll && s'.pitch == s.pitch && s'.yaw == s.yaw
      && s'.buttons == s.buttons
  {
    ReferenceFits(data);
    var m := SpaceMouseWireless.mappings;
    assert m[X] == AxisSpec(1, 1, 2, 1) && m[Y] == AxisSpec(1, 3, 4, -1) && m[Z] == AxisSpec(1, 5, 6, -1);
    var s' := Process(SpaceMouseWireless, s, data, now);
    assert s'.Get(X) == s'.x && s'.Get(Y) == s'.y && s'.Get(Z) == s'.z;
    assert s'.x == (1 * Int16.ToInt16(data[1], data[2])) as real / 350.0;
    assert s'.y == (-1 * Int16.ToInt16(data[3], data[4])) as real / 350.0;
    assert s'.z == (-1 * Int16.ToInt16(data[5], data[6])) as real / 350.0;
    assert s'.Get(Roll) == s'.roll && s'.Get(Pitch) == s'.pitch && s'.Get(Yaw) == s'.yaw;
    assert !ButtonMatches(SpaceMouseWireless, 0, data) && !ButtonMatches(SpaceMouseWireless, 1, data);
  }

  /**
   A channel-2 report on the reference device sets the rotation: pitch from
   bytes 1-2 and roll from bytes 3-4 with their sign flipped, yaw from bytes
   5-6, each divided by 350; translation and buttons keep their values.
   */
  lemma ReferenceRotation(s: State, data: seq<Byte>, now: real)
    requires |s.buttons| == 2
    requires |data| == ReportLength && data[0] == 2
    ensures Fits(SpaceMouseWireless, |s.buttons|, data)
    ensures var s' := Process(SpaceMouseWireless, s, data, now);
      && s'.pitch == -Int16.ToInt16(data[1], data[2]) as real / 350.0
      && s'.roll == -Int16.ToInt16(data[3], data[4]) as real / 350.0
      && s'.yaw == Int16.ToInt16(data[5], data[6]) as real / 350.0
      && s'.x == s.x && s'.y == s.y && s'.z == s.z
      && s'.buttons == s.buttons
  {
    ReferenceFits(data);
    var m := SpaceMouseWireless.mappings;
    assert m[Pitch] == AxisSpec(2, 1, 2, -1) && m[Roll] == AxisSpec(2, 3, 4, -1) && m[Yaw] == AxisSpec(2, 5, 6, 1);
    var s' := Process(SpaceMouseWireless, s, data, now);
    assert s'.Get(X) == s'.x && s'.Get(Y) == s'.y && s'.Get(Z) == s'.z;
    assert s'.Get(Roll) == s'.roll && s'.Get(Pitch) == s'.pitch && s'.Get(Yaw) == s'.yaw;
    assert s'.pitch == (-1 * Int16.ToInt16(data[1], data[2])) as real / 350.0;
    assert s'.roll == (-1 * Int16.ToInt16(data[3], data[4])) as real / 350.0;
    assert s'.yaw == (1 * Int16.ToInt16(data[5], data[6])) as real / 350.0;
    assert !ButtonMatches(SpaceMouseWireless, 0, data) && !ButtonMatches(SpaceMouseWireless, 1, data);
  }

  /**
   A channel-3 report on the reference device sets the two buttons from bits
   0 and 1 of byte 1 and leaves every axis as it was.
   */
  lemma ReferenceButtons(s: State, data: seq<Byte>, now: real)
    requires |s.buttons| == 2
    requires |data| == ReportLength && data[0] == 3
    ensures Fits(SpaceMouseWireless, |s.buttons|, data)
    ensures var s' := Process(SpaceMouseWireless, s, data, now);
      && s'.buttons == [data[1] % 2, (data[1] / 2) % 2]
      && forall a: Axis :: s'.Get(a) == s.Get(a)
  {
    ReferenceFits(data);
    ReferenceTable();
    var s' := Process(SpaceMouseWireless, s, data, now);
    assert ButtonMatches(SpaceMouseWireless, 0, data) && ButtonMatches(SpaceMouseWireless, 1, data);
    assert Pow2(0) == 1 && Pow2(1) == 2;
    assert s'.buttons[0] == data[1] % 2 && s'.buttons[1] == (data[1] / 2) % 2;
  }

  /** The worked example: raw value 100 on the y axis (sign -1) reads -100/350, about -0.29. */
  lemma ReferenceExample(s: State, now: real)
    requires |s.buttons| == 2
    ensures var data: seq<Byte> := [1, 0x64, 0x00, 0x64, 0x00, 0x00, 0x00, 0, 0, 0, 0, 0, 0];
      var s' := Process(SpaceMouseWireless, s, data, now);
      && s'.x == 100.0 / 350.0
      && s'.y == -100.0 / 350.0
      && s'.z == 0.0
  {
    var data: seq<Byte> := [1, 0x64, 0x00, 0x64, 0x00, 0x00, 0x00, 0, 0, 0, 0, 0, 0];
    ReferenceTranslation(s, data, now);
    Int16.Examples();
  }
}
