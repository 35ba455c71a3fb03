/**
  The `Mouse` class: a device with three buttons and the x, y, wheel and
  horizontal-wheel axes, and the movements it sends.
 */
module Mouse {
  import opened CTypes
  import opened Kernel
  import opened UInput
  import opened Devices
  import Decimal

  const BTN_LEFT: Event := Key(0x110)
  const BTN_RIGHT: Event := Key(0x111)
  const BTN_MIDDLE: Event := Key(0x112)
  const REL_X: Event := Event(EV_REL as int, 0x00)
  const REL_Y: Event := Event(EV_REL as int, 0x01)
  const REL_HWHEEL: Event := Event(EV_REL as int, 0x06)
  const REL_WHEEL: Event := Event(EV_REL as int, 0x08)

  /** The event list a mouse is created with, in the order it is enabled. */
  const CAPABILITIES: seq<Event> := [BTN_LEFT, BTN_MIDDLE, BTN_RIGHT, REL_X, REL_Y, REL_WHEEL, REL_HWHEEL]

  const DEFAULT_MOUSE_NAME: string := "pewinput-virtual-mouse"

  lemma CapabilitiesSupported()
    ensures forall e | e in CAPABILITIES :: Supported(e)
  {
  }

  /** `Mouse.__init__`: an empty or missing name becomes the mouse default,
      then the device is created as any other, counter suffix included. */
  function New(k: Kernel, w: World, name: Option<string>): (r: (World, Result<Device>))
    ensures r.0.count == (if r.1.Ok? then w.count + 1 else w.count)
    ensures r.1.Ok? ==> r.1.value == Device(BaseName(name, DEFAULT_MOUSE_NAME) + Decimal.Show(w.count), k(w.trace, Open))
    ensures r.1.Err? ==> r.1.error == CreateFailed(BaseName(name, DEFAULT_MOUSE_NAME) + Decimal.Show(w.count))
  {
    CapabilitiesSupported();
    var base := BaseName(name, DEFAULT_MOUSE_NAME);
    assert BaseName(Some(base), DEFAULT_NAME) == base;
    Devices.New(k, w, CAPABILITIES, Some(base))
  }

  /** The code bits of the three buttons. */
  const BUTTON_CODES: set<Capability> := {CodeBit(EV_KEY, 0x110), CodeBit(EV_KEY, 0x111), CodeBit(EV_KEY, 0x112)}

  /** The code bits of the x, y, wheel and horizontal-wheel axes. */
  const REL_CODES: set<Capability> :=
    {CodeBit(EV_REL, 0x00), CodeBit(EV_REL, 0x01), CodeBit(EV_REL, 0x08), CodeBit(EV_REL, 0x06)}

  /** The code bits of a mouse: its buttons and its axes. */
  const MOUSE_CODES: set<Capability> := BUTTON_CODES + REL_CODES

  /** What a created mouse can send: key and auto-repeat types with the three
      buttons, the relative type with the four axes. */
  const MOUSE_CAPABILITIES: set<Capability> := {TypeBit(EV_KEY), TypeBit(EV_REP), TypeBit(EV_REL)} + MOUSE_CODES

  /** The four axes at the end of the list ask for the relative type and their codes. */
  lemma RequestedAxes()
    ensures Requested(CAPABILITIES[3..]) == {TypeBit(EV_REL)} + REL_CODES
    ensures CodeBits(CAPABILITIES[3..]) == REL_CODES
  {
    var c := CAPABILITIES[3..];
    assert c == [REL_X, REL_Y, REL_WHEEL, REL_HWHEEL];
    assert forall e :: e in c <==> e == REL_X || e == REL_Y || e == REL_WHEEL || e == REL_HWHEEL;
    assert forall e | e in c :: ToU16(e.etype) != EV_KEY;
  }

  /** The three buttons at the head of the list ask for the key type, auto-repeat and their codes. */
  lemma RequestedButtons()
    ensures Requested(CAPABILITIES[..3]) == {TypeBit(EV_KEY), TypeBit(EV_REP)} + BUTTON_CODES
    ensures CodeBits(CAPABILITIES[..3]) == BUTTON_CODES
  {
    var c := CAPABILITIES[..3];
    assert c == [Key(0x110), Key(0x112), Key(0x111)];
    assert forall e :: e in c <==> e == Key(0x110) || e == Key(0x112) || e == Key(0x111);
    assert c[0] in c && ToU16(c[0].etype) == EV_KEY;
  }

  lemma RequestedMouse()
    ensures Requested(CAPABILITIES) == MOUSE_CAPABILITIES
    ensures CodeBits(CAPABILITIES) == MOUSE_CODES
  {
    var buttons, axes := CAPABILITIES[..3], CAPABILITIES[3..];
    assert buttons + axes == CAPABILITIES;
    RequestedAppend(buttons, axes);
    RequestedButtons();
    RequestedAxes();
  }

  /** A created mouse's descriptor carries the three buttons and four axes,
      and nothing outside the mouse capabilities; the key, auto-repeat and
      relative types are there too when the kernel accepts type-bit requests. */
  lemma NewRegisters(k: Kernel, w: World, name: Option<string>)
    ensures var r := New(k, w, name);
      r.1.Ok? ==> MOUSE_CODES <= Registered(k, w.trace, r.0.trace[|w.trace|..], r.1.value.fd) <= MOUSE_CAPABILITIES
    ensures var r := New(k, w, name);
      r.1.Ok? && AcceptsTypeBits(k) ==> Registered(k, w.trace, r.0.trace[|w.trace|..], r.1.value.fd) == MOUSE_CAPABILITIES
  {
    CapabilitiesSupported();
    var fullName := BaseName(name, DEFAULT_MOUSE_NAME) + Decimal.Show(w.count);
    CreateRegisters(k, w.trace, fullName, CAPABILITIES);
    RequestedMouse();
  }

  /** With no name the first mouse is "pewinput-virtual-mouse0", and a mouse
      created with a name of its own uses that name as the base. */
  lemma NewNames(k: Kernel, w: World)
    ensures w.count == 0 && New(k, w, None).1.Ok? ==> New(k, w, None).1.value.name == "pewinput-virtual-mouse0"
    ensures New(k, w, Some("")) == New(k, w, None)
    ensures New(k, w, Some("pad")).1.Ok? ==> New(k, w, Some("pad")).1.value.name == "pad" + Decimal.Show(w.count)
  {
    assert Decimal.Show(0) == "0";
  }

  /** Default device names and default mouse names never coincide. */
  lemma DefaultNamesDisjoint(c1: nat, c2: nat)
    ensures DeviceName(DEFAULT_NAME, c1) != DeviceName(DEFAULT_MOUSE_NAME, c2)
  {
    assert DeviceName(DEFAULT_NAME, c1)[17] == 'd';
    assert DeviceName(DEFAULT_MOUSE_NAME, c2)[17] == 'm';
  }

  /*** Movement ***/

  /** `move_relative`: the x motion without a marker, then the y motion with
      the caller's flush flag. */
  function MoveRelative(t: Trace, d: Device, x: int, y: int, flush: bool): (r: Trace)
    ensures r == t + Writes(d.fd, [Record(REL_X, x), Record(REL_Y, y)] + Sync(flush))
  {
    var t1 := Devices.SendEvent(t, d, REL_X, x, false);
    WritesAppend(d.fd, [Record(REL_X, x)], [Record(REL_Y, y)] + Sync(flush));
    assert [Record(REL_X, x)] + ([Record(REL_Y, y)] + Sync(flush)) == [Record(REL_X, x), Record(REL_Y, y)] + Sync(flush);
    Devices.SendEvent(t1, d, REL_Y, y, flush)
  }

  function MoveWheel(t: Trace, d: Device, value: int, flush: bool): (r: Trace)
    ensures r == t + Writes(d.fd, [Record(REL_WHEEL, value)] + Sync(flush))
  {
    Devices.SendEvent(t, d, REL_WHEEL, value, flush)
  }

  function MoveHwheel(t: Trace, d: Device, value: int, flush: bool): (r: Trace)
    ensures r == t + Writes(d.fd, [Record(REL_HWHEEL, value)] + Sync(flush))
  {
    Devices.SendEvent(t, d, REL_HWHEEL, value, flush)
  }

  /** A flushed relative move is written as one frame holding both axes,
      x first; unflushed, both stay pending. */
  lemma MoveRelativeFrames(t: Trace, d: Device, x: int, y: int, flush: bool)
    ensures var evs := [Record(REL_X, x), Record(REL_Y, y)];
      Group(Added(t, MoveRelative(t, d, x, y, flush), d)) == if flush then Frames([evs], []) else Frames([], evs)
  {
    var evs := [Record(REL_X, x), Record(REL_Y, y)];
    AddedWrites(t, d, evs + Sync(flush));
    GroupNoSyn(evs);
    if flush {
      GroupSyn(evs);
    }
  }

  /** A flushed wheel turn is a frame of its own. */
  lemma MoveWheelFrames(t: Trace, d: Device, value: int)
    ensures Group(Added(t, MoveWheel(t, d, value, true), d)) == Frames([[Record(REL_WHEEL, value)]], [])
  {
    SendEventFrames(t, d, REL_WHEEL, value, true);
  }

  lemma MoveHwheelFrames(t: Trace, d: Device, value: int)
    ensures Group(Added(t, MoveHwheel(t, d, value, true), d)) == Frames([[Record(REL_HWHEEL, value)]], [])
  {
    SendEventFrames(t, d, REL_HWHEEL, value, true);
  }

  /** `move_relative(5, 5)` writes x, y and one marker. */
  lemma MoveRelativeScenario(t: Trace, d: Device)
    ensures MoveRelative(t, d, 5, 5, true)
      == t + Writes(d.fd, [InputEvent(0, 0, EV_REL, 0, 5), InputEvent(0, 0, EV_REL, 1, 5), SynReport])
  {
  }

  /** A movement larger than a C `int` reaches the kernel wrapped around:
      2^31 arrives as -2^31. */
  lemma MoveWheelWraps(t: Trace, d: Device)
    ensures MoveWheel(t, d, 0x8000_0000, false) == t + Writes(d.fd, [InputEvent(0, 0, EV_REL, 8, -0x8000_0000)])
  {
  }
}
