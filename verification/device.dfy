/**
  The `Device` class: a virtual input device with a counter-suffixed name, the
  event-emission protocol (writes closed into frames by an end-of-frame marker) and
  an idempotent `destroy`.

  Emission does not change the device; it only adds calls to the trace. The
  class attribute `Device.count` lives in `World` next to the trace.
 */
module Devices {
  import opened CTypes
  import opened Kernel
  import opened UInput
  import opened Seqs
  import Decimal
  import Marshal

  /** Process-wide state: the class attribute `Device.count` and the calls
      the kernel has received so far. */
  datatype World = World(count: nat, trace: Trace)

  /** A `Device` object: its name and its descriptor, -1 once destroyed. */
  datatype Device = Device(name: string, fd: i32)

  const DEFAULT_NAME: string := "pewinput-virtual-dev"

  /** Python's `name or default`: no name and the empty name both fall back. */
  function BaseName(name: Option<string>, default: string): string
  {
    if name.Some? && name.value != "" then name.value else default
  }

  /** The name a device gets from a base name and the counter. */
  function DeviceName(base: string, count: nat): string
  {
    base + Decimal.Show(count)
  }

  /** `Device.__init__`: the name is fixed from the counter before creation;
      the counter moves on by one only if creation succeeds. */
  function New(k: Kernel, w: World, events: seq<Event>, name: Option<string>): (r: (World, Result<Device>))
    requires forall e | e in events :: Supported(e)
    ensures r.0.count == (if r.1.Ok? then w.count + 1 else w.count)
    ensures r.1.Ok? ==> r.1.value == Device(BaseName(name, DEFAULT_NAME) + Decimal.Show(w.count), k(w.trace, Open))
    ensures r.1.Err? ==> r.1.error == CreateFailed(BaseName(name, DEFAULT_NAME) + Decimal.Show(w.count))
    ensures |r.0.trace| > |w.trace| && r.0.trace[..|w.trace|] == w.trace
  {
    var fullName := DeviceName(BaseName(name, DEFAULT_NAME), w.count);
    var (res, t) := CreateDevice(k, w.trace, fullName, events);
    match res
    case Ok(fd) => (World(w.count + 1, t), Ok(Device(fullName, fd)))
    case Err(e) => (World(w.count, t), Err(e))
  }

  /*** Naming ***/

  /** Two counter values never give the same name for the same base. */
  lemma NamesDistinct(base: string, c1: nat, c2: nat)
    requires c1 != c2
    ensures DeviceName(base, c1) != DeviceName(base, c2)
  {
    Decimal.ShowInjective(c1, c2);
    Cancel(base, Decimal.Show(c1), Decimal.Show(c2));
  }

  /** Devices created one after the other with the same base name get
      different names, whatever happens to other creations in between. */
  lemma SuccessiveDevicesDistinct(k1: Kernel, k2: Kernel, w: World, ev1: seq<Event>, ev2: seq<Event>,
                                  name1: Option<string>, name2: Option<string>)
    requires forall e | e in ev1 :: Supported(e)
    requires forall e | e in ev2 :: Supported(e)
    requires BaseName(name1, DEFAULT_NAME) == BaseName(name2, DEFAULT_NAME)
    ensures var first := New(k1, w, ev1, name1);
      var second := New(k2, first.0, ev2, name2);
      first.1.Ok? && second.1.Ok? ==>
        first.1.value.name != second.1.value.name && second.0.count == w.count + 2
  {
    var first := New(k1, w, ev1, name1);
    if first.1.Ok? {
      NamesDistinct(BaseName(name1, DEFAULT_NAME), w.count, w.count + 1);
    }
  }

  /** The suffix is appended to supplied names too, so a supplied name ending
      in a digit can meet a later counter value: "dev1" at count 0 and "dev"
      at count 10 both give "dev10". */
  lemma SuppliedNamesCanCollide()
    ensures DeviceName(BaseName(Some("dev1"), DEFAULT_NAME), 0) == DeviceName(BaseName(Some("dev"), DEFAULT_NAME), 10)
  {
    assert Decimal.Show(10) == Decimal.Show(1) + [Decimal.DigitChar(0)];
  }

  /** As written, every default device name reaches the kernel as the same
      one-letter name "p", whatever the counter. */
  lemma WideNamesCollide(c1: nat, c2: nat)
    ensures CString(Marshal.WideArg(DeviceName(DEFAULT_NAME, c1))) == ['p' as int as byte]
    ensures CString(Marshal.WideArg(DeviceName(DEFAULT_NAME, c1)))
      == CString(Marshal.WideArg(DeviceName(DEFAULT_NAME, c2)))
  {
    var n1, n2 := DeviceName(DEFAULT_NAME, c1), DeviceName(DEFAULT_NAME, c2);
    assert n1[0] == 'p' && n2[0] == 'p';
    Marshal.WideArgTruncates(n1);
    Marshal.WideArgTruncates(n2);
  }

  /** The name the kernel receives for a device, with UTF-8 passing. */
  function KernelName(name: string): seq<byte>
  {
    CString(Marshal.Utf8Arg(name))
  }

  /** With UTF-8 passing, the kernel-visible names of devices created with the
      same base at different counts differ as well. */
  lemma KernelNamesDistinct(base: string, c1: nat, c2: nat)
    requires forall i :: 0 <= i < |base| ==> base[i] != '\0'
    requires c1 != c2
    ensures KernelName(DeviceName(base, c1)) != KernelName(DeviceName(base, c2))
  {
    var s1, s2 := Decimal.Show(c1), Decimal.Show(c2);
    Decimal.ShowInjective(c1, c2);
    assert Marshal.Ascii(s1) && Marshal.Ascii(s2);
    Marshal.Utf8AsciiInjective(s1, s2);
    Marshal.Utf8Append(base, s1);
    Marshal.Utf8Append(base, s2);
    var n1, n2 := DeviceName(base, c1), DeviceName(base, c2);
    assert forall i :: 0 <= i < |n1| ==> n1[i] != '\0' by {
      forall i | 0 <= i < |n1| ensures n1[i] != '\0' {
        if i >= |base| { assert n1[i] == s1[i - |base|]; }
      }
    }
    assert forall i :: 0 <= i < |n2| ==> n2[i] != '\0' by {
      forall i | 0 <= i < |n2| ensures n2[i] != '\0' {
        if i >= |base| { assert n2[i] == s2[i - |base|]; }
      }
    }
    Marshal.Utf8ArgRoundTrip(n1);
    Marshal.Utf8ArgRoundTrip(n2);
    Cancel(Marshal.Utf8(base), Marshal.Utf8(s1), Marshal.Utf8(s2));
  }

  /*** Emission ***/

  /** The marker that follows a write when `flush` is requested. */
  function Sync(flush: bool): seq<InputEvent>
  {
    if flush then [SynReport] else []
  }

  /** `Device.send_event`: one record, then a marker only if `flush`. */
  function SendEvent(t: Trace, d: Device, e: Event, value: int, flush: bool): (r: Trace)
    ensures r == t + Writes(d.fd, [Record(e, value)] + Sync(flush))
  {
    var t1 := UInput.SendEvent(t, d.fd, e, value);
    WritesAppend(d.fd, [Record(e, value)], Sync(flush));
    if flush then UInput.Flush(t1, d.fd) else t1
  }

  /** `Device.flush`: just the marker. */
  function Flush(t: Trace, d: Device): (r: Trace)
    ensures r == t + Writes(d.fd, [SynReport])
  {
    UInput.Flush(t, d.fd)
  }

  /** `press`: value 1, the flush flag passed through. */
  function Press(t: Trace, d: Device, key: Event, flush: bool): (r: Trace)
    ensures r == t + Writes(d.fd, [Record(key, 1)] + Sync(flush))
  {
    SendEvent(t, d, key, 1, flush)
  }

  /** `release`: value 0, the flush flag passed through. */
  function Release(t: Trace, d: Device, key: Event, flush: bool): (r: Trace)
    ensures r == t + Writes(d.fd, [Record(key, 0)] + Sync(flush))
  {
    SendEvent(t, d, key, 0, flush)
  }

  /** `click`: down then up with no marker between them; a marker after them only if `flush`. */
  function Click(t: Trace, d: Device, key: Event, flush: bool): (r: Trace)
    ensures r == t + Writes(d.fd, [Record(key, 1), Record(key, 0)] + Sync(flush))
  {
    var t1 := SendEvent(t, d, key, 1, false);
    WritesAppend(d.fd, [Record(key, 1)], [Record(key, 0)] + Sync(flush));
    assert [Record(key, 1)] + ([Record(key, 0)] + Sync(flush)) == [Record(key, 1), Record(key, 0)] + Sync(flush);
    SendEvent(t1, d, key, 0, flush)
  }

  /** The records of pressing (1) or releasing (0) every key, in list order. */
  function KeyRecords(keys: seq<Event>, value: int): (evs: seq<InputEvent>)
    ensures |evs| == |keys|
    ensures forall i :: 0 <= i < |keys| ==> evs[i] == Record(keys[i], value)
  {
    seq(|keys|, i requires 0 <= i < |keys| => Record(keys[i], value))
  }

  lemma KeyRecordsCons(keys: seq<Event>, value: int)
    requires |keys| > 0
    ensures KeyRecords(keys, value) == [Record(keys[0], value)] + KeyRecords(keys[1..], value)
  {
  }

  /** The first loop of `click_combination`: press every key without a marker. */
  function PressAll(t: Trace, d: Device, keys: seq<Event>): (r: Trace)
    ensures r == t + Writes(d.fd, KeyRecords(keys, 1))
    decreases |keys|
  {
    if |keys| == 0 then t
    else
      var first := [Record(keys[0], 1)];
      var t1 := Press(t, d, keys[0], false);
      assert first + Sync(false) == first;
      var r := PressAll(t1, d, keys[1..]);
      KeyRecordsCons(keys, 1);
      WritesAppend(d.fd, first, KeyRecords(keys[1..], 1));
      Regroup(t, Writes(d.fd, first), Writes(d.fd, KeyRecords(keys[1..], 1)), []);
      r
  }

  /** The second loop of `click_combination`: release every key without a marker. */
  function ReleaseAll(t: Trace, d: Device, keys: seq<Event>): (r: Trace)
    ensures r == t + Writes(d.fd, KeyRecords(keys, 0))
    decreases |keys|
  {
    if |keys| == 0 then t
    else
      var first := [Record(keys[0], 0)];
      var t1 := Release(t, d, keys[0], false);
      assert first + Sync(false) == first;
      var r := ReleaseAll(t1, d, keys[1..]);
      KeyRecordsCons(keys, 0);
      WritesAppend(d.fd, first, KeyRecords(keys[1..], 0));
      Regroup(t, Writes(d.fd, first), Writes(d.fd, KeyRecords(keys[1..], 0)), []);
      r
  }

  /** `click_combination`: every key down in order, a marker, every key up in
      the same order, a marker — 2 * |keys| + 2 writes in all. */
  function ClickCombination(t: Trace, d: Device, keys: seq<Event>): (r: Trace)
    ensures r == t + Writes(d.fd, KeyRecords(keys, 1) + [SynReport] + KeyRecords(keys, 0) + [SynReport])
    ensures |r| == |t| + 2 * |keys| + 2
  {
    var downs, ups := KeyRecords(keys, 1), KeyRecords(keys, 0);
    var pressed := PressAll(t, d, keys);
    var t1 := Flush(pressed, d);
    WritesAppend(d.fd, downs, [SynReport]);
    Regroup(t, Writes(d.fd, downs), Writes(d.fd, [SynReport]), []);
    var released := ReleaseAll(t1, d, keys);
    WritesAppend(d.fd, downs + [SynReport], ups);
    Regroup(t, Writes(d.fd, downs + [SynReport]), Writes(d.fd, ups), []);
    var t2 := Flush(released, d);
    WritesAppend(d.fd, downs + [SynReport] + ups, [SynReport]);
    Regroup(t, Writes(d.fd, downs + [SynReport] + ups), Writes(d.fd, [SynReport]), []);
    t2
  }

  /** Pressing and releasing without a marker and then flushing, as a caller
      may do by hand, writes exactly what a flushed click writes. */
  lemma ManualClickIsClick(t: Trace, d: Device, key: Event)
    ensures Flush(Release(Press(t, d, key, false), d, key, false), d) == Click(t, d, key, true)
  {
    var down, up := [Record(key, 1)], [Record(key, 0)];
    assert down + Sync(false) == down && up + Sync(false) == up;
    WritesAppend(d.fd, down, up);
    WritesAppend(d.fd, down + up, [SynReport]);
    Regroup(t, Writes(d.fd, down), Writes(d.fd, up), []);
    Regroup(t, Writes(d.fd, down + up), Writes(d.fd, [SynReport]), []);
    assert down + up + [SynReport] == [Record(key, 1), Record(key, 0)] + Sync(true);
  }

  /** Emission registers nothing: whatever records a device writes, every
      descriptor keeps the capabilities it had, so they stay those fixed at creation. */
  lemma EmissionKeepsCapabilities(k: Kernel, t0: Trace, t: Trace, d: Device, evs: seq<InputEvent>, fd: i32)
    ensures Registered(k, t0, t + Writes(d.fd, evs), fd) == Registered(k, t0, t, fd)
  {
    RegisteredAppend(k, t0, t, Writes(d.fd, evs), fd);
    WritesRegisterNothing(k, t0 + t, d.fd, evs, fd);
  }

  /*** Frames written ***/

  predicate NoMarker(keys: seq<Event>)
  {
    forall i :: 0 <= i < |keys| ==> !IsSyn(Record(keys[i], 0))
  }

  /** The records a call added after `t`, as written to the device. */
  function Added(t: Trace, r: Trace, d: Device): seq<InputEvent>
    requires |t| <= |r|
  {
    Written(r[|t|..], d.fd)
  }

  lemma AddedWrites(t: Trace, d: Device, evs: seq<InputEvent>)
    ensures Added(t, t + Writes(d.fd, evs), d) == evs
  {
    assert (t + Writes(d.fd, evs))[|t|..] == Writes(d.fd, evs);
    WrittenWrites(d.fd, evs);
  }

  /** A flushed write is a frame of its own; an unflushed one stays pending. */
  lemma SendEventFrames(t: Trace, d: Device, e: Event, value: int, flush: bool)
    requires !IsSyn(Record(e, value))
    ensures Group(Added(t, SendEvent(t, d, e, value, flush), d))
      == if flush then Frames([[Record(e, value)]], []) else Frames([], [Record(e, value)])
  {
    AddedWrites(t, d, [Record(e, value)] + Sync(flush));
    GroupNoSyn([Record(e, value)]);
    if flush {
      GroupSyn([Record(e, value)]);
    }
  }

  /** A flushed click is written as one frame holding both transitions, down first. */
  lemma ClickFrames(t: Trace, d: Device, key: Event, flush: bool)
    requires !IsSyn(Record(key, 0))
    ensures Group(Added(t, Click(t, d, key, flush), d))
      == if flush then Frames([[Record(key, 1), Record(key, 0)]], []) else Frames([], [Record(key, 1), Record(key, 0)])
  {
    var evs := [Record(key, 1), Record(key, 0)];
    AddedWrites(t, d, evs + Sync(flush));
    GroupNoSyn(evs);
    if flush {
      GroupSyn(evs);
    }
  }

  /** `click_combination` writes exactly two frames: all keys down, then
      all keys up, each in list order, with nothing left pending. */
  lemma ClickCombinationFrames(t: Trace, d: Device, keys: seq<Event>)
    requires NoMarker(keys)
    ensures Group(Added(t, ClickCombination(t, d, keys), d))
      == Frames([KeyRecords(keys, 1), KeyRecords(keys, 0)], [])
  {
    var downs, ups := KeyRecords(keys, 1), KeyRecords(keys, 0);
    AddedWrites(t, d, downs + [SynReport] + ups + [SynReport]);
    assert forall i :: 0 <= i < |downs| ==> !IsSyn(downs[i]) by {
      forall i | 0 <= i < |downs| ensures !IsSyn(downs[i]) {
        assert !IsSyn(Record(keys[i], 0));
      }
    }
    GroupTwoFrames(downs, ups);
  }

  /** The two-key chord: shift and H down, marker, shift and H up, marker. */
  lemma ShiftHScenario(t: Trace, d: Device)
    ensures ClickCombination(t, d, [Key(42), Key(35)]) == t + Writes(d.fd, [
      InputEvent(0, 0, EV_KEY, 42, 1), InputEvent(0, 0, EV_KEY, 35, 1), SynReport,
      InputEvent(0, 0, EV_KEY, 42, 0), InputEvent(0, 0, EV_KEY, 35, 0), SynReport])
  {
    var keys := [Key(42), Key(35)];
    assert Record(Key(42), 1) == InputEvent(0, 0, EV_KEY, 42, 1);
    assert Record(Key(35), 1) == InputEvent(0, 0, EV_KEY, 35, 1);
    assert Record(Key(42), 0) == InputEvent(0, 0, EV_KEY, 42, 0);
    assert Record(Key(35), 0) == InputEvent(0, 0, EV_KEY, 35, 0);
    assert KeyRecords(keys, 1) == [Record(Key(42), 1), Record(Key(35), 1)];
    assert KeyRecords(keys, 0) == [Record(Key(42), 0), Record(Key(35), 0)];
  }

  /*** Destruction ***/

  /** `Device.destroy`: a no-op once the descriptor is -1. Otherwise the
      destroy request goes first; if the kernel refuses it, an error is raised,
      nothing is closed and the device keeps its descriptor; if it accepts, the
      descriptor is closed and set to -1. */
  function Destroy(k: Kernel, t: Trace, d: Device): (r: (Device, Trace, Outcome))
    ensures d.fd == -1 ==> r == (d, t, Pass)
    ensures d.fd != -1 && k(t, DevDestroy(d.fd)) == 0
      ==> r == (d.(fd := -1), t + [DevDestroy(d.fd), Close(d.fd)], Pass)
    ensures d.fd != -1 && k(t, DevDestroy(d.fd)) != 0
      ==> r == (d, t + [DevDestroy(d.fd)], Fail(DeviceDestroyFailed))
    ensures r.0.name == d.name
  {
    if d.fd == -1 then (d, t, Pass)
    else
      var (res, t1) := DestroyDevice(k, t, d.fd);
      match res
      case Fail(_) => (d, t1, Fail(DeviceDestroyFailed))
      case Pass => (d.(fd := -1), t1, Pass)
  }

  /** A second `destroy` after a successful one makes no kernel call and
      raises nothing, whatever the kernel would answer; the pair issues at most
      one destroy request and one close. */
  lemma DestroyIdempotent(k1: Kernel, k2: Kernel, t: Trace, d: Device)
    ensures var first := Destroy(k1, t, d);
      first.2.Pass? ==>
        && Destroy(k2, first.1, first.0) == (first.0, first.1, Pass)
        && first.0.fd == -1
        && CountDestroys(first.1[|t|..]) <= 1 && CountCloses(first.1[|t|..]) <= 1
  {
    var first := Destroy(k1, t, d);
    if first.2.Pass? {
      var added := first.1[|t|..];
      if d.fd != -1 {
        assert added == [DevDestroy(d.fd), Close(d.fd)];
        assert added[1..] == [Close(d.fd)] && added[1..][1..] == [];
        assert CountDestroys(added) == 1 + CountDestroys([Close(d.fd)]);
        assert CountCloses(added) == CountCloses([Close(d.fd)]);
      } else {
        assert added == [];
      }
    }
  }

  /** The calls a successful destroy adds hold one close. */
  lemma DestroyClosesOnce(fd: i32)
    ensures CountCloses([DevDestroy(fd), Close(fd)]) == 1
  {
    var s := [DevDestroy(fd), Close(fd)];
    assert s[1..] == [Close(fd)] && s[1..][1..] == [];
  }

  /** A device whose creation succeeded with a real descriptor and which is
      then destroyed has had that descriptor closed exactly once, by the
      destroy, as its last call. */
  lemma CreateThenDestroyClosesOnce(k: Kernel, w: World, events: seq<Event>, name: Option<string>)
    requires forall e | e in events :: Supported(e)
    ensures var created := New(k, w, events, name);
      created.1.Ok? && created.1.value.fd != -1 ==>
        var destroyed := Destroy(k, created.0.trace, created.1.value);
        destroyed.2.Pass? ==>
          && CountCloses(destroyed.1[|w.trace|..]) == 1
          && destroyed.1[|destroyed.1| - 1] == Close(created.1.value.fd)
  {
    var created := New(k, w, events, name);
    if created.1.Ok? && created.1.value.fd != -1 {
      var fullName := DeviceName(BaseName(name, DEFAULT_NAME), w.count);
      CreateDeviceAtomic(k, w.trace, fullName, events);
      var fd := created.1.value.fd;
      var destroyed := Destroy(k, created.0.trace, created.1.value);
      if destroyed.2.Pass? {
        var t1 := created.0.trace;
        var made := t1[|w.trace|..];
        assert CountCloses(made) == 0;
        assert destroyed.1 == t1 + [DevDestroy(fd), Close(fd)];
        assert t1 == w.trace + made;
        Regroup(w.trace, made, [DevDestroy(fd), Close(fd)], []);
        CountClosesAppend(made, [DevDestroy(fd), Close(fd)]);
        DestroyClosesOnce(fd);
      }
    }
  }
}
