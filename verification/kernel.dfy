/**
  The kernel's virtual-input interface (`/dev/uinput`) as an abstract channel.
  Every request the library makes is appended to a trace; the kernel's answer
  to a request is an arbitrary function of the request and of everything asked
  before it, so any success/failure pattern the kernel may produce is covered.

  The module also states how the kernel reads a trace: which capabilities a
  sequence of accepted bit requests registers on a descriptor, which input
  records were written to it, and how that written stream splits into frames
  closed by SYN_REPORT. What an evdev reader finally receives also depends on
  the input core's own filtering and timestamps, which are not modelled.
 */
module Kernel {
  import opened CTypes

  // Event types and codes from linux/input-event-codes.h, as the Python
  // module lists them.
  const EV_SYN: u16 := 0x00
  const EV_KEY: u16 := 0x01
  const EV_REL: u16 := 0x02
  const EV_ABS: u16 := 0x03
  const EV_MSC: u16 := 0x04
  const EV_SW: u16 := 0x05
  const EV_LED: u16 := 0x11
  const EV_SND: u16 := 0x12
  const EV_REP: u16 := 0x14
  const EV_FF: u16 := 0x15
  const SYN_REPORT: u16 := 0x00

  /** Bus type written into the device setup (linux/input.h). */
  const BUS_USB: u16 := 0x03

  /** The uinput ioctls that set one bit of a capability bitmap. */
  datatype BitRequest =
    | SetEvBit
    | SetKeyBit
    | SetRelBit
    | SetAbsBit
    | SetMscBit
    | SetSwBit
    | SetLedBit
    | SetSndBit
    | SetFfBit

  /** `struct input_event`: timestamp, type, code and value. */
  datatype InputEvent = InputEvent(sec: int, usec: int, etype: u16, code: u16, value: i32)

  /** `struct uinput_setup` as far as the library fills it in. */
  datatype UinputSetup = UinputSetup(bustype: u16, vendor: u16, product: u16, name: seq<byte>)

  datatype KernelCall =
    | Open
    | SetBit(fd: i32, request: BitRequest, bit: u16)
    | DevSetup(fd: i32, setup: UinputSetup)
    | DevCreate(fd: i32)
    | DevDestroy(fd: i32)
    | Write(fd: i32, event: InputEvent)
    | Close(fd: i32)

  type Trace = seq<KernelCall>

  /** The kernel's answer to a call, given the calls it received before. */
  type Kernel = (Trace, KernelCall) -> i32

  /** Sends one call to the kernel: the call joins the trace and the kernel answers it. */
  function Issue(k: Kernel, t: Trace, c: KernelCall): (i32, Trace)
  {
    (k(t, c), t + [c])
  }

  /** Writes of the given records, in order, to one descriptor. */
  function Writes(fd: i32, evs: seq<InputEvent>): (s: Trace)
    ensures |s| == |evs|
  {
    seq(|evs|, i requires 0 <= i < |evs| => Write(fd, evs[i]))
  }

  lemma WritesAppend(fd: i32, a: seq<InputEvent>, b: seq<InputEvent>)
    ensures Writes(fd, a + b) == Writes(fd, a) + Writes(fd, b)
  {
  }

  /** The end-of-frame marker EV_SYN/SYN_REPORT with value 0 and a zero timestamp. */
  const SynReport: InputEvent := InputEvent(0, 0, EV_SYN, SYN_REPORT, 0)

  /*** Counting calls ***/

  function CountCloses(s: Trace): (n: nat)
    ensures n <= |s|
  {
    if |s| == 0 then 0 else (if s[0].Close? then 1 else 0) + CountCloses(s[1..])
  }

  function CountDestroys(s: Trace): (n: nat)
    ensures n <= |s|
  {
    if |s| == 0 then 0 else (if s[0].DevDestroy? then 1 else 0) + CountDestroys(s[1..])
  }

  lemma {:induction false} CountClosesAppend(a: Trace, b: Trace)
    ensures CountCloses(a + b) == CountCloses(a) + CountCloses(b)
    decreases |a|
  {
    if |a| == 0 {
      assert a + b == b;
    } else {
      assert (a + b)[1..] == a[1..] + b;
      CountClosesAppend(a[1..], b);
    }
  }

  lemma {:induction false} CountClosesNone(s: Trace)
    requires forall i :: 0 <= i < |s| ==> !s[i].Close?
    ensures CountCloses(s) == 0
    decreases |s|
  {
    if |s| > 0 {
      CountClosesNone(s[1..]);
    }
  }

  /*** Capabilities ***/

  /** The event type whose code bitmap a request sets; UI_SET_EVBIT sets the type bitmap instead. */
  function CodeFamily(req: BitRequest): u16
    requires req != SetEvBit
  {
    match req
    case SetKeyBit => EV_KEY
    case SetRelBit => EV_REL
    case SetAbsBit => EV_ABS
    case SetMscBit => EV_MSC
    case SetSwBit => EV_SW
    case SetLedBit => EV_LED
    case SetSndBit => EV_SND
    case SetFfBit => EV_FF
  }

  datatype Capability = TypeBit(etype: u16) | CodeBit(etype: u16, code: u16)

  /** The capability a set-bit request asks for. */
  function Bit(c: KernelCall): Capability
    requires c.SetBit?
  {
    if c.request == SetEvBit then TypeBit(c.bit) else CodeBit(CodeFamily(c.request), c.bit)
  }

  /** What one call, issued after `t`, adds to the capabilities of descriptor
      `fd`: a set-bit request on `fd` adds its bit when the kernel accepts it
      (answers 0), and nothing otherwise. */
  function Effect(k: Kernel, t: Trace, c: KernelCall, fd: i32): set<Capability>
  {
    if c.SetBit? && c.fd == fd && k(t, c) == 0 then {Bit(c)} else {}
  }

  /** The capabilities the calls of `s`, issued after `t`, register on `fd`. */
  function Registered(k: Kernel, t: Trace, s: Trace, fd: i32): set<Capability>
    decreases |s|
  {
    if |s| == 0 then {} else Effect(k, t, s[0], fd) + Registered(k, t + [s[0]], s[1..], fd)
  }

  lemma {:induction false} RegisteredAppend(k: Kernel, t: Trace, a: Trace, b: Trace, fd: i32)
    ensures Registered(k, t, a + b, fd) == Registered(k, t, a, fd) + Registered(k, t + a, b, fd)
    decreases |a|
  {
    if |a| == 0 {
      assert a + b == b && t + a == t;
    } else {
      assert (a + b)[0] == a[0] && (a + b)[1..] == a[1..] + b;
      RegisteredAppend(k, t + [a[0]], a[1..], b, fd);
      assert t + [a[0]] + a[1..] == t + a;
    }
  }

  /** Writing records registers nothing on any descriptor. */
  lemma {:induction false} WritesRegisterNothing(k: Kernel, t: Trace, fd: i32, evs: seq<InputEvent>, other: i32)
    ensures Registered(k, t, Writes(fd, evs), other) == {}
    decreases |evs|
  {
    if |evs| > 0 {
      assert Writes(fd, evs)[1..] == Writes(fd, evs[1..]);
      WritesRegisterNothing(k, t + [Write(fd, evs[0])], fd, evs[1..], other);
    }
  }

  /*** Written records and frames ***/

  /** The input records written to `fd`, in order. */
  function Written(s: Trace, fd: i32): seq<InputEvent>
  {
    if |s| == 0 then []
    else (if s[0].Write? && s[0].fd == fd then [s[0].event] else []) + Written(s[1..], fd)
  }

  lemma {:induction false} WrittenAppend(a: Trace, b: Trace, fd: i32)
    ensures Written(a + b, fd) == Written(a, fd) + Written(b, fd)
    decreases |a|
  {
    if |a| == 0 {
      assert a + b == b;
    } else {
      assert (a + b)[1..] == a[1..] + b;
      WrittenAppend(a[1..], b, fd);
    }
  }

  lemma {:induction false} WrittenWrites(fd: i32, evs: seq<InputEvent>)
    ensures Written(Writes(fd, evs), fd) == evs
    decreases |evs|
  {
    if |evs| > 0 {
      assert Writes(fd, evs)[1..] == Writes(fd, evs[1..]);
      WrittenWrites(fd, evs[1..]);
    }
  }

  predicate IsSyn(e: InputEvent)
  {
    e.etype == EV_SYN && e.code == SYN_REPORT
  }

  /** The records written to a descriptor, split at each SYN_REPORT:
      `complete` holds the frames already closed (one per marker), `pending`
      the records written since the last marker. */
  datatype Frames = Frames(complete: seq<seq<InputEvent>>, pending: seq<InputEvent>)

  /** Records with the markers removed. */
  function Payload(evs: seq<InputEvent>): seq<InputEvent>
  {
    if |evs| == 0 then []
    else Payload(evs[..|evs| - 1]) + (if IsSyn(evs[|evs| - 1]) then [] else [evs[|evs| - 1]])
  }

  function CountSyn(evs: seq<InputEvent>): nat
  {
    if |evs| == 0 then 0
    else CountSyn(evs[..|evs| - 1]) + (if IsSyn(evs[|evs| - 1]) then 1 else 0)
  }

  function Concat(fs: seq<seq<InputEvent>>): seq<InputEvent>
  {
    if |fs| == 0 then [] else Concat(fs[..|fs| - 1]) + fs[|fs| - 1]
  }

  /** Groups records into frames: a marker closes the records pending since
      the previous one into a frame, anything else joins the pending records. */
  function Group(evs: seq<InputEvent>): Frames
    decreases |evs|
  {
    if |evs| == 0 then Frames([], [])
    else
      var g := Group(evs[..|evs| - 1]);
      var e := evs[|evs| - 1];
      if IsSyn(e) then Frames(g.complete + [g.pending], [])
      else Frames(g.complete, g.pending + [e])
  }

  /** Grouping loses and reorders nothing: every record other than a marker
      lands in exactly one frame or in the pending part, in written order;
      there is one complete frame per marker, and no marker is pending. */
  lemma {:induction false} GroupPreserves(evs: seq<InputEvent>)
    ensures Concat(Group(evs).complete) + Group(evs).pending == Payload(evs)
    ensures |Group(evs).complete| == CountSyn(evs)
    ensures forall i :: 0 <= i < |Group(evs).pending| ==> !IsSyn(Group(evs).pending[i])
    decreases |evs|
  {
    if |evs| > 0 {
      var prefix := evs[..|evs| - 1];
      var e := evs[|evs| - 1];
      GroupPreserves(prefix);
      var g := Group(prefix);
      if IsSyn(e) {
        var fs := g.complete + [g.pending];
        assert fs[..|fs| - 1] == g.complete;
        assert Concat(fs) == Concat(g.complete) + g.pending;
      } else {
        assert Concat(g.complete) + (g.pending + [e]) == (Concat(g.complete) + g.pending) + [e];
      }
    }
  }

  lemma {:induction false} GroupNoSyn(evs: seq<InputEvent>)
    requires forall i :: 0 <= i < |evs| ==> !IsSyn(evs[i])
    ensures Group(evs) == Frames([], evs)
    decreases |evs|
  {
    if |evs| > 0 {
      GroupNoSyn(evs[..|evs| - 1]);
      assert evs[..|evs| - 1] + [evs[|evs| - 1]] == evs;
    }
  }

  /** One more record: a marker closes the pending records into a frame,
      anything else joins them. */
  lemma GroupSnoc(evs: seq<InputEvent>, e: InputEvent)
    ensures Group(evs + [e]) == if IsSyn(e) then Frames(Group(evs).complete + [Group(evs).pending], [])
      else Frames(Group(evs).complete, Group(evs).pending + [e])
  {
    assert (evs + [e])[..|evs|] == evs;
  }

  /** Records written after a point where nothing is pending form their own frames. */
  lemma {:induction false} GroupAppend(a: seq<InputEvent>, b: seq<InputEvent>)
    requires Group(a).pending == []
    ensures Group(a + b) == Frames(Group(a).complete + Group(b).complete, Group(b).pending)
    decreases |b|
  {
    if |b| == 0 {
      assert a + b == a;
    } else {
      var b', e := b[..|b| - 1], b[|b| - 1];
      assert b == b' + [e];
      assert a + b == (a + b') + [e];
      GroupAppend(a, b');
      GroupSnoc(a + b', e);
      GroupSnoc(b', e);
    }
  }

  /** A marker closes the pending records into one frame. */
  lemma GroupSyn(evs: seq<InputEvent>)
    ensures Group(evs + [SynReport]) == Frames(Group(evs).complete + [Group(evs).pending], [])
  {
    GroupSnoc(evs, SynReport);
  }

  /** A run of records closed by a marker groups into exactly that one frame. */
  lemma GroupOneFrame(a: seq<InputEvent>)
    requires forall i :: 0 <= i < |a| ==> !IsSyn(a[i])
    ensures Group(a + [SynReport]) == Frames([a], [])
  {
    GroupNoSyn(a);
    GroupSyn(a);
    assert [] + [a] == [a];
  }

  /** Two runs of records, each closed by a marker, group into exactly those
      two frames, in order, with nothing pending. */
  lemma GroupTwoFrames(a: seq<InputEvent>, b: seq<InputEvent>)
    requires forall i :: 0 <= i < |a| ==> !IsSyn(a[i])
    requires forall i :: 0 <= i < |b| ==> !IsSyn(b[i])
    ensures Group(a + [SynReport] + b + [SynReport]) == Frames([a, b], [])
  {
    var a1, b1 := a + [SynReport], b + [SynReport];
    assert a + [SynReport] + b + [SynReport] == a1 + b1;
    GroupOneFrame(a);
    GroupOneFrame(b);
    GroupAppend(a1, b1);
    assert [a] + [b] == [a, b];
  }
}
