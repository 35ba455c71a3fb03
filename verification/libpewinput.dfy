/**
  The C library `libpewinput`: thin wrappers that turn each library entry
  point into a fixed sequence of kernel calls. Return values of the kernel
  that the C code ignores are dropped here as well.
 */
module LibPewinput {
  import opened CTypes
  import opened Kernel

  /** The event types `enable_event` has a case for. For any other type the C
      code reads an uninitialised request number, so callers must stay within these. */
  predicate Handled(etype: u16)
  {
    etype in HANDLED
  }

  const HANDLED: set<u16> := {EV_KEY, EV_REL, EV_ABS, EV_MSC, EV_SW, EV_LED, EV_SND, EV_FF}

  /** The `switch` of `enable_event`: the request that sets a code bit of the
      given type. The kernel reads that request back as the same type. */
  function CodeRequest(etype: u16): (req: BitRequest)
    requires Handled(etype)
    ensures req != SetEvBit && CodeFamily(req) == etype
  {
    if etype == EV_KEY then SetKeyBit
    else if etype == EV_REL then SetRelBit
    else if etype == EV_ABS then SetAbsBit
    else if etype == EV_MSC then SetMscBit
    else if etype == EV_SW then SetSwBit
    else if etype == EV_LED then SetLedBit
    else if etype == EV_SND then SetSndBit
    else SetFfBit
  }

  /** Distinct handled types get distinct code-bit requests. */
  lemma CodeRequestInjective(a: u16, b: u16)
    requires Handled(a) && Handled(b) && a != b
    ensures CodeRequest(a) != CodeRequest(b)
  {
    assert CodeFamily(CodeRequest(a)) != CodeFamily(CodeRequest(b));
  }

  function OpenUinput(k: Kernel, t: Trace): (r: (i32, Trace))
    ensures r.1 == t + [Open] && r.0 == k(t, Open)
  {
    Issue(k, t, Open)
  }

  /** The calls `enable_event` makes: the auto-repeat type for keys, then the
      type bit, then the code bit. */
  function EnableCalls(fd: i32, etype: u16, code: u16): (s: Trace)
    requires Handled(etype)
    ensures 2 <= |s| <= 3
  {
    (if etype == EV_KEY then [SetBit(fd, SetEvBit, EV_REP)] else [])
    + [SetBit(fd, SetEvBit, etype), SetBit(fd, CodeRequest(etype), code)]
  }

  /** `enable_event`: only the answer to the code-bit request is returned;
      the answers to the type-bit requests are dropped. */
  function EnableEvent(k: Kernel, t: Trace, fd: i32, etype: u16, code: u16): (r: (i32, Trace))
    requires Handled(etype)
    ensures r.1 == t + EnableCalls(fd, etype, code)
    ensures r.0 == k(r.1[..|r.1| - 1], SetBit(fd, CodeRequest(etype), code))
  {
    var t1 := if etype == EV_KEY then Issue(k, t, SetBit(fd, SetEvBit, EV_REP)).1 else t;
    var t2 := Issue(k, t1, SetBit(fd, SetEvBit, etype)).1;
    Issue(k, t2, SetBit(fd, CodeRequest(etype), code))
  }

  /** Order inside `enable_event`: the type bit comes right before the code
      bit, which is last; for keys the auto-repeat type bit comes first. */
  lemma EnableCallsOrder(fd: i32, etype: u16, code: u16)
    requires Handled(etype)
    ensures var s := EnableCalls(fd, etype, code);
      && s[|s| - 1] == SetBit(fd, CodeRequest(etype), code)
      && s[|s| - 2] == SetBit(fd, SetEvBit, etype)
      && (etype == EV_KEY <==> |s| == 3)
      && (etype == EV_KEY ==> s[0] == SetBit(fd, SetEvBit, EV_REP))
  {
  }

  /** The capabilities one `enable_event` registers on its descriptor. Each
      request adds its bit exactly when the kernel accepts it: the code bit
      when `enable_event` returns 0, the type bit and (for keys) auto-repeat
      on answers the C code drops. */
  lemma EnableEventRegisters(k: Kernel, t: Trace, fd: i32, etype: u16, code: u16)
    requires Handled(etype)
    ensures var s := EnableCalls(fd, etype, code);
      var n := |s|;
      Registered(k, t, s, fd)
        == (if EnableEvent(k, t, fd, etype, code).0 == 0 then {CodeBit(etype, code)} else {})
        + (if k(t + s[..n - 2], s[n - 2]) == 0 then {TypeBit(etype)} else {})
        + (if etype == EV_KEY && k(t, s[0]) == 0 then {TypeBit(EV_REP)} else {})
  {
    var s := EnableCalls(fd, etype, code);
    var n := |s|;
    var tb, cb := s[n - 2], s[n - 1];
    assert Registered(k, t + s[..n - 1], [cb], fd)
      == (if k(t + s[..n - 1], cb) == 0 then {CodeBit(etype, code)} else {}) by {
      assert [cb][1..] == [];
    }
    assert Registered(k, t + s[..n - 2], [tb], fd)
      == (if k(t + s[..n - 2], tb) == 0 then {TypeBit(etype)} else {}) by {
      assert [tb][1..] == [];
    }
    assert Registered(k, t, s[..n - 2], fd)
      == (if etype == EV_KEY && k(t, s[0]) == 0 then {TypeBit(EV_REP)} else {}) by {
      if n == 3 {
        assert s[..1][1..] == [];
      } else {
        assert s[..0] == [];
      }
    }
    assert s[..n - 2] + [tb] == s[..n - 1] && s[..n - 1] + [cb] == s;
    RegisteredAppend(k, t, s[..n - 2], [tb], fd);
    RegisteredAppend(k, t, s[..n - 1], [cb], fd);
    assert t + s[..n - 2] + [tb] == t + s[..n - 1];
    assert (t + s)[..|t + s| - 1] == t + s[..n - 1];
  }

  /** Two kernels that answer the code-bit request alike make `enable_event`
      return alike, whatever they answer to the type-bit requests. */
  lemma EnableEventIgnoresTypeBits(k1: Kernel, k2: Kernel, t: Trace, fd: i32, etype: u16, code: u16)
    requires Handled(etype)
    requires var s := t + EnableCalls(fd, etype, code);
      k1(s[..|s| - 1], s[|s| - 1]) == k2(s[..|s| - 1], s[|s| - 1])
    ensures EnableEvent(k1, t, fd, etype, code) == EnableEvent(k2, t, fd, etype, code)
  {
  }

  /** The setup `create_device` hands to the kernel: USB bus, zero vendor and
      product, and the name read from the C string argument. */
  function Setup(name: seq<byte>): (u: UinputSetup)
    requires 0 in name
    ensures u.bustype == BUS_USB && u.vendor == 0 && u.product == 0
    ensures u.name + [0] <= name && 0 !in u.name
  {
    UinputSetup(BUS_USB, 0, 0, CString(name))
  }

  /** `create_device`: setup then commit; only the commit's answer is returned. */
  function CreateDevice(k: Kernel, t: Trace, fd: i32, name: seq<byte>): (r: (i32, Trace))
    requires 0 in name
    ensures r.1 == t + [DevSetup(fd, Setup(name)), DevCreate(fd)]
    ensures r.0 == k(t + [DevSetup(fd, Setup(name))], DevCreate(fd))
  {
    var t1 := Issue(k, t, DevSetup(fd, Setup(name))).1;
    Issue(k, t1, DevCreate(fd))
  }

  /** Two kernels that answer the commit alike make `create_device` return
      alike, whatever they answer to the setup. */
  lemma CreateDeviceIgnoresSetup(k1: Kernel, k2: Kernel, t: Trace, fd: i32, name: seq<byte>)
    requires 0 in name
    requires k1(t + [DevSetup(fd, Setup(name))], DevCreate(fd)) == k2(t + [DevSetup(fd, Setup(name))], DevCreate(fd))
    ensures CreateDevice(k1, t, fd, name) == CreateDevice(k2, t, fd, name)
  {
  }

  /** `send_event`: one record with a zero timestamp; the result of `write` is ignored. */
  function SendEvent(t: Trace, fd: i32, etype: u16, code: u16, value: i32): (r: Trace)
    ensures |r| == |t| + 1 && r[..|t|] == t
    ensures Written(r[|t|..], fd) == [InputEvent(0, 0, etype, code, value)]
  {
    var r := t + [Write(fd, InputEvent(0, 0, etype, code, value))];
    assert r[|t|..][1..] == [];
    r
  }

  /** `flush`: a single end-of-frame marker. */
  function Flush(t: Trace, fd: i32): (r: Trace)
    ensures |r| == |t| + 1 && r[..|t|] == t
    ensures Written(r[|t|..], fd) == [SynReport]
  {
    SendEvent(t, fd, EV_SYN, SYN_REPORT, 0)
  }

  /** Whatever is pending on a descriptor becomes one complete frame after `flush`. */
  lemma FlushClosesFrame(t: Trace, fd: i32)
    ensures var g := Group(Written(t, fd));
      Group(Written(Flush(t, fd), fd)) == Frames(g.complete + [g.pending], [])
  {
    var r := Flush(t, fd);
    assert r == r[..|t|] + r[|t|..];
    WrittenAppend(t, r[|t|..], fd);
    GroupSyn(Written(t, fd));
  }

  /** `destroy_device`: only the destroy request; closing is separate. */
  function DestroyDevice(k: Kernel, t: Trace, fd: i32): (r: (i32, Trace))
    ensures r.1 == t + [DevDestroy(fd)] && r.0 == k(t, DevDestroy(fd))
  {
    Issue(k, t, DevDestroy(fd))
  }

  function CloseUinput(k: Kernel, t: Trace, fd: i32): (r: (i32, Trace))
    ensures r.1 == t + [Close(fd)] && r.0 == k(t, Close(fd))
  {
    Issue(k, t, Close(fd))
  }
}
