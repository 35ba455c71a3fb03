/**
  The Python side of the library: the `Event` value type and the static
  `_UInput` wrapper that calls the C library and turns its error returns into
  `RuntimeError`s.
 */
module UInput {
  import opened CTypes
  import opened Kernel
  import opened LibPewinput
  import opened Seqs
  import Marshal

  /** An event a device can send: a (type, code) pair of Python ints. */
  datatype Event = Event(etype: int, code: int)

  /** `Key(code)`: an event of type EV_KEY. */
  function Key(code: int): (e: Event)
    ensures e.etype == EV_KEY as int && e.code == code
  {
    Event(EV_KEY as int, code)
  }

  /** The `RuntimeError`s the Python layer raises. */
  datatype Error =
    | CreateFailed(name: string)
    | DestroyFailed(fd: i32)
    | DeviceDestroyFailed

  datatype Option<T> = None | Some(value: T)
  datatype Result<T> = Ok(value: T) | Err(error: Error)
  datatype Outcome = Pass | Fail(error: Error)

  /** An event whose type `enable_event` has a case for, after ctypes narrows it. */
  predicate Supported(e: Event)
  {
    Handled(ToU16(e.etype))
  }

  /** The record `send_event` writes for an event and a value. */
  function Record(e: Event, value: int): (ev: InputEvent)
    ensures ev.sec == 0 && ev.usec == 0
    ensures ev.etype == ToU16(e.etype) && ev.code == ToU16(e.code) && ev.value == ToI32(value)
  {
    InputEvent(0, 0, ToU16(e.etype), ToU16(e.code), ToI32(value))
  }

  /** The calls `enable_event` makes for each event of a list, in list order. */
  function EnableAllCalls(fd: i32, events: seq<Event>): Trace
    requires forall e | e in events :: Supported(e)
  {
    if |events| == 0 then []
    else
      assert events[0] in events && Supported(events[0]);
      EnableCalls(fd, ToU16(events[0].etype), ToU16(events[0].code)) + EnableAllCalls(fd, events[1..])
  }

  lemma {:induction false} EnableAllCallsAppend(fd: i32, a: seq<Event>, b: seq<Event>)
    requires forall e | e in a + b :: Supported(e)
    ensures EnableAllCalls(fd, a + b) == EnableAllCalls(fd, a) + EnableAllCalls(fd, b)
    decreases |a|
  {
    if |a| == 0 {
      assert a + b == b;
    } else {
      assert (a + b)[1..] == a[1..] + b;
      EnableAllCallsAppend(fd, a[1..], b);
    }
  }

  /*** Kernel acceptance ***/

  /** Calls whose answer the library checks: code-bit requests and the commit. */
  predicate Checked(c: KernelCall)
  {
    (c.SetBit? && c.request != SetEvBit) || c.DevCreate?
  }

  /** The kernel answered 0 to every checked call of `s`, issued after `t`. */
  predicate Accepted(k: Kernel, t: Trace, s: Trace)
    decreases |s|
  {
    |s| == 0 || ((Checked(s[0]) ==> k(t, s[0]) == 0) && Accepted(k, t + [s[0]], s[1..]))
  }

  lemma {:induction false} AcceptedAppend(k: Kernel, t: Trace, a: Trace, b: Trace)
    ensures Accepted(k, t, a + b) <==> Accepted(k, t, a) && Accepted(k, t + a, b)
    decreases |a|
  {
    if |a| == 0 {
      assert a + b == b && t + a == t;
    } else {
      assert (a + b)[0] == a[0] && (a + b)[1..] == a[1..] + b;
      AcceptedAppend(k, t + [a[0]], a[1..], b);
      assert t + [a[0]] + a[1..] == t + a;
    }
  }

  /** The calls of one `enable_event` are accepted exactly when it returns 0. */
  lemma EnableAccepted(k: Kernel, t: Trace, fd: i32, etype: u16, code: u16)
    requires Handled(etype)
    ensures Accepted(k, t, EnableCalls(fd, etype, code)) <==> EnableEvent(k, t, fd, etype, code).0 == 0
  {
    var s := EnableCalls(fd, etype, code);
    var n := |s|;
    var last := SetBit(fd, CodeRequest(etype), code);
    assert s == s[..n - 1] + [last];
    AcceptedAppend(k, t, s[..n - 1], [last]);
    assert [last][1..] == [];
    assert t + s[..n - 1] == EnableEvent(k, t, fd, etype, code).1[..|t| + n - 1];
    assert Accepted(k, t, s[..n - 1]) by {
      var p := s[..n - 1];
      assert !Checked(p[0]);
      if n == 3 {
        assert !Checked(p[1]) && p[1..][1..] == [];
      } else {
        assert p[1..] == [];
      }
    }
  }

  /** The result of the enabling loop: whether every enable succeeded, how many
      events were tried, and the trace afterwards. */
  datatype EnableRun = EnableRun(ok: bool, tried: nat, trace: Trace)

  lemma EnableAllCallsStep(fd: i32, events: seq<Event>, n: nat)
    requires forall e | e in events :: Supported(e)
    requires n < |events|
    ensures Supported(events[0])
    ensures EnableAllCalls(fd, events[..n + 1])
      == EnableCalls(fd, ToU16(events[0].etype), ToU16(events[0].code)) + EnableAllCalls(fd, events[1..][..n])
  {
    assert events[0] in events;
    assert events[..n + 1][0] == events[0];
    assert events[..n + 1][1..] == events[1..][..n];
  }

  /** The loop of `_UInput.create_device`: enable events in order and stop at
      the first one the kernel refuses. The events tried are a prefix of the
      list, all of it unless the loop stopped early. */
  function EnableAll(k: Kernel, t: Trace, fd: i32, events: seq<Event>): (r: EnableRun)
    requires forall e | e in events :: Supported(e)
    ensures r.tried <= |events|
    ensures r.ok ==> r.tried == |events|
    ensures !r.ok ==> r.tried >= 1
    ensures r.trace == t + EnableAllCalls(fd, events[..r.tried])
    decreases |events|
  {
    if |events| == 0 then
      EnableRun(true, 0, t)
    else
      var e := events[0];
      assert e in events && Supported(e);
      var step := EnableEvent(k, t, fd, ToU16(e.etype), ToU16(e.code));
      if step.0 != 0 then
        EnableAllCallsStep(fd, events, 0);
        assert events[1..][..0] == [];
        EnableRun(false, 1, step.1)
      else
        var rest := EnableAll(k, step.1, fd, events[1..]);
        var calls := EnableCalls(fd, ToU16(e.etype), ToU16(e.code));
        EnableAllCallsStep(fd, events, rest.tried);
        Regroup(t, calls, EnableAllCalls(fd, events[1..][..rest.tried]), []);
        assert rest.trace == t + EnableAllCalls(fd, events[..rest.tried + 1]);
        EnableRun(rest.ok, rest.tried + 1, rest.trace)
  }

  /** The loop runs to the end exactly when the kernel accepted every
      code-bit request it made. */
  lemma {:induction false} EnableAllAccepted(k: Kernel, t: Trace, fd: i32, events: seq<Event>)
    requires forall e | e in events :: Supported(e)
    ensures var r := EnableAll(k, t, fd, events);
      r.ok <==> Accepted(k, t, EnableAllCalls(fd, events[..r.tried]))
    decreases |events|
  {
    if |events| > 0 {
      var e := events[0];
      assert e in events && Supported(e);
      var calls := EnableCalls(fd, ToU16(e.etype), ToU16(e.code));
      var step := EnableEvent(k, t, fd, ToU16(e.etype), ToU16(e.code));
      EnableAccepted(k, t, fd, ToU16(e.etype), ToU16(e.code));
      if step.0 != 0 {
        EnableAllCallsStep(fd, events, 0);
        assert events[1..][..0] == [];
        assert calls + [] == calls;
        assert EnableAllCalls(fd, events[..1]) == calls;
        var r := EnableAll(k, t, fd, events);
        assert r.tried == 1 && !r.ok;
        assert !Accepted(k, t, EnableAllCalls(fd, events[..r.tried]));
      } else {
        var rest := EnableAll(k, step.1, fd, events[1..]);
        EnableAllAccepted(k, step.1, fd, events[1..]);
        EnableAllCallsStep(fd, events, rest.tried);
        AcceptedAppend(k, t, calls, EnableAllCalls(fd, events[1..][..rest.tried]));
      }
    }
  }

  /** When the loop stops early, it stopped at the first refusal: its last
      call is a code-bit request the kernel refused. */
  lemma {:induction false} EnableAllRefusedLast(k: Kernel, t: Trace, fd: i32, events: seq<Event>)
    requires forall e | e in events :: Supported(e)
    ensures var r := EnableAll(k, t, fd, events);
      !r.ok ==>
        && |r.trace| > |t| && Checked(r.trace[|r.trace| - 1])
        && k(r.trace[..|r.trace| - 1], r.trace[|r.trace| - 1]) != 0
    decreases |events|
  {
    if |events| > 0 {
      var e := events[0];
      assert e in events && Supported(e);
      var step := EnableEvent(k, t, fd, ToU16(e.etype), ToU16(e.code));
      if step.0 != 0 {
        EnableCallsOrder(fd, ToU16(e.etype), ToU16(e.code));
        assert EnableAll(k, t, fd, events).trace == step.1;
      } else {
        EnableAllRefusedLast(k, step.1, fd, events[1..]);
        assert EnableAll(k, t, fd, events).trace == EnableAll(k, step.1, fd, events[1..]).trace;
      }
    }
  }

  /** ... and every event before the last one tried was accepted. */
  lemma {:induction false} EnableAllAcceptedBefore(k: Kernel, t: Trace, fd: i32, events: seq<Event>)
    requires forall e | e in events :: Supported(e)
    ensures var r := EnableAll(k, t, fd, events);
      !r.ok ==> Accepted(k, t, EnableAllCalls(fd, events[..r.tried - 1]))
    decreases |events|
  {
    if |events| > 0 {
      var e := events[0];
      assert e in events && Supported(e);
      var calls := EnableCalls(fd, ToU16(e.etype), ToU16(e.code));
      var step := EnableEvent(k, t, fd, ToU16(e.etype), ToU16(e.code));
      if step.0 != 0 {
        assert events[..0] == [];
      } else {
        var rest := EnableAll(k, step.1, fd, events[1..]);
        if !rest.ok {
          EnableAccepted(k, t, fd, ToU16(e.etype), ToU16(e.code));
          EnableAllAcceptedBefore(k, step.1, fd, events[1..]);
          EnableAllCallsStep(fd, events, rest.tried - 1);
          AcceptedAppend(k, t, calls, EnableAllCalls(fd, events[1..][..rest.tried - 1]));
        }
      }
    }
  }

  /** The calls `_UInput.create_device` makes when the kernel accepts everything. */
  function CreationCalls(fd: i32, name: string, events: seq<Event>): Trace
    requires forall e | e in events :: Supported(e)
  {
    [Open] + EnableAllCalls(fd, events) + [DevSetup(fd, Setup(Marshal.Utf8Arg(name))), DevCreate(fd)]
  }

  lemma {:induction false} EnableAllCallsNoClose(fd: i32, events: seq<Event>)
    requires forall e | e in events :: Supported(e)
    ensures forall i :: 0 <= i < |EnableAllCalls(fd, events)| ==> EnableAllCalls(fd, events)[i].SetBit?
    decreases |events|
  {
    if |events| > 0 {
      assert events[0] in events && Supported(events[0]);
      EnableAllCallsNoClose(fd, events[1..]);
    }
  }

  /** Appending a close adds one close and no checked call. */
  lemma AppendClose(k: Kernel, t: Trace, s: Trace, fd: i32)
    ensures CountCloses(s + [Close(fd)]) == CountCloses(s) + 1
    ensures Accepted(k, t, s + [Close(fd)]) <==> Accepted(k, t, s)
  {
    CountClosesAppend(s, [Close(fd)]);
    AcceptedAppend(k, t, s, [Close(fd)]);
  }

  /** Appending setup and commit adds no close and one checked call, the commit. */
  lemma AppendCommit(k: Kernel, t: Trace, s: Trace, setup: KernelCall, fd: i32)
    requires setup.DevSetup?
    ensures CountCloses(s + [setup, DevCreate(fd)]) == CountCloses(s)
    ensures Accepted(k, t, s + [setup, DevCreate(fd)])
      <==> Accepted(k, t, s) && k((t + s) + [setup], DevCreate(fd)) == 0
  {
    CountClosesAppend(s, [setup, DevCreate(fd)]);
    AcceptedAppend(k, t, s, [setup, DevCreate(fd)]);
    var tail := [setup, DevCreate(fd)];
    assert tail[1..] == [DevCreate(fd)] && [DevCreate(fd)][1..] == [];
    assert Accepted(k, t + s + [setup], [DevCreate(fd)]) <==> k(t + s + [setup], DevCreate(fd)) == 0;
    assert Accepted(k, t + s, tail) <==> Accepted(k, t + s + [setup], [DevCreate(fd)]);
  }

  /** The opening call plus the enables: no close, and accepted exactly when the enables were. */
  lemma OpenedPrefix(k: Kernel, t: Trace, fd: i32, events: seq<Event>)
    requires forall e | e in events :: Supported(e)
    ensures CountCloses([Open] + EnableAllCalls(fd, events)) == 0
    ensures Accepted(k, t, [Open] + EnableAllCalls(fd, events))
      <==> Accepted(k, t + [Open], EnableAllCalls(fd, events))
  {
    EnableAllCallsNoClose(fd, events);
    CountClosesNone([Open] + EnableAllCalls(fd, events));
    AcceptedAppend(k, t, [Open], EnableAllCalls(fd, events));
  }

  /** `_UInput.create_device`: open, enable every event in order, commit; on a
      refused enable or commit, close the descriptor and raise. The name is
      passed as UTF-8 bytes (module Marshal holds the as-written wide-string
      passing). */
  function CreateDevice(k: Kernel, t: Trace, name: string, events: seq<Event>): (r: (Result<i32>, Trace))
    requires forall e | e in events :: Supported(e)
    ensures |r.1| > |t| && r.1[..|t|] == t && r.1[|t|] == Open
    ensures r.0.Ok? ==> r.0.value == k(t, Open)
    ensures r.0.Err? ==> r.0.error == CreateFailed(name)
  {
    var (fd, t1) := OpenUinput(k, t);
    var run := EnableAll(k, t1, fd, events);
    if !run.ok then
      (Err(CreateFailed(name)), CloseUinput(k, run.trace, fd).1)
    else
      var (res, t2) := LibPewinput.CreateDevice(k, run.trace, fd, Marshal.Utf8Arg(name));
      if res != 0 then
        (Err(CreateFailed(name)), CloseUinput(k, t2, fd).1)
      else
        (Ok(fd), t2)
  }

  /** The calls made after `t`, and whether they were accepted, when an enable is refused. */
  lemma CreateRefusedEnable(k: Kernel, t: Trace, name: string, events: seq<Event>)
    requires forall e | e in events :: Supported(e)
    requires !EnableAll(k, t + [Open], k(t, Open), events).ok
    ensures var fd := k(t, Open);
      var run := EnableAll(k, t + [Open], fd, events);
      var s := [Open] + EnableAllCalls(fd, events[..run.tried]) + [Close(fd)];
      && CreateDevice(k, t, name, events) == (Err(CreateFailed(name)), t + s)
      && !Accepted(k, t, s) && CountCloses(s) == 1
  {
    var fd := k(t, Open);
    var run := EnableAll(k, t + [Open], fd, events);
    var prefix := [Open] + EnableAllCalls(fd, events[..run.tried]);
    assert forall e | e in events[..run.tried] :: e in events;
    EnableAllAccepted(k, t + [Open], fd, events);
    OpenedPrefix(k, t, fd, events[..run.tried]);
    AppendClose(k, t, prefix, fd);
    assert CreateDevice(k, t, name, events).1 == run.trace + [Close(fd)];
    Regroup(t, [Open], EnableAllCalls(fd, events[..run.tried]), [Close(fd)]);
  }

  /** The kernel's answer to the commit, when every enable went through. */
  function CommitAnswer(k: Kernel, t: Trace, name: string, events: seq<Event>): i32
    requires forall e | e in events :: Supported(e)
  {
    var fd := k(t, Open);
    k((t + [Open]) + EnableAllCalls(fd, events) + [DevSetup(fd, Setup(Marshal.Utf8Arg(name)))], DevCreate(fd))
  }

  lemma CreateRefusedCommit(k: Kernel, t: Trace, name: string, events: seq<Event>)
    requires forall e | e in events :: Supported(e)
    requires EnableAll(k, t + [Open], k(t, Open), events).ok
    requires CommitAnswer(k, t, name, events) != 0
    ensures var s := CreationCalls(k(t, Open), name, events) + [Close(k(t, Open))];
      && CreateDevice(k, t, name, events) == (Err(CreateFailed(name)), t + s)
      && !Accepted(k, t, s) && CountCloses(s) == 1
  {
    var fd := k(t, Open);
    var enabled := EnableAllCalls(fd, events);
    var setup := DevSetup(fd, Setup(Marshal.Utf8Arg(name)));
    var prefix := [Open] + enabled;
    var committed := prefix + [setup, DevCreate(fd)];
    var run := EnableAll(k, t + [Open], fd, events);
    assert events[..run.tried] == events;
    EnableAllAccepted(k, t + [Open], fd, events);
    OpenedPrefix(k, t, fd, events);
    Regroup(t, [Open], enabled, [setup]);
    AppendCommit(k, t, prefix, setup, fd);
    AppendClose(k, t, committed, fd);
    Regroup(t, [Open], enabled, [setup, DevCreate(fd)]);
    assert CreateDevice(k, t, name, events).1 == (t + committed) + [Close(fd)];
    Regroup(t, committed, [Close(fd)], []);
  }

  lemma CreateAccepted(k: Kernel, t: Trace, name: string, events: seq<Event>)
    requires forall e | e in events :: Supported(e)
    requires EnableAll(k, t + [Open], k(t, Open), events).ok
    requires CommitAnswer(k, t, name, events) == 0
    ensures var s := CreationCalls(k(t, Open), name, events);
      && CreateDevice(k, t, name, events) == (Ok(k(t, Open)), t + s)
      && Accepted(k, t, s) && CountCloses(s) == 0
  {
    var fd := k(t, Open);
    var enabled := EnableAllCalls(fd, events);
    var setup := DevSetup(fd, Setup(Marshal.Utf8Arg(name)));
    var prefix := [Open] + enabled;
    var run := EnableAll(k, t + [Open], fd, events);
    assert events[..run.tried] == events;
    EnableAllAccepted(k, t + [Open], fd, events);
    OpenedPrefix(k, t, fd, events);
    Regroup(t, [Open], enabled, [setup]);
    AppendCommit(k, t, prefix, setup, fd);
    Regroup(t, [Open], enabled, [setup, DevCreate(fd)]);
  }

  /** Creation is all-or-nothing. The device is created exactly when the
      kernel accepted every checked call; then the descriptor `open` returned
      is handed back, every event was enabled in order before the single
      commit, and nothing was closed. Otherwise the descriptor was closed
      exactly once, as the last call, and an error naming the device is raised. */
  lemma CreateDeviceAtomic(k: Kernel, t: Trace, name: string, events: seq<Event>)
    requires forall e | e in events :: Supported(e)
    ensures var r := CreateDevice(k, t, name, events);
      && (r.0.Ok? <==> Accepted(k, t, r.1[|t|..]))
      && (r.0.Ok? ==> r.1 == t + CreationCalls(k(t, Open), name, events) && CountCloses(r.1[|t|..]) == 0)
      && (r.0.Err? ==> r.1[|r.1| - 1] == Close(k(t, Open)) && CountCloses(r.1[|t|..]) == 1)
  {
    var fd := k(t, Open);
    var r := CreateDevice(k, t, name, events);
    if !EnableAll(k, t + [Open], fd, events).ok {
      CreateRefusedEnable(k, t, name, events);
      var run := EnableAll(k, t + [Open], fd, events);
      var s := [Open] + EnableAllCalls(fd, events[..run.tried]) + [Close(fd)];
      assert r.1[|t|..] == s;
    } else if CommitAnswer(k, t, name, events) != 0 {
      CreateRefusedCommit(k, t, name, events);
      var s := CreationCalls(fd, name, events) + [Close(fd)];
      assert r.1[|t|..] == s;
    } else {
      CreateAccepted(k, t, name, events);
      assert r.1[|t|..] == CreationCalls(fd, name, events);
    }
  }

  /** The result of `open` is not checked, yet a failed open still ends in
      an error naming the device: a kernel that refuses to commit on
      descriptor -1 makes creation fail whatever it answers to the enables. */
  lemma OpenFailureFails(k: Kernel, t: Trace, name: string, events: seq<Event>)
    requires forall e | e in events :: Supported(e)
    requires k(t, Open) == -1
    requires forall s: Trace :: k(s, DevCreate(-1)) != 0
    ensures CreateDevice(k, t, name, events).0 == Err(CreateFailed(name))
  {
    if EnableAll(k, t + [Open], -1, events).ok {
      assert CommitAnswer(k, t, name, events) != 0;
      CreateRefusedCommit(k, t, name, events);
    } else {
      CreateRefusedEnable(k, t, name, events);
    }
  }

  /** The code bits of an event list. */
  function CodeBits(events: seq<Event>): set<Capability>
  {
    set e | e in events :: CodeBit(ToU16(e.etype), ToU16(e.code))
  }

  /** The capabilities a device with this event list asks for: each event's
      type and code, and the auto-repeat type when a key is present. */
  function Requested(events: seq<Event>): set<Capability>
  {
    (set e | e in events :: TypeBit(ToU16(e.etype)))
    + CodeBits(events)
    + (if exists e | e in events :: ToU16(e.etype) == EV_KEY then {TypeBit(EV_REP)} else {})
  }

  lemma RequestedCons(events: seq<Event>)
    requires |events| > 0
    ensures var e := events[0];
      && Requested(events) == {TypeBit(ToU16(e.etype)), CodeBit(ToU16(e.etype), ToU16(e.code))}
        + (if ToU16(e.etype) == EV_KEY then {TypeBit(EV_REP)} else {}) + Requested(events[1..])
      && CodeBits(events) == {CodeBit(ToU16(e.etype), ToU16(e.code))} + CodeBits(events[1..])
  {
    var e := events[0];
    assert forall x :: x in events <==> x == e || x in events[1..] by {
      assert events == [e] + events[1..];
    }
  }

  lemma RequestedAppend(a: seq<Event>, b: seq<Event>)
    ensures Requested(a + b) == Requested(a) + Requested(b)
    ensures CodeBits(a + b) == CodeBits(a) + CodeBits(b)
  {
    assert forall x :: x in a + b <==> x in a || x in b;
  }

  /** Whether the kernel accepts every type-bit request, whatever came before. */
  ghost predicate AcceptsTypeBits(k: Kernel)
  {
    forall s: Trace, fd: i32, b: u16 :: k(s, SetBit(fd, SetEvBit, b)) == 0
  }

  /** The enables of an event list register at most the requested
      capabilities. When the kernel accepted every checked call, every code
      bit is among them; the type bits are there too when the kernel accepts
      type-bit requests, whose answers the library never looks at. */
  lemma {:induction false} EnableAllRegisters(k: Kernel, t: Trace, fd: i32, events: seq<Event>)
    requires forall e | e in events :: Supported(e)
    ensures Registered(k, t, EnableAllCalls(fd, events), fd) <= Requested(events)
    ensures Accepted(k, t, EnableAllCalls(fd, events)) ==> CodeBits(events) <= Registered(k, t, EnableAllCalls(fd, events), fd)
    ensures Accepted(k, t, EnableAllCalls(fd, events)) && AcceptsTypeBits(k)
      ==> Registered(k, t, EnableAllCalls(fd, events), fd) == Requested(events)
    decreases |events|
  {
    if |events| > 0 {
      var e := events[0];
      assert e in events && Supported(e);
      var etype, code := ToU16(e.etype), ToU16(e.code);
      var calls := EnableCalls(fd, etype, code);
      var rest := EnableAllCalls(fd, events[1..]);
      RegisteredAppend(k, t, calls, rest, fd);
      AcceptedAppend(k, t, calls, rest);
      EnableEventRegisters(k, t, fd, etype, code);
      EnableAccepted(k, t, fd, etype, code);
      EnableCallsOrder(fd, etype, code);
      EnableAllRegisters(k, t + calls, fd, events[1..]);
      RequestedCons(events);
    }
  }

  /** Of the calls of a successful creation only the enables register
      anything, and accepting all of them includes accepting the enables. */
  lemma CreationCallsRegister(k: Kernel, t: Trace, fd: i32, name: string, events: seq<Event>)
    requires forall e | e in events :: Supported(e)
    ensures Registered(k, t, CreationCalls(fd, name, events), fd)
      == Registered(k, t + [Open], EnableAllCalls(fd, events), fd)
    ensures Accepted(k, t, CreationCalls(fd, name, events)) ==> Accepted(k, t + [Open], EnableAllCalls(fd, events))
  {
    var enabled := EnableAllCalls(fd, events);
    var tail := [DevSetup(fd, Setup(Marshal.Utf8Arg(name))), DevCreate(fd)];
    RegisteredAppend(k, t, [Open] + enabled, tail, fd);
    RegisteredAppend(k, t, [Open], enabled, fd);
    AcceptedAppend(k, t, [Open] + enabled, tail);
    OpenedPrefix(k, t, fd, events);
    var before := t + ([Open] + enabled);
    assert Registered(k, before + [tail[0]], tail[1..], fd) == {} by {
      assert tail[1..][1..] == [];
    }
    assert Registered(k, before, tail, fd) == {};
    assert Registered(k, t, [Open], fd) == {} by {
      assert [Open][1..] == [];
    }
  }

  /** A created device's descriptor carries every code bit of its event list
      and nothing it did not ask for. Its type bits, auto-repeat included,
      are all there when the kernel accepts type-bit requests as well, since
      creation never checks those answers. */
  lemma CreateRegisters(k: Kernel, t: Trace, name: string, events: seq<Event>)
    requires forall e | e in events :: Supported(e)
    ensures var r := CreateDevice(k, t, name, events);
      r.0.Ok? ==> CodeBits(events) <= Registered(k, t, r.1[|t|..], r.0.value) <= Requested(events)
    ensures var r := CreateDevice(k, t, name, events);
      r.0.Ok? && AcceptsTypeBits(k) ==> Registered(k, t, r.1[|t|..], r.0.value) == Requested(events)
  {
    var r := CreateDevice(k, t, name, events);
    CreateDeviceAtomic(k, t, name, events);
    if r.0.Ok? {
      var fd := r.0.value;
      assert r.1[|t|..] == CreationCalls(fd, name, events);
      CreationCallsRegister(k, t, fd, name, events);
      EnableAllRegisters(k, t + [Open], fd, events);
    }
  }

  /** `_UInput.send_event`: the Python ints are narrowed to the C parameter types. */
  function SendEvent(t: Trace, fd: i32, e: Event, value: int): (r: Trace)
    ensures r == t + Writes(fd, [Record(e, value)])
  {
    LibPewinput.SendEvent(t, fd, ToU16(e.etype), ToU16(e.code), ToI32(value))
  }

  function Flush(t: Trace, fd: i32): (r: Trace)
    ensures r == t + Writes(fd, [SynReport])
  {
    LibPewinput.Flush(t, fd)
  }

  /** `_UInput.destroy_device`: a refused destroy raises before anything is closed. */
  function DestroyDevice(k: Kernel, t: Trace, fd: i32): (r: (Outcome, Trace))
    ensures k(t, DevDestroy(fd)) == 0 ==> r == (Pass, t + [DevDestroy(fd), Close(fd)])
    ensures k(t, DevDestroy(fd)) != 0 ==> r == (Fail(DestroyFailed(fd)), t + [DevDestroy(fd)])
  {
    var (res, t1) := LibPewinput.DestroyDevice(k, t, fd);
    assert t1 + [Close(fd)] == t + [DevDestroy(fd), Close(fd)];
    if res != 0 then (Fail(DestroyFailed(fd)), t1) else (Pass, CloseUinput(k, t1, fd).1)
  }
}
