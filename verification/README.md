# pewinput in Dafny

pewinput creates virtual keyboards and mice on Linux through the kernel's
uinput interface. It has two layers. The first is a small C library
(`libpewinput`) that turns each entry point into `open`, `ioctl`, `write` or
`close` calls on `/dev/uinput`. The second is a Python module that loads the C
library with ctypes and offers the `Event`/`Key` values, the static
`_UInput` wrapper, the `Device` class and the `Mouse` preset.

This project models how a device is created, how events are emitted and how
a device is destroyed, in both layers.

- The kernel is a parameter. `Kernel = (Trace, KernelCall) -> i32` answers
  each call from the history of calls before it.
- Every operation is a pure function from the trace so far to the trace
  after it (plus its result).
- The trace is read back in two ways:
  - which capabilities a descriptor registered: the bits of the set-bit
    requests the kernel accepted (`Kernel.Registered`);
  - which records were written to the descriptor, grouped into frames at
    each `SYN_REPORT` marker (`Kernel.Written`, `Kernel.Group`).

Modules, from the bottom up:

| module | file | what it holds |
|---|---|---|
| `Seqs` | seqs.dfy | two general facts about sequences used by the trace proofs |
| `CTypes` | ctypes.dfy | C integer widths; what ctypes does to a Python `int` passed to a narrower parameter; C strings |
| `Kernel` | kernel.dfy | uinput calls, the trace, the capabilities and frames a trace amounts to |
| `LibPewinput` | libpewinput.dfy | `open_uinput`, `enable_event`, `create_device`, `send_event`, `flush`, `destroy_device`, `close_uinput` |
| `Decimal` | decimal.dfy | `f'{n}'` for the counter suffix, and its inverse |
| `Marshal` | marshal.dfy | how a Python `str` reaches `const char*`: as written (wide string) and as intended (UTF-8) |
| `UInput` | uinput.dfy | `Event`, `Key`, `_UInput` with its error handling |
| `Devices` | device.dfy | `Device`: naming and counter, emission, `click_combination`, `destroy` |
| `Mouse` | mouse.dfy | `Mouse`: capability list, default name, movements |

Three behaviours of the code worth knowing, each modelled as written:

- A failed `destroy` raises, does not close the descriptor and keeps `fd`,
  so a second `destroy` tries again.
- `enable_event` enables the type bit once per event, not once per distinct
  type. For key events it also enables `EV_REP`. The answers to these
  type-bit requests are never looked at.
- Emission has no check that the device is live, and errors from `write`
  are dropped. Emission failures therefore never reach the caller.

## Model

| member | source | states |
|---|---|---|
| CTypes.ToU16Residue | src/pewinput.c:57 | a Python int arriving in a `uint16_t` parameter keeps its value modulo 2^16 |
| CTypes.ToI32Residue | src/pewinput.c:57 | a Python int arriving in an `int32_t` parameter keeps its value modulo 2^32, unchanged when in range |
| CTypes.CString | src/pewinput.c:49 | `strcpy` takes the bytes before the first NUL: no NUL among them, a prefix of the source memory, followed there by a NUL |
| LibPewinput.OpenUinput | src/pewinput.c:5-8 | one open call, whose answer is the descriptor |
| LibPewinput.CodeRequest | src/pewinput.c:12-38 | each handled event type selects a code-bit request that the kernel reads back as that same type |
| LibPewinput.CodeRequestInjective | src/pewinput.c:12-38 | different handled types select different code-bit requests |
| LibPewinput.EnableEvent | src/pewinput.c:10-41 | `enable_event` returns the kernel's answer to the code-bit request, which is its last call; the type-bit answers are dropped |
| LibPewinput.EnableCallsOrder | src/pewinput.c:12-40 | for keys, auto-repeat comes first; then the type bit; the code bit comes last; three calls exactly for keys, two otherwise |
| LibPewinput.EnableEventRegisters | src/pewinput.c:10-41 | one `enable_event` registers its code bit exactly when it returns 0, its type bit (and `EV_REP` for keys) exactly when the kernel accepted those requests, whose answers it drops, and nothing else |
| LibPewinput.EnableEventIgnoresTypeBits | src/pewinput.c:39-40 | two kernels that answer the code-bit request alike give the same result, whatever they answer to the type bits |
| LibPewinput.Setup | src/pewinput.c:44-49 | the setup block carries `BUS_USB`, vendor 0, product 0, and the name read up to its NUL |
| LibPewinput.CreateDevice | src/pewinput.c:43-55 | setup, then commit; the result is the commit's answer |
| LibPewinput.CreateDeviceIgnoresSetup | src/pewinput.c:51-54 | the setup's answer never changes the result |
| LibPewinput.SendEvent | src/pewinput.c:57-66 | one call, which writes exactly one record to the descriptor, with a zero timestamp and the given type, code and value |
| LibPewinput.Flush | src/pewinput.c:68-70 | one call, which writes exactly one `SYN_REPORT` record to the descriptor |
| LibPewinput.FlushClosesFrame | src/pewinput.c:68-70 | after `flush`, whatever was pending on the descriptor forms one complete frame and nothing is pending |
| LibPewinput.DestroyDevice | src/pewinput.c:72-74 | only the destroy request is issued (no close), and its answer is returned |
| LibPewinput.CloseUinput | src/pewinput.c:76-78 | only a close is issued, and its answer is returned |
| Kernel.WrittenWrites | src/pewinput.c:65 | a run of writes on one descriptor puts exactly those records, in order, into the stream written to it |
| Kernel.GroupPreserves | src/pewinput.py:109-114 | grouping into frames loses and reorders nothing: one complete frame per marker, and no marker left pending |
| Kernel.GroupAppend | src/pewinput.py:109-114 | records written once nothing is pending form frames of their own |
| Decimal.ValueShow | src/pewinput.py:82 | reading the rendered counter back gives the counter |
| Decimal.ShowInjective | src/pewinput.py:82 | different counters render differently |
| Marshal.WideArgTruncates | src/pewinput.py:49 | a non-empty `str` passed as a wide string reaches `strcpy` as the bytes of its first code point up to the first zero byte: at most three bytes, and just the character's own code below U+0100 |
| Marshal.WideArgWideChar | src/pewinput.py:49 | U+4E2D reaches `strcpy` as the two bytes 0x2D, 0x4E |
| Devices.WideNamesCollide | src/pewinput.py:49 | as written, every default device name, whatever its counter, reaches the kernel as "p" |
| Marshal.Utf8ArgRoundTrip | src/pewinput.py:49 | with UTF-8 passing, the kernel reads back the full UTF-8 text of any name without NUL |
| UInput.EnableAll | src/pewinput.py:46-48 | the events tried are a prefix of the list, all of it unless the loop stopped early, and the calls made are theirs in order |
| UInput.EnableAllAccepted | src/pewinput.py:46-48 | the loop completes exactly when the kernel accepted every code-bit request it made |
| UInput.EnableAllRefusedLast | src/pewinput.py:46-48 | a loop that stops early ends with a checked request the kernel refused |
| UInput.EnableAllAcceptedBefore | src/pewinput.py:46-48 | a loop that stops early had every enable before the last one accepted, so it stops at the first refusal |
| UInput.CreateDevice | src/pewinput.py:43-54 | opening comes first; success returns the opened descriptor; failure raises an error naming the device |
| UInput.CreateDeviceAtomic | src/pewinput.py:43-54 | creation succeeds exactly when every checked call is accepted. On success: open, every enable in list order, setup, commit, and no close. On failure: the descriptor is closed exactly once, as the last call |
| UInput.OpenFailureFails | src/pewinput.py:43-54 | a failed open (descriptor -1) still ends in the creation error when the kernel refuses to commit on -1 |
| UInput.EnableAllRegisters | src/pewinput.py:46-48 | the enables of an event list register nothing it did not ask for; once every checked call is accepted, every code bit; and everything requested when the kernel also accepts type-bit requests |
| UInput.CreateRegisters | src/pewinput.py:46-48 | a created device registered every code bit of its events and nothing it did not ask for; its type bits and `EV_REP` are all there when the kernel accepts type-bit requests |
| UInput.SendEvent | src/pewinput.py:56-58 | one record: type and code narrowed to 16 bits, value wrapped to 32 bits |
| UInput.Flush | src/pewinput.py:60-62 | one `SYN_REPORT` record |
| UInput.DestroyDevice | src/pewinput.py:64-68 | an accepted destroy is followed by a close; a refused one raises, and nothing is closed |
| Devices.New | src/pewinput.py:81-84 | the name is the base (`name or` the default) plus the counter; the counter moves on only on success; the descriptor is the one opened; failure names the full name |
| Devices.NamesDistinct | src/pewinput.py:82 | one base with two different counter values gives two different names |
| Devices.SuccessiveDevicesDistinct | src/pewinput.py:79-84 | two successful creations in a row with the same base get different names, and the counter rises by two |
| Devices.SuppliedNamesCanCollide | src/pewinput.py:82 | a supplied base ending in a digit can still give the same name as another base: "dev1" at 0 and "dev" at 10 |
| Devices.KernelNamesDistinct | src/pewinput.py:82-83 | with UTF-8 passing, the names the kernel receives differ too |
| Devices.SendEvent | src/pewinput.py:86-89 | one record, followed by a marker exactly when `flush` |
| Devices.EmissionKeepsCapabilities | src/pewinput.py:86-89 | emitting records never changes the capabilities registered on any descriptor, so they stay those fixed at creation |
| Devices.SendEventFrames | src/pewinput.py:86-89 | flushed, the record is a frame of its own; unflushed, it stays pending |
| Devices.Flush | src/pewinput.py:109-114 | just the marker |
| Devices.Press | src/pewinput.py:91-92 | a value-1 record of the key, with the flush flag passed on |
| Devices.Release | src/pewinput.py:94-95 | a value-0 record of the key, with the flush flag passed on |
| Devices.Click | src/pewinput.py:97-99 | down, then up, with no marker between them, and a marker after them only when `flush` |
| Devices.ManualClickIsClick | example.py:20-22 | press and release without markers, then `flush`, writes exactly what a flushed `click` writes |
| Devices.ClickFrames | src/pewinput.py:97-99 | a flushed click is one frame holding down then up |
| Devices.PressAll | src/pewinput.py:102-103 | a value-1 record for every key, in list order, with no marker |
| Devices.ReleaseAll | src/pewinput.py:105-106 | a value-0 record for every key, in list order, with no marker |
| Devices.ClickCombination | src/pewinput.py:101-107 | every key down in order, a marker, every key up in order, a marker: 2n+2 writes |
| Devices.ClickCombinationFrames | src/pewinput.py:101-107 | the records written form exactly two frames, all downs then all ups, with nothing pending |
| Devices.ShiftHScenario | example.py:13 | the shift+H chord writes shift and H down, a marker, shift and H up, a marker |
| Devices.Destroy | src/pewinput.py:116-123 | with fd -1, no call and no error. If the kernel accepts, destroy then close, and fd becomes -1. If it refuses, the error is raised and the device is unchanged, without a close |
| Devices.DestroyIdempotent | src/pewinput.py:116-118 | after a successful `destroy`, a second one makes no call and raises nothing; the pair issues at most one destroy and one close |
| Devices.CreateThenDestroyClosesOnce | src/pewinput.py:116-123 | a created device, once destroyed, has had its descriptor closed exactly once, by the destroy, as the last call |
| Mouse.New | src/pewinput.py:134-138 | an empty or missing name becomes "pewinput-virtual-mouse"; the counter suffix and its success-only increment are as for any device |
| Mouse.RequestedMouse | src/pewinput.py:137-138 | the mouse event list asks for key type, auto-repeat, the three buttons, relative type and the four axes; its code bits are the buttons and axes |
| Mouse.NewRegisters | src/pewinput.py:137-138 | a created mouse registered the three buttons and four axes and nothing beyond the mouse capabilities; all of them when the kernel accepts type-bit requests |
| Mouse.NewNames | src/pewinput.py:135-136 | the first unnamed mouse is "pewinput-virtual-mouse0"; an empty name counts as none; a supplied name is the base |
| Mouse.DefaultNamesDisjoint | src/pewinput.py:136 | default mouse names never equal default device names |
| Mouse.MoveRelative | src/pewinput.py:140-142 | x, then y, with a marker only after y, and only when `flush` |
| Mouse.MoveRelativeFrames | src/pewinput.py:140-142 | a flushed relative move is one frame holding both axes, x first |
| Mouse.MoveRelativeScenario | example.py:29 | `move_relative(5, 5)` writes REL_X 5, REL_Y 5 and one marker |
| Mouse.MoveWheel | src/pewinput.py:144-145 | one REL_WHEEL record, with a marker when `flush` |
| Mouse.MoveWheelFrames | src/pewinput.py:144-145 | a flushed wheel turn is a frame of its own |
| Mouse.MoveWheelWraps | src/pewinput.py:144-145 | a turn of 2^31 reaches the kernel wrapped to -2^31 |
| Mouse.MoveHwheel | src/pewinput.py:147-148 | one REL_HWHEEL record, with a marker when `flush` |
| Mouse.MoveHwheelFrames | src/pewinput.py:147-148 | a flushed horizontal wheel turn is a frame of its own |

## Left out

- Real system calls are not modelled. The kernel is a parameter whose answers may depend on the whole call history. Loading the shared library (src/pewinput.py:8) is left out too.
- `sleep(1)` after the commit (src/pewinput.c:53) is left out: time is not modelled.
- The 80-byte name buffer is not modelled. `strcpy` of a longer name overflows it (src/pewinput.c:49), so setup names are unbounded here.
- `enable_event` with a type it has no case for (for example `EV_SYN` or `EV_REP`) is left out. The C code then uses an uninitialised request number, which is undefined behaviour. Every operation that enables events requires all event types to be handled.
- `Device.__del__` is left out because garbage collection is not modelled. When `__init__` raised, `fd` was never set, so `__del__` would fail on the attribute.
- The table of named constants is not modelled; only the constants the core uses are defined.
- pewinput.h, setup.py and example.py are not part of this model. The example's two calls serve only as scenarios.
- Thread safety and the unsynchronised class counter are left out, because the model is single-threaded.
- The error message texts are reduced to what they identify. The `repr` of the device in the destroy error is not modelled.
- CTypes.ToI32Residue: without declared argument types ctypes refuses a Python int outside [-2^63, 2^64) by raising `ctypes.ArgumentError`. The model wraps every int instead.
- CTypes.ToU16Residue: the same refusal applies to the type and code of an event, for every call. Because `ctypes.ArgumentError` is not a `RuntimeError`, in `_UInput.create_device` it escapes the handler (src/pewinput.py:47, :51) and the descriptor is never closed: `Event(2**70 + 1, 30)` leaves it open. The model narrows such an event to a handled type and creates the device with the usual rollback, so it does not model that leak.
- UInput.CreateDevice: the setup name is passed as UTF-8 (`Marshal.Utf8Arg`), the corrected passing from "## Findings". As written, src/pewinput.py:49 passes a `wchar_t*` and the kernel receives only the first character (`Devices.WideNamesCollide`). So the traces of `UInput.CreateDeviceAtomic`, `UInput.CreateRegisters`, `Devices.New` and `Mouse.New` carry the full name where the program as written sends "p".
- Kernel.WrittenWrites: `Kernel.Written` and `Kernel.Group` describe the stream of records written to the descriptor, not what an evdev reader receives. The input core keeps only type, code and value, stamps its own time, and drops some records: codes that were not registered, a key already in the given state, zero relative motion, and a `SYN_REPORT` with nothing before it. Every row that speaks of records or frames means the written stream.
- The descriptor returned by `open` is taken as it comes. A failed open gives -1, and the later calls on -1 fail only as the kernel parameter decides (see `UInput.OpenFailureFails`).

## Findings

| source | as written | input that shows it | evidently intended | confidence | as-written member | corrected member |
|---|---|---|---|---|---|---|
| src/pewinput.py:49 | `pew.create_device(fd, name)` passes a Python `str` with no declared argument types. ctypes hands C a `wchar_t*` (UTF-32LE), and `strcpy` in src/pewinput.c:49 reads it as a narrow string, stopping at the second byte | every default name, such as "pewinput-virtual-dev0" and "pewinput-virtual-dev1", reaches the kernel as "p" | pass `name.encode()`, so the kernel receives the full UTF-8 name and devices keep distinct names | not executed | Devices.WideNamesCollide | Devices.KernelNamesDistinct |
