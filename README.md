# Guest kernel events, the IVFC archive and the MIC_U service, in Dafny

This project models three pieces of a 3DS emulator's operating-system layer and proves
their guarantees.

- **Kernel events** (`kernel_event.dfy`, module `Kernel`). An `Event` is a `signaled` flag
  plus a reset type (OneShot, Sticky or Pulse). `ShouldWait()` is `!signaled`. `Acquire`
  asserts that the event is signalled and, unless it is Sticky, consumes the signal.
  `Signal(0)` sets the flag and wakes every waiting thread. `Signal(d)` with `d > 0` only
  queues a token for the timing scheduler, and the event changes when that token fires.
  `Clear` resets the flag. The pure specification is `EventState` with `Step` and `Run`,
  and the class methods are proved against it. Lemmas state the reset-type guarantees over
  whole operation traces. The timing scheduler is reduced to `CoreTiming`, a queue of
  `(cycles, event)` tokens that `Fire` drains.
- **The IVFC (RomFS) archive** (`ivfc_archive.dfy`, module `FileSys`). The archive's one
  file is the payload window `[dataOffset, dataOffset + dataSize)` of a backing container,
  which is a byte sequence with a file position. `IVFCFile.Read` rounds the request down to
  the 16-byte block grid and clamps it to the window. It seeks and reads into a scratch
  buffer. When the container is encrypted, it decrypts that buffer in place with AES-CTR
  from block `(aligned offset + 0x1000) / 16`. It then copies out the bytes after `pad`.
  `ReadReturnsPayload` proves that, when the payload window lies inside the container, the
  caller gets exactly the plaintext of the payload from `offset`, `min(length, dataSize -
  offset)` bytes of it (none when `offset` lies past the window), for any alignment. This
  holds for the corrected clamps; the source's own arithmetic is under "## Findings". Every
  mutating archive operation is refused, and every open succeeds.
- **The MIC_U service** (`mic_u.dfy`, module `MicU`). The handlers read and write the
  service's module variables through the words of the IPC command buffer. `Handle`
  specifies one command, and the `Interface` methods, which work on an `array<bv32>`, are
  proved against it. Lemmas state the set/get round trips, what each command leaves
  unchanged, and facts about the command table.

`results.dfy` (module `Results`) holds the result codes and value wrappers the others share.

Notes on what the code does:
- `IVFCFile::Write` returns success with 0 bytes written.
- `Read` rounds only the start of a request down to the block grid, and leaves the end
  where it is. An unaligned read of 10 bytes at offset 5 reads and decrypts 15 bytes
  (`UnalignedEncryptedRead`).
- The refused archive operations return three different codes. `DeleteFile` returns
  (NoData, FS, Canceled, Status) and `CreateFile` returns (NotAuthorized, FS, NotSupported,
  Permanent). The other five return the raw code -1.
- The MIC_U handlers write the result code to command word 1.

## Model

| member | source | states |
|---|---|---|
| `Kernel.Event.Create` | src/core/hle/kernel/event.cpp:30-38 | a new event is not signalled, so threads must wait on it; it has the given reset type and name and has woken no one |
| `Kernel.Event.ShouldWait` | src/core/hle/kernel/event.cpp:40-42 | returns the wait predicate, `!signaled`, and changes nothing |
| `Kernel.Step` | src/core/hle/kernel/event.cpp:44-63 | an `Acquire` fails its assertion exactly when the event should be waited on, and no other operation can fail; no operation changes the reset type or lowers the wakeup count |
| `Kernel.Event.Acquire` | src/core/hle/kernel/event.cpp:44-50 | callable only when the event is signalled (the assertion); afterwards the event is signalled exactly when it is Sticky; nothing else changes |
| `Kernel.Event.Signal` | src/core/hle/kernel/event.cpp:52-59 | with delay 0 the event is signalled and its waiters are woken once, and the queue is unchanged; with a delay the event is unchanged and exactly one token `(usToCycles(delay), this event)` is appended to the queue |
| `Kernel.Event.Clear` | src/core/hle/kernel/event.cpp:61-63 | the flag is reset and nothing else changes; no thread is woken |
| `Kernel.EventCallback` | src/core/hle/kernel/event.cpp:16-22 | a token's event is signalled and its waiters woken once; a null event is ignored |
| `Kernel.CoreTiming.ScheduleEvent` | src/core/hle/kernel/event.cpp:57 | the token is appended to the pending queue, which otherwise stays as it was |
| `Kernel.CoreTiming.Fire` | src/core/hle/kernel/event.cpp:16-22 | a pending token leaves the queue, so it is consumed exactly once, and its callback takes effect on its event; the event keeps its name |
| `Kernel.StickyStaysSignaledUntilClear` | src/core/hle/kernel/event.cpp:44-63 | a signalled Sticky event stays signalled through any trace without `Clear`, however many acquisitions it contains, and no acquisition in it fails |
| `Kernel.NonStickyAcquireConsumesSignal` | src/core/hle/kernel/event.cpp:44-55 | on a OneShot or Pulse event, acquisitions plus a signal left pending never outnumber delivered signals plus one pending at the start, so each signal admits at most one acquisition |
| `Kernel.WakeupsCountDeliveries` | src/core/hle/kernel/event.cpp:16-63 | the waiters are woken once per immediate signal or fired token and at no other time |
| `Kernel.DeferredSignalTakesEffectOnFire` | src/core/hle/kernel/event.cpp:16-59 | a delayed signal leaves the event as it was, and firing its token has the effect of `Signal(0)`, after which no thread waits |
| `Kernel.NonStickySignalAdmitsOneAcquire` | src/core/hle/kernel/event.cpp:44-55 | after one signal a OneShot or Pulse event admits one acquisition, after which threads wait again; a second acquisition fails the assertion |
| `Kernel.ClearForcesWait` | src/core/hle/kernel/event.cpp:61-63 | after `Clear` every event is one that threads must wait on |
| `FileSys.Pad` | src/core/file_sys/ivfc_archive.cpp:97 | the offset inside the 16-byte block lies in [0, 15] |
| `FileSys.AlignedOffset` | src/core/file_sys/ivfc_archive.cpp:98 | the read offset is a multiple of 16, at most the offset and within 16 of it, and adding `pad` gives the offset back |
| `FileSys.ReadLength` | src/core/file_sys/ivfc_archive.cpp:99 | at most `length + pad` bytes are read, the raw read never passes the end of the payload window, and nothing is read when the aligned offset lies past it |
| `FileSys.ReadLengthAgreesInsideWindow` | src/core/file_sys/ivfc_archive.cpp:99 | for 64-bit inputs, inside the window the clamped length equals the source's unsigned expression, and past it the model reads nothing |
| `FileSys.ReadLengthAsWritten` | src/core/file_sys/ivfc_archive.cpp:99 | the clamp as written, in unsigned 64-bit arithmetic: never more than the wrapped `length + pad`, and inside the window never past its end |
| `FileSys.ReadLengthAsWrittenLeavesWindow` | src/core/file_sys/ivfc_archive.cpp:99 | with data_size 16, offset 32 and length 16, the source's expression reads 16 bytes from beyond the payload window |
| `FileSys.Count` | src/core/file_sys/ivfc_archive.cpp:116-117 | the count returned is `readed - pad` when the read reached `pad`, and 0 otherwise |
| `FileSys.CountAgreesUnlessShort` | src/core/file_sys/ivfc_archive.cpp:116-117 | the clamped count equals the source's unsigned `readed - pad` if and only if at least `pad` bytes were read |
| `FileSys.CountAsWritten` | src/core/file_sys/ivfc_archive.cpp:116-117 | the count as written, in unsigned 64-bit arithmetic: `readed - pad` when the read reached `pad`, and `2^64 + readed - pad` when it fell short |
| `FileSys.CountAsWrittenUnderflows` | src/core/file_sys/ivfc_archive.cpp:116-117 | with data_size 3, offset 5 and length 0, three bytes are read and the source's count wraps to 2^64 - 2 |
| `FileSys.CtrCrypt` | src/core/file_sys/ivfc_archive.cpp:106-114 | counter-mode decryption preserves the length of the data |
| `FileSys.CtrCryptInvolution` | src/core/file_sys/ivfc_archive.cpp:106-114 | decrypting from the same counter block twice gives the data back |
| `FileSys.CtrCryptInPlace` | src/core/file_sys/ivfc_archive.cpp:113 | exactly the first `readed` scratch bytes are replaced by their decryption, and the rest stay as they were |
| `FileSys.RawRead` | src/core/file_sys/ivfc_archive.cpp:104 | a raw read returns at most the requested count of consecutive container bytes from the position, and all of them when the container is long enough |
| `FileSys.Plaintext` | src/core/file_sys/ivfc_archive.cpp:100-114 | the scratch buffer after the read and decryption is never longer than the clamped read length, and for an encrypted container, encrypting it again from counter block `(read_offset + 0x1000) / 16` gives the raw bytes back |
| `FileSys.CounterBlockIsAligned` | src/core/file_sys/ivfc_archive.cpp:112 | the starting counter block times 16 is exactly the aligned offset plus the 0x1000 header |
| `FileSys.ReadResult` | src/core/file_sys/ivfc_archive.cpp:89-118 | a read never returns more than the requested length |
| `FileSys.ReadReturnsPayload` | src/core/file_sys/ivfc_archive.cpp:89-118 | when the payload window lies inside the container, for any alignment, a read with the corrected clamps (see "## Findings" for the source's) returns `min(length, dataSize - offset)` bytes (none when `offset` lies past the window), each the plaintext of the payload byte at `offset + i`, decrypted with keystream byte `0x1000 + offset + i` |
| `FileSys.UnencryptedReadIsSlice` | src/core/file_sys/ivfc_archive.cpp:97-117 | an unencrypted read inside the payload returns the container slice at `dataOffset + offset` of length `min(length, dataSize - offset)` |
| `FileSys.ReadAtEndOfPayload` | src/core/file_sys/ivfc_archive.cpp:97-104 | reading 20 bytes at offset 95 of a 100-byte payload reads raw bytes [80, 100) and returns 5 bytes |
| `FileSys.UnalignedEncryptedRead` | src/core/file_sys/ivfc_archive.cpp:97-117 | reading 10 bytes at offset 5 reads 15 bytes from offset 0, decrypts from counter block 0x100 and returns plaintext bytes [5, 15) |
| `FileSys.CopyOut` | src/core/file_sys/ivfc_archive.cpp:116 | the caller's buffer starts with `count` scratch bytes taken from `pad` on; the rest is untouched |
| `FileSys.RomFS.Seek` | src/core/file_sys/ivfc_archive.cpp:100 | the container is positioned at the given offset |
| `FileSys.RomFS.ReadBytes` | src/core/file_sys/ivfc_archive.cpp:104 | at most `n` bytes are read from the position into the buffer, and the position advances by the count read |
| `FileSys.IVFCFile.ReadBlocks` | src/core/file_sys/ivfc_archive.cpp:100-114 | the container is left after the raw bytes read at `dataOffset + read_offset`, and the fresh scratch buffer holds their plaintext |
| `FileSys.IVFCFile.Read` | src/core/file_sys/ivfc_archive.cpp:89-118 | without a container the result carries no value and nothing is touched; otherwise the caller's buffer starts with `ReadResult`, its length is returned, the rest of the buffer is untouched, and the container is left after the raw read |
| `FileSys.IVFCFile.Write` | src/core/file_sys/ivfc_archive.cpp:121-126 | a write reports success with 0 bytes written |
| `FileSys.IVFCFile.GetSize` | src/core/file_sys/ivfc_archive.cpp:128-130 | the size is the payload size |
| `FileSys.IVFCFile.SetSize` | src/core/file_sys/ivfc_archive.cpp:132-135 | resizing is always refused, and the size, a constant, cannot change |
| `FileSys.IVFCArchive.OpenFile` | src/core/file_sys/ivfc_archive.cpp:21-25 | for any path and mode, opening succeeds with a new file over the archive's container and payload window |
| `FileSys.IVFCArchive.OpenDirectory` | src/core/file_sys/ivfc_archive.cpp:78-80 | for any path, opening a directory succeeds with a new directory object |
| `FileSys.IVFCArchive.DeleteFile` | src/core/file_sys/ivfc_archive.cpp:27-33 | never succeeds: (NoData, FS, Canceled, Status) |
| `FileSys.IVFCArchive.RenameFile` | src/core/file_sys/ivfc_archive.cpp:35-40 | never succeeds: raw code -1 |
| `FileSys.IVFCArchive.DeleteDirectory` | src/core/file_sys/ivfc_archive.cpp:42-47 | never succeeds: raw code -1 |
| `FileSys.IVFCArchive.DeleteDirectoryRecursively` | src/core/file_sys/ivfc_archive.cpp:49-54 | never succeeds: raw code -1 |
| `FileSys.IVFCArchive.CreateFile` | src/core/file_sys/ivfc_archive.cpp:56-62 | never succeeds: (NotAuthorized, FS, NotSupported, Permanent) |
| `FileSys.IVFCArchive.CreateDirectory` | src/core/file_sys/ivfc_archive.cpp:64-69 | never succeeds: raw code -1 |
| `FileSys.IVFCArchive.RenameDirectory` | src/core/file_sys/ivfc_archive.cpp:71-76 | never succeeds: raw code -1 |
| `FileSys.IVFCArchive.GetFreeBytes` | src/core/file_sys/ivfc_archive.cpp:82-85 | the archive reports no free space |
| `MicU.Interface.constructor` | src/core/hle/service/mic_u.cpp:154-160 | the service starts with gain 0x28, not sampling, every other variable zero, and a fresh unsignalled OneShot buffer-full event |
| `MicU.Handle` | src/core/hle/service/mic_u.cpp:49-131 | every modelled handler keeps the command buffer's length and leaves the success code in word 1 |
| `MicU.Interface.GetGain` | src/core/hle/service/mic_u.cpp:49-54 | matches `Handle`: success in word 1, the gain in word 2, no variable changed |
| `MicU.Interface.StartSampling` | src/core/hle/service/mic_u.cpp:56-68 | matches `Handle`: the parameters are taken from the request words before word 1 is overwritten with success, and sampling starts |
| `MicU.Interface.StopSampling` | src/core/hle/service/mic_u.cpp:70-75 | matches `Handle`: success in word 1, sampling stops |
| `MicU.Interface.SetGain` | src/core/hle/service/mic_u.cpp:77-82 | matches `Handle`: the gain is the low byte of word 1, read before word 1 becomes success |
| `MicU.Interface.GetMicBias` | src/core/hle/service/mic_u.cpp:84-89 | matches `Handle`: success in word 1, the bias as 1 or 0 in word 2 |
| `MicU.Interface.SetMicBias` | src/core/hle/service/mic_u.cpp:91-96 | matches `Handle`: the bias is whether the low byte of word 1 is nonzero, read before word 1 becomes success |
| `MicU.Interface.IsSampling` | src/core/hle/service/mic_u.cpp:105-110 | matches `Handle`: success in word 1, the sampling flag as 1 or 0 in word 2 |
| `MicU.Interface.AdjustSampling` | src/core/hle/service/mic_u.cpp:112-117 | matches `Handle`: the sampling rate is the low byte of word 1, read before word 1 becomes success |
| `MicU.Interface.SetClamp` | src/core/hle/service/mic_u.cpp:119-124 | matches `Handle`: the clamp is whether the low byte of word 1 is nonzero, read before word 1 becomes success |
| `MicU.Interface.GetClamp` | src/core/hle/service/mic_u.cpp:126-131 | matches `Handle`: success in word 1, the clamp as 1 or 0 in word 2 |
| `MicU.HandlerWritesOnlyReplyWords` | src/core/hle/service/mic_u.cpp:49-131 | every handler writes success to word 1; getters write word 2 as well; no other word changes |
| `MicU.GettersChangeNothing` | src/core/hle/service/mic_u.cpp:49-131 | `GetGain`, `GetMicBias`, `GetClamp` and `IsSampling` leave every module variable unchanged |
| `MicU.GainRoundTrip` | src/core/hle/service/mic_u.cpp:49-82 | `GetGain` after `SetGain` answers the low byte of `SetGain`'s word 1, though that word was overwritten with success |
| `MicU.MicBiasRoundTrip` | src/core/hle/service/mic_u.cpp:84-96 | `GetMicBias` after `SetMicBias` answers 1 if the low byte given was nonzero and 0 otherwise |
| `MicU.ClampRoundTrip` | src/core/hle/service/mic_u.cpp:119-131 | `GetClamp` after `SetClamp` answers 1 if the low byte given was nonzero and 0 otherwise |
| `MicU.StartSamplingCapturesParameters` | src/core/hle/service/mic_u.cpp:56-110 | `StartSampling` takes type, rate and loop from the low bytes of words 1, 2 and 5 and offset and size from words 3 and 4; it keeps gain, bias and clamp; `IsSampling` then answers 1 |
| `MicU.StopSamplingOnlyStops` | src/core/hle/service/mic_u.cpp:70-110 | `StopSampling` changes only the sampling flag, and `IsSampling` then answers 0 |
| `MicU.AdjustSamplingOnlyRate` | src/core/hle/service/mic_u.cpp:112-117 | `AdjustSampling` sets the sampling rate to the low byte of word 1 and changes nothing else |
| `MicU.HandleGain` | src/core/hle/service/mic_u.cpp:49-131 | only `SetGain` changes the gain |
| `MicU.HandleSampling` | src/core/hle/service/mic_u.cpp:56-110 | only `StartSampling` and `StopSampling` change the sampling flag |
| `MicU.GainIsLastSet` | src/core/hle/service/mic_u.cpp:77-82 | after any sequence of commands, the gain is the one stored by the last `SetGain`, or the initial gain if none ran |
| `MicU.SamplingIsLastStartOrStop` | src/core/hle/service/mic_u.cpp:56-75 | after any sequence of commands, the service is sampling exactly when the last of `StartSampling` and `StopSampling` was a start |
| `MicU.Lookup` | src/core/hle/service/mic_u.cpp:133-149 | a lookup finds an entry with the requested header, and finds none exactly when no entry has that header |
| `MicU.LookupFindsEntry` | src/core/hle/service/mic_u.cpp:133-149 | in a table with distinct headers, looking up an entry's header finds that entry |
| `MicU.FunctionTableIdsDistinct` | src/core/hle/service/mic_u.cpp:133-149 | the command headers of the table are pairwise distinct |
| `MicU.UnhandledCommands` | src/core/hle/service/mic_u.cpp:133-149 | exactly the entries 0x000C0042 and 0x00100040 have no handler |
| `MicU.HandleReadsNoMoreThanDeclared` | src/core/hle/service/mic_u.cpp:49-131 | a handler's new module variables depend only on request words 1 to `WordsRead(h)`: buffers that agree on those words give the same state |
| `MicU.HandleReadsEveryDeclaredWord` | src/core/hle/service/mic_u.cpp:49-131 | each of request words 1 to `WordsRead(h)` is read: a 0 and a 1 in that word give different states |
| `MicU.HandlersReadDeclaredWords` | src/core/hle/service/mic_u.cpp:133-149 | the count `WordsRead(h)` of request words each modelled handler depends on (exactly those words, by the two lemmas above) equals its header's normal-parameter field (bits 6 to 11) |

## Findings

| source | as written | input that shows it | evidently intended | confidence | as-written member | corrected member |
|---|---|---|---|---|---|---|
| src/core/file_sys/ivfc_archive.cpp:99 | `data_size - read_offset` is unsigned, so it wraps when the aligned offset lies past the payload, and the clamp then lets `length + pad` bytes through | data_size = 16, offset = 32, length = 16: 16 bytes are read from beyond the payload window | nothing is left to read, so the read length is 0 | not executed | `FileSys.ReadLengthAsWrittenLeavesWindow` | `FileSys.ReadLength` |
| src/core/file_sys/ivfc_archive.cpp:116-117 | `readed - pad` is unsigned, so it wraps when fewer than `pad` bytes were read; the memcpy and the returned count are then about 2^64 | data_size = 3, offset = 5, length = 0: 3 bytes are read, pad is 5, and the count is 2^64 - 2 | the count is clamped to 0 and nothing is copied | not executed | `FileSys.CountAsWrittenUnderflows` | `FileSys.Count` |

`IVFCFile.Read` uses the corrected `ReadLength` and `Count`. `ReadReturnsPayload` is the
intended property proved about them: a read never leaves the payload and never returns
more than was asked.

## Left out

- AES itself and the counter arithmetic of the `ctr` library are not modelled. Its source is
  not part of this model. `Keystream` is an opaque parameter: byte `k` of the keystream for a
  counter seed, under the all-zero key that `Read` passes. Counter-mode decryption is
  modelled as combining each byte with the keystream byte at its position (section 6.5 of
  NIST SP 800-38A).
- Timing scheduler internals (`RegisterEvent`, ordering pending events by time, the
  `cycles_late` argument) are not modelled. `CoreTiming.Fire` may fire any pending token,
  so no time order is assumed. `usToCycles` is a constructor parameter of `CoreTiming`.
  Registering the callback type in `Event::Event` is not modelled.
- Kernel.Event.WakeupAllWaitingThreads: waking threads and thread scheduling are defined
  outside these files. The model only counts wakeups in `wakeups`.
- The `u64` pointer round trip in `EventCallback` becomes a typed nullable `Event`
  reference in the token. Reference counting and destroyed events are not modelled,
  because Dafny references never dangle.
- The delay of `Signal` and the offsets and sizes of the archive are unbounded naturals.
  Unsigned 64-bit wrap-around is modelled where it matters, in `ReadLengthAsWritten` and
  `CountAsWritten`.
- FileSys.ReadLength: does not model wrap-around of `length + pad` in `size_t` for a
  length within 15 of 2^64. Wrapping could only make that read shorter.
- The error code inside a default-constructed `ResultVal`, returned by `Read` without a
  container, is defined outside these files. The model has it as `Empty`.
- The numeric encodings of the error descriptions, modules, summaries and levels are kept
  symbolic, because they are defined outside these files.
- `IVFCDirectory` iteration, the structure of `Path` and `Mode`, and the file and archive
  constructors are outside these files. Only the result of the open calls is modelled.
- `IVFCArchive::GetName` (ivfc_archive.cpp:17-19) is not modelled. It returns the constant
  "IVFC" and is used only in log messages.
- The MIC_U handlers `MapMemoryBlock`, `UnmapMemoryBlock` and `GetBufferFullEvent` are not
  modelled. They work through the handle table, shared memory and process mapping, which
  are outside these files.
- Registering the command table, dispatching on the header, the destructor and all logging
  are not modelled. `Lookup` stands for the table's meaning.
- MicU.Interface.constructor: the module variables are static in the source, so
  constructing a second interface keeps the old gain, bias and parameters. The model gives
  each `Interface` its own fields, starting from the start-up values.
- The command buffer is a caller-supplied `array<bv32>`. Each handler requires only the
  words it touches.
