/** The MIC_U microphone service: module variables (gain, microphone bias, clamp, sampling
    state and parameters) that command handlers read and write through the 32-bit words of
    the IPC command buffer.

    Each handler reads its request words first and only then overwrites word 1 with the
    success code; getters answer in word 2. `Handle` is the specification of one command,
    the `Interface` methods are proved against it, and the lemmas state the set/get round
    trips, what each command leaves alone and the shape of the command table. */
module MicU {
  import opened Results
  import Kernel

  type Word = bv32

  /** The module variables of the service. `offset` is a signed 32-bit value. */
  datatype MicState = MicState(
    gain: bv8,
    micBias: bool,
    isSampling: bool,
    clamp: bool,
    samplingType: Word,
    samplingRate: Word,
    offset: int,
    size: Word,
    loop: bool)

  /** Static storage at start-up: gain 0x28, everything else zero. */
  const InitialState := MicState(0x28, false, false, false, 0, 0, 0, 0, false)

  /** Every entry of the command table that has a handler. */
  datatype Handler =
    | MapMemoryBlock | UnmapMemoryBlock | StartSampling | AdjustSampling | StopSampling
    | IsSampling | GetBufferFullEvent | SetGain | GetGain | SetMicBias | GetMicBias
    | SetClamp | GetClamp

  /** The handlers this model covers: the shared-memory and event-handle ones are not. */
  predicate Modelled(h: Handler) {
    !(h.MapMemoryBlock? || h.UnmapMemoryBlock? || h.GetBufferFullEvent?)
  }

  /** How many request words after the header the handler reads. */
  function WordsRead(h: Handler): nat {
    match h
    case StartSampling => 5
    case AdjustSampling | SetGain | SetMicBias | SetClamp => 1
    case _ => 0
  }

  /** Getters answer in word 2. */
  predicate IsGetter(h: Handler) {
    h.IsSampling? || h.GetGain? || h.GetMicBias? || h.GetClamp?
  }

  /** How long the command buffer must be for the handler: past the last word it reads or
      writes. */
  function WordsUsed(h: Handler): nat {
    if IsGetter(h) then 3 else 1 + (if WordsRead(h) == 0 then 1 else WordsRead(h))
  }

  /** `w & 0xFF`. */
  function LowByte(w: Word): Word {
    w & 0xFF
  }

  /** A 32-bit word read as a signed 32-bit integer. */
  function AsS32(w: Word): int {
    var n := w as int;
    if n < 0x8000_0000 then n else n - 0x1_0000_0000
  }

  /** A bool stored into a word: 1 or 0. */
  function BoolWord(b: bool): Word {
    if b then 1 else 0
  }

  /** One command: the new module variables and the command buffer after the handler ran.
      Request words are taken from the buffer as it came in. */
  function Handle(h: Handler, s: MicState, cmd: seq<Word>): (r: (MicState, seq<Word>))
    requires Modelled(h) && |cmd| >= WordsUsed(h)
    ensures |r.1| == |cmd| && r.1[1] == ResultSuccessRaw
  {
    var ok := cmd[1 := ResultSuccessRaw];
    match h
    case StartSampling =>
      (s.(samplingType := LowByte(cmd[1]), samplingRate := LowByte(cmd[2]),
          offset := AsS32(cmd[3]), size := cmd[4], loop := LowByte(cmd[5]) != 0,
          isSampling := true), ok)
    case AdjustSampling => (s.(samplingRate := LowByte(cmd[1])), ok)
    case StopSampling => (s.(isSampling := false), ok)
    case IsSampling => (s, ok[2 := BoolWord(s.isSampling)])
    case SetGain => (s.(gain := LowByte(cmd[1]) as bv8), ok)
    case GetGain => (s, ok[2 := s.gain as Word])
    case SetMicBias => (s.(micBias := LowByte(cmd[1]) != 0), ok)
    case GetMicBias => (s, ok[2 := BoolWord(s.micBias)])
    case SetClamp => (s.(clamp := LowByte(cmd[1]) != 0), ok)
    case GetClamp => (s, ok[2 := BoolWord(s.clamp)])
  }

  /** Every handler answers success in word 1 and keeps the buffer's length; getters write
      their answer to word 2 and nothing else, the others write word 1 only. */
  lemma HandlerWritesOnlyReplyWords(h: Handler, s: MicState, cmd: seq<Word>)
    requires Modelled(h) && |cmd| >= WordsUsed(h)
    ensures var out := Handle(h, s, cmd).1;
            && |out| == |cmd|
            && out[1] == ResultSuccessRaw
            && forall k :: 0 <= k < |cmd| && k != 1 && (k != 2 || !IsGetter(h)) ==> out[k] == cmd[k]
  {
  }

  /** Getters change no module variable. */
  lemma GettersChangeNothing(h: Handler, s: MicState, cmd: seq<Word>)
    requires Modelled(h) && |cmd| >= WordsUsed(h) && IsGetter(h)
    ensures Handle(h, s, cmd).0 == s
  {
  }

  /** `GetGain` after `SetGain` answers the low byte of the word `SetGain` was given, though
      `SetGain` overwrote that word with its result. */
  lemma GainRoundTrip(s: MicState, setCmd: seq<Word>, getCmd: seq<Word>)
    requires |setCmd| >= 2 && |getCmd| >= 3
    ensures var (s1, out1) := Handle(SetGain, s, setCmd);
            && out1[1] == ResultSuccessRaw
            && Handle(GetGain, s1, getCmd).1[2] == LowByte(setCmd[1])
  {
  }

  /** `GetMicBias` after `SetMicBias` answers 1 exactly when the low byte it was given is
      nonzero, and 0 otherwise. */
  lemma MicBiasRoundTrip(s: MicState, setCmd: seq<Word>, getCmd: seq<Word>)
    requires |setCmd| >= 2 && |getCmd| >= 3
    ensures var s1 := Handle(SetMicBias, s, setCmd).0;
            Handle(GetMicBias, s1, getCmd).1[2] == if LowByte(setCmd[1]) != 0 then 1 else 0
  {
  }

  /** `GetClamp` after `SetClamp` answers 1 exactly when the low byte it was given is
      nonzero, and 0 otherwise. */
  lemma ClampRoundTrip(s: MicState, setCmd: seq<Word>, getCmd: seq<Word>)
    requires |setCmd| >= 2 && |getCmd| >= 3
    ensures var s1 := Handle(SetClamp, s, setCmd).0;
            Handle(GetClamp, s1, getCmd).1[2] == if LowByte(setCmd[1]) != 0 then 1 else 0
  {
  }

  /** `StartSampling` takes type, rate and loop from the low bytes of words 1, 2 and 5 and
      offset and size from words 3 and 4, leaves gain, bias and clamp alone, and `IsSampling`
      then answers 1. */
  lemma StartSamplingCapturesParameters(s: MicState, cmd: seq<Word>, askCmd: seq<Word>)
    requires |cmd| >= 6 && |askCmd| >= 3
    ensures var s1 := Handle(StartSampling, s, cmd).0;
            && s1.samplingType == LowByte(cmd[1]) && s1.samplingRate == LowByte(cmd[2])
            && s1.offset == AsS32(cmd[3]) && s1.size == cmd[4] && s1.loop == (LowByte(cmd[5]) != 0)
            && s1.gain == s.gain && s1.micBias == s.micBias && s1.clamp == s.clamp
            && Handle(IsSampling, s1, askCmd).1[2] == 1
  {
  }

  /** `StopSampling` clears only the sampling flag, and `IsSampling` then answers 0. */
  lemma StopSamplingOnlyStops(s: MicState, cmd: seq<Word>, askCmd: seq<Word>)
    requires |cmd| >= 2 && |askCmd| >= 3
    ensures var s1 := Handle(StopSampling, s, cmd).0;
            && s1 == s.(isSampling := false)
            && Handle(IsSampling, s1, askCmd).1[2] == 0
  {
  }

  /** `AdjustSampling` changes the sampling rate, to the low byte of word 1, and nothing else. */
  lemma AdjustSamplingOnlyRate(s: MicState, cmd: seq<Word>)
    requires |cmd| >= 2
    ensures Handle(AdjustSampling, s, cmd).0 == s.(samplingRate := LowByte(cmd[1]))
  {
  }

  // ---------------------------------------------------------------------------------------
  // Sequences of commands

  /** A command as it arrives: the handler the header selects and the buffer it is given. */
  datatype Request = Request(handler: Handler, cmd: seq<Word>)

  predicate WellFormed(req: Request) {
    Modelled(req.handler) && |req.cmd| >= WordsUsed(req.handler)
  }

  /** The module variables after running `reqs` in order. */
  function Serve(s: MicState, reqs: seq<Request>): MicState
    requires forall i :: 0 <= i < |reqs| ==> WellFormed(reqs[i])
    decreases |reqs|
  {
    if reqs == [] then s
    else
      var last := reqs[|reqs| - 1];
      assert WellFormed(last);
      Handle(last.handler, Serve(s, reqs[..|reqs| - 1]), last.cmd).0
  }

  /** The gain the last `SetGain` of `reqs` stored, or `g` when there is none. */
  function LastGain(g: bv8, reqs: seq<Request>): bv8
    requires forall i :: 0 <= i < |reqs| ==> WellFormed(reqs[i])
    decreases |reqs|
  {
    if reqs == [] then g
    else
      var last := reqs[|reqs| - 1];
      assert WellFormed(last);
      if last.handler.SetGain? then LowByte(last.cmd[1]) as bv8
      else LastGain(g, reqs[..|reqs| - 1])
  }

  /** Whether the last of `StartSampling` and `StopSampling` in `reqs` was a start, or `b`
      when neither occurs. */
  function LastSampling(b: bool, reqs: seq<Request>): bool
    requires forall i :: 0 <= i < |reqs| ==> WellFormed(reqs[i])
    decreases |reqs|
  {
    if reqs == [] then b
    else
      var last := reqs[|reqs| - 1].handler;
      if last.StartSampling? then true
      else if last.StopSampling? then false
      else LastSampling(b, reqs[..|reqs| - 1])
  }

  /** Only `SetGain` changes the gain. */
  lemma HandleGain(h: Handler, s: MicState, cmd: seq<Word>)
    requires Modelled(h) && |cmd| >= WordsUsed(h)
    ensures Handle(h, s, cmd).0.gain == if h.SetGain? then LowByte(cmd[1]) as bv8 else s.gain
  {
  }

  /** Only `StartSampling` and `StopSampling` change the sampling flag. */
  lemma HandleSampling(h: Handler, s: MicState, cmd: seq<Word>)
    requires Modelled(h) && |cmd| >= WordsUsed(h)
    ensures Handle(h, s, cmd).0.isSampling
            == if h.StartSampling? then true else if h.StopSampling? then false else s.isSampling
  {
  }

  /** Whatever commands ran, the gain is the one the last `SetGain` stored: no other command
      touches it. */
  lemma {:induction false} GainIsLastSet(s: MicState, reqs: seq<Request>)
    requires forall i :: 0 <= i < |reqs| ==> WellFormed(reqs[i])
    ensures Serve(s, reqs).gain == LastGain(s.gain, reqs)
    decreases |reqs|
  {
    if reqs != [] {
      var last := reqs[|reqs| - 1];
      assert WellFormed(last);
      GainIsLastSet(s, reqs[..|reqs| - 1]);
      HandleGain(last.handler, Serve(s, reqs[..|reqs| - 1]), last.cmd);
    }
  }

  /** Whatever commands ran, the service is sampling exactly when the last of
      `StartSampling` and `StopSampling` was a start. */
  lemma {:induction false} SamplingIsLastStartOrStop(s: MicState, reqs: seq<Request>)
    requires forall i :: 0 <= i < |reqs| ==> WellFormed(reqs[i])
    ensures Serve(s, reqs).isSampling == LastSampling(s.isSampling, reqs)
    decreases |reqs|
  {
    if reqs != [] {
      var last := reqs[|reqs| - 1];
      assert WellFormed(last);
      SamplingIsLastStartOrStop(s, reqs[..|reqs| - 1]);
      HandleSampling(last.handler, Serve(s, reqs[..|reqs| - 1]), last.cmd);
    }
  }

  // ---------------------------------------------------------------------------------------
  // The command table

  /** An entry of the command table: the command header, its handler if it has one, and
      its name. */
  datatype FunctionInfo = FunctionInfo(id: Word, handler: Option<Handler>, name: string)

  const FunctionTable: seq<FunctionInfo> := [
    FunctionInfo(0x00010042, Some(MapMemoryBlock), "MapMemoryBlock"),
    FunctionInfo(0x00020000, Some(UnmapMemoryBlock), "UnmapMemoryBlock"),
    FunctionInfo(0x00030140, Some(StartSampling), "StartSampling"),
    FunctionInfo(0x00040040, Some(AdjustSampling), "AdjustSampling"),
    FunctionInfo(0x00050000, Some(StopSampling), "StopSampling"),
    FunctionInfo(0x00060000, Some(IsSampling), "IsSampling"),
    FunctionInfo(0x00070000, Some(GetBufferFullEvent), "GetBufferFullEvent"),
    FunctionInfo(0x00080040, Some(SetGain), "SetGain"),
    FunctionInfo(0x00090000, Some(GetGain), "GetGain"),
    FunctionInfo(0x000A0040, Some(SetMicBias), "SetPower"),
    FunctionInfo(0x000B0000, Some(GetMicBias), "GetPower"),
    FunctionInfo(0x000C0042, None, "SetIirFilterMic"),
    FunctionInfo(0x000D0040, Some(SetClamp), "SetClamp"),
    FunctionInfo(0x000E0000, Some(GetClamp), "GetClamp"),
    FunctionInfo(0x00100040, None, "SetClientSDKVersion")
  ]

  /** Bits 6 to 11 of a command header: how many plain request words follow it. */
  function NormalParams(id: Word): nat {
    ((id >> 6) & 0x3F) as nat
  }

  /** The first entry of `table` for header `id`, if any. */
  function Lookup(table: seq<FunctionInfo>, id: Word): (r: Option<FunctionInfo>)
    ensures r.Some? ==> r.value in table && r.value.id == id
    ensures r.None? <==> forall i :: 0 <= i < |table| ==> table[i].id != id
    decreases |table|
  {
    if table == [] then None
    else if table[0].id == id then Some(table[0])
    else Lookup(table[1..], id)
  }

  predicate DistinctIds(table: seq<FunctionInfo>) {
    forall i, j :: 0 <= i < j < |table| ==> table[i].id != table[j].id
  }

  /** With distinct headers, looking up an entry's header finds that entry. */
  lemma {:induction false} LookupFindsEntry(table: seq<FunctionInfo>, i: nat)
    requires DistinctIds(table) && i < |table|
    ensures Lookup(table, table[i].id) == Some(table[i])
    decreases |table|
  {
    if i > 0 {
      assert table[1..][i - 1] == table[i];
      LookupFindsEntry(table[1..], i - 1);
    }
  }

  /** The command headers of the table are pairwise distinct, so each command selects one
      entry. */
  lemma FunctionTableIdsDistinct()
    ensures DistinctIds(FunctionTable)
  {
  }

  /** Exactly the entries 0x000C0042 and 0x00100040 have no handler. */
  lemma UnhandledCommands()
    ensures forall i :: 0 <= i < |FunctionTable| ==>
              (FunctionTable[i].handler.None? <==>
                 FunctionTable[i].id == 0x000C0042 || FunctionTable[i].id == 0x00100040)
  {
  }

  /** A handler's new module variables depend on request words 1 to `WordsRead(h)` only:
      two buffers that agree on those words give the same new state. */
  lemma HandleReadsNoMoreThanDeclared(h: Handler, s: MicState, c1: seq<Word>, c2: seq<Word>)
    requires Modelled(h) && |c1| == |c2| >= WordsUsed(h)
    requires forall k :: 1 <= k <= WordsRead(h) ==> c1[k] == c2[k]
    ensures Handle(h, s, c1).0 == Handle(h, s, c2).0
  {
  }

  /** Every one of request words 1 to `WordsRead(h)` is read: a 0 and a 1 in that word give
      different new states. */
  lemma HandleReadsEveryDeclaredWord(h: Handler, s: MicState, cmd: seq<Word>, k: nat)
    requires Modelled(h) && |cmd| >= WordsUsed(h) && 1 <= k <= WordsRead(h)
    ensures Handle(h, s, cmd[k := 0]).0 != Handle(h, s, cmd[k := 1]).0
  {
  }

  /** Each modelled handler reads exactly the plain request words its command header
      declares: the words its state depends on, by `HandleReadsNoMoreThanDeclared` and
      `HandleReadsEveryDeclaredWord`, number as many as the header's normal parameters. */
  lemma HandlersReadDeclaredWords()
    ensures forall i :: 0 <= i < |FunctionTable| && FunctionTable[i].handler.Some?
                        && Modelled(FunctionTable[i].handler.value) ==>
              WordsRead(FunctionTable[i].handler.value) == NormalParams(FunctionTable[i].id)
  {
  }

  // ---------------------------------------------------------------------------------------
  // The service

  /** The service: its module variables and the event it signals when a buffer is full. */
  class Interface {
    var gain: bv8
    var micBias: bool
    var isSampling: bool
    var clamp: bool
    var samplingType: Word
    var samplingRate: Word
    var offset: int
    var size: Word
    var loop: bool
    var bufferFullEvent: Kernel.Event

    function State(): MicState
      reads this
    {
      MicState(gain, micBias, isSampling, clamp, samplingType, samplingRate, offset, size, loop)
    }

    constructor ()
      ensures State() == InitialState
      ensures fresh(bufferFullEvent)
      ensures bufferFullEvent.State() == Kernel.EventState(false, Kernel.OneShot, 0)
      ensures bufferFullEvent.name == "MIC_U::buffer_full_event"
    {
      gain := 0x28;
      micBias, clamp, loop := false, false, false;
      samplingType, samplingRate, offset, size := 0, 0, 0, 0;
      bufferFullEvent := new Kernel.Event.Create(Kernel.OneShot, "MIC_U::buffer_full_event");
      isSampling := false;
    }

    method GetGain(cmd: array<Word>)
      requires cmd.Length >= WordsUsed(Handler.GetGain)
      modifies cmd
      ensures (State(), cmd[..]) == Handle(Handler.GetGain, old(State()), old(cmd[..]))
    {
      cmd[1] := ResultSuccessRaw;
      cmd[2] := gain as Word;
    }

    method StartSampling(cmd: array<Word>)
      requires cmd.Length >= WordsUsed(Handler.StartSampling)
      modifies this`samplingType, this`samplingRate, this`offset, this`size, this`loop,
               this`isSampling, cmd
      ensures (State(), cmd[..]) == Handle(Handler.StartSampling, old(State()), old(cmd[..]))
    {
      samplingType := cmd[1] & 0xFF;
      samplingRate := cmd[2] & 0xFF;
      offset := AsS32(cmd[3]);
      size := cmd[4];
      loop := cmd[5] & 0xFF != 0;
      cmd[1] := ResultSuccessRaw;
      isSampling := true;
    }

    method StopSampling(cmd: array<Word>)
      requires cmd.Length >= WordsUsed(Handler.StopSampling)
      modifies this`isSampling, cmd
      ensures (State(), cmd[..]) == Handle(Handler.StopSampling, old(State()), old(cmd[..]))
    {
      cmd[1] := ResultSuccessRaw;
      isSampling := false;
    }

    method SetGain(cmd: array<Word>)
      requires cmd.Length >= WordsUsed(Handler.SetGain)
      modifies this`gain, cmd
      ensures (State(), cmd[..]) == Handle(Handler.SetGain, old(State()), old(cmd[..]))
    {
      gain := (cmd[1] & 0xFF) as bv8;
      cmd[1] := ResultSuccessRaw;
    }

    method GetMicBias(cmd: array<Word>)
      requires cmd.Length >= WordsUsed(Handler.GetMicBias)
      modifies cmd
      ensures (State(), cmd[..]) == Handle(Handler.GetMicBias, old(State()), old(cmd[..]))
    {
      cmd[1] := ResultSuccessRaw;
      cmd[2] := BoolWord(micBias);
    }

    method SetMicBias(cmd: array<Word>)
      requires cmd.Length >= WordsUsed(Handler.SetMicBias)
      modifies this`micBias, cmd
      ensures (State(), cmd[..]) == Handle(Handler.SetMicBias, old(State()), old(cmd[..]))
    {
      micBias := cmd[1] & 0xFF != 0;
      cmd[1] := ResultSuccessRaw;
    }

    method IsSampling(cmd: array<Word>)
      requires cmd.Length >= WordsUsed(Handler.IsSampling)
      modifies cmd
      ensures (State(), cmd[..]) == Handle(Handler.IsSampling, old(State()), old(cmd[..]))
    {
      cmd[1] := ResultSuccessRaw;
      cmd[2] := BoolWord(isSampling);
    }

    method AdjustSampling(cmd: array<Word>)
      requires cmd.Length >= WordsUsed(Handler.AdjustSampling)
      modifies this`samplingRate, cmd
      ensures (State(), cmd[..]) == Handle(Handler.AdjustSampling, old(State()), old(cmd[..]))
    {
      samplingRate := cmd[1] & 0xFF;
      cmd[1] := ResultSuccessRaw;
    }

    method SetClamp(cmd: array<Word>)
      requires cmd.Length >= WordsUsed(Handler.SetClamp)
      modifies this`clamp, cmd
      ensures (State(), cmd[..]) == Handle(Handler.SetClamp, old(State()), old(cmd[..]))
    {
      clamp := cmd[1] & 0xFF != 0;
      cmd[1] := ResultSuccessRaw;
    }

    method GetClamp(cmd: array<Word>)
      requires cmd.Length >= WordsUsed(Handler.GetClamp)
      modifies cmd
      ensures (State(), cmd[..]) == Handle(Handler.GetClamp, old(State()), old(cmd[..]))
    {
      cmd[1] := ResultSuccessRaw;
      cmd[2] := BoolWord(clamp);
    }
  }
}
