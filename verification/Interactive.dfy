/**
 One interactive terminal session (`interactive.py`) as an interleaved step system: the session
 itself, its three tasks (output, input, and waiting for the process), the process, and a clock.
 Any send may fail and the session may be cancelled wherever it awaits.
 */
module Interactive {
  import opened Common

  datatype Message = StartMessage(pid: int) | Output(data: Bytes) | ErrorMessage | TimeoutMessage | ExitMessage(code: int)

  /** The exception classes the handlers tell apart. */
  datatype Exn = InvalidCommand | Disconnected | CancelledError | OtherError

  datatype OutputResult = Eof | OutputLimit

  datatype OutputTask =
    | NoOutput
    | Reading
    | Sending(kept: Bytes)
    | SendingLimit
    | OutputDone(result: OutputResult)
    | OutputRaised(exn: Exn)
    | OutputCancelled

  datatype InputTask = NoInput | Receiving | Complaining | InputDone | InputRaised(exn: Exn) | InputCancelled

  datatype WaitTask = NoWait | Pending | WaitDone | WaitCancelled

  /** What the client may send while the session runs. */
  datatype ClientMessage = Input | Resize | CancelOrClose | Unsupported | Broken(exn: Exn)

  /** Where the session is. `KillWait`, `Draining` and `CleanWait` wait for the process or a task. */
  datatype Pc =
    | AwaitStart | Spawning | SendingStart | Racing | KillWait | CheckOutput | Draining
    | SendingTimeout | SendingExit(code: int) | SendingError | Cleaning | CleanWait | Finished

  /** `terminal` (the bytes the output task read) and `resizeFailed` are history. */
  datatype State = State(
    pc: Pc,
    now: int,
    deadline: int,
    process: Option<Option<int>>,
    masterOpen: bool,
    slaveOpen: bool,
    resizeFailed: bool,
    output: OutputTask,
    input: InputTask,
    waiter: WaitTask,
    emitted: nat,
    terminal: Bytes,
    trace: seq<Message>,
    timedOut: bool,
    closing: bool,
    limitHit: bool)

  const READ_SIZE := 16 * 1024

  datatype Action =
    | StartFails(exn: Exn)
    | StartAccepted(resize: Option<Exn>)
    | SpawnFails
    | SpawnSucceeds
    | MainSent(pid: int, ttlSeconds: nat)
    | MainSendFails(exn: Exn)
    | RaceOver
    | ProcessWaited
    | LookAtOutput
    | DrainOver(expired: bool)
    | MainCancelled
    | CleanUp
    | OutputRead(chunk: Bytes)
    | OutputEnds
    | OutputSent
    | OutputSendFails(exn: Exn)
    | InputReceived(message: ClientMessage)
    | InputSent
    | InputSendFails(exn: Exn)
    | WaiterRuns
    | LeaderExits(code: int)
    | Tick(time: nat)

  function Begin(now: int): State {
    State(AwaitStart, now, 0, None, false, false, false, NoOutput, NoInput, NoWait, 0, [], [], false, false, false)
  }

  // ----- Steps -----

  predicate OutputActive(t: OutputTask) {
    t.Reading? || t.Sending? || t.SendingLimit?
  }

  predicate InputActive(t: InputTask) {
    t.Receiving? || t.Complaining?
  }

  /** The `finally` block, or after it. */
  predicate Ending(pc: Pc) {
    pc.Cleaning? || pc.CleanWait? || pc.Finished?
  }

  /** The handlers: errors are reported to the client, disconnection and cancellation are re-raised. */
  function Raise(s: State, exn: Exn): State {
    s.(pc := if exn.InvalidCommand? || exn.OtherError? then SendingError else Cleaning)
  }

  function Send(s: State, message: Message): State {
    s.(trace := s.trace + [message])
  }

  predicate Reaped(s: State) {
    s.process.Some? && s.process.value.Some?
  }

  /** The end of the race: results are looked at, input first, and a process that has not been waited
      for is killed. */
  function JudgeRace(s: State): State {
    var finished := s.output.OutputDone? || s.output.OutputRaised? || s.input.InputDone? || s.input.InputRaised? || s.waiter.WaitDone?;
    if s.input.InputRaised? then Raise(s, s.input.exn)
    else if s.output.OutputRaised? then Raise(s, s.output.exn)
    else
      s.(timedOut := !finished, closing := s.input.InputDone?, limitHit := s.output == OutputDone(OutputLimit),
         pc := if s.waiter.WaitDone? then CheckOutput else KillWait)
  }

  /** `process.returncode or 0`, then the override with the highest priority. */
  function ExitCode(s: State): int
    requires Reaped(s)
  {
    if s.timedOut then 124 else if s.closing then 130 else if s.limitHit then 125 else s.process.value.value
  }

  function Conclude(s: State): State
    requires Reaped(s)
  {
    s.(pc := if s.timedOut then SendingTimeout else SendingExit(ExitCode(s)))
  }

  function MainStep(s: State, a: Action): Option<State> {
    match a
    case StartFails(exn) => if s.pc.AwaitStart? then Some(Raise(s, exn)) else None
    case StartAccepted(resize) =>
      if !s.pc.AwaitStart? then None
      else if resize.Some? then Some(Raise(s.(masterOpen := true, slaveOpen := true, resizeFailed := true), resize.value))
      else Some(s.(pc := Spawning, masterOpen := true, slaveOpen := true))
    case SpawnFails => if s.pc.Spawning? then Some(Raise(s.(slaveOpen := false), OtherError)) else None
    case SpawnSucceeds =>
      if s.pc.Spawning? then Some(s.(pc := SendingStart, slaveOpen := false, process := Some(None))) else None
    case MainSent(pid, ttlSeconds) =>
      (match s.pc
       case SendingStart =>
         Some(Send(s.(pc := Racing, deadline := s.now + ttlSeconds, output := Reading, input := Receiving, waiter := Pending),
                   StartMessage(pid)))
       case SendingTimeout => Some(Send(s.(pc := SendingExit(124)), TimeoutMessage))
       case SendingExit(code) => Some(Send(s.(pc := Cleaning), ExitMessage(code)))
       case SendingError => Some(Send(s.(pc := Cleaning), ErrorMessage))
       case _ => None)
    case MainSendFails(exn) =>
      if s.pc.SendingStart? || s.pc.SendingTimeout? || s.pc.SendingExit? then Some(Raise(s, exn))
      else if s.pc.SendingError? then Some(s.(pc := Cleaning))
      else None
    case RaceOver =>
      if s.pc.Racing?
         && (s.output.OutputDone? || s.output.OutputRaised? || s.input.InputDone? || s.input.InputRaised? || s.waiter.WaitDone?
             || s.now >= s.deadline)
      then Some(JudgeRace(s)) else None
    case ProcessWaited =>
      if !Reaped(s) then None
      else if s.pc.KillWait? then Some(s.(pc := CheckOutput))
      else if s.pc.CleanWait? then Some(CloseDown(s))
      else None
    case LookAtOutput =>
      if !s.pc.CheckOutput? || !Reaped(s) then None
      else if OutputActive(s.output) then Some(s.(pc := Draining))
      else Some(Conclude(s))
    case DrainOver(expired) =>
      if !s.pc.Draining? || !Reaped(s) then None
      else if s.output.OutputRaised? then Some(Raise(s, s.output.exn))
      else if !OutputActive(s.output) then Some(Conclude(s))
      else if expired then Some(Conclude(s.(output := OutputCancelled)))
      else None
    case MainCancelled =>
      if Ending(s.pc) then None
      else Some(s.(pc := Cleaning, slaveOpen := s.slaveOpen && s.resizeFailed,
                   output := if s.pc.Draining? && OutputActive(s.output) then OutputCancelled else s.output))
    case CleanUp =>
      if !s.pc.Cleaning? then None
      else if s.process == Some(None) then Some(s.(pc := CleanWait))
      else Some(CloseDown(s))
    case _ => None
  }

  /** The end of the cleanup: unfinished tasks are cancelled and awaited, then the master is closed. */
  function CloseDown(s: State): State {
    s.(pc := Finished,
       output := if OutputActive(s.output) then OutputCancelled else s.output,
       input := if InputActive(s.input) then InputCancelled else s.input,
       waiter := if s.waiter.Pending? then WaitCancelled else s.waiter,
       masterOpen := false)
  }

  function OutputStep(limit: nat, s: State, a: Action): Option<State> {
    match a
    case OutputRead(chunk) =>
      if !s.output.Reading? || !(0 < |chunk| <= READ_SIZE) then None
      else if limit <= s.emitted then Some(s.(terminal := s.terminal + chunk, output := SendingLimit))
      else
        var kept := Clip(chunk, limit - s.emitted);
        Some(s.(terminal := s.terminal + chunk, emitted := s.emitted + |kept|, output := Sending(kept)))
    case OutputEnds => if s.output.Reading? then Some(s.(output := OutputDone(Eof))) else None
    case OutputSent =>
      if s.output.Sending? then Some(Send(s.(output := Reading), Output(s.output.kept)))
      else if s.output.SendingLimit? then Some(Send(s.(output := OutputDone(OutputLimit)), ErrorMessage))
      else None
    case OutputSendFails(exn) =>
      if s.output.Sending? || s.output.SendingLimit? then Some(s.(output := OutputRaised(exn))) else None
    case _ => None
  }

  /** What the input task does with a message; input and resizing keep it receiving. */
  function AfterMessage(message: ClientMessage): InputTask {
    match message
    case Input => Receiving
    case Resize => Receiving
    case CancelOrClose => InputDone
    case Unsupported => Complaining
    case Broken(exn) => InputRaised(exn)
  }

  function InputStep(s: State, a: Action): Option<State> {
    match a
    case InputReceived(message) =>
      if s.input.Receiving? then Some(s.(input := AfterMessage(message))) else None
    case InputSent => if s.input.Complaining? then Some(Send(s.(input := Receiving), ErrorMessage)) else None
    case InputSendFails(exn) => if s.input.Complaining? then Some(s.(input := InputRaised(exn))) else None
    case _ => None
  }

  function OutsideStep(s: State, a: Action): Option<State> {
    match a
    case WaiterRuns => if s.waiter.Pending? && Reaped(s) then Some(s.(waiter := WaitDone)) else None
    case LeaderExits(code) => if s.process == Some(None) then Some(s.(process := Some(Some(code)))) else None
    case Tick(time) => Some(s.(now := s.now + time))
    case _ => None
  }

  predicate OutputAction(a: Action) {
    a.OutputRead? || a.OutputEnds? || a.OutputSent? || a.OutputSendFails?
  }

  predicate InputAction(a: Action) {
    a.InputReceived? || a.InputSent? || a.InputSendFails?
  }

  predicate OutsideAction(a: Action) {
    a.WaiterRuns? || a.LeaderExits? || a.Tick?
  }

  function Step(limit: nat, s: State, a: Action): Option<State> {
    if OutputAction(a) then OutputStep(limit, s, a)
    else if InputAction(a) then InputStep(s, a)
    else if OutsideAction(a) then OutsideStep(s, a)
    else MainStep(s, a)
  }

  function Exec(limit: nat, s: State, actions: seq<Action>): Option<State>
    decreases |actions|
  {
    if actions == [] then Some(s)
    else
      match Exec(limit, s, actions[..|actions| - 1])
      case None => None
      case Some(before) => Step(limit, before, actions[|actions| - 1])
  }

  // ----- The invariant -----

  /** The bytes the client was sent. */
  function SentBytes(trace: seq<Message>): Bytes {
    if trace == [] then []
    else
      var last := trace[|trace| - 1];
      SentBytes(trace[..|trace| - 1]) + if last.Output? then last.data else []
  }

  /** Output accounting, by the state of the output task. */
  predicate OutputFits(limit: nat, output: OutputTask, terminal: Bytes, sent: Bytes, emitted: nat) {
    match output
    case NoOutput => terminal == [] && sent == [] && emitted == 0
    case Reading => sent == Clip(terminal, limit) && emitted == |sent|
    case Sending(kept) => sent + kept == Clip(terminal, limit) && emitted == |sent| + |kept| && kept != []
    case SendingLimit => sent == Clip(terminal, limit) && |terminal| > limit
    case OutputDone(Eof) => sent == Clip(terminal, limit)
    case OutputDone(OutputLimit) => sent == Clip(terminal, limit) && |terminal| > limit
    case OutputRaised(_) => sent <= Clip(terminal, limit)
    case OutputCancelled => sent <= Clip(terminal, limit)
  }

  /** The language of a session, as an automaton over the messages sent. */
  datatype Phase = NotStarted | Refused | Running | Expired | Over(code: int, late: bool) | Illegal

  function Next(phase: Phase, message: Message): Phase {
    match phase
    case NotStarted => if message.StartMessage? then Running else if message.ErrorMessage? then Refused else Illegal
    case Running =>
      (match message
       case StartMessage(_) => Illegal
       case Output(_) => Running
       case ErrorMessage => Running
       case TimeoutMessage => Expired
       case ExitMessage(code) => Over(code, false))
    case Expired =>
      if message.ErrorMessage? then Expired else if message == ExitMessage(124) then Over(124, true) else Illegal
    case Over(_, _) => if message.ErrorMessage? then phase else Illegal
    case _ => Illegal
  }

  function PhaseOf(trace: seq<Message>): Phase {
    if trace == [] then NotStarted else Next(PhaseOf(trace[..|trace| - 1]), trace[|trace| - 1])
  }

  predicate PhaseFits(s: State, phase: Phase) {
    match phase
    case NotStarted => s.output.NoOutput?
    case Refused => s.output.NoOutput? && Ending(s.pc)
    case Running => !s.output.NoOutput? && !(s.pc.SendingExit? && s.timedOut)
    case Expired =>
      !s.output.NoOutput? && !OutputActive(s.output) && s.timedOut && (s.pc.SendingExit? || s.pc.SendingError? || Ending(s.pc))
    case Over(code, late) =>
      !s.output.NoOutput? && !OutputActive(s.output) && Ending(s.pc) && Reaped(s) && code == ExitCode(s) && late == s.timedOut
    case Illegal => false
  }

  predicate TasksFit(s: State) {
    && (s.pc.AwaitStart? || s.pc.Spawning? || s.pc.SendingStart? ==> s.output.NoOutput? && s.input.NoInput? && s.waiter.NoWait?)
    && (s.output.NoOutput? <==> s.input.NoInput?) && (s.output.NoOutput? <==> s.waiter.NoWait?)
    && (s.pc.Racing? || s.pc.KillWait? || s.pc.CheckOutput? || s.pc.Draining? ==> !s.output.NoOutput?)
    && (s.pc.SendingTimeout? || s.pc.SendingExit? ==> !OutputActive(s.output) && !s.output.NoOutput?)
    && (s.pc.Finished? ==> !OutputActive(s.output) && !InputActive(s.input) && !s.waiter.Pending?)
  }

  predicate ResourcesFit(s: State) {
    && (s.pc.AwaitStart? ==> s.process.None? && !s.masterOpen && !s.slaveOpen && !s.resizeFailed)
    && (s.pc.Spawning? ==> s.process.None? && s.slaveOpen && !s.resizeFailed)
    && (!s.pc.AwaitStart? && !s.pc.Spawning? ==> (s.slaveOpen <==> s.resizeFailed))
    && (s.pc.CheckOutput? || s.pc.Draining? || s.pc.SendingTimeout? || s.pc.SendingExit? ==> Reaped(s))
    && (s.pc.SendingStart? || s.pc.Racing? || s.pc.KillWait? || s.pc.CleanWait? || !s.output.NoOutput? ==> s.process.Some?)
    && (s.waiter.WaitDone? ==> Reaped(s))
    && (s.pc.Finished? ==> !s.masterOpen && (s.process.Some? ==> Reaped(s)))
  }

  predicate TimeFits(s: State) {
    && (s.timedOut ==> s.now >= s.deadline)
    && (s.pc.SendingTimeout? ==> s.timedOut)
    && (s.pc.SendingExit? && Reaped(s) ==> s.pc.code == ExitCode(s))
    && (s.limitHit ==> s.output == OutputDone(OutputLimit))
    && (s.closing ==> s.input.InputDone?)
    && (s.pc.AwaitStart? || s.pc.Spawning? || s.pc.SendingStart? || s.pc.Racing? ==> !s.timedOut && !s.closing && !s.limitHit)
  }

  ghost predicate Inv(limit: nat, s: State) {
    && OutputFits(limit, s.output, s.terminal, SentBytes(s.trace), s.emitted)
    && PhaseFits(s, PhaseOf(s.trace)) && TasksFit(s) && ResourcesFit(s) && TimeFits(s)
  }

  // ----- Steps keep the invariant -----

  lemma SentBytesSnoc(trace: seq<Message>, message: Message)
    ensures SentBytes(trace + [message]) == SentBytes(trace) + (if message.Output? then message.data else [])
  {
    assert (trace + [message])[..|trace|] == trace;
  }

  /** Steps that send nothing; the output task may be cancelled on the way. */
  lemma SilentKeepsInv(limit: nat, s: State, s': State)
    requires Inv(limit, s)
    requires s'.trace == s.trace && s'.terminal == s.terminal && s'.emitted == s.emitted
    requires s'.output == s.output || (OutputActive(s.output) && s'.output.OutputCancelled?)
    requires PhaseFits(s', PhaseOf(s.trace)) && TasksFit(s') && ResourcesFit(s') && TimeFits(s')
    ensures Inv(limit, s')
  {
    if s.output.Sending? && s'.output.OutputCancelled? {
      assert SentBytes(s.trace) <= SentBytes(s.trace) + s.output.kept;
    }
  }

  lemma PhaseSnoc(trace: seq<Message>, message: Message)
    ensures PhaseOf(trace + [message]) == Next(PhaseOf(trace), message)
  {
    assert (trace + [message])[..|trace|] == trace;
  }

  /** One message that is not output. */
  lemma SpokenKeepsInv(limit: nat, s: State, s': State, message: Message)
    requires Inv(limit, s) && s'.trace == s.trace + [message] && !message.Output?
    requires OutputFits(limit, s'.output, s'.terminal, SentBytes(s.trace), s'.emitted)
    requires PhaseFits(s', Next(PhaseOf(s.trace), message)) && TasksFit(s') && ResourcesFit(s') && TimeFits(s')
    ensures Inv(limit, s')
  {
    SentBytesSnoc(s.trace, message);
    PhaseSnoc(s.trace, message);
    assert SentBytes(s.trace) + [] == SentBytes(s.trace);
  }

  lemma ReadAccounts(limit: nat, terminal: Bytes, chunk: Bytes, sent: Bytes, emitted: nat)
    requires OutputFits(limit, Reading, terminal, sent, emitted) && chunk != []
    ensures limit <= emitted ==> OutputFits(limit, SendingLimit, terminal + chunk, sent, emitted)
    ensures limit > emitted ==>
              var kept := Clip(chunk, limit - emitted);
              OutputFits(limit, Sending(kept), terminal + chunk, sent, emitted + |kept|)
  {
    if limit > emitted {
      assert sent == terminal;
      assert Clip(terminal + chunk, limit) == terminal + Clip(chunk, limit - emitted);
    }
  }

  lemma OutputReadKeepsInv(limit: nat, s: State, chunk: Bytes)
    requires Inv(limit, s) && OutputStep(limit, s, OutputRead(chunk)).Some?
    ensures Inv(limit, OutputStep(limit, s, OutputRead(chunk)).value)
  {
    ReadAccounts(limit, s.terminal, chunk, SentBytes(s.trace), s.emitted);
  }

  lemma OutputSentKeepsInv(limit: nat, s: State)
    requires Inv(limit, s) && s.output.Sending?
    ensures Inv(limit, Send(s.(output := Reading), Output(s.output.kept)))
  {
    SentBytesSnoc(s.trace, Output(s.output.kept));
    PhaseSnoc(s.trace, Output(s.output.kept));
  }

  lemma LimitSentKeepsInv(limit: nat, s: State)
    requires Inv(limit, s) && s.output.SendingLimit?
    ensures Inv(limit, Send(s.(output := OutputDone(OutputLimit)), ErrorMessage))
  {
    SpokenKeepsInv(limit, s, Send(s.(output := OutputDone(OutputLimit)), ErrorMessage), ErrorMessage);
  }

  lemma OutputFailsKeepsInv(limit: nat, s: State, output: OutputTask)
    requires Inv(limit, s)
    requires (s.output.Reading? && output == OutputDone(Eof)) || ((s.output.Sending? || s.output.SendingLimit?) && output.OutputRaised?)
    ensures Inv(limit, s.(output := output))
  {
    if s.output.Sending? {
      assert SentBytes(s.trace) <= SentBytes(s.trace) + s.output.kept;
    }
  }

  lemma OutputKeepsInv(limit: nat, s: State, a: Action)
    requires Inv(limit, s) && OutputAction(a) && OutputStep(limit, s, a).Some?
    ensures Inv(limit, OutputStep(limit, s, a).value)
  {
    match a {
      case OutputRead(chunk) => OutputReadKeepsInv(limit, s, chunk);
      case OutputEnds => OutputFailsKeepsInv(limit, s, OutputDone(Eof));
      case OutputSent =>
        if s.output.Sending? {
          OutputSentKeepsInv(limit, s);
        } else {
          LimitSentKeepsInv(limit, s);
        }
      case OutputSendFails(exn) => OutputFailsKeepsInv(limit, s, OutputRaised(exn));
    }
  }

  lemma InputChangeKeepsInv(limit: nat, s: State, input: InputTask)
    requires Inv(limit, s) && InputActive(s.input) && !input.NoInput? && !input.InputCancelled?
    ensures Inv(limit, s.(input := input))
  {
  }

  lemma InputSentKeepsInv(limit: nat, s: State)
    requires Inv(limit, s) && s.input.Complaining?
    ensures Inv(limit, Send(s.(input := Receiving), ErrorMessage))
  {
    SpokenKeepsInv(limit, s, Send(s.(input := Receiving), ErrorMessage), ErrorMessage);
  }

  lemma InputKeepsInv(limit: nat, s: State, a: Action)
    requires Inv(limit, s) && InputAction(a) && InputStep(s, a).Some?
    ensures Inv(limit, InputStep(s, a).value)
  {
    match a {
      case InputReceived(message) => InputChangeKeepsInv(limit, s, AfterMessage(message));
      case InputSent => InputSentKeepsInv(limit, s);
      case InputSendFails(exn) => InputChangeKeepsInv(limit, s, InputRaised(exn));
    }
  }

  lemma OutsideKeepsInv(limit: nat, s: State, a: Action)
    requires Inv(limit, s) && OutsideAction(a) && OutsideStep(s, a).Some?
    ensures Inv(limit, OutsideStep(s, a).value)
  {
  }

  lemma RaiseKeepsInv(limit: nat, s: State, s': State, exn: Exn)
    requires Inv(limit, s) && !Ending(s.pc) && !s.pc.AwaitStart? && !s.pc.Spawning? && s' == Raise(s, exn)
    ensures Inv(limit, s')
  {
    SilentKeepsInv(limit, s, s');
  }

  lemma StartFailsKeepsInv(limit: nat, s: State, exn: Exn)
    requires Inv(limit, s) && s.pc.AwaitStart?
    ensures Inv(limit, Raise(s, exn))
    ensures Inv(limit, Raise(s.(masterOpen := true, slaveOpen := true, resizeFailed := true), exn))
    ensures Inv(limit, s.(pc := Spawning, masterOpen := true, slaveOpen := true))
  {
    SilentKeepsInv(limit, s, Raise(s, exn));
    SilentKeepsInv(limit, s, Raise(s.(masterOpen := true, slaveOpen := true, resizeFailed := true), exn));
    SilentKeepsInv(limit, s, s.(pc := Spawning, masterOpen := true, slaveOpen := true));
  }

  lemma SpawnKeepsInv(limit: nat, s: State)
    requires Inv(limit, s) && s.pc.Spawning?
    ensures Inv(limit, Raise(s.(slaveOpen := false), OtherError))
    ensures Inv(limit, s.(pc := SendingStart, slaveOpen := false, process := Some(None)))
  {
    SilentKeepsInv(limit, s, Raise(s.(slaveOpen := false), OtherError));
    SilentKeepsInv(limit, s, s.(pc := SendingStart, slaveOpen := false, process := Some(None)));
  }

  lemma JudgeRaceKeepsInv(limit: nat, s: State)
    requires Inv(limit, s) && MainStep(s, RaceOver).Some?
    ensures Inv(limit, JudgeRace(s))
  {
    SilentKeepsInv(limit, s, JudgeRace(s));
  }

  lemma CloseDownKeepsInv(limit: nat, s: State)
    requires Inv(limit, s) && (s.pc.Cleaning? || s.pc.CleanWait?) && s.process != Some(None)
    ensures Inv(limit, CloseDown(s))
  {
    SilentKeepsInv(limit, s, CloseDown(s));
  }

  lemma MoveKeepsInv(limit: nat, s: State, pc: Pc)
    requires Inv(limit, s) && ((s.pc.KillWait? && Reaped(s) && pc.CheckOutput?) || (s.pc.CheckOutput? && pc.Draining?)
                               || (s.pc.Cleaning? && s.process == Some(None) && pc.CleanWait?))
    ensures Inv(limit, s.(pc := pc))
  {
    SilentKeepsInv(limit, s, s.(pc := pc));
  }

  lemma ConcludeKeepsInv(limit: nat, s: State, output: OutputTask)
    requires Inv(limit, s) && (s.pc.CheckOutput? || s.pc.Draining?) && Reaped(s)
    requires (output == s.output && !OutputActive(output)) || (OutputActive(s.output) && output == OutputCancelled)
    ensures Inv(limit, Conclude(s.(output := output)))
  {
    SilentKeepsInv(limit, s, Conclude(s.(output := output)));
  }

  lemma CancelKeepsInv(limit: nat, s: State)
    requires Inv(limit, s) && !Ending(s.pc)
    ensures Inv(limit, MainStep(s, MainCancelled).value)
  {
    SilentKeepsInv(limit, s, MainStep(s, MainCancelled).value);
  }

  lemma ErrorSendFailsKeepsInv(limit: nat, s: State)
    requires Inv(limit, s) && s.pc.SendingError?
    ensures Inv(limit, s.(pc := Cleaning))
  {
    SilentKeepsInv(limit, s, s.(pc := Cleaning));
  }

  lemma WaitingKeepsInv(limit: nat, s: State, a: Action)
    requires Inv(limit, s) && MainStep(s, a).Some? && (a.ProcessWaited? || a.CleanUp?)
    ensures Inv(limit, MainStep(s, a).value)
  {
    if s.pc.KillWait? {
      MoveKeepsInv(limit, s, CheckOutput);
    } else if a.CleanUp? && s.process == Some(None) {
      MoveKeepsInv(limit, s, CleanWait);
    } else {
      CloseDownKeepsInv(limit, s);
    }
  }

  lemma OutputSeenKeepsInv(limit: nat, s: State, a: Action)
    requires Inv(limit, s) && MainStep(s, a).Some? && (a.LookAtOutput? || a.DrainOver?)
    ensures Inv(limit, MainStep(s, a).value)
  {
    if a.LookAtOutput? && OutputActive(s.output) {
      MoveKeepsInv(limit, s, Draining);
    } else if a.DrainOver? && s.output.OutputRaised? {
      RaiseKeepsInv(limit, s, Raise(s, s.output.exn), s.output.exn);
    } else if OutputActive(s.output) {
      ConcludeKeepsInv(limit, s, OutputCancelled);
    } else {
      ConcludeKeepsInv(limit, s, s.output);
    }
  }

  lemma MainSilentKeepsInv(limit: nat, s: State, a: Action)
    requires Inv(limit, s) && MainStep(s, a).Some? && !a.MainSent?
    ensures Inv(limit, MainStep(s, a).value)
  {
    match a {
      case StartFails(exn) => StartFailsKeepsInv(limit, s, exn);
      case StartAccepted(resize) => StartFailsKeepsInv(limit, s, if resize.Some? then resize.value else OtherError);
      case SpawnFails => SpawnKeepsInv(limit, s);
      case SpawnSucceeds => SpawnKeepsInv(limit, s);
      case MainSendFails(exn) =>
        if s.pc.SendingError? {
          ErrorSendFailsKeepsInv(limit, s);
        } else {
          RaiseKeepsInv(limit, s, Raise(s, exn), exn);
        }
      case RaceOver => JudgeRaceKeepsInv(limit, s);
      case ProcessWaited => WaitingKeepsInv(limit, s, a);
      case CleanUp => WaitingKeepsInv(limit, s, a);
      case LookAtOutput => OutputSeenKeepsInv(limit, s, a);
      case DrainOver(_) => OutputSeenKeepsInv(limit, s, a);
      case MainCancelled => CancelKeepsInv(limit, s);
    }
  }

  lemma StartSentKeepsInv(limit: nat, s: State, pid: int, ttlSeconds: nat)
    requires Inv(limit, s) && s.pc.SendingStart?
    ensures Inv(limit, MainStep(s, MainSent(pid, ttlSeconds)).value)
  {
    SpokenKeepsInv(limit, s, MainStep(s, MainSent(pid, ttlSeconds)).value, StartMessage(pid));
  }

  lemma ExitSentKeepsInv(limit: nat, s: State)
    requires Inv(limit, s) && s.pc.SendingExit?
    ensures Inv(limit, Send(s.(pc := Cleaning), ExitMessage(s.pc.code)))
  {
    SpokenKeepsInv(limit, s, Send(s.(pc := Cleaning), ExitMessage(s.pc.code)), ExitMessage(s.pc.code));
  }

  lemma TimeoutSentKeepsInv(limit: nat, s: State)
    requires Inv(limit, s) && s.pc.SendingTimeout?
    ensures Inv(limit, Send(s.(pc := SendingExit(124)), TimeoutMessage))
  {
    SpokenKeepsInv(limit, s, Send(s.(pc := SendingExit(124)), TimeoutMessage), TimeoutMessage);
  }

  lemma ErrorSentKeepsInv(limit: nat, s: State)
    requires Inv(limit, s) && s.pc.SendingError?
    ensures Inv(limit, Send(s.(pc := Cleaning), ErrorMessage))
  {
    SpokenKeepsInv(limit, s, Send(s.(pc := Cleaning), ErrorMessage), ErrorMessage);
  }

  lemma MainSentKeepsInv(limit: nat, s: State, pid: int, ttlSeconds: nat)
    requires Inv(limit, s) && MainStep(s, MainSent(pid, ttlSeconds)).Some?
    ensures Inv(limit, MainStep(s, MainSent(pid, ttlSeconds)).value)
  {
    match s.pc {
      case SendingStart => StartSentKeepsInv(limit, s, pid, ttlSeconds);
      case SendingTimeout => TimeoutSentKeepsInv(limit, s);
      case SendingExit(_) => ExitSentKeepsInv(limit, s);
      case SendingError => ErrorSentKeepsInv(limit, s);
    }
  }

  lemma StepKeepsInv(limit: nat, s: State, a: Action)
    requires Inv(limit, s) && Step(limit, s, a).Some?
    ensures Inv(limit, Step(limit, s, a).value)
  {
    if OutputAction(a) {
      OutputKeepsInv(limit, s, a);
    } else if InputAction(a) {
      InputKeepsInv(limit, s, a);
    } else if OutsideAction(a) {
      OutsideKeepsInv(limit, s, a);
    } else if a.MainSent? {
      MainSentKeepsInv(limit, s, a.pid, a.ttlSeconds);
    } else {
      MainSilentKeepsInv(limit, s, a);
    }
  }

  lemma {:induction false} RunKeepsInv(limit: nat, now: int, actions: seq<Action>)
    requires Exec(limit, Begin(now), actions).Some?
    ensures Inv(limit, Exec(limit, Begin(now), actions).value)
    decreases |actions|
  {
    if actions != [] {
      var init := actions[..|actions| - 1];
      RunKeepsInv(limit, now, init);
      StepKeepsInv(limit, Exec(limit, Begin(now), init).value, actions[|actions| - 1]);
    }
  }

  // ----- Output -----

  function ReadBytes(actions: seq<Action>): Bytes {
    if actions == [] then []
    else
      var last := actions[|actions| - 1];
      ReadBytes(actions[..|actions| - 1]) + if last.OutputRead? then last.chunk else []
  }

  /** Something was read when the limit had already been reached. */
  predicate Overrun(limit: nat, actions: seq<Action>) {
    actions != []
    && var init, last := actions[..|actions| - 1], actions[|actions| - 1];
       Overrun(limit, init) || (last.OutputRead? && |ReadBytes(init)| >= limit)
  }

  predicate ResizeFailed(actions: seq<Action>) {
    exists i :: 0 <= i < |actions| && actions[i].StartAccepted? && actions[i].resize.Some?
  }

  /** What the history variables record, and that the output task ended by its limit exactly on an overrun. */
  predicate HistoryFits(s: State, read: Bytes, overrun: bool, resizeFailed: bool) {
    && s.terminal == read && s.resizeFailed == resizeFailed
    && (s.output.NoOutput? || s.output.Reading? || s.output.Sending? || s.output == OutputDone(Eof) ==> !overrun)
    && (s.output.SendingLimit? || s.output == OutputDone(OutputLimit) ==> overrun)
  }

  lemma OutputHistory(limit: nat, s: State, a: Action, overrun: bool)
    requires Inv(limit, s) && OutputAction(a) && OutputStep(limit, s, a).Some?
    requires HistoryFits(s, s.terminal, overrun, s.resizeFailed)
    ensures HistoryFits(OutputStep(limit, s, a).value, if a.OutputRead? then s.terminal + a.chunk else s.terminal,
                        overrun || (a.OutputRead? && |s.terminal| >= limit), s.resizeFailed)
  {
  }

  lemma RaceHistory(s: State)
    ensures JudgeRace(s).terminal == s.terminal && JudgeRace(s).resizeFailed == s.resizeFailed && JudgeRace(s).output == s.output
  {
  }

  /** What a step of the session does to the fields that record history. */
  predicate KeepsHistory(s: State, s': State) {
    && s'.terminal == s.terminal
    && (s'.output == s.output || s'.output == OutputCancelled || (s.output.NoOutput? && s'.output.Reading?))
  }

  lemma StartHistory(s: State, a: Action)
    requires TasksFit(s) && MainStep(s, a).Some? && (a.StartFails? || a.StartAccepted? || a.SpawnFails? || a.SpawnSucceeds? || a.MainSent?)
    ensures var s' := MainStep(s, a).value;
            KeepsHistory(s, s') && s'.resizeFailed == (s.resizeFailed || (a.StartAccepted? && a.resize.Some?))
  {
  }

  lemma EndHistory(s: State, a: Action)
    requires MainStep(s, a).Some?
    requires a.MainSendFails? || a.ProcessWaited? || a.MainCancelled? || a.CleanUp?
    ensures KeepsHistory(s, MainStep(s, a).value) && MainStep(s, a).value.resizeFailed == s.resizeFailed
  {
  }

  lemma DrainHistory(s: State, a: Action)
    requires MainStep(s, a).Some? && (a.LookAtOutput? || a.DrainOver?)
    ensures KeepsHistory(s, MainStep(s, a).value) && MainStep(s, a).value.resizeFailed == s.resizeFailed
  {
  }

  lemma MainHistory(s: State, a: Action)
    requires TasksFit(s) && MainStep(s, a).Some?
    ensures var s' := MainStep(s, a).value;
            KeepsHistory(s, s') && s'.resizeFailed == (s.resizeFailed || (a.StartAccepted? && a.resize.Some?))
  {
    if a.RaceOver? {
      RaceHistory(s);
      assert MainStep(s, a).value == JudgeRace(s);
    } else if a.StartFails? || a.StartAccepted? || a.SpawnFails? || a.SpawnSucceeds? || a.MainSent? {
      StartHistory(s, a);
    } else if a.LookAtOutput? || a.DrainOver? {
      DrainHistory(s, a);
    } else {
      EndHistory(s, a);
    }
  }

  lemma StepHistory(limit: nat, s: State, a: Action, overrun: bool)
    requires Inv(limit, s) && Step(limit, s, a).Some? && HistoryFits(s, s.terminal, overrun, s.resizeFailed)
    ensures HistoryFits(Step(limit, s, a).value, if a.OutputRead? then s.terminal + a.chunk else s.terminal,
                        overrun || (a.OutputRead? && |s.terminal| >= limit),
                        s.resizeFailed || (a.StartAccepted? && a.resize.Some?))
  {
    if OutputAction(a) {
      OutputHistory(limit, s, a, overrun);
    } else if !InputAction(a) && !OutsideAction(a) {
      MainHistory(s, a);
    }
  }

  lemma ActionsSnoc(limit: nat, init: seq<Action>, last: Action)
    ensures ReadBytes(init + [last]) == if last.OutputRead? then ReadBytes(init) + last.chunk else ReadBytes(init)
    ensures Overrun(limit, init + [last]) == (Overrun(limit, init) || (last.OutputRead? && |ReadBytes(init)| >= limit))
    ensures ResizeFailed(init + [last]) == (ResizeFailed(init) || (last.StartAccepted? && last.resize.Some?))
  {
    var actions := init + [last];
    assert actions[..|actions| - 1] == init;
    assert ReadBytes(init) + [] == ReadBytes(init);
    if ResizeFailed(init) {
      var i :| 0 <= i < |init| && init[i].StartAccepted? && init[i].resize.Some?;
      assert actions[i] == init[i];
    }
    assert actions[|init|] == last;
  }

  lemma HistorySnoc(limit: nat, init: seq<Action>, last: Action, s: State)
    requires Inv(limit, s) && Step(limit, s, last).Some?
    requires HistoryFits(s, ReadBytes(init), Overrun(limit, init), ResizeFailed(init))
    ensures var run := init + [last];
            HistoryFits(Step(limit, s, last).value, ReadBytes(run), Overrun(limit, run), ResizeFailed(run))
  {
    StepHistory(limit, s, last, Overrun(limit, init));
    ActionsSnoc(limit, init, last);
  }

  lemma NoHistory(limit: nat, now: int)
    ensures HistoryFits(Begin(now), ReadBytes([]), Overrun(limit, []), ResizeFailed([]))
  {
  }

  lemma {:induction false} RunHistory(limit: nat, now: int, actions: seq<Action>)
    requires Exec(limit, Begin(now), actions).Some?
    ensures HistoryFits(Exec(limit, Begin(now), actions).value, ReadBytes(actions), Overrun(limit, actions), ResizeFailed(actions))
    decreases |actions|
  {
    if actions == [] {
      NoHistory(limit, now);
    } else {
      var init, last := actions[..|actions| - 1], actions[|actions| - 1];
      RunHistory(limit, now, init);
      RunKeepsInv(limit, now, init);
      HistorySnoc(limit, init, last, Exec(limit, Begin(now), init).value);
      assert init + [last] == actions;
    }
  }

  /** At every moment the client has a prefix of what the terminal produced, never more than the limit,
      and all of that once the output task has ended normally. It ended by its limit exactly when something
      was read after the limit had been reached. */
  lemma BoundedOutput(limit: nat, now: int, actions: seq<Action>)
    requires Exec(limit, Begin(now), actions).Some?
    ensures var s := Exec(limit, Begin(now), actions).value;
            && SentBytes(s.trace) <= Clip(ReadBytes(actions), limit)
            && (s.output.OutputDone? ==>
                  && SentBytes(s.trace) == Clip(ReadBytes(actions), limit)
                  && (s.output.result == OutputLimit <==> Overrun(limit, actions))
                  && (s.output.result == OutputLimit ==> |ReadBytes(actions)| > limit))
  {
    RunKeepsInv(limit, now, actions);
    RunHistory(limit, now, actions);
    var s := Exec(limit, Begin(now), actions).value;
    if s.output.Sending? {
      assert SentBytes(s.trace) <= SentBytes(s.trace) + s.output.kept;
    }
  }

  // ----- Messages -----

  /** What the automaton says, message by message. */
  predicate Protocol(trace: seq<Message>) {
    && (trace == [] || trace == [ErrorMessage] || trace[0].StartMessage?)
    && (forall i :: 1 <= i < |trace| ==> !trace[i].StartMessage?)
    && (forall i, j :: 0 <= i < j < |trace| && trace[i].ExitMessage? ==> trace[j].ErrorMessage?)
    && (forall i, j :: 0 <= i < j < |trace| && trace[i].TimeoutMessage? ==> trace[j].ErrorMessage? || trace[j] == ExitMessage(124))
  }

  /** How far along the trace is. */
  predicate Heard(trace: seq<Message>, phase: Phase) {
    match phase
    case NotStarted => trace == []
    case Refused => trace == [ErrorMessage]
    case Running =>
      trace != [] && trace[0].StartMessage? && forall i :: 0 <= i < |trace| ==> !trace[i].ExitMessage? && !trace[i].TimeoutMessage?
    case Expired =>
      trace != [] && trace[0].StartMessage? && TimeoutMessage in trace && forall i :: 0 <= i < |trace| ==> !trace[i].ExitMessage?
    case Over(code, late) =>
      && trace != [] && trace[0].StartMessage? && (TimeoutMessage in trace <==> late) && ExitMessage(code) in trace
    case Illegal => false
  }

  lemma HeardNext(trace: seq<Message>, phase: Phase, message: Message)
    requires Protocol(trace) && Heard(trace, phase) && !Next(phase, message).Illegal?
    ensures Protocol(trace + [message]) && Heard(trace + [message], Next(phase, message))
  {
    assert (trace + [message])[|trace|] == message;
  }

  lemma {:induction false} PhaseMeans(trace: seq<Message>)
    requires !PhaseOf(trace).Illegal?
    ensures Protocol(trace) && Heard(trace, PhaseOf(trace))
    decreases |trace|
  {
    if trace != [] {
      var init, last := trace[..|trace| - 1], trace[|trace| - 1];
      PhaseMeans(init);
      HeardNext(init, PhaseOf(init), last);
      assert trace == init + [last];
    }
  }

  /** Every session speaks the protocol. An exit carries the exit code of a process that has been waited for,
      overridden by 124, 130 and 125 in that order, and a timeout was announced before it exactly when the
      race ended by the deadline. */
  lemma SessionSpeaksProtocol(limit: nat, now: int, actions: seq<Action>)
    requires Exec(limit, Begin(now), actions).Some?
    ensures var s := Exec(limit, Begin(now), actions).value;
            && Protocol(s.trace)
            && (forall code :: ExitMessage(code) in s.trace ==>
                  && Reaped(s) && (TimeoutMessage in s.trace <==> s.timedOut)
                  && (s.timedOut ==> code == 124)
                  && (!s.timedOut && s.closing ==> code == 130)
                  && (!s.timedOut && !s.closing && s.limitHit ==> code == 125)
                  && (!s.timedOut && !s.closing && !s.limitHit ==> s.process == Some(Some(code))))
            && (s.closing ==> s.input.InputDone?) && (s.limitHit ==> s.output == OutputDone(OutputLimit))
            && (TimeoutMessage in s.trace ==> s.timedOut && s.now >= s.deadline)
  {
    RunKeepsInv(limit, now, actions);
    var s := Exec(limit, Begin(now), actions).value;
    PhaseMeans(s.trace);
    forall code | ExitMessage(code) in s.trace
      ensures Reaped(s) && code == ExitCode(s) && (TimeoutMessage in s.trace <==> s.timedOut)
    {
      var phase := PhaseOf(s.trace);
      assert phase.Over?;
      OneExitCode(s.trace, code, phase.code);
    }
  }

  lemma OneExitCode(trace: seq<Message>, code: int, other: int)
    requires Protocol(trace) && ExitMessage(code) in trace && ExitMessage(other) in trace
    ensures code == other
  {
  }

  /** The race is over and its outcome fixed. */
  predicate Judged(pc: Pc) {
    !pc.AwaitStart? && !pc.Spawning? && !pc.SendingStart? && !pc.Racing?
  }

  /** An error or a cancellation has decided that no exit message will be sent. */
  predicate GivenUp(pc: Pc) {
    pc.SendingError? || Ending(pc)
  }

  /** After the race its outcome stands, and a session that has given up sends no exit message any more. */
  predicate Stands(s: State, s': State) {
    && Judged(s'.pc) && s'.timedOut == s.timedOut && s'.closing == s.closing && s'.limitHit == s.limitHit
    && (GivenUp(s.pc) && !PhaseOf(s.trace).Over? ==> GivenUp(s'.pc) && !PhaseOf(s'.trace).Over?)
  }

  /** The step says nothing, or something other than an exit. */
  predicate SaysNoExit(s: State, s': State) {
    || s'.trace == s.trace || s'.trace == s.trace + [ErrorMessage]
    || (s.output.Sending? && s'.trace == s.trace + [Output(s.output.kept)])
  }

  lemma NoExitNoEnd(s: State, s': State)
    requires SaysNoExit(s, s') && !PhaseOf(s.trace).Over?
    ensures !PhaseOf(s'.trace).Over?
  {
    PhaseSnoc(s.trace, ErrorMessage);
    if s.output.Sending? {
      PhaseSnoc(s.trace, Output(s.output.kept));
    }
  }

  /** What a step changes, as far as the outcome is concerned. */
  predicate KeepsOutcome(s: State, s': State) {
    && Judged(s'.pc) && s'.timedOut == s.timedOut && s'.closing == s.closing && s'.limitHit == s.limitHit
    && (GivenUp(s.pc) ==> GivenUp(s'.pc) && SaysNoExit(s, s'))
  }

  lemma OutputSentKeepsOutcome(limit: nat, s: State)
    requires Judged(s.pc) && OutputStep(limit, s, OutputSent).Some?
    ensures KeepsOutcome(s, OutputStep(limit, s, OutputSent).value)
  {
  }

  lemma OutputReadKeepsOutcome(limit: nat, s: State, chunk: Bytes)
    requires Judged(s.pc) && OutputStep(limit, s, OutputRead(chunk)).Some?
    ensures KeepsOutcome(s, OutputStep(limit, s, OutputRead(chunk)).value)
  {
  }

  lemma OutputStepKeepsOutcome(limit: nat, s: State, a: Action)
    requires Judged(s.pc) && OutputStep(limit, s, a).Some?
    ensures KeepsOutcome(s, OutputStep(limit, s, a).value)
  {
    match a {
      case OutputSent => OutputSentKeepsOutcome(limit, s);
      case OutputRead(chunk) => OutputReadKeepsOutcome(limit, s, chunk);
      case OutputEnds =>
      case OutputSendFails(_) =>
    }
  }

  lemma InputStepKeepsOutcome(s: State, a: Action)
    requires Judged(s.pc) && InputStep(s, a).Some?
    ensures KeepsOutcome(s, InputStep(s, a).value)
  {
  }

  lemma SentKeepsOutcome(s: State, pid: int, ttlSeconds: nat)
    requires Judged(s.pc) && MainStep(s, MainSent(pid, ttlSeconds)).Some?
    ensures KeepsOutcome(s, MainStep(s, MainSent(pid, ttlSeconds)).value)
  {
    match s.pc {
      case SendingTimeout =>
      case SendingExit(_) =>
      case SendingError =>
    }
  }

  lemma SendFailsKeepsOutcome(s: State, exn: Exn)
    requires Judged(s.pc) && MainStep(s, MainSendFails(exn)).Some?
    ensures KeepsOutcome(s, MainStep(s, MainSendFails(exn)).value)
  {
  }

  lemma ConcludeKeepsOutcome(s: State, output: OutputTask)
    requires (s.pc.CheckOutput? || s.pc.Draining?) && Reaped(s)
    ensures KeepsOutcome(s, Conclude(s.(output := output)))
  {
  }

  lemma RaiseKeepsOutcome(s: State, exn: Exn)
    requires s.pc.Draining?
    ensures KeepsOutcome(s, Raise(s, exn))
  {
  }

  lemma LookKeepsOutcome(s: State)
    requires MainStep(s, LookAtOutput).Some?
    ensures KeepsOutcome(s, MainStep(s, LookAtOutput).value)
  {
    ConcludeKeepsOutcome(s, s.output);
  }

  lemma DrainKeepsOutcome(s: State, expired: bool)
    requires MainStep(s, DrainOver(expired)).Some?
    ensures KeepsOutcome(s, MainStep(s, DrainOver(expired)).value)
  {
    if s.output.OutputRaised? {
      RaiseKeepsOutcome(s, s.output.exn);
    } else {
      ConcludeKeepsOutcome(s, if OutputActive(s.output) then OutputCancelled else s.output);
    }
  }

  lemma CancelKeepsOutcome(s: State)
    requires Judged(s.pc) && MainStep(s, MainCancelled).Some?
    ensures KeepsOutcome(s, MainStep(s, MainCancelled).value)
  {
  }

  lemma CleanUpKeepsOutcome(s: State)
    requires MainStep(s, CleanUp).Some?
    ensures KeepsOutcome(s, MainStep(s, CleanUp).value)
  {
    assert MainStep(s, CleanUp).value == if s.process == Some(None) then s.(pc := CleanWait) else CloseDown(s);
  }

  lemma WaitedKeepsOutcome(s: State)
    requires MainStep(s, ProcessWaited).Some?
    ensures KeepsOutcome(s, MainStep(s, ProcessWaited).value)
  {
    assert MainStep(s, ProcessWaited).value == if s.pc.KillWait? then s.(pc := CheckOutput) else CloseDown(s);
  }

  lemma StepKeepsOutcome(limit: nat, s: State, a: Action)
    requires Judged(s.pc) && Step(limit, s, a).Some?
    ensures KeepsOutcome(s, Step(limit, s, a).value)
  {
    if OutputAction(a) {
      OutputStepKeepsOutcome(limit, s, a);
    } else if InputAction(a) {
      InputStepKeepsOutcome(s, a);
    } else if a.MainSent? {
      SentKeepsOutcome(s, a.pid, a.ttlSeconds);
    } else if a.MainSendFails? {
      SendFailsKeepsOutcome(s, a.exn);
    } else if a.MainCancelled? {
      CancelKeepsOutcome(s);
    } else if a.LookAtOutput? {
      LookKeepsOutcome(s);
    } else if a.DrainOver? {
      DrainKeepsOutcome(s, a.expired);
    } else if a.ProcessWaited? {
      WaitedKeepsOutcome(s);
    } else if a.CleanUp? {
      CleanUpKeepsOutcome(s);
    }
  }

  lemma StepStands(limit: nat, s: State, a: Action)
    requires Judged(s.pc) && Step(limit, s, a).Some?
    ensures Stands(s, Step(limit, s, a).value)
  {
    StepKeepsOutcome(limit, s, a);
    if GivenUp(s.pc) && !PhaseOf(s.trace).Over? {
      NoExitNoEnd(s, Step(limit, s, a).value);
    }
  }

  lemma {:induction false} OutcomeStands(limit: nat, begin: State, before: seq<Action>, after: seq<Action>)
    requires Exec(limit, begin, before + after).Some?
    ensures Exec(limit, begin, before).Some?
    ensures Judged(Exec(limit, begin, before).value.pc) ==>
              Stands(Exec(limit, begin, before).value, Exec(limit, begin, before + after).value)
    decreases |after|
  {
    if after == [] {
      assert before + after == before;
    } else {
      var init, last := after[..|after| - 1], after[|after| - 1];
      assert before + after == (before + init) + [last];
      assert (before + after)[..|before + after| - 1] == before + init;
      OutcomeStands(limit, begin, before, init);
      var s := Exec(limit, begin, before + init).value;
      if Judged(Exec(limit, begin, before).value.pc) {
        StepStands(limit, s, last);
      }
    }
  }

  /** The verdict of the race, in terms of what had happened when it ended. */
  predicate Verdict(race: State, code: int, process: Option<Option<int>>) {
    && !race.input.InputRaised? && !race.output.OutputRaised?
    && (if !race.output.OutputDone? && !race.input.InputDone? && !race.waiter.WaitDone? then code == 124
        else if race.input.InputDone? then code == 130
        else if race.output == OutputDone(OutputLimit) then code == 125
        else process == Some(Some(code)))
  }

  lemma FailedRaceGivesUp(race: State)
    requires race.input.InputRaised? || race.output.OutputRaised?
    ensures GivenUp(JudgeRace(race).pc)
  {
  }

  lemma RaceFlags(race: State)
    requires !race.input.InputRaised? && !race.output.OutputRaised?
    ensures var judged := JudgeRace(race);
            && judged.timedOut == (!race.output.OutputDone? && !race.input.InputDone? && !race.waiter.WaitDone?)
            && judged.closing == race.input.InputDone? && judged.limitHit == (race.output == OutputDone(OutputLimit))
  {
  }

  lemma JudgementIsVerdict(race: State, judged: State, end: State, code: int)
    requires judged == JudgeRace(race) && Stands(judged, end) && PhaseOf(end.trace).Over? && !PhaseOf(judged.trace).Over?
    requires end.timedOut ==> code == 124
    requires !end.timedOut && end.closing ==> code == 130
    requires !end.timedOut && !end.closing && end.limitHit ==> code == 125
    requires !end.timedOut && !end.closing && !end.limitHit ==> end.process == Some(Some(code))
    ensures Verdict(race, code, end.process)
  {
    if race.input.InputRaised? || race.output.OutputRaised? {
      FailedRaceGivesUp(race);
    } else {
      RaceFlags(race);
    }
  }

  /** The exit code is decided by what had happened when the race ended, whatever happens afterwards: no task had
      ended (124), the client had asked to stop (130), the output limit had been exceeded (125), or else it is
      the return code of the process. A task that had failed by then rules out any exit message. */
  lemma ExitCodeDecidedByRace(limit: nat, now: int, before: seq<Action>, after: seq<Action>, code: int)
    requires Exec(limit, Begin(now), before + [RaceOver] + after).Some?
    requires ExitMessage(code) in Exec(limit, Begin(now), before + [RaceOver] + after).value.trace
    ensures Exec(limit, Begin(now), before).Some?
    ensures Verdict(Exec(limit, Begin(now), before).value, code,
                    Exec(limit, Begin(now), before + [RaceOver] + after).value.process)
  {
    var begin, actions := Begin(now), before + [RaceOver] + after;
    OutcomeStands(limit, begin, before + [RaceOver], after);
    OutcomeStands(limit, begin, before, [RaceOver]);
    var race := Exec(limit, begin, before).value;
    RaceOverJudges(limit, begin, before);
    RunKeepsInv(limit, now, before);
    RaceIsUndecided(limit, race);
    SessionSpeaksProtocol(limit, now, actions);
    ExitInPhase(limit, now, actions, code);
    JudgementIsVerdict(race, JudgeRace(race), Exec(limit, begin, actions).value, code);
  }

  lemma RaceOverStep(limit: nat, race: State)
    requires Step(limit, race, RaceOver).Some?
    ensures race.pc.Racing? && Step(limit, race, RaceOver) == Some(JudgeRace(race))
  {
    assert Step(limit, race, RaceOver) == MainStep(race, RaceOver);
  }

  lemma RaceIsJudged(race: State)
    ensures Judged(JudgeRace(race).pc)
  {
  }

  lemma RaceOverJudges(limit: nat, begin: State, before: seq<Action>)
    requires Exec(limit, begin, before).Some? && Exec(limit, begin, before + [RaceOver]).Some?
    ensures var race := Exec(limit, begin, before).value;
            race.pc.Racing? && Exec(limit, begin, before + [RaceOver]) == Some(JudgeRace(race)) && Judged(JudgeRace(race).pc)
  {
    ExecSnoc(limit, begin, before, RaceOver);
    RaceOverStep(limit, Exec(limit, begin, before).value);
    RaceIsJudged(Exec(limit, begin, before).value);
  }

  /** Before the race is over there is no exit. */
  lemma RaceIsUndecided(limit: nat, s: State)
    requires Inv(limit, s) && s.pc.Racing?
    ensures !PhaseOf(s.trace).Over? && JudgeRace(s).trace == s.trace
  {
  }

  lemma ExitInPhase(limit: nat, now: int, actions: seq<Action>, code: int)
    requires Exec(limit, Begin(now), actions).Some?
    requires ExitMessage(code) in Exec(limit, Begin(now), actions).value.trace
    ensures PhaseOf(Exec(limit, Begin(now), actions).value.trace).Over?
  {
    RunKeepsInv(limit, now, actions);
    PhaseMeans(Exec(limit, Begin(now), actions).value.trace);
  }

  // ----- Cleanup -----

  /** When the function has ended, whatever failed on the way: the process, if any, has been waited for,
      every task has ended and the master is closed. The slave stays open exactly when setting the initial
      terminal size failed. */
  lemma SessionCleansUp(limit: nat, now: int, actions: seq<Action>)
    requires Exec(limit, Begin(now), actions).Some? && Exec(limit, Begin(now), actions).value.pc.Finished?
    ensures var s := Exec(limit, Begin(now), actions).value;
            && (s.process.Some? ==> Reaped(s))
            && !OutputActive(s.output) && !InputActive(s.input) && !s.waiter.Pending?
            && !s.masterOpen && (s.slaveOpen <==> ResizeFailed(actions))
  {
    RunKeepsInv(limit, now, actions);
    RunHistory(limit, now, actions);
  }

  lemma ExecSnoc(limit: nat, s: State, actions: seq<Action>, a: Action)
    requires Exec(limit, s, actions).Some?
    ensures Exec(limit, s, actions + [a]) == Step(limit, Exec(limit, s, actions).value, a)
  {
    assert (actions + [a])[..|actions|] == actions;
  }

  lemma OneMore(limit: nat, begin: State, run: seq<Action>, s: State, a: Action, s': State)
    requires Exec(limit, begin, run) == Some(s) && Step(limit, s, a) == Some(s')
    ensures Exec(limit, begin, run + [a]) == Some(s')
  {
    ExecSnoc(limit, begin, run, a);
  }

  lemma CancelStep(limit: nat, s: State) returns (s': State)
    requires !Ending(s.pc)
    ensures Step(limit, s, MainCancelled) == Some(s') && s'.pc.Cleaning? && s'.trace == s.trace
    ensures Step(limit, s', CleanUp) == Some(if s'.process == Some(None) then s'.(pc := CleanWait) else CloseDown(s'))
  {
    s' := MainStep(s, MainCancelled).value;
  }

  /** A killed process that ends lets the cleanup finish. */
  lemma CleanWaitEnds(limit: nat, begin: State, run: seq<Action>, s: State, code: int)
    requires Exec(limit, begin, run) == Some(s) && s.pc.CleanWait? && s.process == Some(None)
    ensures Exec(limit, begin, run + [LeaderExits(code)] + [ProcessWaited]) == Some(CloseDown(s.(process := Some(Some(code)))))
  {
    var exited := s.(process := Some(Some(code)));
    OneMore(limit, begin, run, s, LeaderExits(code), exited);
    OneMore(limit, begin, run + [LeaderExits(code)], exited, ProcessWaited, CloseDown(exited));
  }
}
