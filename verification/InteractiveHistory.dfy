/**
 The terminal session in terms of what happened in the run alone: what each of its tasks makes of what it receives,
 when the deadline counts, and which exit code a run ends with.
 */
module InteractiveHistory {
  import opened Common
  import opened Interactive
  import opened InteractiveRuns

  // ----- What the session does to its tasks -----

  /** The session may cancel a task that is active, and otherwise leaves it. */
  predicate InputLeft(input: InputTask, input': InputTask) {
    input' == input || (InputActive(input) && input'.InputCancelled?)
  }

  predicate OutputLeft(output: OutputTask, output': OutputTask) {
    output' == output || (OutputActive(output) && output'.OutputCancelled?)
  }

  predicate WaiterLeft(waiter: WaitTask, waiter': WaitTask) {
    waiter' == waiter || (waiter.Pending? && waiter'.WaitCancelled?)
  }

  predicate ProcessLeft(process: Option<Option<int>>, process': Option<Option<int>>) {
    process' == process || (process.None? && process' == Some(None))
  }

  predicate BeforeStart(pc: Pc) {
    pc.AwaitStart? || pc.Spawning? || pc.SendingStart?
  }

  /** Tasks, clock and deadline go on, and the session does not begin again. */
  predicate GoesOn(s: State, s': State) {
    && InputLeft(s.input, s'.input) && OutputLeft(s.output, s'.output) && WaiterLeft(s.waiter, s'.waiter)
    && ProcessLeft(s.process, s'.process) && s'.now == s.now && s'.deadline == s.deadline
    && (BeforeStart(s'.pc) ==> BeforeStart(s.pc))
  }

  lemma JudgedGoesOn(s: State)
    ensures GoesOn(s, JudgeRace(s)) && JudgeRace(s).trace == s.trace
  {
    if s.input.InputRaised? {
      RaisedGoesOn(s, s.input.exn);
    } else if s.output.OutputRaised? {
      RaisedGoesOn(s, s.output.exn);
    }
  }

  lemma ClosedGoesOn(s: State)
    ensures GoesOn(s, CloseDown(s)) && CloseDown(s).trace == s.trace
  {
  }

  lemma ConcludedGoesOn(s: State, output: OutputTask)
    requires Reaped(s) && OutputLeft(s.output, output)
    ensures GoesOn(s, Conclude(s.(output := output))) && Conclude(s.(output := output)).trace == s.trace
  {
  }

  lemma RaisedGoesOn(s: State, exn: Exn)
    ensures GoesOn(s, Raise(s, exn)) && Raise(s, exn).trace == s.trace
  {
  }

  lemma WaitedGoesOn(s: State, a: Action)
    requires MainStep(s, a).Some? && (a.ProcessWaited? || a.CleanUp?)
    ensures GoesOn(s, MainStep(s, a).value) && MainStep(s, a).value.trace == s.trace
  {
    ClosedGoesOn(s);
    assert a.ProcessWaited? ==> MainStep(s, a).value == if s.pc.KillWait? then s.(pc := CheckOutput) else CloseDown(s);
    assert a.CleanUp? ==> MainStep(s, a).value == if s.process == Some(None) then s.(pc := CleanWait) else CloseDown(s);
  }

  lemma SeenGoesOn(s: State, a: Action)
    requires MainStep(s, a).Some? && (a.LookAtOutput? || a.DrainOver?)
    ensures GoesOn(s, MainStep(s, a).value) && MainStep(s, a).value.trace == s.trace
  {
    ConcludedGoesOn(s, s.output);
    if s.output.OutputRaised? {
      RaisedGoesOn(s, s.output.exn);
    }
    if OutputActive(s.output) {
      ConcludedGoesOn(s, OutputCancelled);
    }
  }

  lemma StartingGoesOn(s: State, a: Action)
    requires MainStep(s, a).Some? && (a.StartFails? || a.StartAccepted? || a.SpawnFails? || a.SpawnSucceeds?)
    requires s.pc.Spawning? ==> s.process.None?
    ensures GoesOn(s, MainStep(s, a).value) && MainStep(s, a).value.trace == s.trace
  {
  }

  lemma FailingGoesOn(s: State, a: Action)
    requires MainStep(s, a).Some? && (a.MainSendFails? || a.MainCancelled?)
    ensures GoesOn(s, MainStep(s, a).value) && MainStep(s, a).value.trace == s.trace
  {
    if a.MainSendFails? {
      RaisedGoesOn(s, a.exn);
      assert MainStep(s, a).value == if s.pc.SendingError? then s.(pc := Cleaning) else Raise(s, a.exn);
    } else {
      CancelledGoesOn(s);
    }
  }

  lemma CancelledGoesOn(s: State)
    requires MainStep(s, MainCancelled).Some?
    ensures GoesOn(s, MainStep(s, MainCancelled).value) && MainStep(s, MainCancelled).value.trace == s.trace
  {
  }

  /** The message a session is about to send. */
  function NextMessage(s: State, pid: int): Message {
    match s.pc
    case SendingStart => StartMessage(pid)
    case SendingTimeout => TimeoutMessage
    case SendingExit(code) => ExitMessage(code)
    case _ => ErrorMessage
  }

  /** The start message starts the tasks and the clock. */
  predicate Starts(s: State, pid: int, ttlSeconds: nat, s': State) {
    s' == s.(pc := Racing, trace := s.trace + [StartMessage(pid)], deadline := s.now + ttlSeconds,
             output := Reading, input := Receiving, waiter := Pending)
  }

  lemma StartStep(s: State, pid: int, ttlSeconds: nat)
    requires s.pc.SendingStart?
    ensures MainStep(s, MainSent(pid, ttlSeconds)).Some? && Starts(s, pid, ttlSeconds, MainStep(s, MainSent(pid, ttlSeconds)).value)
  {
  }

  lemma SentGoesOn(s: State, pid: int, ttlSeconds: nat)
    requires MainStep(s, MainSent(pid, ttlSeconds)).Some? && !s.pc.SendingStart?
    ensures var s' := MainStep(s, MainSent(pid, ttlSeconds)).value;
            GoesOn(s, s') && s'.trace == s.trace + [NextMessage(s, pid)] && !BeforeStart(s'.pc)
  {
    match s.pc {
      case SendingTimeout =>
      case SendingExit(_) =>
      case SendingError =>
    }
  }

  lemma MainGoesOn(limit: nat, s: State, a: Action)
    requires Inv(limit, s) && MainStep(s, a).Some? && !(a.MainSent? && s.pc.SendingStart?)
    ensures GoesOn(s, MainStep(s, a).value)
    ensures MainStep(s, a).value.trace == if a.MainSent? then s.trace + [NextMessage(s, a.pid)] else s.trace
    ensures a.MainSent? ==> !BeforeStart(MainStep(s, a).value.pc)
  {
    if a.RaceOver? {
      JudgedGoesOn(s);
      assert MainStep(s, a).value == JudgeRace(s);
    } else if a.ProcessWaited? || a.CleanUp? {
      WaitedGoesOn(s, a);
    } else if a.LookAtOutput? || a.DrainOver? {
      SeenGoesOn(s, a);
    } else if a.MainSent? {
      SentGoesOn(s, a.pid, a.ttlSeconds);
    } else if a.MainSendFails? || a.MainCancelled? {
      FailingGoesOn(s, a);
    } else {
      StartingGoesOn(s, a);
    }
  }

  // ----- The input task -----

  /** The last thing that happened to the input task. */
  function LastInput(actions: seq<Action>): Option<Action> {
    if actions == [] then None
    else
      var last := actions[|actions| - 1];
      if InputAction(last) then Some(last) else LastInput(actions[..|actions| - 1])
  }

  /** What the input task has come to, after what it received. */
  ghost predicate InputTold(actions: seq<Action>, input: InputTask) {
    && (input.InputDone? <==> InputReceived(CancelOrClose) in actions)
    && (forall exn :: input == InputRaised(exn) <==> InputReceived(Broken(exn)) in actions || InputSendFails(exn) in actions)
    && (input.NoInput? ==> LastInput(actions) == None)
    && (input.Complaining? ==> LastInput(actions) == Some(InputReceived(Unsupported)))
    && (input.Receiving? ==>
          || LastInput(actions) == None || LastInput(actions) == Some(InputSent)
          || LastInput(actions) == Some(InputReceived(Input)) || LastInput(actions) == Some(InputReceived(Resize)))
  }

  lemma InputSnoc(actions: seq<Action>, last: Action)
    ensures LastInput(actions + [last]) == if InputAction(last) then Some(last) else LastInput(actions)
    ensures InputReceived(CancelOrClose) in actions + [last]
            <==> InputReceived(CancelOrClose) in actions || last == InputReceived(CancelOrClose)
    ensures forall exn :: (InputReceived(Broken(exn)) in actions + [last]
                           <==> InputReceived(Broken(exn)) in actions || last == InputReceived(Broken(exn)))
    ensures forall exn :: (InputSendFails(exn) in actions + [last]
                           <==> InputSendFails(exn) in actions || last == InputSendFails(exn))
  {
    assert (actions + [last])[..|actions|] == actions;
  }

  lemma InputStepTold(actions: seq<Action>, s: State, a: Action)
    requires InputAction(a) && InputStep(s, a).Some? && InputTold(actions, s.input)
    ensures InputTold(actions + [a], InputStep(s, a).value.input)
  {
    InputSnoc(actions, a);
    assert !s.input.InputDone? && !s.input.InputRaised?;
    assert forall exn :: s.input != InputRaised(exn);
  }

  lemma OtherStepTold(actions: seq<Action>, input: InputTask, a: Action, input': InputTask)
    requires !InputAction(a) && InputLeft(input, input') && InputTold(actions, input)
    ensures InputTold(actions + [a], input')
  {
    InputSnoc(actions, a);
    assert forall exn :: input' == InputRaised(exn) <==> input == InputRaised(exn);
  }

  lemma StartTold(actions: seq<Action>, a: Action)
    requires a.MainSent? && InputTold(actions, NoInput)
    ensures InputTold(actions + [a], Receiving)
  {
    InputSnoc(actions, a);
    assert forall exn :: NoInput != InputRaised(exn);
  }

  lemma StepTold(limit: nat, actions: seq<Action>, s: State, a: Action)
    requires Inv(limit, s) && Step(limit, s, a).Some? && InputTold(actions, s.input)
    ensures InputTold(actions + [a], Step(limit, s, a).value.input)
  {
    if InputAction(a) {
      InputStepTold(actions, s, a);
    } else if a.MainSent? && s.pc.SendingStart? {
      StartTold(actions, a);
      StartStep(s, a.pid, a.ttlSeconds);
    } else {
      if OutputAction(a) {
        OutputKeepsInput(limit, s, a);
      } else if !OutsideAction(a) {
        MainGoesOn(limit, s, a);
      }
      OtherStepTold(actions, s.input, a, Step(limit, s, a).value.input);
    }
  }

  /** Over every run, from what the client sent and from which complaints failed: the input task has ended exactly if
      the client asked to cancel or closed the connection; it failed exactly with the error of a broken message or of
      a complaint that could not be sent; and as long as it is active, it is complaining exactly if the last thing it
      received was unsupported, so input and resizing keep it receiving. */
  lemma {:induction false} InputTaskFollowsClient(limit: nat, now: int, actions: seq<Action>)
    requires Exec(limit, Begin(now), actions).Some?
    ensures InputTold(actions, Exec(limit, Begin(now), actions).value.input)
    ensures var input := Exec(limit, Begin(now), actions).value.input;
            InputActive(input) ==> (input.Complaining? <==> LastInput(actions) == Some(InputReceived(Unsupported)))
    decreases |actions|
  {
    if actions != [] {
      var init, last := actions[..|actions| - 1], actions[|actions| - 1];
      InputTaskFollowsClient(limit, now, init);
      RunKeepsInv(limit, now, init);
      StepTold(limit, init, Exec(limit, Begin(now), init).value, last);
      Unsnoc(actions);
    }
  }

  // ----- The other tasks and the process -----

  /** The client has been told that the output limit was exceeded. */
  predicate LimitReported(limit: nat, actions: seq<Action>) {
    actions != []
    && var init, last := actions[..|actions| - 1], actions[|actions| - 1];
       LimitReported(limit, init) || (last.OutputSent? && Overrun(limit, init))
  }

  ghost predicate OutputTold(limit: nat, actions: seq<Action>, output: OutputTask) {
    && (output == OutputDone(Eof) <==> OutputEnds in actions)
    && (output == OutputDone(OutputLimit) <==> LimitReported(limit, actions))
    && (forall exn :: output == OutputRaised(exn) <==> OutputSendFails(exn) in actions)
  }

  lemma OutputSnoc(limit: nat, actions: seq<Action>, last: Action)
    ensures OutputEnds in actions + [last] <==> OutputEnds in actions || last == OutputEnds
    ensures LimitReported(limit, actions + [last])
            <==> LimitReported(limit, actions) || (last.OutputSent? && Overrun(limit, actions))
    ensures forall exn :: OutputSendFails(exn) in actions + [last] <==> OutputSendFails(exn) in actions || last == OutputSendFails(exn)
  {
    assert (actions + [last])[..|actions|] == actions;
  }

  lemma OutputStepTold(limit: nat, actions: seq<Action>, s: State, a: Action)
    requires OutputAction(a) && OutputStep(limit, s, a).Some? && OutputTold(limit, actions, s.output)
    requires HistoryFits(s, ReadBytes(actions), Overrun(limit, actions), ResizeFailed(actions))
    ensures OutputTold(limit, actions + [a], OutputStep(limit, s, a).value.output)
  {
    OutputSnoc(limit, actions, a);
    assert OutputActive(s.output) && forall exn :: s.output != OutputRaised(exn);
    OutputStepEnds(limit, s, a);
  }

  lemma OutputStepEnds(limit: nat, s: State, a: Action)
    requires OutputAction(a) && OutputStep(limit, s, a).Some?
    ensures var output := OutputStep(limit, s, a).value.output;
            && (output == OutputDone(Eof) <==> a.OutputEnds?)
            && (output == OutputDone(OutputLimit) <==> a.OutputSent? && s.output.SendingLimit?)
            && (forall exn :: output == OutputRaised(exn) <==> a == OutputSendFails(exn))
            && (a.OutputSent? ==> s.output.SendingLimit? || s.output.Sending?)
  {
  }

  lemma OtherStepOutputTold(limit: nat, actions: seq<Action>, output: OutputTask, a: Action, output': OutputTask)
    requires !OutputAction(a) && OutputLeft(output, output') && OutputTold(limit, actions, output)
    ensures OutputTold(limit, actions + [a], output')
  {
    OutputSnoc(limit, actions, a);
    assert forall exn :: output' == OutputRaised(exn) <==> output == OutputRaised(exn);
  }

  lemma StartOutputTold(limit: nat, actions: seq<Action>, a: Action)
    requires a.MainSent? && OutputTold(limit, actions, NoOutput)
    ensures OutputTold(limit, actions + [a], Reading)
  {
    OutputSnoc(limit, actions, a);
    assert forall exn :: NoOutput != OutputRaised(exn);
  }

  lemma StepOutputTold(limit: nat, actions: seq<Action>, s: State, a: Action)
    requires Inv(limit, s) && Step(limit, s, a).Some? && OutputTold(limit, actions, s.output)
    requires HistoryFits(s, ReadBytes(actions), Overrun(limit, actions), ResizeFailed(actions))
    ensures OutputTold(limit, actions + [a], Step(limit, s, a).value.output)
  {
    if OutputAction(a) {
      OutputStepTold(limit, actions, s, a);
    } else if a.MainSent? && s.pc.SendingStart? {
      StartOutputTold(limit, actions, a);
      StartStep(s, a.pid, a.ttlSeconds);
    } else {
      if !InputAction(a) && !OutsideAction(a) {
        MainGoesOn(limit, s, a);
      }
      OtherStepOutputTold(limit, actions, s.output, a, Step(limit, s, a).value.output);
    }
  }

  /** The output task ended by itself exactly if the terminal came to its end, by its limit exactly if an overrun was
      reported, and it failed exactly if one of its messages could not be sent. */
  lemma {:induction false} OutputTaskFollowsTerminal(limit: nat, now: int, actions: seq<Action>)
    requires Exec(limit, Begin(now), actions).Some?
    ensures OutputTold(limit, actions, Exec(limit, Begin(now), actions).value.output)
    decreases |actions|
  {
    if actions != [] {
      var init, last := actions[..|actions| - 1], actions[|actions| - 1];
      OutputTaskFollowsTerminal(limit, now, init);
      RunKeepsInv(limit, now, init);
      RunHistory(limit, now, init);
      StepOutputTold(limit, init, Exec(limit, Begin(now), init).value, last);
      Unsnoc(actions);
    }
  }

  ghost predicate ProcessTold(actions: seq<Action>, s: State) {
    && (forall code :: s.process == Some(Some(code)) <==> LeaderExits(code) in actions)
    && (s.waiter.WaitDone? <==> WaiterRuns in actions)
  }

  lemma ProcessSnoc(actions: seq<Action>, last: Action)
    ensures forall code :: LeaderExits(code) in actions + [last] <==> LeaderExits(code) in actions || last == LeaderExits(code)
    ensures WaiterRuns in actions + [last] <==> WaiterRuns in actions || last == WaiterRuns
  {
  }

  lemma OutputReadKeepsProcess(limit: nat, s: State, chunk: Bytes)
    requires OutputStep(limit, s, OutputRead(chunk)).Some?
    ensures var s' := OutputStep(limit, s, OutputRead(chunk)).value;
            s'.process == s.process && s'.waiter == s.waiter && s'.now == s.now && s'.deadline == s.deadline
  {
  }

  lemma OutputKeepsProcess(limit: nat, s: State, a: Action)
    requires OutputStep(limit, s, a).Some?
    ensures var s' := OutputStep(limit, s, a).value;
            s'.process == s.process && s'.waiter == s.waiter && s'.now == s.now && s'.deadline == s.deadline
  {
    if a.OutputRead? {
      OutputReadKeepsProcess(limit, s, a.chunk);
    }
  }

  lemma OutsideStepTold(actions: seq<Action>, s: State, a: Action)
    requires OutsideAction(a) && OutsideStep(s, a).Some? && ProcessTold(actions, s)
    ensures ProcessTold(actions + [a], OutsideStep(s, a).value)
  {
    ProcessSnoc(actions, a);
  }

  lemma OtherStepProcessTold(actions: seq<Action>, s: State, a: Action, s': State)
    requires !OutsideAction(a) && ProcessLeft(s.process, s'.process) && WaiterLeft(s.waiter, s'.waiter) && ProcessTold(actions, s)
    ensures ProcessTold(actions + [a], s')
  {
    ProcessSnoc(actions, a);
    assert forall code :: s'.process == Some(Some(code)) <==> s.process == Some(Some(code));
  }

  lemma StartProcessTold(actions: seq<Action>, s: State, a: Action, s': State)
    requires a.MainSent? && Starts(s, a.pid, a.ttlSeconds, s') && s.waiter.NoWait? && ProcessTold(actions, s)
    ensures ProcessTold(actions + [a], s')
  {
    ProcessSnoc(actions, a);
    assert forall code :: s'.process == Some(Some(code)) <==> s.process == Some(Some(code));
  }

  lemma StepProcessTold(limit: nat, actions: seq<Action>, s: State, a: Action)
    requires Inv(limit, s) && Step(limit, s, a).Some? && ProcessTold(actions, s)
    ensures ProcessTold(actions + [a], Step(limit, s, a).value)
  {
    if OutsideAction(a) {
      OutsideStepTold(actions, s, a);
    } else if a.MainSent? && s.pc.SendingStart? {
      StartStep(s, a.pid, a.ttlSeconds);
      StartProcessTold(actions, s, a, Step(limit, s, a).value);
    } else {
      if OutputAction(a) {
        OutputKeepsProcess(limit, s, a);
      } else if !InputAction(a) {
        MainGoesOn(limit, s, a);
      }
      OtherStepProcessTold(actions, s, a, Step(limit, s, a).value);
    }
  }

  /** The process has ended with a code exactly if it exited with it, and the waiter has ended exactly if it ran. */
  lemma {:induction false} ProcessFollowsLeader(limit: nat, now: int, actions: seq<Action>)
    requires Exec(limit, Begin(now), actions).Some?
    ensures ProcessTold(actions, Exec(limit, Begin(now), actions).value)
    decreases |actions|
  {
    if actions != [] {
      var init, last := actions[..|actions| - 1], actions[|actions| - 1];
      ProcessFollowsLeader(limit, now, init);
      RunKeepsInv(limit, now, init);
      StepProcessTold(limit, init, Exec(limit, Begin(now), init).value, last);
      Unsnoc(actions);
    }
  }

  // ----- Time -----

  function TimeOf(a: Action): nat {
    if a.Tick? then a.time else 0
  }

  /** The time that passes in a run. */
  function Ticks(actions: seq<Action>): nat {
    if actions == [] then 0 else Ticks(actions[..|actions| - 1]) + TimeOf(actions[|actions| - 1])
  }

  lemma TimeStep(limit: nat, s: State, a: Action)
    requires Inv(limit, s) && Step(limit, s, a).Some?
    ensures Step(limit, s, a).value.now == s.now + TimeOf(a)
    ensures Step(limit, s, a).value.deadline == if a.MainSent? && s.pc.SendingStart? then s.now + a.ttlSeconds else s.deadline
  {
    if OutputAction(a) {
      OutputKeepsProcess(limit, s, a);
    } else if a.MainSent? && s.pc.SendingStart? {
      StartStep(s, a.pid, a.ttlSeconds);
    } else if !InputAction(a) && !OutsideAction(a) {
      MainGoesOn(limit, s, a);
    }
  }

  lemma {:induction false} ClockRun(limit: nat, now: int, actions: seq<Action>)
    requires Exec(limit, Begin(now), actions).Some?
    ensures Exec(limit, Begin(now), actions).value.now == now + Ticks(actions)
    decreases |actions|
  {
    if actions != [] {
      var init, last := actions[..|actions| - 1], actions[|actions| - 1];
      ClockRun(limit, now, init);
      RunKeepsInv(limit, now, init);
      TimeStep(limit, Exec(limit, Begin(now), init).value, last);
    }
  }

  /** The first message was sent between `before` and `after`. */
  predicate StartSplit(actions: seq<Action>, before: seq<Action>, pid: int, ttlSeconds: nat, after: seq<Action>) {
    && actions == before + [MainSent(pid, ttlSeconds)] + after
    && NothingSent(before)
  }

  /** Started, with this deadline and this first message. */
  predicate Since(s: State, deadline: int, pid: int) {
    !s.output.NoOutput? && s.deadline == deadline && |s.trace| >= 1 && s.trace[0] == StartMessage(pid)
  }

  lemma FirstStays(trace: seq<Message>, message: Message)
    requires |trace| >= 1
    ensures (trace + [message])[0] == trace[0]
  {
  }

  lemma TaskStepSince(limit: nat, s: State, a: Action, deadline: int, pid: int)
    requires Since(s, deadline, pid) && Step(limit, s, a).Some? && (OutputAction(a) || InputAction(a) || OutsideAction(a))
    ensures Since(Step(limit, s, a).value, deadline, pid)
  {
    TasksSayOwn(limit, s, a);
    FirstStays(s.trace, ErrorMessage);
    if s.output.Sending? {
      FirstStays(s.trace, Output(s.output.kept));
    }
    if OutputAction(a) {
      OutputKeepsProcess(limit, s, a);
      OutputStepActive(limit, s, a);
    }
  }

  lemma OutputStepActive(limit: nat, s: State, a: Action)
    requires OutputStep(limit, s, a).Some?
    ensures !OutputStep(limit, s, a).value.output.NoOutput?
  {
  }

  lemma StepSince(limit: nat, s: State, a: Action, deadline: int, pid: int)
    requires Inv(limit, s) && Step(limit, s, a).Some? && Since(s, deadline, pid)
    ensures Since(Step(limit, s, a).value, deadline, pid)
  {
    if OutputAction(a) || InputAction(a) || OutsideAction(a) {
      TaskStepSince(limit, s, a, deadline, pid);
    } else {
      MainGoesOn(limit, s, a);
      FirstStays(s.trace, NextMessage(s, if a.MainSent? then a.pid else 0));
    }
  }

  lemma OnlySendingStarts(limit: nat, s: State, a: Action)
    requires Inv(limit, s) && Step(limit, s, a).Some? && s.output.NoOutput? && !Step(limit, s, a).value.output.NoOutput?
    ensures a.MainSent? && s.pc.SendingStart? && Since(Step(limit, s, a).value, s.now + a.ttlSeconds, a.pid)
  {
    if a.MainSent? && s.pc.SendingStart? {
      StartStep(s, a.pid, a.ttlSeconds);
      PhaseMeans(s.trace);
      assert s.trace == [];
    } else if !OutputAction(a) && !InputAction(a) && !OutsideAction(a) {
      MainGoesOn(limit, s, a);
    }
  }

  lemma EarlyStep(limit: nat, s: State, a: Action)
    requires Inv(limit, s) && Step(limit, s, a).Some? && BeforeStart(Step(limit, s, a).value.pc)
    ensures BeforeStart(s.pc) && !a.MainSent?
  {
    if OutputAction(a) || InputAction(a) || OutsideAction(a) {
      TasksSayOwn(limit, s, a);
    } else if a.MainSent? && s.pc.SendingStart? {
      StartStep(s, a.pid, a.ttlSeconds);
    } else {
      MainGoesOn(limit, s, a);
    }
  }

  /** No action of the list sends a message of the session. */
  predicate NothingSent(actions: seq<Action>) {
    forall k :: 0 <= k < |actions| ==> !actions[k].MainSent?
  }

  lemma NothingSentSnoc(actions: seq<Action>, last: Action)
    requires NothingSent(actions) && !last.MainSent?
    ensures NothingSent(actions + [last])
  {
  }

  lemma {:induction false} NothingSentYet(limit: nat, now: int, actions: seq<Action>)
    requires Exec(limit, Begin(now), actions).Some? && BeforeStart(Exec(limit, Begin(now), actions).value.pc)
    ensures NothingSent(actions)
    decreases |actions|
  {
    if actions != [] {
      var init, last := actions[..|actions| - 1], actions[|actions| - 1];
      RunKeepsInv(limit, now, init);
      EarlyStep(limit, Exec(limit, Begin(now), init).value, last);
      NothingSentYet(limit, now, init);
      NothingSentSnoc(init, last);
      Unsnoc(actions);
    }
  }

  /** A session whose tasks were started sent its start message first, with the id of its process, and its deadline is
      its lifetime after that moment. */
  lemma {:induction false} SessionStart(limit: nat, now: int, actions: seq<Action>)
    returns (before: seq<Action>, pid: int, ttlSeconds: nat, after: seq<Action>)
    requires Exec(limit, Begin(now), actions).Some? && !Exec(limit, Begin(now), actions).value.output.NoOutput?
    ensures StartSplit(actions, before, pid, ttlSeconds, after)
    ensures Since(Exec(limit, Begin(now), actions).value, now + Ticks(before) + ttlSeconds, pid)
    ensures Exec(limit, Begin(now), actions).value.now == now + Ticks(before) + Ticks(after)
    decreases |actions|
  {
    var init, last := actions[..|actions| - 1], actions[|actions| - 1];
    Unsnoc(actions);
    var s := Exec(limit, Begin(now), init).value;
    RunKeepsInv(limit, now, init);
    if !s.output.NoOutput? {
      before, pid, ttlSeconds, after := SessionStart(limit, now, init);
      StepSince(limit, s, last, now + Ticks(before) + ttlSeconds, pid);
      TimeStep(limit, s, last);
      Assoc(before + [MainSent(pid, ttlSeconds)], after, [last]);
      TicksSnoc(after, last);
      after := after + [last];
    } else {
      OnlySendingStarts(limit, s, last);
      ClockRun(limit, now, init);
      TimeStep(limit, s, last);
      NothingSentYet(limit, now, init);
      before, pid, ttlSeconds, after := init, last.pid, last.ttlSeconds, [];
      assert actions == before + [MainSent(pid, ttlSeconds)] + after;
    }
  }

  lemma TicksSnoc(actions: seq<Action>, last: Action)
    ensures Ticks(actions + [last]) == Ticks(actions) + TimeOf(last)
  {
    assert (actions + [last])[..|actions|] == actions;
  }

  // ----- The race -----

  /** A message of the session's own tasks was broken or could not be sent. */
  ghost predicate TaskFailed(actions: seq<Action>) {
    exists exn: Exn ::
      OutputSendFails(exn) in actions || InputReceived(Broken(exn)) in actions || InputSendFails(exn) in actions
  }

  /** One of the three tasks has come to its end. */
  ghost predicate TaskEnded(limit: nat, actions: seq<Action>) {
    || TaskFailed(actions) || InputReceived(CancelOrClose) in actions
    || OutputEnds in actions || LimitReported(limit, actions) || WaiterRuns in actions
  }

  /** Some task has ended. */
  predicate SomeTaskDone(s: State) {
    s.output.OutputDone? || s.output.OutputRaised? || s.input.InputDone? || s.input.InputRaised? || s.waiter.WaitDone?
  }

  lemma TasksTold(limit: nat, now: int, actions: seq<Action>)
    requires Exec(limit, Begin(now), actions).Some?
    ensures var s := Exec(limit, Begin(now), actions).value;
            && InputTold(actions, s.input) && OutputTold(limit, actions, s.output) && ProcessTold(actions, s)
            && (TaskFailed(actions) <==> s.output.OutputRaised? || s.input.InputRaised?)
            && (TaskEnded(limit, actions) <==> SomeTaskDone(s))
  {
    InputTaskFollowsClient(limit, now, actions);
    OutputTaskFollowsTerminal(limit, now, actions);
    ProcessFollowsLeader(limit, now, actions);
    EndsTold(limit, actions, Exec(limit, Begin(now), actions).value);
  }

  lemma EndsTold(limit: nat, actions: seq<Action>, s: State)
    requires InputTold(actions, s.input) && OutputTold(limit, actions, s.output) && ProcessTold(actions, s)
    ensures TaskFailed(actions) <==> s.output.OutputRaised? || s.input.InputRaised?
    ensures TaskEnded(limit, actions) <==> SomeTaskDone(s)
  {
    FailuresTold(limit, actions, s.input, s.output);
    DoneByEndOrLimit(s.output);
  }

  lemma DoneByEndOrLimit(output: OutputTask)
    ensures output.OutputDone? <==> output == OutputDone(Eof) || output == OutputDone(OutputLimit)
  {
    if output.OutputDone? {
      match output.result {
        case Eof =>
        case OutputLimit =>
      }
    }
  }

  lemma FailuresTold(limit: nat, actions: seq<Action>, input: InputTask, output: OutputTask)
    requires InputTold(actions, input) && OutputTold(limit, actions, output)
    ensures TaskFailed(actions) <==> output.OutputRaised? || input.InputRaised?
  {
    if output.OutputRaised? {
      assert OutputSendFails(output.exn) in actions;
    }
    if input.InputRaised? {
      assert InputReceived(Broken(input.exn)) in actions || InputSendFails(input.exn) in actions;
    }
  }

  /** The race ends as soon as a task has ended or the lifetime has passed since the start message, and not before; and
      the session counts as timed out only after its whole lifetime. */
  lemma DeadlineFollowsStart(limit: nat, now: int, actions: seq<Action>)
    returns (before: seq<Action>, pid: int, ttlSeconds: nat, after: seq<Action>)
    requires Exec(limit, Begin(now), actions).Some? && !Exec(limit, Begin(now), actions).value.output.NoOutput?
    ensures StartSplit(actions, before, pid, ttlSeconds, after)
    ensures var s := Exec(limit, Begin(now), actions).value;
            && (s.timedOut || TimeoutMessage in s.trace ==> Ticks(after) >= ttlSeconds)
            && (s.pc.Racing? ==>
                  (Step(limit, s, RaceOver).Some? <==> TaskEnded(limit, actions) || Ticks(after) >= ttlSeconds))
  {
    before, pid, ttlSeconds, after := SessionStart(limit, now, actions);
    SessionSpeaksProtocol(limit, now, actions);
    TasksTold(limit, now, actions);
    RunKeepsInv(limit, now, actions);
    RaceIsOpen(limit, Exec(limit, Begin(now), actions).value);
  }

  lemma RaceIsOpen(limit: nat, s: State)
    ensures Step(limit, s, RaceOver).Some? <==> s.pc.Racing? && (SomeTaskDone(s) || s.now >= s.deadline)
  {
  }

  /** What the exit code says about the actions before and after the end of the race. */
  ghost predicate CodeTells(limit: nat, before: seq<Action>, all: seq<Action>, code: int) {
    && !TaskFailed(before)
    && if InputReceived(CancelOrClose) in before then code == 130
       else if LimitReported(limit, before) then code == 125
       else if OutputEnds in before || WaiterRuns in before then LeaderExits(code) in all
       else code == 124
  }

  lemma VerdictTells(limit: nat, before: seq<Action>, all: seq<Action>, race: State, end: State, code: int)
    requires Verdict(race, code, end.process) && ProcessTold(all, end)
    requires InputTold(before, race.input) && OutputTold(limit, before, race.output) && ProcessTold(before, race)
    ensures CodeTells(limit, before, all, code)
  {
    EndsTold(limit, before, race);
    DoneByEndOrLimit(race.output);
  }

  /** The exit code from the actions alone. If the client had asked to cancel or had closed when the race ended, the
      code is 130; otherwise, if the overrun had been reported, 125; otherwise, if the terminal or the process had
      ended, it is what the process exits with; otherwise it is 124, and the whole lifetime had passed since the
      start message. If a task had failed by then, there is no exit at all. */
  lemma ExitCodeFromActions(limit: nat, now: int, before: seq<Action>, after: seq<Action>, code: int)
    requires Exec(limit, Begin(now), before + [RaceOver] + after).Some?
    requires ExitMessage(code) in Exec(limit, Begin(now), before + [RaceOver] + after).value.trace
    ensures CodeTells(limit, before, before + [RaceOver] + after, code)
    ensures !TaskEnded(limit, before) ==>
              exists early: seq<Action>, pid: int, ttlSeconds: nat, late: seq<Action> ::
                StartSplit(before, early, pid, ttlSeconds, late) && Ticks(late) >= ttlSeconds
  {
    var begin, all := Begin(now), before + [RaceOver] + after;
    ExitCodeDecidedByRace(limit, now, before, after, code);
    OutcomeStands(limit, begin, before + [RaceOver], after);
    var race, end := Exec(limit, begin, before).value, Exec(limit, begin, all).value;
    TasksTold(limit, now, before);
    TasksTold(limit, now, all);
    VerdictTells(limit, before, all, race, end, code);
    RaceOverJudges(limit, begin, before);
    ExecSnoc(limit, begin, before, RaceOver);
    RunKeepsInv(limit, now, before);
    if !TaskEnded(limit, before) {
      var early, pid, ttlSeconds, late := DeadlineFollowsStart(limit, now, before);
      assert StartSplit(before, early, pid, ttlSeconds, late) && Ticks(late) >= ttlSeconds;
    }
  }

  // ----- Every race can be brought to its exit -----

  lemma KilledExits(limit: nat, begin: State, run: seq<Action>, s: State, code: int) returns (run': seq<Action>, s': State)
    requires Exec(limit, begin, run) == Some(s) && s.process.Some? && s.pc.KillWait?
    ensures run <= run' && Exec(limit, begin, run') == Some(s') && s'.pc.KillWait? && Reaped(s')
  {
    if Reaped(s) {
      run', s' := run, s;
    } else {
      s' := s.(process := Some(Some(code)));
      OneMore(limit, begin, run, s, LeaderExits(code), s');
      run' := run + [LeaderExits(code)];
    }
  }

  lemma ReapedGoesOn(limit: nat, begin: State, run: seq<Action>, s: State)
    requires Exec(limit, begin, run) == Some(s) && s.pc.KillWait? && Reaped(s)
    ensures Exec(limit, begin, run + [ProcessWaited]) == Some(s.(pc := CheckOutput))
  {
    OneMore(limit, begin, run, s, ProcessWaited, s.(pc := CheckOutput));
  }

  lemma Longer<T>(a: seq<T>, b: seq<T>, x: T)
    requires a <= b
    ensures a <= b + [x]
  {
  }

  /** Killed or not, the process ends and the session goes on to look at the output. */
  lemma ProcessEnds(limit: nat, begin: State, run: seq<Action>, s: State, code: int) returns (run': seq<Action>, s': State)
    requires Exec(limit, begin, run) == Some(s) && s.process.Some? && (s.pc.KillWait? || (s.pc.CheckOutput? && Reaped(s)))
    ensures run <= run' && Exec(limit, begin, run') == Some(s') && s'.pc.CheckOutput? && Reaped(s')
  {
    if s.pc.CheckOutput? {
      run', s' := run, s;
    } else {
      var killed: State;
      run', killed := KilledExits(limit, begin, run, s, code);
      ReapedGoesOn(limit, begin, run', killed);
      Longer(run, run', ProcessWaited);
      run', s' := run' + [ProcessWaited], killed.(pc := CheckOutput);
    }
  }

  /** The output is drained or given up. */
  lemma OutputConcludes(limit: nat, begin: State, run: seq<Action>, s: State) returns (run': seq<Action>, s': State)
    requires Exec(limit, begin, run) == Some(s) && s.pc.CheckOutput? && Reaped(s)
    ensures run <= run' && Exec(limit, begin, run') == Some(s') && (s'.pc.SendingTimeout? || s'.pc.SendingExit?)
  {
    if OutputActive(s.output) {
      run', s' := DrainGivenUp(limit, begin, run, s);
    } else {
      s' := Conclude(s);
      OneMore(limit, begin, run, s, LookAtOutput, s');
      run' := run + [LookAtOutput];
    }
  }

  lemma DrainGivenUp(limit: nat, begin: State, run: seq<Action>, s: State) returns (run': seq<Action>, s': State)
    requires Exec(limit, begin, run) == Some(s) && s.pc.CheckOutput? && Reaped(s) && OutputActive(s.output)
    ensures run <= run' && Exec(limit, begin, run') == Some(s') && (s'.pc.SendingTimeout? || s'.pc.SendingExit?)
  {
    var draining := s.(pc := Draining);
    OneMore(limit, begin, run, s, LookAtOutput, draining);
    s' := GivenUpState(limit, begin, run + [LookAtOutput], draining);
    run' := run + [LookAtOutput] + [DrainOver(true)];
    Longer(run, run, LookAtOutput);
    Longer(run, run + [LookAtOutput], DrainOver(true));
  }

  lemma GivenUpState(limit: nat, begin: State, run: seq<Action>, s: State) returns (s': State)
    requires Exec(limit, begin, run) == Some(s) && s.pc.Draining? && Reaped(s) && OutputActive(s.output)
    ensures Exec(limit, begin, run + [DrainOver(true)]) == Some(s') && (s'.pc.SendingTimeout? || s'.pc.SendingExit?)
  {
    s' := Conclude(s.(output := OutputCancelled));
    assert MainStep(s, DrainOver(true)) == Some(s');
    OneMore(limit, begin, run, s, DrainOver(true), s');
  }

  lemma ExitIsSent(limit: nat, begin: State, run: seq<Action>, s: State) returns (run': seq<Action>, code: int)
    requires Exec(limit, begin, run) == Some(s) && (s.pc.SendingTimeout? || s.pc.SendingExit?)
    ensures run <= run' && Exec(limit, begin, run').Some? && ExitMessage(code) in Exec(limit, begin, run').value.trace
  {
    run' := run;
    var sending := s;
    if s.pc.SendingTimeout? {
      sending := Send(s.(pc := SendingExit(124)), TimeoutMessage);
      OneMore(limit, begin, run, s, MainSent(0, 0), sending);
      run' := run' + [MainSent(0, 0)];
    }
    code := sending.pc.code;
    OneMore(limit, begin, run', sending, MainSent(0, 0), Send(sending.(pc := Cleaning), ExitMessage(code)));
    run' := run' + [MainSent(0, 0)];
  }

  lemma JudgedGoodRace(limit: nat, s: State)
    requires Inv(limit, s) && s.pc.Racing? && !s.input.InputRaised? && !s.output.OutputRaised?
    ensures var judged := JudgeRace(s);
            judged.process.Some? && (judged.pc.KillWait? || (judged.pc.CheckOutput? && Reaped(judged)))
  {
  }

  /** No session is caught between its race and its exit: whenever the race can end and no task has failed, some
      continuation sends an exit message, with the code that the actions up to then determine. In particular a session
      whose client has asked to cancel can end with 130, and one whose lifetime has passed in silence with 124. */
  lemma EveryRaceCanExit(limit: nat, now: int, before: seq<Action>) returns (after: seq<Action>, code: int)
    requires Exec(limit, Begin(now), before).Some? && Exec(limit, Begin(now), before + [RaceOver]).Some?
    requires !TaskFailed(before)
    ensures Exec(limit, Begin(now), before + [RaceOver] + after).Some?
    ensures ExitMessage(code) in Exec(limit, Begin(now), before + [RaceOver] + after).value.trace
    ensures CodeTells(limit, before, before + [RaceOver] + after, code)
    ensures InputReceived(CancelOrClose) in before ==> code == 130
    ensures !TaskEnded(limit, before) ==> code == 124
  {
    var begin, race, start := Begin(now), Exec(limit, Begin(now), before).value, before + [RaceOver];
    TasksTold(limit, now, before);
    RunKeepsInv(limit, now, before);
    RaceOverJudges(limit, begin, before);
    JudgedGoodRace(limit, race);
    var run, s := ProcessEnds(limit, begin, start, JudgeRace(race), 0);
    run, s := OutputConcludes(limit, begin, run, s);
    run, code := ExitIsSent(limit, begin, run, s);
    after := run[|start|..];
    assert run == start + after;
    ExitCodeFromActions(limit, now, before, after, code);
  }

  // ----- Failures -----

  /** The client is told about these; a disconnection or a cancellation is passed on. */
  predicate Reportable(exn: Exn) {
    exn == InvalidCommand || exn == OtherError
  }

  /** The exception a step of the session meets: its own, or that of a task that has failed, the input task first. */
  function Meets(s: State, a: Action): Option<Exn> {
    match a
    case StartFails(exn) => Some(exn)
    case StartAccepted(resize) => resize
    case SpawnFails => Some(OtherError)
    case MainSendFails(exn) => if s.pc.SendingError? then None else Some(exn)
    case RaceOver => if s.input.InputRaised? then Some(s.input.exn) else if s.output.OutputRaised? then Some(s.output.exn) else None
    case DrainOver(_) => if s.output.OutputRaised? then Some(s.output.exn) else None
    case _ => None
  }

  lemma RaiseReports(s: State, exn: Exn)
    ensures Raise(s, exn).pc == if Reportable(exn) then SendingError else Cleaning
  {
  }

  lemma MeetsEarly(s: State, a: Action)
    requires MainStep(s, a).Some? && (a.StartFails? || a.StartAccepted? || a.SpawnFails? || a.MainSendFails?) && Meets(s, a).Some?
    ensures MainStep(s, a).value.pc == if Reportable(Meets(s, a).value) then SendingError else Cleaning
  {
  }

  lemma MeetsLate(s: State, a: Action)
    requires MainStep(s, a).Some? && (a.RaceOver? || a.DrainOver?) && Meets(s, a).Some?
    ensures MainStep(s, a).value.pc == if Reportable(Meets(s, a).value) then SendingError else Cleaning
  {
    RaiseReports(s, Meets(s, a).value);
    assert MainStep(s, a).value == Raise(s, Meets(s, a).value);
  }

  /** Whatever fails, in the session or in one of its tasks, the next thing the session does is to tell the client,
      unless the client has gone or the session is cancelled; and then it cleans up. */
  lemma FailuresAreReported(limit: nat, now: int, before: seq<Action>, a: Action, pid: int, ttl: nat)
    requires Exec(limit, Begin(now), before).Some?
    requires Exec(limit, Begin(now), before + [a]).Some? && Meets(Exec(limit, Begin(now), before).value, a).Some?
    ensures var s, s' := Exec(limit, Begin(now), before).value, Exec(limit, Begin(now), before + [a]).value;
            && s'.trace == s.trace
            && s'.pc == (if Reportable(Meets(s, a).value) then SendingError else Cleaning)
            && (s'.pc.SendingError? ==>
                  var end := Exec(limit, Begin(now), before + [a] + [MainSent(pid, ttl)]);
                  end.Some? && end.value.trace == s.trace + [ErrorMessage] && end.value.pc.Cleaning?)
  {
    var s := Exec(limit, Begin(now), before).value;
    ExecSnoc(limit, Begin(now), before, a);
    RunKeepsInv(limit, now, before);
    assert Step(limit, s, a) == MainStep(s, a);
    MainGoesOn(limit, s, a);
    if a.RaceOver? || a.DrainOver? {
      MeetsLate(s, a);
    } else {
      MeetsEarly(s, a);
    }
    var s' := Exec(limit, Begin(now), before + [a]).value;
    if s'.pc.SendingError? {
      ReportIsSent(limit, Begin(now), before + [a], s', pid, ttl);
    }
  }

  lemma ReportIsSent(limit: nat, begin: State, run: seq<Action>, s: State, pid: int, ttl: nat)
    requires Exec(limit, begin, run) == Some(s) && s.pc.SendingError?
    ensures Exec(limit, begin, run + [MainSent(pid, ttl)]) == Some(Send(s.(pc := Cleaning), ErrorMessage))
  {
    OneMore(limit, begin, run, s, MainSent(pid, ttl), Send(s.(pc := Cleaning), ErrorMessage));
  }
}
