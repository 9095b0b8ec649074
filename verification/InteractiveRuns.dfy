/**
 What follows once a terminal session is ending: what may still be said after an exit or a cancellation,
 that the cleanup comes to its end, and which output is cut off without a report.
 */
module InteractiveRuns {
  import opened Common
  import opened Interactive

  lemma {:induction false} ExecAppend(limit: nat, s: State, before: seq<Action>, after: seq<Action>)
    ensures Exec(limit, s, before + after)
         == match Exec(limit, s, before) case None => None case Some(mid) => Exec(limit, mid, after)
    decreases |after|
  {
    if after == [] {
      assert before + after == before;
    } else {
      var init, last := after[..|after| - 1], after[|after| - 1];
      ExecAppend(limit, s, before, init);
      assert (before + after)[..|before + after| - 1] == before + init;
    }
  }

  // ----- After the exit -----

  /** In the cleanup or after it, with no more output to come. */
  predicate InEpilogue(s: State) {
    Ending(s.pc) && !OutputActive(s.output)
  }

  lemma EpilogueStep(limit: nat, s: State, a: Action)
    requires InEpilogue(s) && Step(limit, s, a).Some?
    ensures var s' := Step(limit, s, a).value;
            && InEpilogue(s') && s'.trace == (if a.InputSent? then s.trace + [ErrorMessage] else s.trace)
            && (a.InputSent? ==> InputActive(s.input)) && (!InputActive(s.input) ==> !InputActive(s'.input))
  {
  }

  function Complaints(actions: seq<Action>): nat {
    if actions == [] then 0 else Complaints(actions[..|actions| - 1]) + if actions[|actions| - 1].InputSent? then 1 else 0
  }

  lemma {:induction false} ComplaintsCount(actions: seq<Action>)
    ensures Complaints(actions) == 0 <==> InputSent !in actions
    decreases |actions|
  {
    if actions != [] {
      var init, last := actions[..|actions| - 1], actions[|actions| - 1];
      ComplaintsCount(init);
      assert actions == init + [last];
    }
  }

  /** In the epilogue the trace grows by the complaints, and without an input task not at all. */
  lemma {:induction false} EpilogueRun(limit: nat, s: State, after: seq<Action>)
    requires InEpilogue(s) && Exec(limit, s, after).Some?
    ensures var end := Exec(limit, s, after).value;
            && InEpilogue(end) && s.trace <= end.trace && |end.trace| == |s.trace| + Complaints(after)
            && (!InputActive(s.input) ==> !InputActive(end.input) && Complaints(after) == 0)
    decreases |after|
  {
    if after != [] {
      var init, last := after[..|after| - 1], after[|after| - 1];
      EpilogueRun(limit, s, init);
      EpilogueStep(limit, Exec(limit, s, init).value, last);
    }
  }

  lemma EpilogueTrace(limit: nat, s: State, after: seq<Action>)
    requires InEpilogue(s) && Exec(limit, s, after).Some?
    ensures var end := Exec(limit, s, after).value;
            && s.trace <= end.trace && (end.trace == s.trace <==> InputSent !in after)
            && (!InputActive(s.input) ==> end.trace == s.trace)
  {
    EpilogueRun(limit, s, after);
    ComplaintsCount(after);
  }

  lemma {:induction false} NoComplaint(limit: nat, now: int, actions: seq<Action>)
    requires Exec(limit, Begin(now), actions).Some? && InputReceived(Unsupported) !in actions
    ensures !Exec(limit, Begin(now), actions).value.input.Complaining? && InputSent !in actions
    decreases |actions|
  {
    if actions != [] {
      var init, last := actions[..|actions| - 1], actions[|actions| - 1];
      assert actions == init + [last];
      NoComplaint(limit, now, init);
      ComplainsOnlyOnUnsupported(limit, Exec(limit, Begin(now), init).value, last);
    }
  }

  lemma RaceKeepsInput(s: State)
    ensures JudgeRace(s).input == s.input
  {
  }

  lemma EndsNeverComplain(s: State, a: Action)
    requires MainStep(s, a).Some? && !s.input.Complaining? && (a.CleanUp? || a.ProcessWaited?)
    ensures !MainStep(s, a).value.input.Complaining?
  {
    assert !CloseDown(s).input.Complaining?;
  }

  lemma WaitsKeepInput(s: State, a: Action)
    requires MainStep(s, a).Some? && (a.LookAtOutput? || a.DrainOver?)
    ensures MainStep(s, a).value.input == s.input
  {
  }

  lemma MainNeverComplains(s: State, a: Action)
    requires MainStep(s, a).Some? && !s.input.Complaining?
    ensures !MainStep(s, a).value.input.Complaining?
  {
    if a.RaceOver? {
      RaceKeepsInput(s);
      assert MainStep(s, a).value == JudgeRace(s);
    } else if a.CleanUp? || a.ProcessWaited? {
      EndsNeverComplain(s, a);
    } else if a.LookAtOutput? || a.DrainOver? {
      WaitsKeepInput(s, a);
    } else if a.MainSent? || a.MainSendFails? || a.MainCancelled? {
      OthersNeverComplain(s, a);
    } else {
      StartsNeverComplain(s, a);
    }
  }

  lemma StartsNeverComplain(s: State, a: Action)
    requires MainStep(s, a).Some? && !s.input.Complaining? && (a.StartFails? || a.StartAccepted? || a.SpawnFails? || a.SpawnSucceeds?)
    ensures !MainStep(s, a).value.input.Complaining?
  {
  }

  lemma OthersNeverComplain(s: State, a: Action)
    requires MainStep(s, a).Some? && !s.input.Complaining? && (a.MainSent? || a.MainSendFails? || a.MainCancelled?)
    ensures !MainStep(s, a).value.input.Complaining?
  {
  }

  lemma OutputKeepsInput(limit: nat, s: State, a: Action)
    requires OutputStep(limit, s, a).Some?
    ensures OutputStep(limit, s, a).value.input == s.input
  {
  }

  lemma ComplainsOnlyOnUnsupported(limit: nat, s: State, a: Action)
    requires Step(limit, s, a).Some? && !s.input.Complaining? && a != InputReceived(Unsupported)
    ensures !Step(limit, s, a).value.input.Complaining? && !a.InputSent?
  {
    if OutputAction(a) {
      OutputKeepsInput(limit, s, a);
    } else if !InputAction(a) && !OutsideAction(a) {
      MainNeverComplains(s, a);
    }
  }

  lemma ExitSent(limit: nat, now: int, before: seq<Action>, pid: int, ttl: nat)
    requires Exec(limit, Begin(now), before).Some? && Exec(limit, Begin(now), before).value.pc.SendingExit?
    ensures var s := Exec(limit, Begin(now), before).value;
            var s' := s.(pc := Cleaning, trace := s.trace + [ExitMessage(s.pc.code)]);
            Exec(limit, Begin(now), before + [MainSent(pid, ttl)]) == Some(s') && InEpilogue(s') && Inv(limit, s')
  {
    RunKeepsInv(limit, now, before);
    var s := Exec(limit, Begin(now), before).value;
    ExecSnoc(limit, Begin(now), before, MainSent(pid, ttl));
    RunKeepsInv(limit, now, before + [MainSent(pid, ttl)]);
    assert Step(limit, s, MainSent(pid, ttl)) == MainStep(s, MainSent(pid, ttl));
  }

  /** Over every continuation: nothing follows the exit message exactly when the input task sends no complaint
      after it; and a client that sends no unsupported message hears nothing after the exit. */
  lemma SilenceAfterExit(limit: nat, now: int, before: seq<Action>, pid: int, ttl: nat, after: seq<Action>)
    requires Exec(limit, Begin(now), before).Some? && Exec(limit, Begin(now), before).value.pc.SendingExit?
    requires Exec(limit, Begin(now), before + [MainSent(pid, ttl)] + after).Some?
    ensures var s, end := Exec(limit, Begin(now), before).value,
                          Exec(limit, Begin(now), before + [MainSent(pid, ttl)] + after).value;
            var said := s.trace + [ExitMessage(s.pc.code)];
            && said <= end.trace && (end.trace == said <==> InputSent !in after)
            && (InputReceived(Unsupported) !in before + [MainSent(pid, ttl)] + after ==> end.trace == said)
  {
    var run := before + [MainSent(pid, ttl)];
    ExitSent(limit, now, before, pid, ttl);
    ExecAppend(limit, Begin(now), run, after);
    EpilogueTrace(limit, Exec(limit, Begin(now), run).value, after);
    if InputReceived(Unsupported) !in run + after {
      NoComplaint(limit, now, run + after);
    }
  }

  /** Some continuation has a message after the exit. */
  ghost predicate MoreCanBeSaid(limit: nat, s: State) {
    exists after: seq<Action> :: Exec(limit, s, after).Some? && Exec(limit, s, after).value.trace != s.trace
  }

  /** When the exit message has been sent, something may still follow it exactly if the input task has not ended. */
  lemma ErrorCanFollowExitIff(limit: nat, now: int, before: seq<Action>, pid: int, ttl: nat)
    requires Exec(limit, Begin(now), before).Some? && Exec(limit, Begin(now), before).value.pc.SendingExit?
    ensures Exec(limit, Begin(now), before + [MainSent(pid, ttl)]).Some?
    ensures var s := Exec(limit, Begin(now), before + [MainSent(pid, ttl)]).value;
            MoreCanBeSaid(limit, s) <==> InputActive(s.input)
  {
    ExitSent(limit, now, before, pid, ttl);
    var s := Exec(limit, Begin(now), before + [MainSent(pid, ttl)]).value;
    if InputActive(s.input) {
      var after, end := Complaint(limit, s);
      assert end.trace != s.trace;
    } else if MoreCanBeSaid(limit, s) {
      var after: seq<Action> :| Exec(limit, s, after).Some? && Exec(limit, s, after).value.trace != s.trace;
      EpilogueTrace(limit, s, after);
    }
  }

  lemma Complaint(limit: nat, s: State) returns (after: seq<Action>, end: State)
    requires InputActive(s.input)
    ensures Exec(limit, s, after) == Some(end) && end.trace == s.trace + [ErrorMessage]
  {
    var complaining := s.(input := Complaining);
    after := [];
    if s.input.Receiving? {
      OneMore(limit, s, [], s, InputReceived(Unsupported), complaining);
      after := [] + [InputReceived(Unsupported)];
    }
    end := Send(complaining.(input := Receiving), ErrorMessage);
    OneMore(limit, s, after, complaining, InputSent, end);
    after := after + [InputSent];
  }

  // ----- After a cancellation -----

  /** Only output and error messages were added. */
  predicate OnlyTaskMessages(trace: seq<Message>, trace': seq<Message>) {
    trace <= trace' && forall i :: |trace| <= i < |trace'| ==> trace'[i].Output? || trace'[i].ErrorMessage?
  }

  lemma TaskMessage(trace: seq<Message>, message: Message)
    requires message.Output? || message.ErrorMessage?
    ensures OnlyTaskMessages(trace, trace + [message]) && OnlyTaskMessages(trace, trace)
  {
  }

  lemma TasksSayOwn(limit: nat, s: State, a: Action)
    requires Step(limit, s, a).Some? && (OutputAction(a) || InputAction(a) || OutsideAction(a))
    ensures var s' := Step(limit, s, a).value;
            && s'.pc == s.pc
            && (s'.trace == s.trace || s'.trace == s.trace + [ErrorMessage]
                || (s.output.Sending? && s'.trace == s.trace + [Output(s.output.kept)]))
  {
    if OutputAction(a) {
      OutputSaysOwn(limit, s, a);
    }
  }

  lemma OutputReadSaysNothing(limit: nat, s: State, chunk: Bytes)
    requires OutputStep(limit, s, OutputRead(chunk)).Some?
    ensures var s' := OutputStep(limit, s, OutputRead(chunk)).value; s'.pc == s.pc && s'.trace == s.trace
  {
  }

  lemma OutputSaysOwn(limit: nat, s: State, a: Action)
    requires OutputStep(limit, s, a).Some?
    ensures var s' := OutputStep(limit, s, a).value;
            && s'.pc == s.pc
            && (s'.trace == s.trace || s'.trace == s.trace + [ErrorMessage]
                || (s.output.Sending? && s'.trace == s.trace + [Output(s.output.kept)]))
  {
    if a.OutputRead? {
      OutputReadSaysNothing(limit, s, a.chunk);
    }
  }

  lemma EndingTaskStep(limit: nat, s: State, a: Action)
    requires Ending(s.pc) && Step(limit, s, a).Some? && (OutputAction(a) || InputAction(a) || OutsideAction(a))
    ensures Ending(Step(limit, s, a).value.pc) && OnlyTaskMessages(s.trace, Step(limit, s, a).value.trace)
  {
    TasksSayOwn(limit, s, a);
    TaskMessage(s.trace, ErrorMessage);
    if s.output.Sending? {
      TaskMessage(s.trace, Output(s.output.kept));
    }
  }

  lemma EndingMainStep(s: State, a: Action)
    requires Ending(s.pc) && MainStep(s, a).Some?
    ensures Ending(MainStep(s, a).value.pc) && MainStep(s, a).value.trace == s.trace
  {
    assert CloseDown(s).pc.Finished? && CloseDown(s).trace == s.trace;
    assert a.CleanUp? || a.ProcessWaited?;
  }

  lemma {:induction false} EndingRun(limit: nat, s: State, after: seq<Action>)
    requires Ending(s.pc) && Exec(limit, s, after).Some?
    ensures Ending(Exec(limit, s, after).value.pc) && OnlyTaskMessages(s.trace, Exec(limit, s, after).value.trace)
    decreases |after|
  {
    if after != [] {
      var init, last := after[..|after| - 1], after[|after| - 1];
      EndingRun(limit, s, init);
      var mid := Exec(limit, s, init).value;
      if OutputAction(last) || InputAction(last) || OutsideAction(last) {
        EndingTaskStep(limit, mid, last);
      } else {
        EndingMainStep(mid, last);
      }
    }
  }

  /** The cleanup is never stuck: it goes on at once, or waits for a process that has been killed and whose exit
      lets it finish. */
  predicate CleanupGoesOn(limit: nat, s: State) {
    && (s.pc.Cleaning? ==>
          Step(limit, s, CleanUp).Some? && (Step(limit, s, CleanUp).value.pc.CleanWait? || Step(limit, s, CleanUp).value.pc.Finished?))
    && (s.pc.CleanWait? && Reaped(s) ==>
          Step(limit, s, ProcessWaited).Some? && Step(limit, s, ProcessWaited).value.pc.Finished?)
    && (s.pc.CleanWait? && !Reaped(s) ==> s.process == Some(None))
  }

  lemma CleanupIsNotStuck(limit: nat, s: State)
    requires Inv(limit, s) && Ending(s.pc)
    ensures CleanupGoesOn(limit, s)
  {
  }

  /** Cancelled anywhere, over every continuation: the session stays in its cleanup, which is never stuck, and only
      its tasks still speak: output and errors, but no start, timeout or exit. Once it has finished, all is silent. */
  lemma CancelledSession(limit: nat, now: int, before: seq<Action>, after: seq<Action>, later: seq<Action>)
    requires Exec(limit, Begin(now), before + [MainCancelled] + after + later).Some?
    ensures Exec(limit, Begin(now), before).Some? && Exec(limit, Begin(now), before + [MainCancelled] + after).Some?
    ensures var s, mid := Exec(limit, Begin(now), before).value, Exec(limit, Begin(now), before + [MainCancelled] + after).value;
            && Ending(mid.pc) && CleanupGoesOn(limit, mid) && OnlyTaskMessages(s.trace, mid.trace)
            && (mid.pc.Finished? ==> Exec(limit, Begin(now), before + [MainCancelled] + after + later).value.trace == mid.trace)
  {
    var begin, run := Begin(now), before + [MainCancelled];
    ExecAppend(limit, begin, run + after, later);
    ExecAppend(limit, begin, run, after);
    ExecAppend(limit, begin, before, [MainCancelled]);
    ExecSnoc(limit, begin, before, MainCancelled);
    var s := Exec(limit, begin, before).value;
    CancelledIsEnding(limit, s);
    EndingRun(limit, Exec(limit, begin, run).value, after);
    RunKeepsInv(limit, now, run + after);
    var mid := Exec(limit, begin, run + after).value;
    CleanupIsNotStuck(limit, mid);
    if mid.pc.Finished? {
      EpilogueTrace(limit, mid, later);
    }
  }

  lemma CancelledIsEnding(limit: nat, s: State)
    requires Step(limit, s, MainCancelled).Some?
    ensures Ending(Step(limit, s, MainCancelled).value.pc) && Step(limit, s, MainCancelled).value.trace == s.trace
  {
    var s' := CancelStep(limit, s);
  }

  /** And one way it can end: at once if there is no process to wait for, otherwise with the killed process,
      without another message. */
  lemma CancelledSessionEnds(limit: nat, now: int, actions: seq<Action>, code: int) returns (rest: seq<Action>)
    requires Exec(limit, Begin(now), actions).Some? && !Ending(Exec(limit, Begin(now), actions).value.pc)
    ensures rest == [MainCancelled] + [CleanUp] || rest == [MainCancelled] + [CleanUp] + [LeaderExits(code)] + [ProcessWaited]
    ensures var end := Exec(limit, Begin(now), actions + rest);
            end.Some? && end.value.pc.Finished? && end.value.trace == Exec(limit, Begin(now), actions).value.trace
  {
    var begin, s, run := Begin(now), Exec(limit, Begin(now), actions).value, actions + [MainCancelled];
    var s1 := CancelStep(limit, s);
    OneMore(limit, begin, actions, s, MainCancelled, s1);
    if s1.process == Some(None) {
      OneMore(limit, begin, run, s1, CleanUp, s1.(pc := CleanWait));
      CleanWaitEnds(limit, begin, run + [CleanUp], s1.(pc := CleanWait), code);
      rest := [MainCancelled] + [CleanUp] + [LeaderExits(code)] + [ProcessWaited];
      assert actions + rest == run + [CleanUp] + [LeaderExits(code)] + [ProcessWaited];
    } else {
      OneMore(limit, begin, run, s1, CleanUp, CloseDown(s1));
      rest := [MainCancelled] + [CleanUp];
      assert actions + rest == run + [CleanUp];
    }
  }

  // ----- Output cut off without a report -----

  lemma Opening(limit: nat, pid: int, ttl: nat) returns (run: seq<Action>, s: State)
    ensures Exec(limit, Begin(0), run) == Some(s)
    ensures s == State(Racing, 0, ttl, Some(None), true, false, false, Reading, Receiving, Pending, 0, [], [StartMessage(pid)],
                       false, false, false)
  {
    var begin := Begin(0);
    var s1 := begin.(pc := Spawning, masterOpen := true, slaveOpen := true);
    OneMore(limit, begin, [], begin, StartAccepted(None), s1);
    run := [] + [StartAccepted(None)];
    var s2 := s1.(pc := SendingStart, slaveOpen := false, process := Some(None));
    OneMore(limit, begin, run, s1, SpawnSucceeds, s2);
    run := run + [SpawnSucceeds];
    s := Send(s2.(pc := Racing, deadline := ttl, output := Reading, input := Receiving, waiter := Pending), StartMessage(pid));
    OneMore(limit, begin, run, s2, MainSent(pid, ttl), s);
    run := run + [MainSent(pid, ttl)];
  }

  lemma ChunkSteps(limit: nat, s: State, chunk: Bytes, s1: State, s2: State)
    requires s.output.Reading? && s.emitted < limit && 0 < |chunk| <= READ_SIZE
    requires var kept := Clip(chunk, limit - s.emitted);
             && s1 == s.(terminal := s.terminal + chunk, emitted := s.emitted + |kept|, output := Sending(kept))
             && s2 == s1.(output := Reading, trace := s.trace + [Output(kept)])
    ensures Step(limit, s, OutputRead(chunk)) == Some(s1) && Step(limit, s1, OutputSent) == Some(s2)
  {
  }

  /** The terminal produces a chunk before the limit is reached, and what is kept of it is sent. */
  lemma Talking(limit: nat, begin: State, run: seq<Action>, s: State, chunk: Bytes) returns (run': seq<Action>, s': State)
    requires Exec(limit, begin, run) == Some(s) && s.output.Reading? && s.emitted < limit && 0 < |chunk| <= READ_SIZE
    ensures Exec(limit, begin, run') == Some(s')
    ensures var kept := Clip(chunk, limit - s.emitted);
            s' == s.(terminal := s.terminal + chunk, emitted := s.emitted + |kept|, trace := s.trace + [Output(kept)])
  {
    var kept := Clip(chunk, limit - s.emitted);
    var s1 := s.(terminal := s.terminal + chunk, emitted := s.emitted + |kept|, output := Sending(kept));
    s' := s1.(output := Reading, trace := s.trace + [Output(kept)]);
    ChunkSteps(limit, s, chunk, s1, s');
    OneMore(limit, begin, run, s, OutputRead(chunk), s1);
    OneMore(limit, begin, run + [OutputRead(chunk)], s1, OutputSent, s');
    run' := run + [OutputRead(chunk)] + [OutputSent];
  }

  /** The process ends by itself, and the race with it. */
  lemma Leaving(limit: nat, begin: State, run: seq<Action>, s: State, code: int) returns (run': seq<Action>, s': State)
    requires Exec(limit, begin, run) == Some(s) && s.pc.Racing? && s.process == Some(None) && s.waiter.Pending?
    requires s.output == OutputDone(Eof) && s.input.Receiving? && !s.timedOut && !s.closing && !s.limitHit
    ensures Exec(limit, begin, run') == Some(s')
    ensures s' == s.(pc := CheckOutput, process := Some(Some(code)), waiter := WaitDone)
  {
    var s1 := s.(process := Some(Some(code)));
    OneMore(limit, begin, run, s, LeaderExits(code), s1);
    var s2 := s1.(waiter := WaitDone);
    OneMore(limit, begin, run + [LeaderExits(code)], s1, WaiterRuns, s2);
    run' := run + [LeaderExits(code)] + [WaiterRuns];
    s' := s2.(pc := CheckOutput);
    assert JudgeRace(s2) == s';
    OneMore(limit, begin, run', s2, RaceOver, s');
    run' := run' + [RaceOver];
  }

  lemma ExitSteps(limit: nat, s: State, s1: State, code: int)
    requires s.pc.CheckOutput? && s.process == Some(Some(code)) && s1 == s.(pc := SendingExit(code))
    requires !OutputActive(s.output) && !s.timedOut && !s.closing && !s.limitHit
    ensures Step(limit, s, LookAtOutput) == Some(s1)
    ensures Step(limit, s1, MainSent(0, 0)) == Some(Send(s1.(pc := Cleaning), ExitMessage(code)))
  {
    assert Step(limit, s, LookAtOutput) == MainStep(s, LookAtOutput);
    assert Conclude(s) == s1;
    assert Step(limit, s1, MainSent(0, 0)) == MainStep(s1, MainSent(0, 0));
  }

  lemma Exiting(limit: nat, begin: State, run: seq<Action>, s: State, code: int) returns (run': seq<Action>, s': State)
    requires Exec(limit, begin, run) == Some(s) && s.pc.CheckOutput? && s.process == Some(Some(code))
    requires !OutputActive(s.output) && !s.timedOut && !s.closing && !s.limitHit
    ensures Exec(limit, begin, run') == Some(s') && s' == s.(pc := Cleaning, trace := s.trace + [ExitMessage(code)])
  {
    var s1 := s.(pc := SendingExit(code));
    ExitSteps(limit, s, s1, code);
    OneMore(limit, begin, run, s, LookAtOutput, s1);
    s' := Send(s1.(pc := Cleaning), ExitMessage(code));
    OneMore(limit, begin, run + [LookAtOutput], s1, MainSent(0, 0), s');
    run' := run + [LookAtOutput] + [MainSent(0, 0)];
  }

  /** Racing, with `n` bytes of the content read and sent, and nothing else said but the start. */
  predicate HasRead(s: State, content: Bytes, n: nat) {
    && n <= |content| && s.output.Reading? && s.emitted == n && s.terminal == content[..n]
    && s.pc.Racing? && s.process == Some(None) && s.waiter.Pending? && s.input.Receiving?
    && !s.timedOut && !s.closing && !s.limitHit && NoErrors(s.trace)
  }

  predicate NoErrors(trace: seq<Message>) {
    forall i :: 0 <= i < |trace| ==> !trace[i].ErrorMessage?
  }

  lemma NoErrorAdded(trace: seq<Message>, message: Message)
    requires NoErrors(trace) && !message.ErrorMessage?
    ensures NoErrors(trace + [message])
  {
  }

  lemma NextByte(content: Bytes, n: nat)
    requires n < |content|
    ensures content[..n] + [content[n]] == content[..n + 1]
  {
  }

  /** One more byte. */
  lemma ReadingOne(limit: nat, run: seq<Action>, s: State, content: Bytes, n: nat) returns (run': seq<Action>, s': State)
    requires n < limit && n < |content| && Exec(limit, Begin(0), run) == Some(s) && HasRead(s, content, n)
    ensures Exec(limit, Begin(0), run') == Some(s') && HasRead(s', content, n + 1)
  {
    NextByte(content, n);
    NoErrorAdded(s.trace, Output(Clip([content[n]], limit - n)));
    run', s' := Talking(limit, Begin(0), run, s, [content[n]]);
  }

  /** Reading byte by byte up to a point before the limit. */
  lemma {:induction false} ReadingUpTo(limit: nat, pid: int, ttl: nat, content: Bytes, n: nat) returns (run: seq<Action>, s: State)
    requires n < limit && n <= |content|
    ensures Exec(limit, Begin(0), run) == Some(s) && HasRead(s, content, n)
    decreases n
  {
    if n == 0 {
      run, s := Opening(limit, pid, ttl);
    } else {
      run, s := ReadingUpTo(limit, pid, ttl, content, n - 1);
      run, s := ReadingOne(limit, run, s, content, n - 1);
    }
  }

  lemma LastPart(content: Bytes, k: nat)
    requires k <= |content|
    ensures content[..k] + content[k..] == content
  {
  }

  /** The last read crosses the limit. */
  lemma CrossingRead(limit: nat, run: seq<Action>, s: State, content: Bytes) returns (run': seq<Action>, s': State)
    requires 0 < limit < |content| < limit + READ_SIZE
    requires Exec(limit, Begin(0), run) == Some(s) && HasRead(s, content, limit - 1)
    ensures Exec(limit, Begin(0), run') == Some(s')
    ensures s' == s.(terminal := content, emitted := s'.emitted, trace := s'.trace) && NoErrors(s'.trace)
  {
    LastPart(content, limit - 1);
    NoErrorAdded(s.trace, Output(Clip(content[limit - 1..], 1)));
    run', s' := Talking(limit, Begin(0), run, s, content[limit - 1..]);
  }

  /** And the terminal ends. */
  lemma Crossing(limit: nat, run: seq<Action>, s: State, content: Bytes) returns (run': seq<Action>, s': State)
    requires 0 < limit < |content| < limit + READ_SIZE
    requires Exec(limit, Begin(0), run) == Some(s) && HasRead(s, content, limit - 1)
    ensures Exec(limit, Begin(0), run') == Some(s') && s'.output == OutputDone(Eof) && s'.terminal == content
    ensures s'.pc.Racing? && s'.process == Some(None) && s'.waiter.Pending? && s'.input.Receiving?
    ensures !s'.timedOut && !s'.closing && !s'.limitHit && NoErrors(s'.trace)
  {
    var before: State;
    run', before := CrossingRead(limit, run, s, content);
    s' := before.(output := OutputDone(Eof));
    OneMore(limit, Begin(0), run', before, OutputEnds, s');
    run' := run' + [OutputEnds];
  }

  /** However large the limit: a terminal that produces more, but less than one read beyond it, can be cut off
      without a word. The client gets the first `limit` bytes, no error, and the exit code of the process. */
  lemma SilentCutOff(limit: nat, content: Bytes, pid: int, ttl: nat, code: int) returns (actions: seq<Action>)
    requires 0 < limit < |content| < limit + READ_SIZE
    ensures Exec(limit, Begin(0), actions).Some? && ReadBytes(actions) == content
    ensures var s := Exec(limit, Begin(0), actions).value;
            && s.output == OutputDone(Eof) && SentBytes(s.trace) == content[..limit]
            && NoErrors(s.trace) && s.trace != [] && s.trace[|s.trace| - 1] == ExitMessage(code)
  {
    var s: State;
    actions, s := ReadingUpTo(limit, pid, ttl, content, limit - 1);
    actions, s := Crossing(limit, actions, s, content);
    actions, s := Leaving(limit, Begin(0), actions, s, code);
    NoErrorAdded(s.trace, ExitMessage(code));
    actions, s := Exiting(limit, Begin(0), actions, s, code);
    RunHistory(limit, 0, actions);
    BoundedOutput(limit, 0, actions);
  }

  lemma ReadsAreBounded(limit: nat, s: State, a: Action)
    requires Step(limit, s, a).Some? && a.OutputRead?
    ensures 0 < |a.chunk| <= READ_SIZE
  {
  }

  /** Output that never triggers the report stays below the limit plus one read. */
  lemma {:induction false} UnreportedIsBounded(limit: nat, now: int, actions: seq<Action>)
    requires Exec(limit, Begin(now), actions).Some? && !Overrun(limit, actions)
    ensures |ReadBytes(actions)| == 0 || (0 < limit && |ReadBytes(actions)| < limit + READ_SIZE)
    decreases |actions|
  {
    if actions != [] {
      var init, last := actions[..|actions| - 1], actions[|actions| - 1];
      UnreportedIsBounded(limit, now, init);
      if last.OutputRead? {
        ReadsAreBounded(limit, Exec(limit, Begin(now), init).value, last);
      }
    }
  }

  /** The terminal produced `content` and its output task ended without reporting the limit. */
  ghost predicate EndsUnreported(limit: nat, actions: seq<Action>, content: Bytes) {
    && Exec(limit, Begin(0), actions).Some? && Exec(limit, Begin(0), actions).value.output == OutputDone(Eof)
    && ReadBytes(actions) == content
  }

  /** Which output beyond the limit can go unreported: exactly that of less than one read beyond a positive limit. */
  lemma SilentCutOffIff(limit: nat, content: Bytes)
    requires |content| > limit
    ensures (exists actions: seq<Action> :: EndsUnreported(limit, actions, content)) <==> 0 < limit && |content| < limit + READ_SIZE
  {
    if 0 < limit && |content| < limit + READ_SIZE {
      var actions := SilentCutOff(limit, content, 7, 60, 0);
      assert EndsUnreported(limit, actions, content);
    }
    if actions: seq<Action> :| EndsUnreported(limit, actions, content) {
      BoundedOutput(limit, 0, actions);
      UnreportedIsBounded(limit, 0, actions);
    }
  }

  // ----- Two sessions -----

  /** A session with an error message after its exit message: the client sends something unsupported too late. */
  lemma ErrorAfterExit(limit: nat, pid: int, ttl: nat, code: int) returns (actions: seq<Action>)
    ensures Exec(limit, Begin(0), actions).Some?
    ensures Exec(limit, Begin(0), actions).value.trace == [StartMessage(pid)] + [ExitMessage(code)] + [ErrorMessage]
  {
    var s: State;
    actions, s := Opening(limit, pid, ttl);
    OneMore(limit, Begin(0), actions, s, OutputEnds, s.(output := OutputDone(Eof)));
    actions, s := actions + [OutputEnds], s.(output := OutputDone(Eof));
    actions, s := Leaving(limit, Begin(0), actions, s, code);
    actions, s := Exiting(limit, Begin(0), actions, s, code);
    var after, end := Complaint(limit, s);
    ExecAppend(limit, Begin(0), actions, after);
    actions := actions + after;
  }

  lemma Refusing(limit: nat, s: State) returns (actions: seq<Action>)
    requires s == Begin(0).(pc := SendingError, masterOpen := true, slaveOpen := true, resizeFailed := true)
    ensures Exec(limit, Begin(0), actions) == Some(s)
  {
    var begin := Begin(0);
    OneMore(limit, begin, [], begin, StartAccepted(Some(InvalidCommand)), s);
    actions := [] + [StartAccepted(Some(InvalidCommand))];
  }

  /** A session refused for its terminal size: it reports the error, finishes, and the slave stays open. */
  lemma InvalidSizeLeavesSlaveOpen(limit: nat) returns (actions: seq<Action>, s: State)
    ensures Exec(limit, Begin(0), actions) == Some(s)
    ensures s.pc.Finished? && s.trace == [ErrorMessage] && s.process.None? && !s.masterOpen && s.slaveOpen
  {
    var begin := Begin(0);
    var refused := begin.(pc := SendingError, masterOpen := true, slaveOpen := true, resizeFailed := true);
    actions := Refusing(limit, refused);
    var told := Send(refused.(pc := Cleaning), ErrorMessage);
    OneMore(limit, begin, actions, refused, MainSent(0, 0), told);
    actions := actions + [MainSent(0, 0)];
    s := CloseDown(told);
    OneMore(limit, begin, actions, told, CleanUp, s);
    actions := actions + [CleanUp];
  }
}
