/**
 The streaming HTTP response of `app.py` (`execute_stream` and `encode_events`) driving the command stream: the
 first event is fetched before the response starts, and every chunk the client takes resumes the generator once.
 A client that goes away while the next event is awaited closes the stream at once. One that goes away before the
 body is started, or while a chunk is being sent, leaves the generators suspended and unreferenced; closing them is
 then up to the event loop, which finalizes such generators. The steps of the stream itself interleave freely.
 */
module Response {
  import opened Common
  import Stream
  import StreamRuns
  import Execution
  import Sse

  /** `Abandoned`: nothing refers to the response any more, and its generators are suspended. */
  datatype Phase = Fetching | Ready | Sending | Pulling | Abandoned | Closing | Ended

  /** `steps` is history: what the stream has done so far. */
  datatype State = State(phase: Phase, stream: Stream.State, body: string, sent: nat, steps: seq<Stream.Action>)

  /** The parts of the events that the stream leaves open. */
  datatype Texts = Texts(timeoutSeconds: nat, error: string)

  datatype Action =
    | Advance(step: Stream.Action)
    | Fetched
    | StartBody
    | TakeNext
    | Arrived
    | StreamOver
    | Drop
    | Disconnect
    | Finalize
    | CloseDone

  function Begin(now: int): State {
    State(Fetching, Stream.Begin(now), "", 0, [])
  }

  /** The stream takes a step of its own or is made to. */
  function Drive(limit: nat, r: State, step: Stream.Action, phase: Phase): Option<State> {
    match Stream.Step(limit, r.stream, step)
    case None => None
    case Some(s) => Some(r.(stream := s, steps := r.steps + [step], phase := phase))
  }

  function Encoded(texts: Texts, event: Stream.Event): string {
    Sse.EncodeEvent(Execution.ToSse(event, texts.timeoutSeconds, texts.error))
  }

  function SendNext(texts: Texts, r: State): State
    requires r.sent < |r.stream.trace|
  {
    r.(phase := Sending, body := r.body + Encoded(texts, r.stream.trace[r.sent]), sent := r.sent + 1)
  }

  function Step(limit: nat, texts: Texts, r: State, a: Action): Option<State> {
    match a
    case Advance(step) => if step.Resume? || step.Close? then None else Drive(limit, r, step, r.phase)
    case Fetched => if r.phase.Fetching? && (r.stream.pc.AtStart? || r.stream.pc.AtError?) then Some(r.(phase := Ready)) else None
    case StartBody => if r.phase.Ready? && r.sent < |r.stream.trace| then Some(SendNext(texts, r)) else None
    case TakeNext => if r.phase.Sending? then Drive(limit, r, Stream.Resume, Pulling) else None
    case Arrived => if r.phase.Pulling? && r.sent < |r.stream.trace| then Some(SendNext(texts, r)) else None
    case StreamOver => if r.phase.Pulling? && r.stream.pc.Finished? then Some(r.(phase := Ended)) else None
    case Drop => if r.phase.Ready? then Some(r.(phase := Abandoned)) else None
    case Disconnect =>
      if r.phase.Sending? then Some(r.(phase := Abandoned))
      else if r.phase.Pulling? then Drive(limit, r, Stream.Close, Closing)
      else None
    case Finalize => if r.phase.Abandoned? then Drive(limit, r, Stream.Close, Closing) else None
    case CloseDone => if r.phase.Closing? && r.stream.pc.Finished? then Some(r.(phase := Ended)) else None
  }

  function Exec(limit: nat, texts: Texts, r: State, actions: seq<Action>): Option<State>
    decreases |actions|
  {
    if actions == [] then Some(r)
    else
      match Exec(limit, texts, r, actions[..|actions| - 1])
      case None => None
      case Some(before) => Step(limit, texts, before, actions[|actions| - 1])
  }

  // ----- The invariant -----

  predicate YieldPoint(pc: Stream.Pc) {
    pc.AtError? || pc.AtStart? || pc.AtOutput? || pc.AtTimeout? || pc.AtExit?
  }

  /** How far the stream is ahead of what was sent. */
  predicate PhaseFits(phase: Phase, pc: Stream.Pc, yielded: nat, sent: nat) {
    match phase
    case Fetching => sent == 0 && if YieldPoint(pc) then yielded == 1 && (pc.AtStart? || pc.AtError?) else yielded == 0 && (pc.Entry? || pc.Finished?)
    case Ready => sent == 0 && yielded == 1 && (pc.AtStart? || pc.AtError?)
    case Abandoned => YieldPoint(pc) && sent <= yielded <= sent + 1
    case Sending => yielded == sent && YieldPoint(pc)
    case Pulling => if YieldPoint(pc) then yielded == sent + 1 else yielded == sent
    case Closing => StreamRuns.ClosingDown(pc) && sent <= yielded <= sent + 1
    case Ended => pc.Finished? && sent <= yielded <= sent + 1
  }

  ghost predicate Inv(limit: nat, texts: Texts, now: int, r: State) {
    && Stream.Exec(limit, Stream.Begin(now), r.steps) == Some(r.stream)
    && r.sent <= |r.stream.trace|
    && r.body == Sse.EncodeStream(Execution.ToSseAll(r.stream.trace[..r.sent], texts.timeoutSeconds, texts.error))
    && PhaseFits(r.phase, r.stream.pc, |r.stream.trace|, r.sent)
    && (r.phase.Ended? && r.sent < |r.stream.trace| ==> r.stream.closed)
    && (r.phase.Closing? ==> r.stream.closed) && (r.stream.closed ==> r.phase.Closing? || r.phase.Ended?)
  }

  /** One step of the stream yields at most one event, and only from a point where it is not suspended at a yield. */
  predicate Yields(s: Stream.State, s': Stream.State) {
    || (s'.trace == s.trace && !YieldPoint(s'.pc))
    || (|s'.trace| == |s.trace| + 1 && s.trace <= s'.trace && YieldPoint(s'.pc))
  }

  lemma SuspendedStays(limit: nat, s: Stream.State, step: Stream.Action)
    requires Stream.Step(limit, s, step).Some? && !step.Resume? && !step.Close? && YieldPoint(s.pc)
    ensures var s' := Stream.Step(limit, s, step).value; s'.pc == s.pc && s'.trace == s.trace && s'.closed == s.closed
  {
  }

  lemma ConsumeYields(limit: nat, s: Stream.State)
    requires s.queue != [] && s.pc.Waiting?
    ensures Yields(s, Stream.Consume(s, limit)) && Stream.Consume(s, limit).closed == s.closed
  {
  }

  lemma WaitedYields(limit: nat, s: Stream.State)
    requires Stream.Step(limit, s, Stream.ProcessWaited).Some?
    ensures var s' := Stream.Step(limit, s, Stream.ProcessWaited).value; Yields(s, s') && s'.closed == s.closed
  {
  }

  lemma RunningYields(limit: nat, s: Stream.State, step: Stream.Action)
    requires Stream.Step(limit, s, step).Some? && !step.Resume? && !step.Close? && !YieldPoint(s.pc)
    ensures Yields(s, Stream.Step(limit, s, step).value) && Stream.Step(limit, s, step).value.closed == s.closed
  {
    if step.TakeItem? {
      ConsumeYields(limit, s);
    } else if step.ProcessWaited? {
      WaitedYields(limit, s);
    }
  }

  lemma ResumedYields(limit: nat, s: Stream.State)
    requires Stream.Step(limit, s, Stream.Resume).Some?
    ensures YieldPoint(s.pc) && Yields(s, Stream.Step(limit, s, Stream.Resume).value)
    ensures Stream.Step(limit, s, Stream.Resume).value.closed == s.closed
  {
  }

  lemma ClosedYieldsNothing(limit: nat, s: Stream.State)
    requires Stream.Step(limit, s, Stream.Close).Some?
    ensures var s' := Stream.Step(limit, s, Stream.Close).value; StreamRuns.ClosingDown(s'.pc) && s'.trace == s.trace && s'.closed
  {
  }

  lemma PrefixKept(trace: seq<Stream.Event>, trace': seq<Stream.Event>, n: nat)
    requires trace <= trace' && n <= |trace|
    ensures trace'[..n] == trace[..n]
  {
  }

  /** What was sent stays what it is while the stream goes on. */
  lemma DriveKeeps(limit: nat, texts: Texts, now: int, r: State, step: Stream.Action, phase: Phase, s': Stream.State)
    requires Inv(limit, texts, now, r) && Stream.Step(limit, r.stream, step) == Some(s')
    requires r.stream.trace <= s'.trace && PhaseFits(phase, s'.pc, |s'.trace|, r.sent)
    requires (phase.Ended? && r.sent < |s'.trace| ==> s'.closed) && (phase.Closing? ==> s'.closed)
    requires s'.closed ==> phase.Closing? || phase.Ended?
    ensures Inv(limit, texts, now, r.(stream := s', steps := r.steps + [step], phase := phase))
  {
    StreamRuns.ExecSnoc(limit, Stream.Begin(now), r.steps, step);
    PrefixKept(r.stream.trace, s'.trace, r.sent);
  }

  lemma ClosedStays(limit: nat, s: Stream.State, step: Stream.Action)
    requires Stream.Step(limit, s, step).Some? && !step.Close?
    ensures Stream.Step(limit, s, step).value.closed == s.closed
  {
    if step.TakeItem? {
      ConsumeYields(limit, s);
    }
  }

  lemma EntryYieldsFirst(limit: nat, s: Stream.State, step: Stream.Action)
    requires Stream.Step(limit, s, step).Some? && s.pc.Entry?
    ensures var pc := Stream.Step(limit, s, step).value.pc; pc.Entry? || pc.Finished? || pc.AtStart? || pc.AtError?
  {
  }

  lemma AdvanceFits(limit: nat, r: State, step: Stream.Action)
    requires Stream.Step(limit, r.stream, step).Some? && !step.Resume? && !step.Close?
    requires PhaseFits(r.phase, r.stream.pc, |r.stream.trace|, r.sent)
    ensures var s' := Stream.Step(limit, r.stream, step).value;
            r.stream.trace <= s'.trace && PhaseFits(r.phase, s'.pc, |s'.trace|, r.sent)
            && (StreamRuns.ClosingDown(r.stream.pc) ==> s'.trace == r.stream.trace)
  {
    if StreamRuns.ClosingDown(r.stream.pc) {
      StreamRuns.ClosingStep(limit, r.stream, step);
    } else if YieldPoint(r.stream.pc) {
      SuspendedStays(limit, r.stream, step);
    } else {
      RunningYields(limit, r.stream, step);
      if r.stream.pc.Entry? {
        EntryYieldsFirst(limit, r.stream, step);
      }
    }
  }

  lemma AdvanceKeepsInv(limit: nat, texts: Texts, now: int, r: State, step: Stream.Action)
    requires Inv(limit, texts, now, r) && Step(limit, texts, r, Advance(step)).Some?
    ensures Inv(limit, texts, now, Step(limit, texts, r, Advance(step)).value)
  {
    AdvanceFits(limit, r, step);
    ClosedStays(limit, r.stream, step);
    DriveKeeps(limit, texts, now, r, step, r.phase, Stream.Step(limit, r.stream, step).value);
  }

  lemma ToSseAllSnoc(trace: seq<Stream.Event>, n: nat, texts: Texts)
    requires n < |trace|
    ensures Sse.EncodeStream(Execution.ToSseAll(trace[..n + 1], texts.timeoutSeconds, texts.error))
         == Sse.EncodeStream(Execution.ToSseAll(trace[..n], texts.timeoutSeconds, texts.error)) + Encoded(texts, trace[n])
  {
    var events := Execution.ToSseAll(trace[..n + 1], texts.timeoutSeconds, texts.error);
    assert events[..n] == Execution.ToSseAll(trace[..n], texts.timeoutSeconds, texts.error);
    assert events[..n + 1] == events;
    Sse.StreamExtends(events, n);
  }

  lemma SendKeepsInv(limit: nat, texts: Texts, now: int, r: State)
    requires Inv(limit, texts, now, r) && (r.phase.Ready? || r.phase.Pulling?) && r.sent < |r.stream.trace|
    ensures Inv(limit, texts, now, SendNext(texts, r))
  {
    ToSseAllSnoc(r.stream.trace, r.sent, texts);
  }

  lemma StepKeepsInv(limit: nat, texts: Texts, now: int, r: State, a: Action)
    requires Inv(limit, texts, now, r) && Step(limit, texts, r, a).Some?
    ensures Inv(limit, texts, now, Step(limit, texts, r, a).value)
  {
    match a {
      case Advance(step) => AdvanceKeepsInv(limit, texts, now, r, step);
      case StartBody => SendKeepsInv(limit, texts, now, r);
      case Arrived => SendKeepsInv(limit, texts, now, r);
      case TakeNext =>
        ResumedYields(limit, r.stream);
        DriveKeeps(limit, texts, now, r, Stream.Resume, Pulling, Stream.Step(limit, r.stream, Stream.Resume).value);
      case Disconnect =>
        if r.phase.Pulling? {
          ClosedYieldsNothing(limit, r.stream);
          DriveKeeps(limit, texts, now, r, Stream.Close, Closing, Stream.Step(limit, r.stream, Stream.Close).value);
        }
      case Finalize =>
        ClosedYieldsNothing(limit, r.stream);
        DriveKeeps(limit, texts, now, r, Stream.Close, Closing, Stream.Step(limit, r.stream, Stream.Close).value);
      case _ =>
    }
  }

  lemma {:induction false} RunKeepsInv(limit: nat, texts: Texts, now: int, actions: seq<Action>)
    requires Exec(limit, texts, Begin(now), actions).Some?
    ensures Inv(limit, texts, now, Exec(limit, texts, Begin(now), actions).value)
    decreases |actions|
  {
    if actions == [] {
      NothingSent(limit, texts, now);
    } else {
      var init := actions[..|actions| - 1];
      RunKeepsInv(limit, texts, now, init);
      StepKeepsInv(limit, texts, now, Exec(limit, texts, Begin(now), init).value, actions[|actions| - 1]);
    }
  }

  lemma NothingSent(limit: nat, texts: Texts, now: int)
    ensures Inv(limit, texts, now, Begin(now))
  {
    assert Execution.ToSseAll([], texts.timeoutSeconds, texts.error) == [];
  }

  // ----- Main results -----

  /** At every moment of every interleaving the body sent so far decodes to the first events of the stream's trace,
      in order, and lags at most one event behind what the stream has yielded. */
  lemma BodyDecodesToTrace(limit: nat, texts: Texts, now: int, actions: seq<Action>)
    requires Exec(limit, texts, Begin(now), actions).Some?
    ensures var r := Exec(limit, texts, Begin(now), actions).value;
            && r.sent <= |r.stream.trace| <= r.sent + 1
            && Sse.DecodeMessages(Sse.ParseStream(r.body))
               == Some(Execution.ToSseAll(r.stream.trace[..r.sent], texts.timeoutSeconds, texts.error))
  {
    RunKeepsInv(limit, texts, now, actions);
    var r := Exec(limit, texts, Begin(now), actions).value;
    var sent := r.stream.trace[..r.sent];
    Execution.ResponseDecodes(sent, texts.timeoutSeconds, texts.error, |sent|);
    assert Clip(Execution.ToSseAll(sent, texts.timeoutSeconds, texts.error), |sent|)
        == Execution.ToSseAll(sent, texts.timeoutSeconds, texts.error);
  }

  lemma EndedMeans(limit: nat, texts: Texts, now: int, r: State)
    requires Inv(limit, texts, now, r) && r.phase.Ended?
    ensures Stream.Exec(limit, Stream.Begin(now), r.steps) == Some(r.stream) && r.stream.pc.Finished?
    ensures r.sent <= |r.stream.trace| && (!r.stream.closed ==> r.sent == |r.stream.trace|)
  {
  }

  /** When a response is over, however it ended: the command stream has finished and its process is reaped; and
      unless the client went away, the whole trace was sent, and is complete. */
  lemma EndedResponseCleansUp(limit: nat, texts: Texts, now: int, actions: seq<Action>)
    requires Exec(limit, texts, Begin(now), actions).Some? && Exec(limit, texts, Begin(now), actions).value.phase.Ended?
    ensures var r := Exec(limit, texts, Begin(now), actions).value;
            && r.stream.pc.Finished? && (r.stream.spawned ==> r.stream.returncode.Some?)
            && (!r.stream.closed ==>
                  r.sent == |r.stream.trace| && (r.stream.trace == [] || r.stream.trace == [Stream.Error] || Stream.Complete(r.stream.trace)))
  {
    RunKeepsInv(limit, texts, now, actions);
    var r := Exec(limit, texts, Begin(now), actions).value;
    EndedMeans(limit, texts, now, r);
    Stream.FinishedRuns(limit, now, r.steps);
  }

  // ----- Abandoned responses -----

  /** What the invariant says about the phase alone. */
  predicate Phased(r: State) {
    (r.stream.closed <==> r.phase.Closing? || (r.phase.Ended? && r.stream.closed)) && (r.phase.Abandoned? ==> YieldPoint(r.stream.pc))
  }

  lemma InvPhased(limit: nat, texts: Texts, now: int, r: State)
    requires Inv(limit, texts, now, r)
    ensures Phased(r)
  {
  }

  lemma AbandonedStep(limit: nat, texts: Texts, r: State, a: Action)
    requires Phased(r) && r.phase.Abandoned? && Step(limit, texts, r, a).Some? && !a.Finalize?
    ensures var r' := Step(limit, texts, r, a).value;
            r'.phase.Abandoned? && r'.stream.pc == r.stream.pc && r'.stream.trace == r.stream.trace
  {
    SuspendedStays(limit, r.stream, a.step);
  }

  lemma ClosedStep(limit: nat, texts: Texts, r: State, a: Action)
    requires Phased(r) && r.stream.closed && Step(limit, texts, r, a).Some?
    ensures Step(limit, texts, r, a).value.stream.closed && !a.Finalize?
  {
    if a.Advance? {
      ClosedStays(limit, r.stream, a.step);
    }
  }

  /** What holds after an abandoned response has gone on, with or without having been finalized. */
  predicate Continues(r: State, end: State, finalized: bool) {
    if finalized then end.stream.closed && !end.phase.Abandoned?
    else end.phase.Abandoned? && end.stream.pc == r.stream.pc && end.stream.trace == r.stream.trace && !end.stream.closed
  }

  predicate Finalizes(actions: seq<Action>) {
    actions != [] && (actions[|actions| - 1].Finalize? || Finalizes(actions[..|actions| - 1]))
  }

  lemma {:induction false} FinalizesIff(actions: seq<Action>)
    ensures Finalizes(actions) <==> Finalize in actions
    decreases |actions|
  {
    if actions != [] {
      var init, last := actions[..|actions| - 1], actions[|actions| - 1];
      FinalizesIff(init);
      assert actions == init + [last];
    }
  }

  lemma ContinuesStep(limit: nat, texts: Texts, r: State, mid: State, finalized: bool, last: Action)
    requires Continues(r, mid, finalized) && Step(limit, texts, mid, last).Some?
    requires Phased(mid) && Phased(Step(limit, texts, mid, last).value)
    ensures Continues(r, Step(limit, texts, mid, last).value, last.Finalize? || finalized)
  {
    if finalized {
      ClosedStep(limit, texts, mid, last);
    } else if !last.Finalize? {
      AbandonedStep(limit, texts, mid, last);
    } else {
      ClosedYieldsNothing(limit, mid.stream);
    }
  }

  lemma ExecSnoc(limit: nat, texts: Texts, r: State, actions: seq<Action>, a: Action)
    requires Exec(limit, texts, r, actions).Some?
    ensures Exec(limit, texts, r, actions + [a]) == Step(limit, texts, Exec(limit, texts, r, actions).value, a)
  {
    assert (actions + [a])[..|actions|] == actions;
  }

  lemma {:induction false} ExecAppend(limit: nat, texts: Texts, r: State, before: seq<Action>, after: seq<Action>)
    ensures Exec(limit, texts, r, before + after)
         == match Exec(limit, texts, r, before) case None => None case Some(mid) => Exec(limit, texts, mid, after)
    decreases |after|
  {
    if after == [] {
      assert before + after == before;
    } else {
      ExecAppend(limit, texts, r, before, after[..|after| - 1]);
      assert (before + after)[..|before + after| - 1] == before + after[..|after| - 1];
    }
  }

  lemma {:induction false} AbandonedRun(limit: nat, texts: Texts, now: int, r: State, after: seq<Action>)
    requires Inv(limit, texts, now, r) && r.phase.Abandoned? && Exec(limit, texts, r, after).Some?
    ensures Inv(limit, texts, now, Exec(limit, texts, r, after).value)
    ensures Continues(r, Exec(limit, texts, r, after).value, Finalizes(after))
    decreases |after|
  {
    if after != [] {
      var init, last := after[..|after| - 1], after[|after| - 1];
      AbandonedRun(limit, texts, now, r, init);
      var mid := Exec(limit, texts, r, init).value;
      StepKeepsInv(limit, texts, now, mid, last);
      InvPhased(limit, texts, now, mid);
      InvPhased(limit, texts, now, Step(limit, texts, mid, last).value);
      ContinuesStep(limit, texts, r, mid, Finalizes(init), last);
    }
  }

  /** Over every continuation of an abandoned response: the command stream is closed if and only if the event loop
      finalizes its generator. Until then it stays suspended where it was and yields nothing. */
  lemma ClosedIffFinalized(limit: nat, texts: Texts, now: int, before: seq<Action>, after: seq<Action>)
    requires Exec(limit, texts, Begin(now), before).Some? && Exec(limit, texts, Begin(now), before).value.phase.Abandoned?
    requires Exec(limit, texts, Begin(now), before + after).Some?
    ensures Continues(Exec(limit, texts, Begin(now), before).value, Exec(limit, texts, Begin(now), before + after).value,
                      Finalize in after)
  {
    RunKeepsInv(limit, texts, now, before);
    ExecAppend(limit, texts, Begin(now), before, after);
    AbandonedRun(limit, texts, now, Exec(limit, texts, Begin(now), before).value, after);
    FinalizesIff(after);
  }

  lemma OneMore(limit: nat, texts: Texts, now: int, run: seq<Action>, r: State, a: Action, r': State)
    requires Exec(limit, texts, Begin(now), run) == Some(r) && Step(limit, texts, r, a) == Some(r')
    ensures Exec(limit, texts, Begin(now), run + [a]) == Some(r')
  {
    ExecSnoc(limit, texts, Begin(now), run, a);
  }

  lemma AdvanceOne(limit: nat, texts: Texts, now: int, run: seq<Action>, r: State, step: Stream.Action, s': Stream.State) returns (r': State)
    requires Exec(limit, texts, Begin(now), run) == Some(r) && Stream.Step(limit, r.stream, step) == Some(s')
    requires !step.Resume? && !step.Close?
    ensures Exec(limit, texts, Begin(now), run + [Advance(step)]) == Some(r') && r'.stream == s' && r'.phase == r.phase
  {
    r' := r.(stream := s', steps := r.steps + [step]);
    OneMore(limit, texts, now, run, r, Advance(step), r');
  }

  lemma ClosingInvariant(limit: nat, texts: Texts, now: int, run: seq<Action>, r: State)
    requires Exec(limit, texts, Begin(now), run) == Some(r) && r.phase.Closing?
    ensures StreamRuns.ClosingDown(r.stream.pc) && Stream.ProcessMatchesPc(r.stream)
  {
    RunKeepsInv(limit, texts, now, run);
    Stream.RunKeepsInv(limit, now, r.steps);
  }

  /** A response that is closing can end, as soon as a killed process has exited. */
  lemma ClosingEnds(limit: nat, texts: Texts, now: int, run: seq<Action>, r: State, code: int) returns (run': seq<Action>, r': State)
    requires Exec(limit, texts, Begin(now), run) == Some(r) && r.phase.Closing?
    ensures run <= run' && Exec(limit, texts, Begin(now), run') == Some(r') && r'.phase.Ended?
  {
    ClosingInvariant(limit, texts, now, run, r);
    run', r' := CleanupRuns(limit, texts, now, run, r);
    if r'.stream.pc.Reaping? {
      run', r' := ReapingEnds(limit, texts, now, run', r', code);
    }
    OneMore(limit, texts, now, run', r', CloseDone, r'.(phase := Ended));
    run', r' := run' + [CloseDone], r'.(phase := Ended);
  }

  lemma CleanupRuns(limit: nat, texts: Texts, now: int, run: seq<Action>, r: State) returns (run': seq<Action>, r': State)
    requires Exec(limit, texts, Begin(now), run) == Some(r) && r.phase.Closing?
    requires StreamRuns.ClosingDown(r.stream.pc) && Stream.ProcessMatchesPc(r.stream)
    ensures run <= run' && Exec(limit, texts, Begin(now), run') == Some(r') && r'.phase.Closing?
    ensures r'.stream.pc.Finished? || (r'.stream.pc.Reaping? && r'.stream.spawned)
  {
    if r.stream.pc.Cleanup? {
      var s := r.stream;
      var next := if s.returncode == None then Stream.Kill(s, Stream.Reaping)
                  else s.(pc := Stream.Finished, readers := Stream.CancelReaders(s.readers));
      r' := AdvanceOne(limit, texts, now, run, r, Stream.CleanUp, next);
      run' := run + [Advance(Stream.CleanUp)];
    } else {
      run', r' := run, r;
    }
  }

  lemma ReapingEnds(limit: nat, texts: Texts, now: int, run: seq<Action>, r: State, code: int) returns (run': seq<Action>, r': State)
    requires Exec(limit, texts, Begin(now), run) == Some(r) && r.phase.Closing? && r.stream.pc.Reaping? && r.stream.spawned
    ensures run <= run' && Exec(limit, texts, Begin(now), run') == Some(r') && r'.phase.Closing? && r'.stream.pc.Finished?
  {
    run', r' := run, r;
    if r'.stream.returncode == None {
      r' := AdvanceOne(limit, texts, now, run', r', Stream.LeaderExits(code), r'.stream.(returncode := Some(code)));
      run' := run' + [Advance(Stream.LeaderExits(code))];
    }
    var s := r'.stream;
    r' := AdvanceOne(limit, texts, now, run', r', Stream.ProcessWaited,
                     s.(pc := Stream.Finished, readers := Stream.CancelReaders(s.readers)));
    run' := run' + [Advance(Stream.ProcessWaited)];
  }

  /** Wherever the client goes away, the response can still come to its end, and its process be reaped: at once if the
      next event was being awaited, otherwise by way of the finalizer. */
  lemma DisconnectedResponseEnds(limit: nat, texts: Texts, now: int, actions: seq<Action>, leaving: Action, code: int)
    returns (actions': seq<Action>, r: State)
    requires Exec(limit, texts, Begin(now), actions + [leaving]).Some? && (leaving.Drop? || leaving.Disconnect?)
    ensures actions + [leaving] <= actions' && Exec(limit, texts, Begin(now), actions') == Some(r) && r.phase.Ended?
    ensures r.stream.spawned ==> r.stream.returncode.Some?
  {
    var run := actions + [leaving];
    assert run[..|actions|] == actions;
    var left := Exec(limit, texts, Begin(now), run).value;
    actions', r := run, left;
    if left.phase.Abandoned? {
      RunKeepsInv(limit, texts, now, run);
      r := Finalized(limit, texts, now, run, left);
      actions' := run + [Finalize];
    }
    actions', r := ClosingEnds(limit, texts, now, actions', r, code);
    EndedResponseCleansUp(limit, texts, now, actions');
  }

  lemma FinalizeStep(limit: nat, texts: Texts, r: State) returns (r': State)
    requires r.phase.Abandoned? && YieldPoint(r.stream.pc)
    ensures Step(limit, texts, r, Finalize) == Some(r') && r'.phase.Closing?
  {
    var s' := if r.stream.pc.AtError? then r.stream.(pc := Stream.Finished, closed := true)
              else r.stream.(pc := Stream.Cleanup, closed := true);
    assert Stream.Step(limit, r.stream, Stream.Close) == Some(s');
    r' := r.(stream := s', steps := r.steps + [Stream.Close], phase := Closing);
  }

  lemma Finalized(limit: nat, texts: Texts, now: int, run: seq<Action>, r: State) returns (r': State)
    requires Exec(limit, texts, Begin(now), run) == Some(r) && r.phase.Abandoned? && YieldPoint(r.stream.pc)
    ensures Exec(limit, texts, Begin(now), run + [Finalize]) == Some(r') && r'.phase.Closing?
  {
    r' := FinalizeStep(limit, texts, r);
    OneMore(limit, texts, now, run, r, Finalize, r');
  }

  lemma FirstFetched(limit: nat, texts: Texts, pid: int, ttl: nat) returns (r: State)
    ensures Exec(limit, texts, Begin(0), [] + [Advance(Stream.Spawn(pid, ttl))] + [Fetched]) == Some(r)
    ensures r.phase.Ready? && r.stream.spawned && r.stream.returncode.None? && !r.stream.killed
    ensures r.sent == 0 && |r.stream.trace| == 1
  {
    var spawned := Stream.Yield(Stream.Begin(0).(spawned := true, deadline := ttl), Stream.AtStart, Stream.Start(pid));
    var advanced := AdvanceOne(limit, texts, 0, [], Begin(0), Stream.Spawn(pid, ttl), spawned);
    r := advanced.(phase := Ready);
    OneMore(limit, texts, 0, [] + [Advance(Stream.Spawn(pid, ttl))], advanced, Fetched, r);
  }

  lemma Started(limit: nat, texts: Texts, run: seq<Action>, ready: State) returns (r: State)
    requires Exec(limit, texts, Begin(0), run) == Some(ready) && ready.phase.Ready? && ready.sent < |ready.stream.trace|
    ensures Exec(limit, texts, Begin(0), run + [StartBody]) == Some(r) && r.phase.Sending? && r.stream == ready.stream
  {
    r := SendNext(texts, ready);
    OneMore(limit, texts, 0, run, ready, StartBody, r);
  }

  lemma Left(limit: nat, texts: Texts, run: seq<Action>, sending: State) returns (r: State)
    requires Exec(limit, texts, Begin(0), run) == Some(sending) && sending.phase.Sending?
    ensures Exec(limit, texts, Begin(0), run + [Disconnect]) == Some(r) && r.phase.Abandoned? && r.stream == sending.stream
  {
    r := sending.(phase := Abandoned);
    OneMore(limit, texts, 0, run, sending, Disconnect, r);
  }

  /** A client that goes away while the first chunk is sent leaves the process running until then. */
  lemma AbandonedProcessRuns(limit: nat, texts: Texts, pid: int, ttl: nat) returns (r: State)
    ensures Exec(limit, texts, Begin(0), [] + [Advance(Stream.Spawn(pid, ttl))] + [Fetched] + [StartBody] + [Disconnect]) == Some(r)
    ensures r.phase.Abandoned? && r.stream.spawned && r.stream.returncode.None? && !r.stream.killed
  {
    var run := [] + [Advance(Stream.Spawn(pid, ttl))] + [Fetched];
    r := FirstFetched(limit, texts, pid, ttl);
    r := Started(limit, texts, run, r);
    r := Left(limit, texts, run + [StartBody], r);
  }
}
