/**
 More about runs of the streaming generator: what closing it does, over every continuation, and that every
 chunking of an output within the limit is a possible stream.
 */
module StreamRuns {
  import opened Common
  import opened Stream

  lemma ExecSnoc(limit: nat, s: State, actions: seq<Action>, a: Action)
    requires Exec(limit, s, actions).Some?
    ensures Exec(limit, s, actions + [a]) == Step(limit, Exec(limit, s, actions).value, a)
  {
    assert (actions + [a])[..|actions|] == actions;
  }

  lemma OneMore(limit: nat, begin: State, run: seq<Action>, s: State, a: Action, s': State)
    requires Exec(limit, begin, run) == Some(s) && Step(limit, s, a) == Some(s')
    ensures Exec(limit, begin, run + [a]) == Some(s')
  {
    ExecSnoc(limit, begin, run, a);
  }

  lemma {:induction false} ExecAppend(limit: nat, s: State, before: seq<Action>, after: seq<Action>)
    ensures Exec(limit, s, before + after)
         == match Exec(limit, s, before) case None => None case Some(mid) => Exec(limit, mid, after)
    decreases |after|
  {
    if after == [] {
      assert before + after == before;
    } else {
      var init, last := after[..|after| - 1], after[|after| - 1];
      ExecAppend(limit, s, before, init);
      assert (before + after)[..|before + after| - 1] == before + init;
    }
  }

  // ----- Closing -----

  predicate ClosingDown(pc: Pc) {
    pc.Cleanup? || pc.Reaping? || pc.Finished?
  }

  lemma ClosingStep(limit: nat, s: State, a: Action)
    requires ClosingDown(s.pc) && Step(limit, s, a).Some?
    ensures ClosingDown(Step(limit, s, a).value.pc) && Step(limit, s, a).value.trace == s.trace
    ensures s.pc.Finished? ==> Step(limit, s, a).value.pc.Finished?
  {
  }

  lemma {:induction false} ClosingRun(limit: nat, s: State, after: seq<Action>)
    requires ClosingDown(s.pc) && Exec(limit, s, after).Some?
    ensures ClosingDown(Exec(limit, s, after).value.pc) && Exec(limit, s, after).value.trace == s.trace
    ensures s.pc.Finished? ==> Exec(limit, s, after).value.pc.Finished?
    decreases |after|
  {
    if after != [] {
      var init, last := after[..|after| - 1], after[|after| - 1];
      ClosingRun(limit, s, init);
      ClosingStep(limit, Exec(limit, s, init).value, last);
    }
  }

  /** The cleanup is never stuck: it goes on at once, or waits for a leader that has been killed and whose exit lets
      it finish. */
  predicate CleanupGoesOn(limit: nat, s: State) {
    && (s.pc.Cleanup? ==>
          Step(limit, s, CleanUp).Some? && (Step(limit, s, CleanUp).value.pc.Reaping? || Step(limit, s, CleanUp).value.pc.Finished?))
    && (s.pc.Reaping? && s.returncode.Some? ==>
          Step(limit, s, ProcessWaited).Some? && Step(limit, s, ProcessWaited).value.pc.Finished?)
    && (s.pc.Reaping? && s.returncode.None? ==> s.killed && s.spawned)
  }

  lemma CleanupIsNotStuck(limit: nat, s: State)
    requires ProcessMatchesPc(s) && ClosingDown(s.pc)
    ensures CleanupGoesOn(limit, s)
  {
  }

  lemma CloseIsClosing(limit: nat, s: State)
    requires Step(limit, s, Close).Some?
    ensures ClosingDown(Step(limit, s, Close).value.pc) && Step(limit, s, Close).value.trace == s.trace
  {
  }

  /** Closed or cancelled wherever it is suspended, over every continuation: the generator yields nothing more, its
      cleanup is never stuck, and once it has finished it stays so. */
  lemma ClosedStream(limit: nat, now: int, before: seq<Action>, after: seq<Action>)
    requires Exec(limit, Begin(now), before + [Close] + after).Some?
    ensures Exec(limit, Begin(now), before).Some?
    ensures var s, end := Exec(limit, Begin(now), before).value, Exec(limit, Begin(now), before + [Close] + after).value;
            ClosingDown(end.pc) && CleanupGoesOn(limit, end) && end.trace == s.trace
  {
    var begin, run := Begin(now), before + [Close];
    ExecAppend(limit, begin, run, after);
    ExecAppend(limit, begin, before, [Close]);
    ExecSnoc(limit, begin, before, Close);
    CloseIsClosing(limit, Exec(limit, begin, before).value);
    ClosingRun(limit, Exec(limit, begin, run).value, after);
    RunKeepsInv(limit, now, run + after);
    CleanupIsNotStuck(limit, Exec(limit, begin, run + after).value);
  }

  /** From every suspension, closing, the cleanup and the exit of the killed leader lead to the end. */
  lemma ClosedStreamEnds(limit: nat, now: int, actions: seq<Action>, code: int) returns (rest: seq<Action>)
    requires Exec(limit, Begin(now), actions).Some?
    requires var pc := Exec(limit, Begin(now), actions).value.pc; Suspended(pc) || pc.AtError?
    ensures rest == [Close] || rest == [Close] + [CleanUp] || rest == [Close] + ([CleanUp] + [LeaderExits(code)] + [ProcessWaited])
    ensures Exec(limit, Begin(now), actions + rest).Some? && Exec(limit, Begin(now), actions + rest).value.pc.Finished?
  {
    var begin, s := Begin(now), Exec(limit, Begin(now), actions).value;
    RunKeepsInv(limit, now, actions);
    if s.pc.AtError? {
      OneMore(limit, begin, actions, s, Close, s.(pc := Finished, closed := true));
      rest := [Close];
    } else {
      var closed := s.(pc := Cleanup, closed := true);
      OneMore(limit, begin, actions, s, Close, closed);
      rest := CleanupEnds(limit, begin, actions + [Close], closed, code);
      Assoc(actions, [Close], rest);
      rest := [Close] + rest;
    }
  }

  lemma CleanupEnds(limit: nat, begin: State, run: seq<Action>, s: State, code: int) returns (rest: seq<Action>)
    requires Exec(limit, begin, run) == Some(s) && s.pc.Cleanup? && s.spawned
    ensures rest == [CleanUp] || rest == [CleanUp] + [LeaderExits(code)] + [ProcessWaited]
    ensures Exec(limit, begin, run + rest).Some? && Exec(limit, begin, run + rest).value.pc.Finished?
  {
    if s.returncode.Some? {
      OneMore(limit, begin, run, s, CleanUp, s.(pc := Finished, readers := CancelReaders(s.readers)));
      rest := [CleanUp];
    } else {
      ReapingEnds(limit, begin, run, s, code);
      rest := [CleanUp] + [LeaderExits(code)] + [ProcessWaited];
      assert run + rest == run + [CleanUp] + [LeaderExits(code)] + [ProcessWaited];
    }
  }

  lemma ReapingEnds(limit: nat, begin: State, run: seq<Action>, s: State, code: int)
    requires Exec(limit, begin, run) == Some(s) && s.pc.Cleanup? && s.returncode.None? && s.spawned
    ensures var end := Exec(limit, begin, run + [CleanUp] + [LeaderExits(code)] + [ProcessWaited]);
            end.Some? && end.value.pc.Finished?
  {
    var s1 := Kill(s, Reaping);
    OneMore(limit, begin, run, s, CleanUp, s1);
    var s2 := s1.(returncode := Some(code));
    OneMore(limit, begin, run + [CleanUp], s1, LeaderExits(code), s2);
    OneMore(limit, begin, run + [CleanUp] + [LeaderExits(code)], s2, ProcessWaited,
            s2.(pc := Finished, readers := CancelReaders(s2.readers)));
  }

  // ----- Every chunking is a possible stream -----

  predicate NoTimeout(trace: seq<Event>) {
    forall i :: 0 <= i < |trace| ==> !trace[i].Timeout? && !trace[i].Exit?
  }

  /** The data of the output events of one stream. */
  function OutputChunks(trace: seq<Event>, name: Name): seq<Bytes> {
    if trace == [] then []
    else
      var last := trace[|trace| - 1];
      OutputChunks(trace[..|trace| - 1], name) + if last.Output? && last.name == name then [last.data] else []
  }

  lemma OutputChunksSnoc(trace: seq<Event>, event: Event, name: Name)
    ensures OutputChunks(trace + [event], name)
         == OutputChunks(trace, name) + if event.Output? && event.name == name then [event.data] else []
  {
    assert (trace + [event])[..|trace|] == trace;
  }

  /** Suspended after the given chunks of standard output were read and yielded. */
  predicate HasStreamed(s: State, chunks: seq<Bytes>) {
    && (s.pc.AtStart? || s.pc.AtOutput?) && s.now == 0 && s.deadline == 1 && s.spawned && s.returncode == None
    && s.readers == Per(Active, Active) && s.queue == [] && s.completed == 0 && !s.timedOut
    && s.emitted.out == |Flatten(chunks)| && s.produced.out == Flatten(chunks)
    && NoTimeout(s.trace) && OutputChunks(s.trace, Stdout) == chunks
  }

  lemma ReadAndResume(limit: nat, run: seq<Action>, s: State, chunks: seq<Bytes>, chunk: Bytes, waiting: State)
    returns (run': seq<Action>)
    requires Exec(limit, Begin(0), run) == Some(s) && HasStreamed(s, chunks) && 0 < |chunk| <= READ_SIZE
    requires waiting == s.(queue := [Chunk(Stdout, chunk)], produced := s.produced.Set(Stdout, s.produced.out + chunk), pc := Waiting)
    ensures Exec(limit, Begin(0), run') == Some(waiting)
  {
    assert s.queue + [Chunk(Stdout, chunk)] == [Chunk(Stdout, chunk)];
    var s1 := waiting.(pc := s.pc);
    OneMore(limit, Begin(0), run, s, Read(Stdout, chunk), s1);
    var s2 := waiting.(pc := LoopTop);
    OneMore(limit, Begin(0), run + [Read(Stdout, chunk)], s1, Resume, s2);
    run' := run + [Read(Stdout, chunk)] + [Resume];
    OneMore(limit, Begin(0), run', s2, CheckLoop, waiting);
    run' := run' + [CheckLoop];
  }

  /** One chunk is read and, at once, yielded. */
  lemma StreamOne(limit: nat, run: seq<Action>, s: State, chunks: seq<Bytes>, chunk: Bytes) returns (run': seq<Action>, s': State)
    requires Exec(limit, Begin(0), run) == Some(s) && HasStreamed(s, chunks)
    requires 0 < |chunk| <= READ_SIZE && |Flatten(chunks)| + |chunk| <= limit
    ensures Exec(limit, Begin(0), run') == Some(s') && HasStreamed(s', chunks + [chunk])
  {
    var waiting := s.(queue := [Chunk(Stdout, chunk)], produced := s.produced.Set(Stdout, s.produced.out + chunk), pc := Waiting);
    run' := ReadAndResume(limit, run, s, chunks, chunk, waiting);
    s' := Consume(waiting, limit);
    OneMore(limit, Begin(0), run', waiting, TakeItem, s');
    run' := run' + [TakeItem];
    OneTaken(limit, waiting, chunk);
    FlattenSnoc(chunks, chunk);
    OutputChunksSnoc(s.trace, Output(Stdout, chunk), Stdout);
  }

  lemma OneTaken(limit: nat, s: State, chunk: Bytes)
    requires s.queue == [Chunk(Stdout, chunk)] && s.emitted.out + |chunk| <= limit && chunk != []
    ensures var s' := Consume(s, limit);
            && s'.pc.AtOutput? && s'.queue == [] && s'.emitted.out == s.emitted.out + |chunk|
            && s'.trace == s.trace + [Output(Stdout, chunk)] && s'.now == s.now && s'.deadline == s.deadline
            && s'.spawned == s.spawned && s'.returncode == s.returncode && s'.readers == s.readers
            && s'.completed == s.completed && s'.timedOut == s.timedOut && s'.produced == s.produced
  {
    assert Clip(chunk, limit - s.emitted.out) == chunk;
  }

  lemma {:induction false} StreamMany(limit: nat, pid: int, chunks: seq<Bytes>) returns (run: seq<Action>, s: State)
    requires forall i :: 0 <= i < |chunks| ==> 0 < |chunks[i]| <= READ_SIZE
    requires |Flatten(chunks)| <= limit
    ensures Exec(limit, Begin(0), run) == Some(s) && HasStreamed(s, chunks)
    decreases |chunks|
  {
    if chunks == [] {
      s := Yield(Begin(0).(spawned := true, deadline := 1), AtStart, Start(pid));
      OneMore(limit, Begin(0), [], Begin(0), Spawn(pid, 1), s);
      run := [] + [Spawn(pid, 1)];
      OutputChunksSnoc([], Start(pid), Stdout);
    } else {
      var init, last := chunks[..|chunks| - 1], chunks[|chunks| - 1];
      FlattenSnoc(init, last);
      assert init + [last] == chunks;
      run, s := StreamMany(limit, pid, init);
      run, s := StreamOne(limit, run, s, init, last);
    }
  }

  /** Both readers end, the leader exits, and the generator counts the end marks and yields the exit. */
  lemma StreamEnds(limit: nat, run: seq<Action>, s: State, chunks: seq<Bytes>, code: int) returns (run': seq<Action>, s': State)
    requires Exec(limit, Begin(0), run) == Some(s) && HasStreamed(s, chunks)
    ensures Exec(limit, Begin(0), run') == Some(s') && s'.trace == s.trace + [Exit(code)] && s'.produced == s.produced
  {
    var ended := s.(queue := [EndMark, EndMark], readers := Per(Ended, Ended), returncode := Some(code));
    run' := ReadersEnd(limit, run, s, ended, code);
    var s1 := ended.(pc := LoopTop);
    OneMore(limit, Begin(0), run', ended, Resume, s1);
    run' := run' + [Resume];
    var s2 := s1.(queue := [EndMark], completed := 1);
    run' := EndTaken(limit, run', s1, s2);
    var s3 := s2.(queue := [], completed := 2);
    run' := EndTaken(limit, run', s2, s3);
    var s4 := s3.(pc := AwaitExit);
    OneMore(limit, Begin(0), run', s3, CheckLoop, s4);
    run' := run' + [CheckLoop];
    s' := Yield(s4, AtExit, Exit(code));
    OneMore(limit, Begin(0), run', s4, ProcessWaited, s');
    run' := run' + [ProcessWaited];
  }

  lemma ReadersEnd(limit: nat, run: seq<Action>, s: State, ended: State, code: int) returns (run': seq<Action>)
    requires Exec(limit, Begin(0), run) == Some(s) && s.spawned && s.returncode == None
    requires s.readers == Per(Active, Active) && s.queue == []
    requires ended == s.(queue := [EndMark, EndMark], readers := Per(Ended, Ended), returncode := Some(code))
    ensures Exec(limit, Begin(0), run') == Some(ended)
  {
    assert s.queue + [EndMark] == [EndMark] && [EndMark] + [EndMark] == [EndMark, EndMark];
    var s1 := s.(queue := [EndMark], readers := Per(Ended, Active));
    OneMore(limit, Begin(0), run, s, ReadEnd(Stdout), s1);
    var s2 := s1.(queue := [EndMark, EndMark], readers := Per(Ended, Ended));
    OneMore(limit, Begin(0), run + [ReadEnd(Stdout)], s1, ReadEnd(Stderr), s2);
    run' := run + [ReadEnd(Stdout)] + [ReadEnd(Stderr)];
    OneMore(limit, Begin(0), run', s2, LeaderExits(code), ended);
    run' := run' + [LeaderExits(code)];
  }

  lemma LoopWaits(limit: nat, run: seq<Action>, s: State)
    requires Exec(limit, Begin(0), run) == Some(s) && s.pc.LoopTop? && s.completed < 2 && s.now < s.deadline
    ensures Exec(limit, Begin(0), run + [CheckLoop]) == Some(s.(pc := Waiting))
  {
    OneMore(limit, Begin(0), run, s, CheckLoop, s.(pc := Waiting));
  }

  lemma EndIsTaken(limit: nat, run: seq<Action>, s: State, s': State)
    requires Exec(limit, Begin(0), run) == Some(s) && s.pc.Waiting? && s.queue != [] && s.queue[0].EndMark?
    requires s' == s.(pc := LoopTop, queue := s.queue[1..], completed := s.completed + 1)
    ensures Exec(limit, Begin(0), run + [TakeItem]) == Some(s')
  {
    OneMore(limit, Begin(0), run, s, TakeItem, s');
  }

  lemma EndTaken(limit: nat, run: seq<Action>, s: State, s': State) returns (run': seq<Action>)
    requires Exec(limit, Begin(0), run) == Some(s) && s.pc.LoopTop? && s.completed < 2 && s.now < s.deadline
    requires s.queue != [] && s.queue[0].EndMark? && s' == s.(queue := s.queue[1..], completed := s.completed + 1)
    ensures Exec(limit, Begin(0), run') == Some(s')
  {
    LoopWaits(limit, run, s);
    EndIsTaken(limit, run + [CheckLoop], s.(pc := Waiting), s');
    run' := run + [CheckLoop] + [TakeItem];
  }

  /** Whatever pieces a process's output is cut into by the reads, they can arrive as exactly those output events,
      and the stream then ends with an exit and without a timeout. */
  lemma EveryChunkingStreams(limit: nat, pid: int, chunks: seq<Bytes>, code: int) returns (actions: seq<Action>)
    requires forall i :: 0 <= i < |chunks| ==> 0 < |chunks[i]| <= READ_SIZE
    requires |Flatten(chunks)| <= limit
    ensures Exec(limit, Begin(0), actions).Some?
    ensures var s := Exec(limit, Begin(0), actions).value;
            && OutputChunks(s.trace, Stdout) == chunks && s.produced.Get(Stdout) == Flatten(chunks)
            && HasExit(s.trace) && Timeout !in s.trace
  {
    var s: State;
    actions, s := StreamMany(limit, pid, chunks);
    OutputChunksSnoc(s.trace, Exit(code), Stdout);
    actions, s := StreamEnds(limit, actions, s, chunks, code);
  }
}
