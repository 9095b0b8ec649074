/**
 The streaming generator in terms of what happened in the run alone: how much time passed since the process was
 started, what was read and in which order, and how the process ended.
 */
module StreamHistory {
  import opened Common
  import opened Stream
  import opened StreamRuns

  // ----- Time -----

  function TimeOf(a: Action): nat {
    if a.Tick? then a.time else 0
  }

  /** The time that passes in a run. */
  function Ticks(actions: seq<Action>): nat {
    if actions == [] then 0 else Ticks(actions[..|actions| - 1]) + TimeOf(actions[|actions| - 1])
  }

  /** Started, with this deadline. */
  predicate RunsUntil(s: State, deadline: int) {
    s.spawned && !s.pc.Entry? && s.deadline == deadline
  }

  lemma ClockStep(limit: nat, s: State, a: Action)
    requires Step(limit, s, a).Some?
    ensures Step(limit, s, a).value.now == s.now + TimeOf(a)
  {
  }

  lemma DeadlineStep(limit: nat, s: State, a: Action, deadline: int)
    requires Step(limit, s, a).Some? && RunsUntil(s, deadline)
    ensures RunsUntil(Step(limit, s, a).value, deadline) && !a.Spawn?
  {
  }

  lemma {:induction false} ClockRun(limit: nat, s: State, actions: seq<Action>)
    requires Exec(limit, s, actions).Some?
    ensures Exec(limit, s, actions).value.now == s.now + Ticks(actions)
    decreases |actions|
  {
    if actions != [] {
      ClockRun(limit, s, actions[..|actions| - 1]);
      ClockStep(limit, Exec(limit, s, actions[..|actions| - 1]).value, actions[|actions| - 1]);
    }
  }

  lemma {:induction false} DeadlineRun(limit: nat, s: State, actions: seq<Action>, deadline: int)
    requires Exec(limit, s, actions).Some? && RunsUntil(s, deadline)
    ensures RunsUntil(Exec(limit, s, actions).value, deadline)
    decreases |actions|
  {
    if actions != [] {
      DeadlineRun(limit, s, actions[..|actions| - 1], deadline);
      DeadlineStep(limit, Exec(limit, s, actions[..|actions| - 1]).value, actions[|actions| - 1], deadline);
    }
  }

  /** In a run that starts a process, the clock and the deadline are those of the start, moved on by what passed since
      and by the timeout. */
  lemma TimeSinceStart(limit: nat, now: int, before: seq<Action>, pid: int, timeoutSeconds: nat, after: seq<Action>)
    returns (spawn: State, s: State)
    requires Exec(limit, Begin(now), before + [Spawn(pid, timeoutSeconds)] + after).Some?
    ensures Exec(limit, Begin(now), before + [Spawn(pid, timeoutSeconds)] + after) == Some(s)
    ensures Exec(limit, Begin(now), before) == Some(spawn) && spawn.pc.Entry?
    ensures RunsUntil(s, now + Ticks(before) + timeoutSeconds) && s.now == now + Ticks(before) + Ticks(after)
    ensures s.deadline - s.now == timeoutSeconds - Ticks(after)
  {
    var begin, started := Begin(now), before + [Spawn(pid, timeoutSeconds)];
    ExecAppend(limit, begin, started, after);
    ExecAppend(limit, begin, before, [Spawn(pid, timeoutSeconds)]);
    ExecSnoc(limit, begin, before, Spawn(pid, timeoutSeconds));
    spawn := Exec(limit, begin, before).value;
    var mid := Exec(limit, begin, started).value;
    ClockRun(limit, begin, before);
    assert mid.now == spawn.now;
    ClockRun(limit, mid, after);
    DeadlineRun(limit, mid, after, now + Ticks(before) + timeoutSeconds);
    s := Exec(limit, begin, started + after).value;
  }

  /** A timeout is never early: where one was noticed or announced, at least the timeout has passed since the start. */
  lemma TimeoutIsNeverEarly(limit: nat, now: int, before: seq<Action>, pid: int, timeoutSeconds: nat, after: seq<Action>)
    requires Exec(limit, Begin(now), before + [Spawn(pid, timeoutSeconds)] + after).Some?
    ensures var s := Exec(limit, Begin(now), before + [Spawn(pid, timeoutSeconds)] + after).value;
            s.timedOut || Timeout in s.trace || s.pc.Killing? || s.pc.AtTimeout? ==> Ticks(after) >= timeoutSeconds
  {
    var spawn, s := TimeSinceStart(limit, now, before, pid, timeoutSeconds, after);
    RunKeepsInv(limit, now, before + [Spawn(pid, timeoutSeconds)] + after);
    if s.pc.AtTimeout? {
      assert Timeout == s.trace[|s.trace| - 1];
    }
  }

  /** The step is possible and leads to the kill. */
  predicate Kills(limit: nat, s: State, a: Action) {
    Step(limit, s, a).Some? && Step(limit, s, a).value.pc.Killing? && Step(limit, s, a).value.killed
  }

  /** And it is never late: once the timeout has passed since the start, wherever the generator next looks at the clock
      it kills the process: before waiting for output, while waiting for output, and while waiting for the exit. As long
      as it has not passed, it does so nowhere. */
  lemma DeadlineIsEnforced(limit: nat, now: int, before: seq<Action>, pid: int, timeoutSeconds: nat, after: seq<Action>)
    requires Exec(limit, Begin(now), before + [Spawn(pid, timeoutSeconds)] + after).Some?
    ensures var s := Exec(limit, Begin(now), before + [Spawn(pid, timeoutSeconds)] + after).value;
            && (s.pc.LoopTop? && s.completed < 2 ==> (Kills(limit, s, CheckLoop) <==> Ticks(after) >= timeoutSeconds))
            && (s.pc.Waiting? ==> (Kills(limit, s, WaitExpires) <==> Ticks(after) >= timeoutSeconds))
            && (s.pc.AwaitExit? ==> (Kills(limit, s, ExitWaitExpires) <==> Ticks(after) >= timeoutSeconds))
            && (forall a :: !s.pc.Killing? && Kills(limit, s, a) ==> Ticks(after) >= timeoutSeconds)
  {
    var spawn, s := TimeSinceStart(limit, now, before, pid, timeoutSeconds, after);
    forall a | !s.pc.Killing? && Kills(limit, s, a)
      ensures s.now >= s.deadline
    {
      OnlyTheClockKills(limit, s, a);
    }
  }

  lemma OnlyTheClockKills(limit: nat, s: State, a: Action)
    requires Kills(limit, s, a) && !s.pc.Killing?
    ensures s.now >= s.deadline
  {
  }

  /** Before the timeout the loop waits for output, or for the exit once both ends were counted. */
  lemma LoopGoesOnInTime(limit: nat, now: int, before: seq<Action>, pid: int, timeoutSeconds: nat, after: seq<Action>)
    requires Exec(limit, Begin(now), before + [Spawn(pid, timeoutSeconds)] + after).Some?
    requires Exec(limit, Begin(now), before + [Spawn(pid, timeoutSeconds)] + after).value.pc.LoopTop?
    ensures var s := Exec(limit, Begin(now), before + [Spawn(pid, timeoutSeconds)] + after).value;
            var s' := Step(limit, s, CheckLoop);
            && s'.Some?
            && (s'.value.pc.AwaitExit? <==> s.completed >= 2)
            && (s'.value.pc.Waiting? <==> s.completed < 2 && Ticks(after) < timeoutSeconds)
            && (s'.value.pc.Waiting? && s.queue != [] ==> Step(limit, s'.value, TakeItem).Some?)
  {
    var spawn, s := TimeSinceStart(limit, now, before, pid, timeoutSeconds, after);
  }

  /** Once the process of an expired stream has ended, the caller is given the timeout and then exit code 124. */
  lemma ExpiredStreamReports(limit: nat, now: int, actions: seq<Action>)
    requires Exec(limit, Begin(now), actions).Some? && Exec(limit, Begin(now), actions).value.pc.Killing?
    requires Exec(limit, Begin(now), actions).value.returncode.Some?
    ensures var s := Exec(limit, Begin(now), actions).value;
            var end := Exec(limit, Begin(now), actions + [ProcessWaited] + [Resume]);
            end.Some? && end.value.trace == s.trace + [Timeout] + [Exit(124)] && end.value.pc.AtExit?
  {
    var s := Exec(limit, Begin(now), actions).value;
    var s1 := Yield(s, AtTimeout, Timeout);
    OneMore(limit, Begin(now), actions, s, ProcessWaited, s1);
    OneMore(limit, Begin(now), actions + [ProcessWaited], s1, Resume, Yield(s1, AtExit, Exit(124)));
  }

  /** A started run has exactly one start, and its first event carries the process id. */
  lemma {:induction false} StartedBy(limit: nat, now: int, actions: seq<Action>)
    returns (before: seq<Action>, pid: int, timeoutSeconds: nat, after: seq<Action>)
    requires Exec(limit, Begin(now), actions).Some? && Exec(limit, Begin(now), actions).value.spawned
    ensures actions == before + [Spawn(pid, timeoutSeconds)] + after
    ensures forall k :: 0 <= k < |actions| && actions[k].Spawn? ==> k == |before|
    ensures |Exec(limit, Begin(now), actions).value.trace| >= 1
    ensures Exec(limit, Begin(now), actions).value.trace[0] == Start(pid)
    decreases |actions|
  {
    var init, last := actions[..|actions| - 1], actions[|actions| - 1];
    Unsnoc(actions);
    var s := Exec(limit, Begin(now), init).value;
    RunKeepsInv(limit, now, init);
    if s.spawned {
      before, pid, timeoutSeconds, after := StartedBy(limit, now, init);
      DeadlineStep(limit, s, last, s.deadline);
      TraceGrows(limit, s, last);
      Assoc(before + [Spawn(pid, timeoutSeconds)], after, [last]);
      after := after + [last];
    } else {
      SpawnStarts(limit, s, last);
      NoSpawnYet(limit, now, init);
      before, pid, timeoutSeconds, after := init, last.pid, last.timeoutSeconds, [];
    }
  }

  lemma TraceGrows(limit: nat, s: State, a: Action)
    requires Step(limit, s, a).Some?
    ensures s.trace <= Step(limit, s, a).value.trace
  {
    if !a.TakeItem? {
      QuietStep(limit, s, a);
    }
  }

  lemma SpawnStarts(limit: nat, s: State, a: Action)
    requires Inv(limit, s) && Step(limit, s, a).Some? && !s.spawned && Step(limit, s, a).value.spawned
    ensures a.Spawn? && Step(limit, s, a).value.trace == [Start(a.pid)]
  {
  }

  lemma NotSpawnedStep(limit: nat, s: State, a: Action)
    requires Step(limit, s, a).Some? && !Step(limit, s, a).value.spawned
    ensures !s.spawned && !a.Spawn?
  {
  }

  lemma {:induction false} NoSpawnYet(limit: nat, now: int, actions: seq<Action>)
    requires Exec(limit, Begin(now), actions).Some? && !Exec(limit, Begin(now), actions).value.spawned
    ensures forall k :: 0 <= k < |actions| ==> !actions[k].Spawn?
    decreases |actions|
  {
    if actions != [] {
      var init, last := actions[..|actions| - 1], actions[|actions| - 1];
      var s := Exec(limit, Begin(now), init).value;
      assert Exec(limit, Begin(now), actions) == Step(limit, s, last);
      NotSpawnedStep(limit, s, last);
      NoSpawnYet(limit, now, init);
      assert forall k :: 0 <= k < |init| ==> actions[k] == init[k];
    }
  }

  // ----- The process -----

  lemma ReturnCodeStep(limit: nat, s: State, a: Action)
    requires Step(limit, s, a).Some?
    ensures Step(limit, s, a).value.returncode == if a.LeaderExits? then Some(a.code) else s.returncode
    ensures a.LeaderExits? ==> s.returncode == None
  {
    if a.TakeItem? {
      ConsumeKeepsReturnCode(limit, s);
    } else if a.Resume? || a.ProcessWaited? || a.CheckLoop? || a.Close? || a.CleanUp? {
      ControlKeepsReturnCode(limit, s, a);
    }
  }

  lemma ConsumeKeepsReturnCode(limit: nat, s: State)
    requires s.queue != []
    ensures Consume(s, limit).returncode == s.returncode
  {
  }

  lemma ControlKeepsReturnCode(limit: nat, s: State, a: Action)
    requires Step(limit, s, a).Some? && (a.Resume? || a.ProcessWaited? || a.CheckLoop? || a.Close? || a.CleanUp?)
    ensures Step(limit, s, a).value.returncode == s.returncode
  {
  }

  /** The return code is the one the process exited with. */
  lemma {:induction false} ReturnCodeIsLeaders(limit: nat, now: int, actions: seq<Action>, code: int)
    requires Exec(limit, Begin(now), actions).Some?
    ensures Exec(limit, Begin(now), actions).value.returncode == Some(code) <==> LeaderExits(code) in actions
    decreases |actions|
  {
    if actions != [] {
      var init, last := actions[..|actions| - 1], actions[|actions| - 1];
      ReturnCodeIsLeaders(limit, now, init, code);
      ReturnCodeStep(limit, Exec(limit, Begin(now), init).value, last);
      Unsnoc(actions);
      InSnoc(init, last, LeaderExits(code));
    }
  }

  lemma ReaderStep(limit: nat, s: State, a: Action, name: Name)
    requires Step(limit, s, a).Some?
    ensures Step(limit, s, a).value.readers.Get(name) == Ended <==> s.readers.Get(name) == Ended || a == ReadEnd(name)
  {
    if a.ProcessWaited? || a.CleanUp? {
      CancellingReaderStep(limit, s, a, name);
    }
  }

  lemma CancellingReaderStep(limit: nat, s: State, a: Action, name: Name)
    requires Step(limit, s, a).Some? && (a.ProcessWaited? || a.CleanUp?)
    ensures Step(limit, s, a).value.readers.Get(name) == Ended <==> s.readers.Get(name) == Ended
  {
  }

  /** A stream has ended exactly when its reader came to its end in the run. */
  lemma {:induction false} EndedIffReadEnd(limit: nat, now: int, actions: seq<Action>, name: Name)
    requires Exec(limit, Begin(now), actions).Some?
    ensures Exec(limit, Begin(now), actions).value.readers.Get(name) == Ended <==> ReadEnd(name) in actions
    decreases |actions|
  {
    if actions != [] {
      var init, last := actions[..|actions| - 1], actions[|actions| - 1];
      EndedIffReadEnd(limit, now, init, name);
      ReaderStep(limit, Exec(limit, Begin(now), init).value, last, name);
      Unsnoc(actions);
      InSnoc(init, last, ReadEnd(name));
    }
  }

  /** What a stream was read to hold. */
  function ReadChunks(actions: seq<Action>, name: Name): Bytes {
    if actions == [] then []
    else
      var last := actions[|actions| - 1];
      ReadChunks(actions[..|actions| - 1], name) + if last.Read? && last.name == name then last.chunk else []
  }

  lemma ProducedStep(limit: nat, s: State, a: Action, name: Name)
    requires Step(limit, s, a).Some?
    ensures Step(limit, s, a).value.produced.Get(name)
         == s.produced.Get(name) + if a.Read? && a.name == name then a.chunk else []
  {
    assert s.produced.Get(name) + [] == s.produced.Get(name);
    if a.TakeItem? {
      ConsumeKeepsProduced(limit, s);
    } else if a.Resume? || a.ProcessWaited? || a.CheckLoop? || a.Close? || a.CleanUp? {
      ControlKeepsProduced(limit, s, a);
    }
  }

  lemma ConsumeKeepsProduced(limit: nat, s: State)
    requires s.queue != []
    ensures Consume(s, limit).produced == s.produced
  {
  }

  lemma ControlKeepsProduced(limit: nat, s: State, a: Action)
    requires Step(limit, s, a).Some? && (a.Resume? || a.ProcessWaited? || a.CheckLoop? || a.Close? || a.CleanUp?)
    ensures Step(limit, s, a).value.produced == s.produced
  {
  }

  lemma {:induction false} ProducedIsRead(limit: nat, now: int, actions: seq<Action>, name: Name)
    requires Exec(limit, Begin(now), actions).Some?
    ensures Exec(limit, Begin(now), actions).value.produced.Get(name) == ReadChunks(actions, name)
    decreases |actions|
  {
    if actions != [] {
      var init, last := actions[..|actions| - 1], actions[|actions| - 1];
      ProducedIsRead(limit, now, init, name);
      ProducedStep(limit, Exec(limit, Begin(now), init).value, last, name);
    }
  }

  // ----- What was read, in order -----

  function ItemsOf(a: Action): seq<Item> {
    match a
    case Read(name, chunk) => [Chunk(name, chunk)]
    case ReadEnd(_) => [EndMark]
    case _ => []
  }

  /** Everything both readers read, in the order it was read. */
  function ReadLog(actions: seq<Action>): seq<Item> {
    if actions == [] then [] else ReadLog(actions[..|actions| - 1]) + ItemsOf(actions[|actions| - 1])
  }

  /** The event for a chunk: as much of it as its stream may still emit after `earlier`. */
  function EventOf(limit: nat, earlier: seq<Item>, item: Item): seq<Event> {
    match item
    case EndMark => []
    case Chunk(name, data) =>
      var before := |QueuedBytes(earlier, name)|;
      if before >= limit then [] else [Output(name, Clip(data, limit - before))]
  }

  /** The output events for a list of items. */
  function Shown(limit: nat, items: seq<Item>): seq<Event> {
    if items == [] then []
    else
      var earlier := items[..|items| - 1];
      Shown(limit, earlier) + EventOf(limit, earlier, items[|items| - 1])
  }

  function Outputs(trace: seq<Event>): seq<Event> {
    if trace == [] then []
    else Outputs(trace[..|trace| - 1]) + if trace[|trace| - 1].Output? then [trace[|trace| - 1]] else []
  }

  lemma OutputsSnoc(trace: seq<Event>, event: Event)
    ensures Outputs(trace + [event]) == Outputs(trace) + if event.Output? then [event] else []
  {
    assert (trace + [event])[..|trace|] == trace;
  }

  lemma ShownSnoc(limit: nat, items: seq<Item>, item: Item)
    ensures Shown(limit, items + [item]) == Shown(limit, items) + EventOf(limit, items, item)
  {
    assert (items + [item])[..|items|] == items;
  }

  /** The consumer has dealt with the first `k` items, in order, and the rest is queued. */
  predicate InOrder(limit: nat, s: State, log: seq<Item>, k: nat) {
    && k <= |log| && s.queue == log[k..] && Outputs(s.trace) == Shown(limit, log[..k])
    && s.taken.Get(Stdout) == QueuedBytes(log[..k], Stdout) && s.taken.Get(Stderr) == QueuedBytes(log[..k], Stderr)
  }

  lemma LogGrows(log: seq<Item>, k: nat, more: seq<Item>)
    requires k <= |log|
    ensures (log + more)[k..] == log[k..] + more && (log + more)[..k] == log[..k]
  {
  }

  lemma LogAdvances(log: seq<Item>, k: nat)
    requires k < |log|
    ensures log[k..][0] == log[k] && log[k..][1..] == log[k + 1..] && log[..k + 1] == log[..k] + [log[k]]
  {
  }

  /** At most one event was added, and it carries no output. */
  predicate QuietlyGrown(trace: seq<Event>, trace': seq<Event>) {
    || trace' == trace
    || (|trace'| == |trace| + 1 && trace' == trace + [trace'[|trace|]] && !trace'[|trace|].Output?)
  }

  lemma QueueStep(limit: nat, s: State, a: Action)
    requires Step(limit, s, a).Some? && !a.TakeItem?
    ensures var s' := Step(limit, s, a).value; s'.queue == s.queue + ItemsOf(a) && s'.taken == s.taken
  {
    if a.Resume? || a.ProcessWaited? || a.CheckLoop? || a.Close? || a.CleanUp? {
      ControlKeepsQueue(limit, s, a);
      assert s.queue + [] == s.queue;
    }
  }

  lemma ControlKeepsQueue(limit: nat, s: State, a: Action)
    requires Step(limit, s, a).Some? && (a.Resume? || a.ProcessWaited? || a.CheckLoop? || a.Close? || a.CleanUp?)
    ensures Step(limit, s, a).value.queue == s.queue && Step(limit, s, a).value.taken == s.taken
  {
  }

  lemma QuietStep(limit: nat, s: State, a: Action)
    requires Step(limit, s, a).Some? && !a.TakeItem?
    ensures QuietlyGrown(s.trace, Step(limit, s, a).value.trace)
  {
    if a.Resume? || a.ProcessWaited? || a.Spawn? || a.SpawnFails? {
      YieldStep(limit, s, a);
    }
  }

  lemma YieldStep(limit: nat, s: State, a: Action)
    requires Step(limit, s, a).Some? && (a.Resume? || a.ProcessWaited? || a.Spawn? || a.SpawnFails?)
    ensures QuietlyGrown(s.trace, Step(limit, s, a).value.trace)
  {
  }

  lemma OtherStepInOrder(limit: nat, s: State, a: Action, log: seq<Item>, k: nat)
    requires Step(limit, s, a).Some? && !a.TakeItem? && InOrder(limit, s, log, k)
    ensures InOrder(limit, Step(limit, s, a).value, log + ItemsOf(a), k)
  {
    var s' := Step(limit, s, a).value;
    QueueStep(limit, s, a);
    QuietStep(limit, s, a);
    LogGrows(log, k, ItemsOf(a));
    if s'.trace != s.trace {
      OutputsSnoc(s.trace, s'.trace[|s.trace|]);
    }
  }

  lemma TakeInOrder(limit: nat, s: State, log: seq<Item>, k: nat)
    requires Step(limit, s, TakeItem).Some? && InOrder(limit, s, log, k) && Inv(limit, s)
    ensures k < |log| && InOrder(limit, Step(limit, s, TakeItem).value, log, k + 1)
  {
    LogAdvances(log, k);
    var item := log[k];
    ShownSnoc(limit, log[..k], item);
    QueuedBytesSnoc(log[..k], item, Stdout);
    QueuedBytesSnoc(log[..k], item, Stderr);
    assert Step(limit, s, TakeItem).value == Consume(s, limit);
    if item.Chunk? {
      TakenChunkShows(limit, s, item.name, item.data, log[..k]);
    } else {
      TakenEndShows(limit, s);
      assert Shown(limit, log[..k]) + [] == Shown(limit, log[..k]);
    }
  }

  lemma TakenEndShows(limit: nat, s: State)
    requires s.queue != [] && s.queue[0].EndMark?
    ensures var s' := Consume(s, limit); s'.trace == s.trace && s'.taken == s.taken && s'.queue == s.queue[1..]
  {
  }

  lemma TakenChunkShows(limit: nat, s: State, name: Name, data: Bytes, earlier: seq<Item>)
    requires s.queue != [] && s.queue[0] == Chunk(name, data) && StreamAccounted(limit, s, name)
    requires s.taken.Get(name) == QueuedBytes(earlier, name)
    ensures Outputs(Consume(s, limit).trace) == Outputs(s.trace) + EventOf(limit, earlier, Chunk(name, data))
    ensures Consume(s, limit).taken == s.taken.Set(name, s.taken.Get(name) + data) && Consume(s, limit).queue == s.queue[1..]
  {
    OutputsSnoc(s.trace, Output(name, Clip(data, if limit <= s.emitted.Get(name) then 0 else limit - s.emitted.Get(name))));
    assert s.emitted.Get(name) == |Clip(QueuedBytes(earlier, name), limit)|;
  }

  /** The output events follow the reads of both streams, in the order of the reads: they are those of the first `k`
      items read, each cut to what its stream may still emit. */
  lemma {:induction false} EventsFollowReads(limit: nat, now: int, actions: seq<Action>) returns (k: nat)
    requires Exec(limit, Begin(now), actions).Some?
    ensures InOrder(limit, Exec(limit, Begin(now), actions).value, ReadLog(actions), k)
    decreases |actions|
  {
    k := 0;
    if actions != [] {
      var init, last := actions[..|actions| - 1], actions[|actions| - 1];
      k := EventsFollowReads(limit, now, init);
      RunKeepsInv(limit, now, init);
      k := StepInOrder(limit, Exec(limit, Begin(now), init).value, last, ReadLog(init), k);
    }
  }

  lemma StepInOrder(limit: nat, s: State, a: Action, log: seq<Item>, k: nat) returns (k': nat)
    requires Step(limit, s, a).Some? && InOrder(limit, s, log, k) && Inv(limit, s)
    ensures InOrder(limit, Step(limit, s, a).value, log + ItemsOf(a), k')
  {
    if a.TakeItem? {
      TakeInOrder(limit, s, log, k);
      k' := k + 1;
      assert log + [] == log;
    } else {
      OtherStepInOrder(limit, s, a, log, k);
      k' := k;
    }
  }

  // ----- What an exit means -----

  /** An exit that no timeout preceded says it all, in terms of what happened: both readers came to their end, the
      process exited with that code, and the output events are exactly those of everything that was read, in order. */
  lemma ExitTellsWhatHappened(limit: nat, now: int, actions: seq<Action>)
    requires Exec(limit, Begin(now), actions).Some?
    requires var s := Exec(limit, Begin(now), actions).value; HasExit(s.trace) && Timeout !in s.trace
    ensures var trace := Exec(limit, Begin(now), actions).value.trace;
            && ReadEnd(Stdout) in actions && ReadEnd(Stderr) in actions
            && LeaderExits(trace[|trace| - 1].code) in actions
            && Outputs(trace) == Shown(limit, ReadLog(actions))
  {
    ExitSaysItAll(limit, now, actions);
    ExitCarriesReturnCode(limit, now, actions);
    var trace := Exec(limit, Begin(now), actions).value.trace;
    ReturnCodeIsLeaders(limit, now, actions, trace[|trace| - 1].code);
  }

  lemma ExitSaysItAll(limit: nat, now: int, actions: seq<Action>)
    requires Exec(limit, Begin(now), actions).Some?
    requires var s := Exec(limit, Begin(now), actions).value; HasExit(s.trace) && Timeout !in s.trace
    ensures ReadEnd(Stdout) in actions && ReadEnd(Stderr) in actions
    ensures Outputs(Exec(limit, Begin(now), actions).value.trace) == Shown(limit, ReadLog(actions))
  {
    var s := Exec(limit, Begin(now), actions).value;
    RunKeepsInv(limit, now, actions);
    ExitMeansBothEnded(s);
    BothReadersEnded(s);
    EndedIffReadEnd(limit, now, actions, Stdout);
    EndedIffReadEnd(limit, now, actions, Stderr);
    var k := EventsFollowReads(limit, now, actions);
    NothingQueued(limit, s, ReadLog(actions), k);
  }

  lemma NothingQueued(limit: nat, s: State, log: seq<Item>, k: nat)
    requires InOrder(limit, s, log, k) && s.queue == []
    ensures Outputs(s.trace) == Shown(limit, log)
  {
    assert log[..k] == log;
  }

  lemma BothReadersEnded(s: State)
    requires ExitExplained(s.trace, s.timedOut, s.completed) && HasExit(s.trace) && Timeout !in s.trace
    requires EndsFit(s.pc, s.readers, s.queue, s.completed)
    ensures s.readers.out == Ended && s.readers.err == Ended
  {
    var init := s.trace[..|s.trace| - 1];
    assert init != [] ==> init[|init| - 1] in s.trace;
    assert s.completed == 2;
  }
}
