/**
 Bounded command execution in the Python runtime's `core.py`: the buffered reader, and the
 streaming generator as an interleaved step system of two reader tasks, a queue, a consumer
 that is suspended at every event it yields, the child process, a clock and a caller that may
 close the generator or cancel it wherever it is suspended.
 */
module Stream {
  import opened Common

  datatype Name = Stdout | Stderr

  /** One value for each of the two output streams. */
  datatype Per<T> = Per(out: T, err: T) {
    function Get(name: Name): T {
      if name == Stdout then out else err
    }

    function Set(name: Name, value: T): (r: Per<T>)
      ensures r.Get(name) == value && forall other :: other != name ==> r.Get(other) == Get(other)
    {
      if name == Stdout then Per(value, err) else Per(out, value)
    }
  }

  // ----- Buffered reading -----

  /** `_read_limited`: everything is drained, the first `maximum` bytes are kept. The chunks are what
      successive reads return before the empty one. */
  method ReadLimited(stream: Option<seq<Bytes>>, maximum: nat) returns (captured: Bytes)
    ensures captured == Clip(Flatten(if stream.Some? then stream.value else []), maximum)
  {
    captured := [];
    if stream.None? {
      return;
    }
    var chunks := stream.value;
    for i := 0 to |chunks|
      invariant captured == Clip(Flatten(chunks[..i]), maximum)
    {
      var chunk := chunks[i];
      assert chunks[..i + 1] == chunks[..i] + [chunk];
      FlattenSnoc(chunks[..i], chunk);
      ClipAppend(Flatten(chunks[..i]), chunk, maximum);
      if maximum > |captured| {
        captured := captured + Clip(chunk, maximum - |captured|);
      }
    }
    assert chunks[..|chunks|] == chunks;
  }

  /** Keeping the start of a concatenation piece by piece. */
  lemma ClipAppend(a: Bytes, b: Bytes, maximum: nat)
    ensures Clip(a + b, maximum)
         == if maximum > |Clip(a, maximum)| then Clip(a, maximum) + Clip(b, maximum - |Clip(a, maximum)|)
            else Clip(a, maximum)
  {
  }

  // ----- The streaming generator -----

  datatype Item = Chunk(name: Name, data: Bytes) | EndMark

  datatype Event = Error | Start(pid: int) | Output(name: Name, data: Bytes) | Timeout | Exit(code: int)

  datatype Reader = Active | Ended | Cancelled

  /** Where the generator is. `At...` are suspensions at a yield; `Waiting`, `Killing`, `AwaitExit` and
      `Reaping` are suspensions at an await. */
  datatype Pc =
    | Entry | AtError | AtStart | LoopTop | Waiting | AtOutput | AwaitExit | Killing | AtTimeout | AtExit
    | Cleanup | Reaping | Finished

  /** `produced`, `taken` and `closed` are history: the bytes the readers read, those the consumer took
      off the queue, and whether the caller closed or cancelled the generator. */
  datatype State = State(
    pc: Pc,
    now: int,
    deadline: int,
    spawned: bool,
    returncode: Option<int>,
    killed: bool,
    readers: Per<Reader>,
    queue: seq<Item>,
    completed: nat,
    emitted: Per<nat>,
    timedOut: bool,
    trace: seq<Event>,
    produced: Per<Bytes>,
    taken: Per<Bytes>,
    closed: bool)

  const READ_SIZE := 64 * 1024

  datatype Action =
    | Reject
    | SpawnFails
    | Spawn(pid: int, timeoutSeconds: nat)
    | Tick(time: nat)
    | Read(name: Name, chunk: Bytes)
    | ReadEnd(name: Name)
    | LeaderExits(code: int)
    | Resume
    | CheckLoop
    | TakeItem
    | WaitExpires
    | ProcessWaited
    | ExitWaitExpires
    | Close
    | CleanUp

  function Begin(now: int): State {
    State(Entry, now, 0, false, None, false, Per(Active, Active), [], 0, Per(0, 0), false, [], Per([], []), Per([], []), false)
  }

  function Yield(s: State, pc: Pc, event: Event): State {
    s.(pc := pc, trace := s.trace + [event])
  }

  /** `_kill_process_group`, unless the leader is already reaped. */
  function Kill(s: State, pc: Pc): State {
    s.(pc := pc, killed := true)
  }

  function CancelReaders(readers: Per<Reader>): Per<Reader> {
    Per(if readers.out == Active then Cancelled else readers.out, if readers.err == Active then Cancelled else readers.err)
  }

  /** A dequeued item: an end mark is counted, a chunk is cut to what its stream may still emit. */
  function Consume(s: State, limit: nat): State
    requires s.queue != []
  {
    var rest := s.(queue := s.queue[1..]);
    match s.queue[0]
    case EndMark => rest.(pc := LoopTop, completed := s.completed + 1)
    case Chunk(name, data) =>
      var tracked := rest.(taken := s.taken.Set(name, s.taken.Get(name) + data));
      if limit <= s.emitted.Get(name) then tracked.(pc := LoopTop)
      else
        var kept := Clip(data, limit - s.emitted.Get(name));
        Yield(tracked.(emitted := s.emitted.Set(name, s.emitted.Get(name) + |kept|)), AtOutput, Output(name, kept))
  }

  predicate Suspended(pc: Pc) {
    pc.AtStart? || pc.AtOutput? || pc.AtTimeout? || pc.AtExit? || pc.Waiting? || pc.AwaitExit? || pc.Killing?
  }

  function Step(limit: nat, s: State, a: Action): Option<State> {
    match a
    case Reject => if s.pc == Entry then Some(s.(pc := Finished)) else None
    case SpawnFails => if s.pc == Entry then Some(Yield(s, AtError, Error)) else None
    case Spawn(pid, timeoutSeconds) =>
      if s.pc == Entry then
        Some(Yield(s.(spawned := true, deadline := s.now + timeoutSeconds), AtStart, Start(pid)))
      else None
    case Tick(time) => Some(s.(now := s.now + time))
    case Read(name, chunk) =>
      if s.spawned && s.readers.Get(name) == Active && 0 < |chunk| <= READ_SIZE then
        Some(s.(queue := s.queue + [Chunk(name, chunk)], produced := s.produced.Set(name, s.produced.Get(name) + chunk)))
      else None
    case ReadEnd(name) =>
      if s.spawned && s.readers.Get(name) == Active then
        Some(s.(queue := s.queue + [EndMark], readers := s.readers.Set(name, Ended)))
      else None
    case LeaderExits(code) => if s.spawned && s.returncode == None then Some(s.(returncode := Some(code))) else None
    case Resume =>
      (match s.pc
       case AtError => Some(s.(pc := Finished))
       case AtStart => Some(s.(pc := LoopTop))
       case AtOutput => Some(s.(pc := LoopTop))
       case AtTimeout => Some(Yield(s, AtExit, Exit(124)))
       case AtExit => Some(s.(pc := Cleanup))
       case _ => None)
    case CheckLoop =>
      if s.pc != LoopTop then None
      else if s.completed >= 2 then Some(s.(pc := AwaitExit))
      else if s.deadline - s.now <= 0 then Some(Kill(s.(timedOut := true), Killing))
      else Some(s.(pc := Waiting))
    case TakeItem => if s.pc == Waiting && s.queue != [] then Some(Consume(s, limit)) else None
    case WaitExpires =>
      if s.pc == Waiting && s.now >= s.deadline then Some(Kill(s.(timedOut := true), Killing)) else None
    case ExitWaitExpires =>
      if s.pc == AwaitExit && s.now >= s.deadline then Some(Kill(s.(timedOut := true), Killing)) else None
    case ProcessWaited =>
      if s.returncode == None then None
      else
        (match s.pc
         case AwaitExit => Some(Yield(s, AtExit, Exit(s.returncode.value)))
         case Killing => Some(Yield(s, AtTimeout, Timeout))
         case Reaping => Some(s.(pc := Finished, readers := CancelReaders(s.readers)))
         case _ => None)
    case Close =>
      if s.pc == AtError then Some(s.(pc := Finished, closed := true))
      else if Suspended(s.pc) then Some(s.(pc := Cleanup, closed := true))
      else None
    case CleanUp =>
      if s.pc != Cleanup then None
      else if s.returncode == None then Some(Kill(s, Reaping))
      else Some(s.(pc := Finished, readers := CancelReaders(s.readers)))
  }

  function Exec(limit: nat, s: State, actions: seq<Action>): Option<State>
    decreases |actions|
  {
    if actions == [] then Some(s)
    else
      match Exec(limit, s, actions[..|actions| - 1])
      case None => None
      case Some(before) => Step(limit, before, actions[|actions| - 1])
  }

  // ----- Observations -----

  function QueuedBytes(queue: seq<Item>, name: Name): Bytes {
    if queue == [] then []
    else (if queue[0].Chunk? && queue[0].name == name then queue[0].data else []) + QueuedBytes(queue[1..], name)
  }

  function QueuedEnds(queue: seq<Item>): nat {
    if queue == [] then 0 else (if queue[0].EndMark? then 1 else 0) + QueuedEnds(queue[1..])
  }

  function OutputOf(event: Event, name: Name): Bytes {
    if event.Output? && event.name == name then event.data else []
  }

  /** The bytes of one stream that the caller was given. */
  function OutputBytes(trace: seq<Event>, name: Name): Bytes {
    if trace == [] then [] else OutputBytes(trace[..|trace| - 1], name) + OutputOf(trace[|trace| - 1], name)
  }

  function OutputEvents(trace: seq<Event>): nat {
    if trace == [] then 0
    else OutputEvents(trace[..|trace| - 1]) + if trace[|trace| - 1].Output? then 1 else 0
  }

  function EndedReaders(readers: Per<Reader>): nat {
    (if readers.out == Ended then 1 else 0) + (if readers.err == Ended then 1 else 0)
  }

  // ----- The trace language -----

  /** `start (stdout|stderr)*`, every output event carrying at least one byte. */
  predicate StartOutputs(t: seq<Event>) {
    && |t| >= 1 && t[0].Start?
    && forall i :: 1 <= i < |t| ==> t[i].Output? && t[i].data != []
  }

  /** `start (stdout|stderr)* timeout`. */
  predicate StartOutputsTimeout(t: seq<Event>) {
    |t| >= 2 && t[|t| - 1] == Timeout && StartOutputs(t[..|t| - 1])
  }

  /** `start (stdout|stderr)* timeout? exit`, with exit code 124 after a timeout. */
  predicate Complete(t: seq<Event>) {
    && |t| >= 2 && t[|t| - 1].Exit?
    && var init := t[..|t| - 1];
       StartOutputs(init) || (StartOutputsTimeout(init) && t[|t| - 1].code == 124)
  }

  /** A beginning of a complete trace. */
  predicate Partial(t: seq<Event>) {
    StartOutputs(t) || StartOutputsTimeout(t) || Complete(t)
  }

  // ----- The invariant -----

  predicate TraceFits(pc: Pc, trace: seq<Event>, spawned: bool, closed: bool) {
    match pc
    case Entry => trace == [] && !spawned && !closed
    case AtError => trace == [Error] && !spawned && !closed
    case AtTimeout => StartOutputsTimeout(trace) && !closed
    case AtExit => Complete(trace) && !closed
    case Cleanup => Partial(trace) && (!closed ==> Complete(trace))
    case Reaping => Partial(trace) && (!closed ==> Complete(trace))
    case Finished =>
      if spawned then Partial(trace) && (!closed ==> Complete(trace)) else trace == [] || trace == [Error]
    case _ => StartOutputs(trace) && !closed
  }

  /** Before the deadline has been noticed. */
  predicate Early(pc: Pc) {
    pc.Entry? || pc.AtStart? || pc.LoopTop? || pc.Waiting? || pc.AtOutput? || pc.AwaitExit?
  }

  predicate ProcessMatchesPc(s: State) {
    && (!s.pc.Entry? && !s.pc.AtError? && !s.pc.Finished? ==> s.spawned)
    && (s.pc.Killing? || s.pc.Reaping? ==> s.killed)
    && (s.pc.AtTimeout? || s.pc.AtExit? ==> s.returncode.Some?)
    && (s.pc.Finished? && s.spawned ==> s.returncode.Some? && s.readers.out != Active && s.readers.err != Active)
    && (s.timedOut ==> s.now >= s.deadline)
    && (Early(s.pc) ==> !s.timedOut && !s.killed)
    && (s.pc.Killing? ==> s.timedOut)
  }

  predicate StreamAccounted(limit: nat, s: State, name: Name) {
    && s.produced.Get(name) == s.taken.Get(name) + QueuedBytes(s.queue, name)
    && OutputBytes(s.trace, name) == Clip(s.taken.Get(name), limit)
    && s.emitted.Get(name) == |OutputBytes(s.trace, name)|
  }

  /** End marks are exactly those of the ended readers, and once both have ended the queue ends with one. */
  predicate EndsFit(pc: Pc, readers: Per<Reader>, queue: seq<Item>, completed: nat) {
    && (!pc.Finished? ==> readers.out != Cancelled && readers.err != Cancelled)
    && QueuedEnds(queue) + completed == EndedReaders(readers)
    && (EndedReaders(readers) == 2 && queue != [] ==> queue[|queue| - 1].EndMark?)
    && (pc.AwaitExit? ==> completed == 2)
  }

  predicate HasExit(trace: seq<Event>) {
    trace != [] && trace[|trace| - 1].Exit?
  }

  /** An exit event is emitted after a timeout event, or after both end marks were counted. */
  predicate ExitExplained(trace: seq<Event>, timedOut: bool, completed: nat) {
    HasExit(trace) ==> if timedOut then StartOutputsTimeout(trace[..|trace| - 1]) else completed == 2
  }

  predicate Inv(limit: nat, s: State) {
    && ExitExplained(s.trace, s.timedOut, s.completed)
    && TraceFits(s.pc, s.trace, s.spawned, s.closed)
    && ProcessMatchesPc(s)
    && (Timeout in s.trace ==> s.timedOut)
    && EndsFit(s.pc, s.readers, s.queue, s.completed)
    && StreamAccounted(limit, s, Stdout) && StreamAccounted(limit, s, Stderr)
  }

  // ----- Steps keep the invariant -----

  lemma {:induction false} QueuedBytesSnoc(queue: seq<Item>, item: Item, name: Name)
    ensures QueuedBytes(queue + [item], name)
         == QueuedBytes(queue, name) + (if item.Chunk? && item.name == name then item.data else [])
  {
    if queue == [] {
      assert [item][1..] == [];
    } else {
      QueuedBytesSnoc(queue[1..], item, name);
      assert (queue + [item])[1..] == queue[1..] + [item];
      Assoc(if queue[0].Chunk? && queue[0].name == name then queue[0].data else [],
            QueuedBytes(queue[1..], name), if item.Chunk? && item.name == name then item.data else []);
    }
  }

  lemma {:induction false} QueuedEndsSnoc(queue: seq<Item>, item: Item)
    ensures QueuedEnds(queue + [item]) == QueuedEnds(queue) + if item.EndMark? then 1 else 0
  {
    if queue == [] {
      assert [item][1..] == [];
    } else {
      QueuedEndsSnoc(queue[1..], item);
      assert (queue + [item])[1..] == queue[1..] + [item];
    }
  }

  lemma OutputBytesSnoc(trace: seq<Event>, event: Event, name: Name)
    ensures OutputBytes(trace + [event], name) == OutputBytes(trace, name) + OutputOf(event, name)
  {
    assert (trace + [event])[..|trace|] == trace;
  }

  /** An event that carries no output leaves the accounts as they are. */
  lemma QuietEvent(trace: seq<Event>, event: Event)
    requires !event.Output?
    ensures forall name :: OutputBytes(trace + [event], name) == OutputBytes(trace, name)
    ensures Timeout in trace + [event] <==> event == Timeout || Timeout in trace
    ensures (trace + [event])[..|trace|] == trace
  {
    forall name
      ensures OutputBytes(trace + [event], name) == OutputBytes(trace, name)
    {
      OutputBytesSnoc(trace, event, name);
      assert OutputBytes(trace, name) + [] == OutputBytes(trace, name);
    }
  }

  lemma LastEndMark(queue: seq<Item>)
    requires queue != [] && queue[|queue| - 1].EndMark?
    ensures QueuedEnds(queue) > 0
  {
    var init := queue[..|queue| - 1];
    QueuedEndsSnoc(init, queue[|queue| - 1]);
    assert queue == init + [queue[|queue| - 1]];
  }

  lemma ReadKeepsInv(limit: nat, s: State, name: Name, chunk: Bytes)
    requires Inv(limit, s) && Step(limit, s, Read(name, chunk)).Some?
    ensures Inv(limit, Step(limit, s, Read(name, chunk)).value)
  {
    QueuedBytesSnoc(s.queue, Chunk(name, chunk), Stdout);
    QueuedBytesSnoc(s.queue, Chunk(name, chunk), Stderr);
    QueuedEndsSnoc(s.queue, Chunk(name, chunk));
    Assoc(s.taken.Get(name), QueuedBytes(s.queue, name), chunk);
  }

  lemma ReadEndKeepsInv(limit: nat, s: State, name: Name)
    requires Inv(limit, s) && Step(limit, s, ReadEnd(name)).Some?
    ensures Inv(limit, Step(limit, s, ReadEnd(name)).value)
  {
    QueuedBytesSnoc(s.queue, EndMark, Stdout);
    QueuedBytesSnoc(s.queue, EndMark, Stderr);
    QueuedEndsSnoc(s.queue, EndMark);
  }

  lemma TakeEndKeepsInv(limit: nat, s: State)
    requires Inv(limit, s) && s.pc.Waiting? && s.queue != [] && s.queue[0].EndMark?
    ensures Inv(limit, Consume(s, limit))
  {
    var s' := s.(queue := s.queue[1..], pc := LoopTop, completed := s.completed + 1);
    assert Consume(s, limit) == s';
    EndMarkFirst(s.queue, Stdout);
    EndMarkFirst(s.queue, Stderr);
    assert StreamAccounted(limit, s', Stdout) && StreamAccounted(limit, s', Stderr);
  }

  lemma EndMarkFirst(queue: seq<Item>, name: Name)
    requires queue != [] && queue[0].EndMark?
    ensures QueuedBytes(queue, name) == QueuedBytes(queue[1..], name) && QueuedEnds(queue) == QueuedEnds(queue[1..]) + 1
  {
    assert [] + QueuedBytes(queue[1..], name) == QueuedBytes(queue[1..], name);
  }

  /** The accounts of one stream, spelled out. */
  predicate Balanced(limit: nat, produced: Bytes, taken: Bytes, queued: Bytes, output: Bytes, emitted: nat) {
    produced == taken + queued && output == Clip(taken, limit) && emitted == |output|
  }

  /** Moving one chunk from the queue to the output, cut to what is still allowed. */
  lemma ChunkBalances(limit: nat, produced: Bytes, taken: Bytes, data: Bytes, rest: Bytes, output: Bytes, emitted: nat)
    requires Balanced(limit, produced, taken, data + rest, output, emitted)
    ensures limit > emitted ==>
              var kept := Clip(data, limit - emitted);
              Balanced(limit, produced, taken + data, rest, output + kept, emitted + |kept|)
    ensures limit <= emitted ==> Balanced(limit, produced, taken + data, rest, output, emitted)
  {
    Assoc(taken, data, rest);
    ClipAppend(taken, data, limit);
  }

  function Kept(s: State, limit: nat): Bytes
    requires s.queue != [] && s.queue[0].Chunk? && limit > s.emitted.Get(s.queue[0].name)
  {
    Clip(s.queue[0].data, limit - s.emitted.Get(s.queue[0].name))
  }

  lemma TakeChunkAccounts(limit: nat, s: State, other: Name)
    requires s.queue != [] && s.queue[0].Chunk?
    requires StreamAccounted(limit, s, other)
    ensures StreamAccounted(limit, Consume(s, limit), other)
  {
    var name, data := s.queue[0].name, s.queue[0].data;
    var rest := QueuedBytes(s.queue[1..], other);
    if limit > s.emitted.Get(name) {
      OutputBytesSnoc(s.trace, Output(name, Kept(s, limit)), other);
    }
    if other == name {
      ChunkBalances(limit, s.produced.Get(name), s.taken.Get(name), data, rest,
                    OutputBytes(s.trace, name), s.emitted.Get(name));
    } else {
      assert [] + rest == rest;
      assert OutputBytes(s.trace, other) + [] == OutputBytes(s.trace, other);
    }
  }

  lemma OutputExtends(t: seq<Event>, name: Name, data: Bytes)
    requires StartOutputs(t) && data != []
    ensures StartOutputs(t + [Output(name, data)])
    ensures Timeout !in t + [Output(name, data)]
  {
    assert Timeout !in t;
  }

  /** Chunks on the queue are never empty. */
  predicate ChunksNonEmpty(queue: seq<Item>) {
    forall i :: 0 <= i < |queue| && queue[i].Chunk? ==> queue[i].data != []
  }

  lemma TakeChunkKeepsInv(limit: nat, s: State)
    requires Inv(limit, s) && ChunksNonEmpty(s.queue) && s.pc.Waiting? && s.queue != [] && s.queue[0].Chunk?
    ensures Inv(limit, Consume(s, limit))
  {
    TakeChunkAccounts(limit, s, Stdout);
    TakeChunkAccounts(limit, s, Stderr);
    var s' := Consume(s, limit);
    TakeChunkEnds(s);
    if limit > s.emitted.Get(s.queue[0].name) {
      OutputExtends(s.trace, s.queue[0].name, Kept(s, limit));
      assert s'.trace == s.trace + [Output(s.queue[0].name, Kept(s, limit))];
    }
    assert TraceFits(s'.pc, s'.trace, s'.spawned, s'.closed);
    assert EndsFit(s'.pc, s'.readers, s'.queue, s'.completed);
  }

  lemma TakeChunkEnds(s: State)
    requires EndsFit(s.pc, s.readers, s.queue, s.completed) && s.pc.Waiting? && s.queue != [] && s.queue[0].Chunk?
    ensures EndsFit(LoopTop, s.readers, s.queue[1..], s.completed)
    ensures EndsFit(AtOutput, s.readers, s.queue[1..], s.completed)
  {
  }

  lemma ConsumeShortensQueue(s: State, limit: nat)
    requires s.queue != []
    ensures Consume(s, limit).queue == s.queue[1..]
  {
  }

  lemma QueueAfter(limit: nat, s: State, a: Action)
    requires Step(limit, s, a).Some?
    ensures var queue := Step(limit, s, a).value.queue;
            match a
            case TakeItem => s.queue != [] && queue == s.queue[1..]
            case Read(name, chunk) => chunk != [] && queue == s.queue + [Chunk(name, chunk)]
            case ReadEnd(_) => queue == s.queue + [EndMark]
            case _ => queue == s.queue
  {
    if a.TakeItem? {
      ConsumeShortensQueue(s, limit);
      assert Step(limit, s, a).value == Consume(s, limit);
    }
  }

  lemma ChunksStayNonEmpty(limit: nat, s: State, a: Action)
    requires ChunksNonEmpty(s.queue) && Step(limit, s, a).Some?
    ensures ChunksNonEmpty(Step(limit, s, a).value.queue)
  {
    QueueAfter(limit, s, a);
  }

  lemma EnvironmentKeepsInv(limit: nat, s: State, a: Action)
    requires Inv(limit, s) && Step(limit, s, a).Some? && (a.Tick? || a.LeaderExits?)
    ensures Inv(limit, Step(limit, s, a).value)
  {
  }

  /** A control step that yields nothing: only the position, the clock flags and, at the end, the
      reader tasks change. */
  lemma ControlKeepsInv(limit: nat, s: State, s': State)
    requires Inv(limit, s) && ProcessMatchesPc(s') && !s.pc.Finished?
    requires s'.trace == s.trace && s'.spawned == s.spawned
    requires TraceFits(s'.pc, s'.trace, s'.spawned, s'.closed)
    requires s.timedOut ==> s'.timedOut
    requires s'.timedOut != s.timedOut ==> StartOutputs(s.trace)
    requires s'.queue == s.queue && s'.completed == s.completed && s'.emitted == s.emitted
    requires s'.produced == s.produced && s'.taken == s.taken
    requires s'.pc.AwaitExit? ==> s.completed == 2
    requires if s'.pc.Finished? then s'.readers == s.readers || s'.readers == CancelReaders(s.readers)
             else s'.readers == s.readers
    ensures Inv(limit, s')
  {
  }

  lemma EndedAtMostTwo(limit: nat, s: State)
    requires Inv(limit, s) && !s.pc.Finished?
    ensures s.completed <= 2
  {
  }

  lemma LoopKeepsInv(limit: nat, s: State)
    requires Inv(limit, s) && Step(limit, s, CheckLoop).Some?
    ensures Inv(limit, Step(limit, s, CheckLoop).value)
  {
    EndedAtMostTwo(limit, s);
    ControlKeepsInv(limit, s, Step(limit, s, CheckLoop).value);
  }

  lemma ExpiryKeepsInv(limit: nat, s: State)
    requires Inv(limit, s) && (s.pc.Waiting? || s.pc.AwaitExit?) && s.now >= s.deadline
    ensures Inv(limit, Kill(s.(timedOut := true), Killing))
  {
    ControlKeepsInv(limit, s, Kill(s.(timedOut := true), Killing));
  }

  lemma CloseKeepsInv(limit: nat, s: State)
    requires Inv(limit, s) && Step(limit, s, Close).Some?
    ensures Inv(limit, Step(limit, s, Close).value)
  {
    ControlKeepsInv(limit, s, Step(limit, s, Close).value);
  }

  lemma CleanUpKeepsInv(limit: nat, s: State)
    requires Inv(limit, s) && Step(limit, s, CleanUp).Some?
    ensures Inv(limit, Step(limit, s, CleanUp).value)
  {
    if s.returncode == None {
      ControlKeepsInv(limit, s, Kill(s, Reaping));
    } else {
      DoneKeepsInv(limit, s);
    }
  }

  lemma DoneKeepsInv(limit: nat, s: State)
    requires Inv(limit, s) && (s.pc.Cleanup? || s.pc.Reaping?) && s.returncode.Some?
    ensures Inv(limit, s.(pc := Finished, readers := CancelReaders(s.readers)))
  {
    ControlKeepsInv(limit, s, s.(pc := Finished, readers := CancelReaders(s.readers)));
  }

  /** A control step that yields one event without output. */
  lemma YieldKeepsInv(limit: nat, s: State, s': State, event: Event)
    requires Inv(limit, s) && ProcessMatchesPc(s') && !s.pc.Finished? && !s'.pc.Finished? && !s'.pc.AwaitExit?
    requires !event.Output? && s'.trace == s.trace + [event]
    requires TraceFits(s'.pc, s'.trace, s'.spawned, s'.closed)
    requires event == Timeout || s.timedOut ==> s'.timedOut
    requires ExitExplained(s'.trace, s'.timedOut, s'.completed)
    requires s'.queue == s.queue && s'.completed == s.completed && s'.emitted == s.emitted && s'.readers == s.readers
    requires s'.produced == s.produced && s'.taken == s.taken
    ensures Inv(limit, s')
  {
    QuietEvent(s.trace, event);
  }

  lemma SpawnKeepsInv(limit: nat, s: State, a: Action)
    requires Inv(limit, s) && Step(limit, s, a).Some? && (a.SpawnFails? || a.Spawn?)
    ensures Inv(limit, Step(limit, s, a).value)
  {
    YieldKeepsInv(limit, s, Step(limit, s, a).value, if a.Spawn? then Start(a.pid) else Error);
  }

  lemma ExitCompletes(t: seq<Event>, code: int)
    requires StartOutputs(t) || (StartOutputsTimeout(t) && code == 124)
    ensures Complete(t + [Exit(code)])
    ensures (t + [Exit(code)])[..|t|] == t
  {
    assert (t + [Exit(code)])[..|t|] == t;
  }

  lemma AfterTimeoutKeepsInv(limit: nat, s: State)
    requires Inv(limit, s) && s.pc.AtTimeout?
    ensures Inv(limit, Yield(s, AtExit, Exit(124)))
  {
    ExitCompletes(s.trace, 124);
    YieldKeepsInv(limit, s, Yield(s, AtExit, Exit(124)), Exit(124));
  }

  lemma ResumeKeepsInv(limit: nat, s: State)
    requires Inv(limit, s) && Step(limit, s, Resume).Some?
    ensures Inv(limit, Step(limit, s, Resume).value)
  {
    if s.pc.AtTimeout? {
      AfterTimeoutKeepsInv(limit, s);
    } else {
      ControlKeepsInv(limit, s, Step(limit, s, Resume).value);
    }
  }

  lemma ExitKeepsInv(limit: nat, s: State)
    requires Inv(limit, s) && s.pc.AwaitExit? && s.returncode.Some?
    ensures Inv(limit, Yield(s, AtExit, Exit(s.returncode.value)))
  {
    ExitCompletes(s.trace, s.returncode.value);
    YieldKeepsInv(limit, s, Yield(s, AtExit, Exit(s.returncode.value)), Exit(s.returncode.value));
  }

  lemma TimeoutKeepsInv(limit: nat, s: State)
    requires Inv(limit, s) && s.pc.Killing? && s.returncode.Some?
    ensures Inv(limit, Yield(s, AtTimeout, Timeout))
  {
    assert (s.trace + [Timeout])[..|s.trace|] == s.trace;
    YieldKeepsInv(limit, s, Yield(s, AtTimeout, Timeout), Timeout);
  }

  lemma WaitedKeepsInv(limit: nat, s: State)
    requires Inv(limit, s) && Step(limit, s, ProcessWaited).Some?
    ensures Inv(limit, Step(limit, s, ProcessWaited).value)
  {
    match s.pc {
      case AwaitExit => ExitKeepsInv(limit, s);
      case Killing => TimeoutKeepsInv(limit, s);
      case Reaping => DoneKeepsInv(limit, s);
    }
  }

  lemma StepKeepsInv(limit: nat, s: State, a: Action)
    requires Inv(limit, s) && ChunksNonEmpty(s.queue) && Step(limit, s, a).Some?
    ensures Inv(limit, Step(limit, s, a).value)
  {
    match a {
      case Read(name, chunk) => ReadKeepsInv(limit, s, name, chunk);
      case ReadEnd(name) => ReadEndKeepsInv(limit, s, name);
      case TakeItem =>
        if s.queue[0].EndMark? {
          TakeEndKeepsInv(limit, s);
        } else {
          TakeChunkKeepsInv(limit, s);
        }
      case SpawnFails => SpawnKeepsInv(limit, s, a);
      case Spawn(_, _) => SpawnKeepsInv(limit, s, a);
      case Reject => ControlKeepsInv(limit, s, s.(pc := Finished));
      case Tick(_) => EnvironmentKeepsInv(limit, s, a);
      case LeaderExits(_) => EnvironmentKeepsInv(limit, s, a);
      case Resume => ResumeKeepsInv(limit, s);
      case ProcessWaited => WaitedKeepsInv(limit, s);
      case CheckLoop => LoopKeepsInv(limit, s);
      case WaitExpires => ExpiryKeepsInv(limit, s);
      case ExitWaitExpires => ExpiryKeepsInv(limit, s);
      case Close => CloseKeepsInv(limit, s);
      case CleanUp => CleanUpKeepsInv(limit, s);
    }
  }

  lemma {:induction false} RunKeepsInv(limit: nat, now: int, actions: seq<Action>)
    requires Exec(limit, Begin(now), actions).Some?
    ensures Inv(limit, Exec(limit, Begin(now), actions).value)
    ensures ChunksNonEmpty(Exec(limit, Begin(now), actions).value.queue)
    decreases |actions|
  {
    if actions != [] {
      var init, last := actions[..|actions| - 1], actions[|actions| - 1];
      RunKeepsInv(limit, now, init);
      var s := Exec(limit, Begin(now), init).value;
      StepKeepsInv(limit, s, last);
      ChunksStayNonEmpty(limit, s, last);
    }
  }

  // ----- Main results -----

  /** At every moment of every interleaving, what was given out of a stream is a prefix of what the
      process wrote to it, within the limit; and once the loop has ended by counting two end marks,
      the queue is empty and it is exactly the first `limit` bytes of what was written. */
  lemma LosslessBoundedOutput(limit: nat, now: int, actions: seq<Action>, name: Name)
    requires Exec(limit, Begin(now), actions).Some?
    ensures var s := Exec(limit, Begin(now), actions).value;
            && OutputBytes(s.trace, name) <= s.produced.Get(name)
            && |OutputBytes(s.trace, name)| <= limit
            && (s.pc == AwaitExit ==> s.queue == [] && OutputBytes(s.trace, name) == Clip(s.produced.Get(name), limit))
  {
    RunKeepsInv(limit, now, actions);
    var s := Exec(limit, Begin(now), actions).value;
    if s.queue != [] && s.queue[|s.queue| - 1].EndMark? {
      LastEndMark(s.queue);
    }
  }

  lemma ExitMeansBothEnded(s: State)
    requires ExitExplained(s.trace, s.timedOut, s.completed) && HasExit(s.trace) && Timeout !in s.trace
    requires EndsFit(s.pc, s.readers, s.queue, s.completed)
    ensures s.queue == []
  {
    var init := s.trace[..|s.trace| - 1];
    assert init != [] ==> init[|init| - 1] in s.trace;
    assert s.completed == 2;
    if s.queue != [] {
      LastEndMark(s.queue);
    }
  }

  /** An exit without a timeout means nothing was cut short: whatever happened since, the output is
      exactly the start of everything the process wrote. */
  lemma ExitMeansAllOutput(limit: nat, now: int, actions: seq<Action>, name: Name)
    requires Exec(limit, Begin(now), actions).Some?
    requires var s := Exec(limit, Begin(now), actions).value; HasExit(s.trace) && Timeout !in s.trace
    ensures var s := Exec(limit, Begin(now), actions).value;
            OutputBytes(s.trace, name) == Clip(s.produced.Get(name), limit)
  {
    RunKeepsInv(limit, now, actions);
    var s := Exec(limit, Begin(now), actions).value;
    ExitMeansBothEnded(s);
    assert StreamAccounted(limit, s, name) && s.taken.Get(name) + [] == s.taken.Get(name);
  }

  /** An exit that no timeout preceded carries the return code of the reaped process. */
  predicate CodeFits(trace: seq<Event>, returncode: Option<int>) {
    HasExit(trace) && Timeout !in trace ==> returncode == Some(trace[|trace| - 1].code)
  }

  lemma ConsumeKeepsCode(limit: nat, s: State)
    requires s.queue != [] && CodeFits(s.trace, s.returncode)
    ensures CodeFits(Consume(s, limit).trace, s.returncode) && Consume(s, limit).returncode == s.returncode
  {
  }

  lemma YieldKeepsCode(trace: seq<Event>, event: Event, returncode: Option<int>)
    requires event.Exit? ==> returncode == Some(event.code) || Timeout in trace
    ensures CodeFits(trace + [event], returncode)
  {
    if Timeout in trace {
      assert Timeout in trace + [event];
    }
  }

  lemma StepKeepsCode(limit: nat, s: State, a: Action)
    requires Inv(limit, s) && Step(limit, s, a).Some? && CodeFits(s.trace, s.returncode)
    ensures CodeFits(Step(limit, s, a).value.trace, Step(limit, s, a).value.returncode)
  {
    match a {
      case TakeItem => ConsumeKeepsCode(limit, s);
      case Resume =>
        if s.pc.AtTimeout? {
          assert s.trace[|s.trace| - 1] == Timeout;
          YieldKeepsCode(s.trace, Exit(124), s.returncode);
        }
      case ProcessWaited =>
        YieldKeepsCode(s.trace, Exit(s.returncode.value), s.returncode);
        YieldKeepsCode(s.trace, Timeout, s.returncode);
      case SpawnFails => YieldKeepsCode(s.trace, Error, s.returncode);
      case Spawn(pid, _) => YieldKeepsCode(s.trace, Start(pid), s.returncode);
      case _ =>
    }
  }

  lemma {:induction false} ExitCarriesReturnCode(limit: nat, now: int, actions: seq<Action>)
    requires Exec(limit, Begin(now), actions).Some?
    ensures var s := Exec(limit, Begin(now), actions).value; CodeFits(s.trace, s.returncode)
    decreases |actions|
  {
    if actions != [] {
      var init := actions[..|actions| - 1];
      ExitCarriesReturnCode(limit, now, init);
      RunKeepsInv(limit, now, init);
      StepKeepsCode(limit, Exec(limit, Begin(now), init).value, actions[|actions| - 1]);
    }
  }

  lemma {:induction false} EventsCarryBytes(trace: seq<Event>)
    requires forall i :: 0 <= i < |trace| && trace[i].Output? ==> trace[i].data != []
    ensures OutputEvents(trace) <= |OutputBytes(trace, Stdout)| + |OutputBytes(trace, Stderr)|
  {
    if trace != [] {
      EventsCarryBytes(trace[..|trace| - 1]);
    }
  }

  /** Every finished run emitted one error, or a complete trace, or the beginning of one if the caller
      went away; whatever happened, a started process is reaped and no reader is left running. */
  lemma FinishedRuns(limit: nat, now: int, actions: seq<Action>)
    requires Exec(limit, Begin(now), actions).Some? && Exec(limit, Begin(now), actions).value.pc == Finished
    ensures var s := Exec(limit, Begin(now), actions).value;
            && (!s.spawned ==> s.trace == [] || s.trace == [Error])
            && (s.spawned ==>
                  && Partial(s.trace)
                  && (!s.closed ==> Complete(s.trace))
                  && s.returncode.Some? && s.readers.out != Active && s.readers.err != Active)
            && OutputEvents(s.trace) <= 2 * limit
  {
    RunKeepsInv(limit, now, actions);
    var s := Exec(limit, Begin(now), actions).value;
    PartialCarriesBytes(s.trace);
  }

  lemma PartialCarriesBytes(t: seq<Event>)
    requires Partial(t) || t == [] || t == [Error]
    ensures OutputEvents(t) <= |OutputBytes(t, Stdout)| + |OutputBytes(t, Stderr)|
  {
    EventsCarryBytes(t);
  }
}
