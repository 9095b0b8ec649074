/**
 The buffered command result of `execute_command`, its agreement with the event stream, and the
 event stream as the HTTP response carries it.
 */
module Execution {
  import opened Common
  import Sse
  import Utf8
  import Utf8Text
  import opened Stream
  import opened StreamRuns
  import opened StreamHistory

  // ----- Buffered execution -----

  /** What a started process does: the chunks successive reads return, whether it exits within the
      timeout, and its return code. */
  datatype ProcessRun = ProcessRun(stdout: seq<Bytes>, stderr: seq<Bytes>, inTime: bool, returncode: int)

  datatype Launch = Failed(message: string) | Launched(run: ProcessRun)

  datatype CommandResult = CommandResult(stdout: string, stderr: string, exitCode: int)

  function TimeoutMessage(timeoutSeconds: nat): string {
    "command timed out after " + Sse.DumpInt(timeoutSeconds) + " seconds"
  }

  method ExecuteCommand(launch: Launch, maximum: nat, timeoutSeconds: nat) returns (r: CommandResult)
    ensures launch.Failed? ==> r == CommandResult("", "Failed to execute command: " + launch.message, 127)
    ensures launch.Launched? ==>
              var stderr := Utf8.Decode(Clip(Flatten(launch.run.stderr), maximum));
              && r.stdout == Utf8.Decode(Clip(Flatten(launch.run.stdout), maximum))
              && (launch.run.inTime ==> r.stderr == stderr && r.exitCode == launch.run.returncode)
              && (!launch.run.inTime ==>
                    && r.exitCode == 124
                    && r.stderr == (if stderr == "" then "" else stderr + "\n")
                                   + ("command timed out after " + Sse.DumpInt(timeoutSeconds) + " seconds"))
    ensures launch.Launched? ==>
              forall text :: WrittenWithin(launch.run.stdout, text, maximum) ==> r.stdout == text
    ensures launch.Launched? && launch.run.inTime ==>
              forall text :: WrittenWithin(launch.run.stderr, text, maximum) ==> r.stderr == text
  {
    if launch.Failed? {
      return CommandResult("", "Failed to execute command: " + launch.message, 127);
    }
    var timedOut := !launch.run.inTime;
    var stdoutBytes := ReadLimited(Some(launch.run.stdout), maximum);
    var stderrBytes := ReadLimited(Some(launch.run.stderr), maximum);
    WrittenIsRead(launch.run.stdout, maximum);
    WrittenIsRead(launch.run.stderr, maximum);
    var stdout, stderr := Utf8.Decode(stdoutBytes), Utf8.Decode(stderrBytes);
    if timedOut {
      var message := TimeoutMessage(timeoutSeconds);
      assert "" + message == message;
      return CommandResult(stdout, if stderr != "" then stderr + "\n" + message else message, 124);
    }
    r := CommandResult(stdout, stderr, launch.run.returncode);
  }

  /** The process wrote this text, in UTF-8, and it lies within the limit. */
  predicate WrittenWithin(chunks: seq<Bytes>, text: string, maximum: nat) {
    Flatten(chunks) == Utf8Text.Encode(text) && |Utf8Text.Encode(text)| <= maximum
  }

  lemma WrittenIsRead(chunks: seq<Bytes>, maximum: nat)
    ensures forall text :: WrittenWithin(chunks, text, maximum) ==> Utf8.Decode(Clip(Flatten(chunks), maximum)) == text
  {
    forall text | WrittenWithin(chunks, text, maximum)
      ensures Utf8.Decode(Clip(Flatten(chunks), maximum)) == text
    {
      Utf8Text.DecodeEncoded(text);
      assert Clip(Flatten(chunks), maximum) == Flatten(chunks);
    }
  }

  // ----- Streamed and buffered output agree -----

  /** The text a client collects: every event is decoded on its own. */
  function StreamedText(trace: seq<Event>, name: Name): string {
    ConcatMap(Utf8.Decode, OutputChunks(trace, name))
  }

  lemma {:induction false} ChunksCarryOutput(trace: seq<Event>, name: Name)
    ensures Flatten(OutputChunks(trace, name)) == OutputBytes(trace, name)
  {
    if trace != [] {
      var init, last := trace[..|trace| - 1], trace[|trace| - 1];
      ChunksCarryOutput(init, name);
      if last.Output? && last.name == name {
        FlattenSnoc(OutputChunks(init, name), last.data);
      } else {
        assert OutputChunks(init, name) + [] == OutputChunks(init, name);
        assert OutputBytes(init, name) + [] == OutputBytes(init, name);
      }
    }
  }

  /** For a stream that ended without a timeout: its bytes are those the buffered call captures from any
      chunking of the same output; its texts agree exactly when no event boundary splits a character;
      and for ASCII output they always do. */
  lemma StreamAgreesWithBuffered(limit: nat, now: int, actions: seq<Action>, name: Name, chunks: seq<Bytes>)
    requires Exec(limit, Begin(now), actions).Some?
    requires var s := Exec(limit, Begin(now), actions).value;
             HasExit(s.trace) && Timeout !in s.trace && s.produced.Get(name) == Flatten(chunks)
    ensures var s := Exec(limit, Begin(now), actions).value;
            var captured := Clip(Flatten(chunks), limit);
            && Flatten(OutputChunks(s.trace, name)) == captured
            && (StreamedText(s.trace, name) == Utf8.Decode(captured)
                <==> Utf8.CutsBetweenCharacters(OutputChunks(s.trace, name)))
            && (Utf8.Ascii(captured) ==> StreamedText(s.trace, name) == Utf8.Decode(captured))
  {
    var s := Exec(limit, Begin(now), actions).value;
    ExitMeansAllOutput(limit, now, actions, name);
    ChunksCarryOutput(s.trace, name);
    Utf8.PiecewiseDecodeIff(OutputChunks(s.trace, name));
    if Utf8.Ascii(Clip(Flatten(chunks), limit)) {
      Utf8.AsciiCutsAnywhere(OutputChunks(s.trace, name));
    }
  }

  lemma SplitPieces(pieces: seq<Bytes>)
    requires pieces == [[0xC3], [0xA9]]
    ensures !Utf8.CutsBetweenCharacters(pieces) && |Flatten(pieces)| == 2
  {
    assert pieces[..1] == [[0xC3]] && pieces[1..] == [[0xA9]] && pieces[1..][1..] == [];
    assert Flatten(pieces[..1]) == [0xC3] + Flatten([]) == [0xC3];
    assert Utf8.After(Utf8.Between, [0xC3]) == Utf8.After(Utf8.Lead(0xC3), []);
    assert Utf8.Splits(Flatten(pieces[..1]), pieces[1]);
  }

  /** Every way of cutting an output that splits a character occurs, and then the texts differ although the stream
      ended by itself with all its output within the limit. */
  lemma SplittingStreamsDiffer(limit: nat, pid: int, chunks: seq<Bytes>, code: int) returns (actions: seq<Action>)
    requires forall i :: 0 <= i < |chunks| ==> 0 < |chunks[i]| <= READ_SIZE
    requires |Flatten(chunks)| <= limit && !Utf8.CutsBetweenCharacters(chunks)
    ensures Exec(limit, Begin(0), actions).Some?
    ensures var s := Exec(limit, Begin(0), actions).value;
            && HasExit(s.trace) && Timeout !in s.trace && s.produced.Get(Stdout) == Flatten(chunks)
            && StreamedText(s.trace, Stdout) != Utf8.Decode(Flatten(chunks))
  {
    actions := EveryChunkingStreams(limit, pid, chunks, code);
    StreamAgreesWithBuffered(limit, 0, actions, Stdout, chunks);
  }

  /** One such stream: a two-byte character arrives in two reads. */
  lemma SplitCharacterDiffers(limit: nat, pid: int, code: int) returns (actions: seq<Action>)
    requires limit >= 2
    ensures Exec(limit, Begin(0), actions).Some?
    ensures var s := Exec(limit, Begin(0), actions).value;
            && HasExit(s.trace) && Timeout !in s.trace && s.produced.Get(Stdout) == Flatten([[0xC3], [0xA9]])
            && StreamedText(s.trace, Stdout) != Utf8.Decode(s.produced.Get(Stdout))
  {
    var pieces: seq<Bytes> := [[0xC3], [0xA9]];
    SplitPieces(pieces);
    actions := SplittingStreamsDiffer(limit, pid, pieces, code);
  }

  // ----- The response -----

  /** The event as `app.py` encodes it. */
  function ToSse(event: Event, timeoutSeconds: nat, errorText: string): Sse.Event {
    match event
    case Error => Sse.Event("error", Sse.Text("message", "Failed to execute command: " + errorText))
    case Start(pid) => Sse.Event("start", Sse.Number("pid", pid))
    case Output(name, data) =>
      Sse.Event(if name == Stdout then "stdout" else "stderr", Sse.Text("data", Utf8.Decode(data)))
    case Timeout => Sse.Event("timeout", Sse.Text("message", TimeoutMessage(timeoutSeconds)))
    case Exit(code) => Sse.Event("exit", Sse.Number("exit_code", code))
  }

  function ToSseAll(trace: seq<Event>, timeoutSeconds: nat, errorText: string): (r: seq<Sse.Event>)
    ensures |r| == |trace|
    ensures forall i :: 0 <= i < |r| ==> r[i] == ToSse(trace[i], timeoutSeconds, errorText)
  {
    seq(|trace|, i requires 0 <= i < |trace| => ToSse(trace[i], timeoutSeconds, errorText))
  }

  lemma EventNamesAreNamed(event: Event, timeoutSeconds: nat, errorText: string)
    ensures Sse.Named(ToSse(event, timeoutSeconds, errorText))
  {
  }

  /** Whatever a command writes and whenever the response ends, its body decodes to the events sent. */
  lemma ResponseDecodes(trace: seq<Event>, timeoutSeconds: nat, errorText: string, taken: nat)
    ensures var sent := Clip(ToSseAll(trace, timeoutSeconds, errorText), taken);
            Sse.DecodeMessages(Sse.ParseStream(Sse.EncodeStream(sent))) == Some(sent)
  {
    var sent := Clip(ToSseAll(trace, timeoutSeconds, errorText), taken);
    forall i | 0 <= i < |sent|
      ensures Sse.Named(sent[i])
    {
      EventNamesAreNamed(trace[i], timeoutSeconds, errorText);
    }
    Sse.StreamRoundTrip(sent);
  }

  // ----- What the client collects -----

  /** The text of the events with this name, put together. */
  function ClientText(events: seq<Sse.Event>, name: string): string {
    if events == [] then ""
    else
      var last := events[|events| - 1];
      ClientText(events[..|events| - 1], name)
      + if last.name == name && last.data.Text? && last.data.key == "data" then last.data.text else ""
  }

  lemma ClientTextSnoc(events: seq<Sse.Event>, event: Sse.Event, name: string)
    ensures ClientText(events + [event], name)
         == ClientText(events, name)
            + if event.name == name && event.data.Text? && event.data.key == "data" then event.data.text else ""
  {
    assert (events + [event])[..|events|] == events;
  }

  lemma NamesDiffer()
    ensures "stdout" != "stderr" && "error" != "stdout" && "error" != "stderr" && "start" != "stdout" && "start" != "stderr"
    ensures "timeout" != "stdout" && "timeout" != "stderr" && "exit" != "stdout" && "exit" != "stderr"
  {
    assert "stdout"[3] == 'o' && "stderr"[3] == 'e' && "start"[2] == 'a' && "timeout"[0] == 't';
  }

  lemma EventText(event: Event, name: Name, timeoutSeconds: nat, errorText: string)
    ensures var sse, title := ToSse(event, timeoutSeconds, errorText), if name == Stdout then "stdout" else "stderr";
            (if sse.name == title && sse.data.Text? && sse.data.key == "data" then sse.data.text else "")
            == if event.Output? && event.name == name then Utf8.Decode(event.data) else ""
  {
    NamesDiffer();
  }

  /** The events named "stdout" carry what was streamed from standard output, and those named "stderr" the rest. */
  lemma {:induction false} ClientCollects(trace: seq<Event>, name: Name, timeoutSeconds: nat, errorText: string)
    ensures ClientText(ToSseAll(trace, timeoutSeconds, errorText), if name == Stdout then "stdout" else "stderr")
         == StreamedText(trace, name)
    decreases |trace|
  {
    if trace != [] {
      var init, last := trace[..|trace| - 1], trace[|trace| - 1];
      ClientCollects(init, name, timeoutSeconds, errorText);
      ClientTextSnoc(ToSseAll(init, timeoutSeconds, errorText), ToSse(last, timeoutSeconds, errorText),
                     if name == Stdout then "stdout" else "stderr");
      ToSseSnoc(trace, timeoutSeconds, errorText);
      EventText(last, name, timeoutSeconds, errorText);
      StreamedSnoc(trace, name);
    }
  }

  lemma ToSseSnoc(trace: seq<Event>, timeoutSeconds: nat, errorText: string)
    requires trace != []
    ensures ToSseAll(trace, timeoutSeconds, errorText)
         == ToSseAll(trace[..|trace| - 1], timeoutSeconds, errorText) + [ToSse(trace[|trace| - 1], timeoutSeconds, errorText)]
  {
  }

  lemma StreamedSnoc(trace: seq<Event>, name: Name)
    requires trace != []
    ensures var last := trace[|trace| - 1];
            StreamedText(trace, name)
            == StreamedText(trace[..|trace| - 1], name) + if last.Output? && last.name == name then Utf8.Decode(last.data) else ""
  {
    var chunks, last := OutputChunks(trace[..|trace| - 1], name), trace[|trace| - 1];
    if last.Output? && last.name == name {
      ConcatMapSnoc(Utf8.Decode, chunks, last.data);
    } else {
      assert chunks + [] == chunks;
      assert ConcatMap(Utf8.Decode, chunks) + "" == ConcatMap(Utf8.Decode, chunks);
    }
  }

  /** A stream that ended by itself streams the text that was written, unless an event boundary splits a character. */
  lemma StreamedIsWritten(limit: nat, now: int, actions: seq<Action>, name: Name, text: string)
    requires Exec(limit, Begin(now), actions).Some?
    requires var s := Exec(limit, Begin(now), actions).value; HasExit(s.trace) && Timeout !in s.trace
    requires ReadChunks(actions, name) == Utf8Text.Encode(text) && |Utf8Text.Encode(text)| <= limit
    ensures var trace := Exec(limit, Begin(now), actions).value.trace;
            StreamedText(trace, name) == text <==> Utf8.CutsBetweenCharacters(OutputChunks(trace, name))
  {
    var captured := Utf8Text.Encode(text);
    ProducedIsRead(limit, now, actions, name);
    Flattened(captured);
    StreamAgreesWithBuffered(limit, now, actions, name, [captured]);
    Utf8Text.DecodeEncoded(text);
  }

  lemma BodyIsReceived(trace: seq<Event>, timeoutSeconds: nat, errorText: string)
    ensures var events := ToSseAll(trace, timeoutSeconds, errorText);
            Sse.DecodeMessages(Sse.ParseStream(Sse.EncodeStream(events))) == Some(events)
  {
    ResponseDecodes(trace, timeoutSeconds, errorText, |trace|);
    assert Clip(ToSseAll(trace, timeoutSeconds, errorText), |trace|) == ToSseAll(trace, timeoutSeconds, errorText);
  }

  lemma ExitedWasSpawned(limit: nat, now: int, actions: seq<Action>)
    requires Exec(limit, Begin(now), actions).Some? && HasExit(Exec(limit, Begin(now), actions).value.trace)
    ensures Exec(limit, Begin(now), actions).value.spawned
  {
    RunKeepsInv(limit, now, actions);
  }

  /** The events a client receives: the first names the process, the last is the exit with its code. */
  predicate StartsAndExits(events: seq<Sse.Event>, pid: int, code: int) {
    && |events| >= 2
    && events[0] == Sse.Event("start", Sse.Number("pid", pid))
    && events[|events| - 1] == Sse.Event("exit", Sse.Number("exit_code", code))
  }

  lemma FirstAndLast(trace: seq<Event>, pid: int, timeoutSeconds: nat, errorText: string)
    requires HasExit(trace) && trace[0] == Start(pid)
    ensures StartsAndExits(ToSseAll(trace, timeoutSeconds, errorText), pid, trace[|trace| - 1].code)
  {
  }

  /** From the process to the client: if a command wrote a text within the limit and its stream ended by itself, then a
      client that decodes the body of the response collects exactly that text, unless an event boundary splits a
      character and then it collects another; it is told the id of the process that was started first, and last the
      code that the process exited with. */
  lemma ClientReadsWhatWasWritten(limit: nat, now: int, actions: seq<Action>, name: Name, text: string, timeoutSeconds: nat,
                                  errorText: string) returns (pid: int, allowed: nat, code: int, received: seq<Sse.Event>)
    requires Exec(limit, Begin(now), actions).Some?
    requires var s := Exec(limit, Begin(now), actions).value; HasExit(s.trace) && Timeout !in s.trace
    requires ReadChunks(actions, name) == Utf8Text.Encode(text) && |Utf8Text.Encode(text)| <= limit
    ensures var body := Sse.EncodeStream(ToSseAll(Exec(limit, Begin(now), actions).value.trace, timeoutSeconds, errorText));
            Sse.DecodeMessages(Sse.ParseStream(body)) == Some(received)
    ensures ClientText(received, if name == Stdout then "stdout" else "stderr") == text
            <==> Utf8.CutsBetweenCharacters(OutputChunks(Exec(limit, Begin(now), actions).value.trace, name))
    ensures Spawn(pid, allowed) in actions && LeaderExits(code) in actions && StartsAndExits(received, pid, code)
  {
    var trace := Exec(limit, Begin(now), actions).value.trace;
    received := ToSseAll(trace, timeoutSeconds, errorText);
    BodyIsReceived(trace, timeoutSeconds, errorText);
    StreamedIsWritten(limit, now, actions, name, text);
    ClientCollects(trace, name, timeoutSeconds, errorText);
    ExitedWasSpawned(limit, now, actions);
    var before, after;
    before, pid, allowed, after := StartedBy(limit, now, actions);
    assert actions[|before|] == Spawn(pid, allowed);
    ExitTellsWhatHappened(limit, now, actions);
    code := trace[|trace| - 1].code;
    FirstAndLast(trace, pid, timeoutSeconds, errorText);
  }

  /** In a complete trace a timeout is the last event but the exit. */
  lemma TimedOutEnds(trace: seq<Event>)
    requires Complete(trace) && Timeout in trace
    ensures |trace| >= 3 && trace[|trace| - 2] == Timeout && trace[|trace| - 1] == Exit(124)
  {
    var init := trace[..|trace| - 1];
    var k :| 0 <= k < |trace| && trace[k] == Timeout;
    assert k < |init| && init[k] == Timeout;
    assert !StartOutputs(init);
    assert init[|init| - 1] == trace[|trace| - 2];
  }

  /** The last two events tell of the timeout and the exit. */
  predicate TellsTimeout(events: seq<Sse.Event>, timeoutSeconds: nat) {
    && |events| >= 3
    && events[|events| - 2]
       == Sse.Event("timeout", Sse.Text("message", "command timed out after " + Sse.DumpInt(timeoutSeconds) + " seconds"))
    && events[|events| - 1] == Sse.Event("exit", Sse.Number("exit_code", 124))
  }

  lemma TimeoutTold(trace: seq<Event>, timeoutSeconds: nat, errorText: string)
    requires |trace| >= 3 && trace[|trace| - 2] == Timeout && trace[|trace| - 1] == Exit(124)
    ensures TellsTimeout(ToSseAll(trace, timeoutSeconds, errorText), timeoutSeconds)
  {
  }

  lemma ErrorTold(timeoutSeconds: nat, errorText: string)
    ensures ToSseAll([Error], timeoutSeconds, errorText)
         == [Sse.Event("error", Sse.Text("message", "Failed to execute command: " + errorText))]
  {
  }

  /** A client of a command that was timed out is told so, and then exit code 124; a client of one that could not be
      started is told only why. */
  lemma ClientHearsFailures(trace: seq<Event>, timeoutSeconds: nat, errorText: string) returns (received: seq<Sse.Event>)
    ensures Sse.DecodeMessages(Sse.ParseStream(Sse.EncodeStream(ToSseAll(trace, timeoutSeconds, errorText)))) == Some(received)
    ensures Complete(trace) && Timeout in trace ==> TellsTimeout(received, timeoutSeconds)
    ensures trace == [Error] ==> received == [Sse.Event("error", Sse.Text("message", "Failed to execute command: " + errorText))]
  {
    received := ToSseAll(trace, timeoutSeconds, errorText);
    BodyIsReceived(trace, timeoutSeconds, errorText);
    if trace == [Error] {
      ErrorTold(timeoutSeconds, errorText);
    } else if Complete(trace) && Timeout in trace {
      TimedOutEnds(trace);
      TimeoutTold(trace, timeoutSeconds, errorText);
    }
  }

  lemma Flattened(bytes: Bytes)
    ensures Flatten([bytes]) == bytes
  {
    assert Flatten([bytes]) == bytes + Flatten<Byte>([]);
  }
}
