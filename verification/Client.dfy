/**
 The retrying client of `smoke_service.py`: up to ten transport attempts of one create request
 that always carries the same idempotency key, against a server shared with other clients.
 */
module Client {
  import opened Common
  import opened Domain
  import opened Store

  const MAXIMUM_TRANSPORT_ATTEMPTS: nat := 10

  /** How far one transport attempt got: before the server, through the server but not back, or back. */
  datatype Fate = LostRequest | LostResponse | Answered

  /** One attempt: what other clients did before it, the server's clock and random identifier,
      its fate, and whether re-establishing the connection afterwards raises. */
  datatype Attempt = Attempt(others: seq<Op>, now: int, freshId: string, fate: Fate, reconnectRaises: bool)

  datatype Outcome =
    | Accepted(sandbox: Sandbox)
    | ApiError(error: StoreError)
    | TransportError
    | ReconnectError

  // ----- The operations the server executes, and what the caller learns -----

  function OwnOp(command: CreateCommand, attempt: Attempt): seq<Op> {
    if attempt.fate.LostRequest? then [] else [Op.Create(command, attempt.now, attempt.freshId)]
  }

  /** Whether the loop goes on after a failed attempt. */
  predicate Retries(attempts: seq<Attempt>, canReconnect: bool)
    requires attempts != []
  {
    !attempts[0].fate.Answered? && canReconnect && |attempts| > 1 && !attempts[0].reconnectRaises
  }

  function Executed(command: CreateCommand, attempts: seq<Attempt>, canReconnect: bool): seq<Op> {
    if attempts == [] then []
    else
      attempts[0].others + OwnOp(command, attempts[0])
      + if Retries(attempts, canReconnect) then Executed(command, attempts[1..], canReconnect) else []
  }

  function OutcomeOf(s: State, command: CreateCommand, attempts: seq<Attempt>, canReconnect: bool): Outcome
    requires attempts != []
    decreases |attempts|
  {
    var a := attempts[0];
    var reached := Run(s, a.others);
    if a.fate.Answered? then
      match ApplyCreate(reached, command, a.now, a.freshId).1
      case Refused(e) => ApiError(e)
      case Stored(sandbox) => Accepted(sandbox)
      case _ => TransportError
    else if !canReconnect || |attempts| == 1 then TransportError
    else if a.reconnectRaises then ReconnectError
    else OutcomeOf(Run(reached, OwnOp(command, a)), command, attempts[1..], canReconnect)
  }

  /** Attempt `k` is made: every earlier one failed, and the connection was made again after each. */
  predicate Reaches(attempts: seq<Attempt>, canReconnect: bool, k: int) {
    && 0 <= k < |attempts| && (k > 0 ==> canReconnect)
    && forall j :: 0 <= j < k ==> attempts[j].fate != Answered && !attempts[j].reconnectRaises
  }

  lemma ReachesLater(attempts: seq<Attempt>, canReconnect: bool, k: int)
    requires attempts != [] && attempts[0].fate != Answered && canReconnect && !attempts[0].reconnectRaises
    ensures Reaches(attempts[1..], canReconnect, k) <==> k >= 0 && Reaches(attempts, canReconnect, k + 1)
  {
    if k >= 0 && Reaches(attempts, canReconnect, k + 1) {
      assert forall j :: 0 <= j < k ==> attempts[1..][j] == attempts[j + 1];
    }
  }

  /** Attempt `k` is made and its response comes back. */
  predicate AnsweredAt(attempts: seq<Attempt>, canReconnect: bool, k: int) {
    Reaches(attempts, canReconnect, k) && attempts[k].fate == Answered
  }

  /** Attempt `k` is made and fails, it is not the last, and connecting again raises. */
  predicate RaisesAt(attempts: seq<Attempt>, canReconnect: bool, k: int) {
    && Reaches(attempts, canReconnect, k) && k < |attempts| - 1 && canReconnect
    && attempts[k].fate != Answered && attempts[k].reconnectRaises
  }

  lemma LaterOutcome(attempts: seq<Attempt>, canReconnect: bool)
    requires attempts != [] && attempts[0].fate != Answered && canReconnect && !attempts[0].reconnectRaises
    ensures (exists k :: AnsweredAt(attempts, canReconnect, k)) <==> exists k :: AnsweredAt(attempts[1..], canReconnect, k)
    ensures (exists k :: RaisesAt(attempts, canReconnect, k)) <==> exists k :: RaisesAt(attempts[1..], canReconnect, k)
  {
    forall k
      ensures k >= 0 ==> (AnsweredAt(attempts[1..], canReconnect, k) <==> AnsweredAt(attempts, canReconnect, k + 1))
      ensures k >= 0 ==> (RaisesAt(attempts[1..], canReconnect, k) <==> RaisesAt(attempts, canReconnect, k + 1))
    {
      ReachesLater(attempts, canReconnect, k);
    }
    if k :| AnsweredAt(attempts, canReconnect, k) {
      assert AnsweredAt(attempts[1..], canReconnect, k - 1);
    }
    if k :| AnsweredAt(attempts[1..], canReconnect, k) {
      assert AnsweredAt(attempts, canReconnect, k + 1);
    }
    if k :| RaisesAt(attempts, canReconnect, k) {
      assert RaisesAt(attempts[1..], canReconnect, k - 1);
    }
    if k :| RaisesAt(attempts[1..], canReconnect, k) {
      assert RaisesAt(attempts, canReconnect, k + 1);
    }
  }

  /** The caller is given an answer exactly if some attempt is reached and answered, and an error of the reconnection
      exactly if one is reached after which that raises; otherwise it is given the transport error. */
  lemma {:induction false} OutcomeIff(s: State, command: CreateCommand, attempts: seq<Attempt>, canReconnect: bool)
    requires attempts != []
    ensures var r := OutcomeOf(s, command, attempts, canReconnect);
            && ((r.Accepted? || r.ApiError?) <==> exists k :: AnsweredAt(attempts, canReconnect, k))
            && (r.ReconnectError? <==> exists k :: RaisesAt(attempts, canReconnect, k))
    decreases |attempts|
  {
    var a := attempts[0];
    assert Reaches(attempts, canReconnect, 0);
    if a.fate == Answered {
      assert AnsweredAt(attempts, canReconnect, 0);
    } else if canReconnect && |attempts| > 1 {
      if a.reconnectRaises {
        assert RaisesAt(attempts, canReconnect, 0);
      } else {
        LaterOutcome(attempts, canReconnect);
        OutcomeIff(Run(Run(s, a.others), OwnOp(command, a)), command, attempts[1..], canReconnect);
      }
    }
  }

  // ----- The loop -----

  method Execute(server: InMemorySandboxStore, op: Op)
    modifies server
    ensures server.View() == Apply(old(server.View()), op).0
  {
    match op {
      case Create(command, now, freshId) => var _ := server.Create(command, now, freshId);
      case Delete(tenantId, id) => var _ := server.Delete(tenantId, id);
      case List(_) =>
      case Get(_, _) =>
    }
  }

  method ExecuteAll(server: InMemorySandboxStore, ops: seq<Op>)
    modifies server
    ensures server.View() == Run(old(server.View()), ops)
  {
    for i := 0 to |ops|
      invariant Run(old(server.View()), ops) == Run(server.View(), ops[i..])
    {
      Execute(server, ops[i]);
      assert ops[i..][1..] == ops[i + 1..];
    }
    assert ops[|ops|..] == [];
  }

  /** The retry loop leaves the server where running the executed operations leaves it, and returns
      the answer of the first attempt that came back. */
  method CreateSandbox(server: InMemorySandboxStore, command: CreateCommand, attempts: seq<Attempt>, canReconnect: bool)
      returns (r: Outcome)
    requires |attempts| == 10
    modifies server
    ensures server.View() == Run(old(server.View()), Executed(command, attempts, canReconnect))
    ensures r == OutcomeOf(old(server.View()), command, attempts, canReconnect)
    ensures (r.Accepted? || r.ApiError?) <==> exists k :: AnsweredAt(attempts, canReconnect, k)
    ensures r.ReconnectError? <==> exists k :: RaisesAt(attempts, canReconnect, k)
  {
    OutcomeIff(server.View(), command, attempts, canReconnect);
    ghost var start := server.View();
    ghost var all := Executed(command, attempts, canReconnect);
    for attempt := 0 to MAXIMUM_TRANSPORT_ATTEMPTS
      invariant Run(start, all) == Run(server.View(), Executed(command, attempts[attempt..], canReconnect))
      invariant attempt < MAXIMUM_TRANSPORT_ATTEMPTS
      invariant OutcomeOf(start, command, attempts, canReconnect)
             == OutcomeOf(server.View(), command, attempts[attempt..], canReconnect)
    {
      var a := attempts[attempt];
      ghost var before, left := server.View(), attempts[attempt..];
      assert left[1..] == attempts[attempt + 1..];
      RoundRuns(before, command, left, canReconnect);
      ExecuteAll(server, a.others);
      if a.fate != LostRequest {
        var answer := server.Create(command, a.now, a.freshId);
        if a.fate == Answered {
          return match answer case Ok(sandbox) => Accepted(sandbox) case Err(e) => ApiError(e);
        }
      }
      if !canReconnect || attempt == MAXIMUM_TRANSPORT_ATTEMPTS - 1 {
        return TransportError;
      }
      if a.reconnectRaises {
        return ReconnectError;
      }
    }
    assert false;
  }

  lemma RoundRuns(s: State, command: CreateCommand, attempts: seq<Attempt>, canReconnect: bool)
    requires attempts != []
    ensures var a := attempts[0];
            var reached := Run(Run(s, a.others), OwnOp(command, a));
            && (OwnOp(command, a) != [] ==> reached == ApplyCreate(Run(s, a.others), command, a.now, a.freshId).0)
            && (OwnOp(command, a) == [] ==> reached == Run(s, a.others))
            && Run(s, Executed(command, attempts, canReconnect))
               == (if Retries(attempts, canReconnect)
                   then Run(reached, Executed(command, attempts[1..], canReconnect)) else reached)
  {
    var a := attempts[0];
    var rest := if Retries(attempts, canReconnect) then Executed(command, attempts[1..], canReconnect) else [];
    RunAppend(s, a.others + OwnOp(command, a), rest);
    RunAppend(s, a.others, OwnOp(command, a));
  }

  // ----- Exactly-once creation -----

  predicate CreatesPair(op: Op, pair: PairKey) {
    op.Create? && op.command.tenantId == pair.0 && op.command.idempotencyKey == Some(pair.1)
  }

  /** How many creates for the pair, by whichever client, added a sandbox. */
  function Creations(s: State, ops: seq<Op>, pair: PairKey): nat
    decreases |ops|
  {
    if ops == [] then 0
    else
      var s' := Apply(s, ops[0]).0;
      (if CreatesPair(ops[0], pair) && s' != s then 1 else 0) + Creations(s', ops[1..], pair)
  }

  predicate SomeCreate(ops: seq<Op>, pair: PairKey) {
    exists i :: 0 <= i < |ops| && CreatesPair(ops[i], pair)
  }

  predicate DeletesPair(s: State, op: Op, pair: PairKey) {
    pair in s.idempotency && op == Op.Delete(pair.0, s.idempotency[pair])
  }

  /** A delete of the sandbox stored for the pair is followed by a create for the pair. */
  predicate DeletedThenCreated(s: State, ops: seq<Op>, pair: PairKey)
    decreases |ops|
  {
    && ops != []
    && ((DeletesPair(s, ops[0], pair) && SomeCreate(ops[1..], pair)) || DeletedThenCreated(Apply(s, ops[0]).0, ops[1..], pair))
  }

  lemma FirstCreateStores(s: State, op: Op, pair: PairKey)
    requires Consistent(s) && Used(op) !! s.sandboxes.Keys && CreatesPair(op, pair)
    ensures var (s', answer) := Apply(s, op);
            && pair in s'.idempotency && s'.idempotency[pair] in s'.sandboxes
            && answer == Stored(s'.sandboxes[s'.idempotency[pair]])
            && (s' == s <==> pair in s.idempotency)
  {
  }

  lemma OtherOpsDoNotStore(s: State, op: Op, pair: PairKey)
    requires pair !in s.idempotency && !CreatesPair(op, pair)
    ensures pair !in Apply(s, op).0.idempotency
  {
  }

  lemma DeleteForgetsPair(s: State, op: Op, pair: PairKey)
    requires Consistent(s) && DeletesPair(s, op, pair)
    ensures pair !in Apply(s, op).0.idempotency && !CreatesPair(op, pair)
  {
  }

  lemma SomeCreateCons(ops: seq<Op>, pair: PairKey)
    requires ops != []
    ensures SomeCreate(ops, pair) <==> CreatesPair(ops[0], pair) || SomeCreate(ops[1..], pair)
  {
    if i :| 1 <= i < |ops| && CreatesPair(ops[i], pair) {
      assert CreatesPair(ops[1..][i - 1], pair);
    }
    if i :| 0 <= i < |ops[1..]| && CreatesPair(ops[1..][i], pair) {
      assert CreatesPair(ops[i + 1], pair);
    }
  }

  lemma {:induction false} NothingWithoutCreate(s: State, ops: seq<Op>, pair: PairKey)
    requires !SomeCreate(ops, pair)
    ensures Creations(s, ops, pair) == 0 && !DeletedThenCreated(s, ops, pair)
    decreases |ops|
  {
    if ops != [] {
      SomeCreateCons(ops, pair);
      NothingWithoutCreate(Apply(s, ops[0]).0, ops[1..], pair);
    }
  }

  /** Over any run, creates for a pair add one sandbox if there was none before and some create ran, and otherwise
      none, exactly as long as no create for the pair follows a deletion of its sandbox. */
  lemma {:induction false} CreationsAtMostOnceIff(s: State, ops: seq<Op>, used: set<string>, pair: PairKey)
    requires Consistent(s) && s.sandboxes.Keys <= used && FreshIds(ops, used)
    ensures pair !in s.idempotency ==> (Creations(s, ops, pair) <= 1 <==> !DeletedThenCreated(s, ops, pair))
    ensures pair in s.idempotency ==> (Creations(s, ops, pair) == 0 <==> !DeletedThenCreated(s, ops, pair))
    ensures pair !in s.idempotency ==> (Creations(s, ops, pair) >= 1 <==> SomeCreate(ops, pair))
    decreases |ops|
  {
    if ops != [] {
      var op, rest := ops[0], ops[1..];
      FreshTail(ops, used);
      StepKeepsConsistent(s, op);
      SomeCreateCons(ops, pair);
      CreationsAtMostOnceIff(Apply(s, op).0, rest, used + Used(op), pair);
      if CreatesPair(op, pair) {
        FirstCreateStores(s, op, pair);
      } else if DeletesPair(s, op, pair) {
        DeleteForgetsPair(s, op, pair);
        if !SomeCreate(rest, pair) {
          NothingWithoutCreate(Apply(s, op).0, rest, pair);
        }
      } else if pair in s.idempotency {
        StepKeepsEntry(s, op, pair);
      } else {
        OtherOpsDoNotStore(s, op, pair);
      }
    }
  }

  /** The answer of an accepted call is the sandbox the server holds for the key when it returns. */
  lemma {:induction false} AcceptedIsStored(s: State, command: CreateCommand, attempts: seq<Attempt>,
                                           canReconnect: bool, used: set<string>)
    requires attempts != [] && command.idempotencyKey.Some?
    requires Consistent(s) && s.sandboxes.Keys <= used && FreshIds(Executed(command, attempts, canReconnect), used)
    requires OutcomeOf(s, command, attempts, canReconnect).Accepted?
    ensures var end := Run(s, Executed(command, attempts, canReconnect));
            var sandbox := OutcomeOf(s, command, attempts, canReconnect).sandbox;
            var pair := (command.tenantId, command.idempotencyKey.value);
            && pair in end.idempotency && end.idempotency[pair] in end.sandboxes
            && end.sandboxes[end.idempotency[pair]] == sandbox
    ensures var ops := Executed(command, attempts, canReconnect);
            exists i :: 0 <= i < |ops| && CreatesPair(ops[i], (command.tenantId, command.idempotencyKey.value))
    decreases |attempts|
  {
    var a := attempts[0];
    var pair := (command.tenantId, command.idempotencyKey.value);
    var ops := Executed(command, attempts, canReconnect);
    var head := a.others + OwnOp(command, a);
    var rest := if Retries(attempts, canReconnect) then Executed(command, attempts[1..], canReconnect) else [];
    RoundRuns(s, command, attempts, canReconnect);
    FreshSplit(head, rest, used);
    FreshSplit(a.others, OwnOp(command, a), used);
    RunKeepsConsistent(s, a.others, used);
    RunStaysInUsed(s, a.others, used);
    var reached := Run(s, a.others);
    if a.fate.Answered? {
      var own := OwnOp(command, a)[0];
      FreshTail(OwnOp(command, a), UsedBy(a.others, used));
      FirstCreateStores(reached, own, pair);
      assert ops[|a.others|] == own;
    } else {
      RunAppend(s, a.others, OwnOp(command, a));
      RunKeepsConsistent(s, head, used);
      RunStaysInUsed(s, head, used);
      AcceptedIsStored(Run(s, head), command, attempts[1..], canReconnect, UsedBy(head, used));
      var i :| 0 <= i < |rest| && CreatesPair(rest[i], pair);
      assert ops[|head| + i] == rest[i];
    }
  }

  /** However many of the ten attempts reached the server: one client call for a new key adds at most one sandbox,
      and exactly one if it is accepted, if and only if no executed create for the key follows a deletion of its
      sandbox; for a key already stored it then adds none. Whatever else happened, an accepted call returns the
      sandbox stored for its key. */
  lemma ExactlyOnce(s: State, command: CreateCommand, attempts: seq<Attempt>, canReconnect: bool, used: set<string>)
    requires |attempts| == MAXIMUM_TRANSPORT_ATTEMPTS && command.idempotencyKey.Some?
    requires Consistent(s) && s.sandboxes.Keys <= used && FreshIds(Executed(command, attempts, canReconnect), used)
    ensures var ops := Executed(command, attempts, canReconnect);
            var pair := (command.tenantId, command.idempotencyKey.value);
            var outcome, count := OutcomeOf(s, command, attempts, canReconnect), Creations(s, ops, pair);
            && (!DeletedThenCreated(s, ops, pair) <==> if pair in s.idempotency then count == 0 else count <= 1)
            && (outcome.Accepted? && pair !in s.idempotency ==> (count == 1 <==> !DeletedThenCreated(s, ops, pair)))
            && (outcome.Accepted? ==>
                  && pair in Run(s, ops).idempotency
                  && Run(s, ops).idempotency[pair] in Run(s, ops).sandboxes
                  && Run(s, ops).sandboxes[Run(s, ops).idempotency[pair]] == outcome.sandbox)
  {
    CreationsAtMostOnceIff(s, Executed(command, attempts, canReconnect), used,
                           (command.tenantId, command.idempotencyKey.value));
    if OutcomeOf(s, command, attempts, canReconnect).Accepted? {
      AcceptedIsStored(s, command, attempts, canReconnect, used);
    }
  }

  /** Such a run exists: with a deletion after a lost response, the second of the ten attempts creates a second
      sandbox and is accepted. */
  lemma DeletionBetweenAttemptsCreatesTwice(command: CreateCommand, now: int, unused: seq<Attempt>)
    requires command.idempotencyKey.Some? && |unused| == MAXIMUM_TRANSPORT_ATTEMPTS - 2
    ensures var pair := (command.tenantId, command.idempotencyKey.value);
            var lost := Attempt([], now, "a", LostResponse, false);
            var retry := Attempt([Op.Delete(command.tenantId, "a")], now, "b", Answered, false);
            var attempts := [lost] + ([retry] + unused);
            && |attempts| == MAXIMUM_TRANSPORT_ATTEMPTS && FreshIds(Executed(command, attempts, true), {})
            && Creations(EMPTY, Executed(command, attempts, true), pair) == 2
            && OutcomeOf(EMPTY, command, attempts, true).Accepted?
  {
    var pair := (command.tenantId, command.idempotencyKey.value);
    var first, gone, second := Op.Create(command, now, "a"), Op.Delete(command.tenantId, "a"), Op.Create(command, now, "b");
    var lost := Attempt([], now, "a", LostResponse, false);
    var retry := Attempt([gone], now, "b", Answered, false);
    var tail := [retry] + unused;
    assert Executed(command, tail, true) == [gone, second];
    assert ([lost] + tail)[1..] == tail;
    var ops := Executed(command, [lost] + tail, true);
    assert ops == [first, gone, second];
    assert ops[1..] == [gone, second] && ops[1..][1..] == [second] && ops[1..][1..][1..] == [];
    var s1 := Apply(EMPTY, first).0;
    var s2 := Apply(s1, gone).0;
    var s3 := Apply(s2, second).0;
    assert pair !in s2.idempotency && s2.sandboxes == map[] && "b" in s3.sandboxes;
    assert s1 != EMPTY && s3 != s2;
    assert Creations(s3, [], pair) == 0;
    assert Creations(s2, [second], pair) == 1;
    assert Creations(s1, [gone, second], pair) == 1;
    assert FreshIds([], {"a", "b"});
    assert {"a"} + {"b"} == {"a", "b"} && {} + {"a"} == {"a"};
    assert FreshIds([second], {"a"});
    assert FreshIds([gone, second], {"a"});
    TwiceIsAccepted(command, now, unused);
  }

  lemma TwiceIsAccepted(command: CreateCommand, now: int, unused: seq<Attempt>)
    requires command.idempotencyKey.Some?
    ensures var lost := Attempt([], now, "a", LostResponse, false);
            var retry := Attempt([Op.Delete(command.tenantId, "a")], now, "b", Answered, false);
            OutcomeOf(EMPTY, command, [lost] + ([retry] + unused), true).Accepted?
  {
    var gone := Op.Delete(command.tenantId, "a");
    var lost, retry := Attempt([], now, "a", LostResponse, false), Attempt([gone], now, "b", Answered, false);
    var tail := [retry] + unused;
    assert ([lost] + tail)[1..] == tail;
    assert Run(EMPTY, []) == EMPTY && Run(EMPTY, OwnOp(command, lost)) == ApplyCreate(EMPTY, command, now, "a").0 by {
      assert OwnOp(command, lost)[1..] == [];
    }
    var s1 := ApplyCreate(EMPTY, command, now, "a").0;
    assert Run(s1, [gone]) == Apply(s1, gone).0 by {
      assert [gone][1..] == [];
    }
    assert (command.tenantId, command.idempotencyKey.value) !in Apply(s1, gone).0.idempotency;
    assert OutcomeOf(s1, command, tail, true).Accepted?;
  }
}
