/**
 What holds over every interleaving of the Kubernetes store: tenant isolation, linearizability
 of the idempotent create against the insert-if-absent specification, and how it differs from
 the in-memory store after a deletion.
 */
module ClusterRuns {
  import opened Common
  import opened Domain
  import opened Identity
  import opened Claims
  import opened Cluster

  ghost predicate AllOccur(u: Universe, actions: seq<Action>) {
    forall i :: 0 <= i < |actions| ==> Occurs(u, actions[i])
  }

  /** The state after the first `i` actions of a run from the empty cluster. */
  function At(cfg: Config, actions: seq<Action>, i: nat): Option<State>
    requires i <= |actions|
  {
    Exec(cfg, START, actions[..i])
  }

  lemma PrefixRuns(cfg: Config, actions: seq<Action>, i: nat)
    requires i < |actions| && At(cfg, actions, i + 1).Some?
    ensures At(cfg, actions, i).Some?
    ensures At(cfg, actions, i + 1) == Step(cfg, At(cfg, actions, i).value, actions[i])
  {
    assert actions[..i + 1][..i] == actions[..i];
  }

  // ----- Isolation -----

  lemma {:induction false} ReachableInv(cfg: Config, u: Universe, actions: seq<Action>, i: nat)
    requires World(cfg, u) && AllOccur(u, actions) && i <= |actions| && At(cfg, actions, i).Some?
    ensures Inv(cfg, u, At(cfg, actions, i).value)
    decreases i
  {
    if i == 0 {
      assert actions[..0] == [];
    } else {
      PrefixRuns(cfg, actions, i - 1);
      ReachableInv(cfg, u, actions, i - 1);
      StepKeepsInv(cfg, u, At(cfg, actions, i - 1).value, actions[i - 1]);
    }
  }

  lemma {:induction false} BindingsPersist(cfg: Config, u: Universe, actions: seq<Action>, i: nat, j: nat)
    requires World(cfg, u) && AllOccur(u, actions) && i <= j <= |actions| && At(cfg, actions, j).Some?
    ensures At(cfg, actions, i).Some? && Extends(At(cfg, actions, i).value, At(cfg, actions, j).value)
    decreases j
  {
    if i < j {
      PrefixRuns(cfg, actions, j - 1);
      BindingsPersist(cfg, u, actions, i, j - 1);
      ReachableInv(cfg, u, actions, j - 1);
      StepKeepsInv(cfg, u, At(cfg, actions, j - 1).value, actions[j - 1]);
    }
  }

  /** A claim name serves one tenant for the whole run, even when the claim is removed and created anew. */
  lemma NameServesOneTenant(cfg: Config, u: Universe, actions: seq<Action>, i: nat, j: nat, n: string, t: string)
    requires World(cfg, u) && AllOccur(u, actions) && i <= j <= |actions| && At(cfg, actions, j).Some?
    requires At(cfg, actions, i).Some? && n in At(cfg, actions, i).value.claims && n in At(cfg, actions, j).value.claims
    requires t in u.tenants
    ensures VerifyTenant(cfg.digest, At(cfg, actions, i).value.claims[n], t)
            <==> VerifyTenant(cfg.digest, At(cfg, actions, j).value.claims[n], t)
  {
    BindingsPersist(cfg, u, actions, i, j);
    ReachableInv(cfg, u, actions, i);
    ReachableInv(cfg, u, actions, j);
    var s, s' := At(cfg, actions, i).value, At(cfg, actions, j).value;
    assert GoodClaim(cfg, s, n, s.claims[n]) && GoodClaim(cfg, s', n, s'.claims[n]);
  }

  /** The identifiers a reply mentions. */
  function Mentioned(reply: Reply): set<string> {
    match reply
    case One(sandbox) => {sandbox.id}
    case Many(sandboxes) => set sandbox | sandbox in sandboxes :: sandbox.id
    case _ => {}
  }

  /** Nothing a tenant is ever told names a claim that any other tenant could see, now or later. */
  lemma RepliesStayWithinTenant(cfg: Config, u: Universe, actions: seq<Action>, i: nat, j: nat, call: nat, t: string, n: string)
    requires World(cfg, u) && AllOccur(u, actions) && i <= j <= |actions| && At(cfg, actions, j).Some?
    requires At(cfg, actions, i).Some? && call in At(cfg, actions, i).value.calls
    requires At(cfg, actions, i).value.calls[call].Returned? && n in Mentioned(At(cfg, actions, i).value.calls[call].reply)
    requires n in At(cfg, actions, j).value.claims && t in u.tenants
    ensures VerifyTenant(cfg.digest, At(cfg, actions, j).value.claims[n], t)
            <==> t == Tenant(At(cfg, actions, i).value.calls[call].request)
  {
    BindingsPersist(cfg, u, actions, i, j);
    ReachableInv(cfg, u, actions, i);
    ReachableInv(cfg, u, actions, j);
    var s, s' := At(cfg, actions, i).value, At(cfg, actions, j).value;
    assert GoodCall(cfg, u, s, s.calls[call]) && GoodClaim(cfg, s', n, s'.claims[n]);
    var owner := Tenant(s.calls[call].request);
    assert OwnedBy(s, n, owner) && OwnedBy(s', n, owner);
  }

  /** A step of a tenant's call changes no claim another tenant could see: in particular a delete that
      checked the claim some steps ago removes only the tenant's own, whatever happened in between. */
  lemma CallsTouchOwnClaims(cfg: Config, u: Universe, s: State, call: nat, now: int, lost: bool,
                            unreadable: Option<string>, n: string, t: string)
    requires World(cfg, u) && Inv(cfg, u, s) && ServeStep(cfg, s, call, now, lost, unreadable).Some?
    requires n in s.claims && t in u.tenants && t != Tenant(s.calls[call].request)
    requires VerifyTenant(cfg.digest, s.claims[n], t)
    ensures n in ServeStep(cfg, s, call, now, lost, unreadable).value.claims
    ensures ServeStep(cfg, s, call, now, lost, unreadable).value.claims[n] == s.claims[n]
  {
    assert GoodCall(cfg, u, s, s.calls[call]);
    VerifiedMeansOwned(cfg, u, s, n, t);
    ServeChangesClaims(cfg, s, call, now, lost, unreadable);
  }

  // ----- Linearizability -----

  /** What a create fixes about a claim; status updates and deletion marks leave it alone. */
  datatype Core = Core(labels: map<string, string>, metadata: Option<MetadataText>, createdAt: Option<TimeText>, expiresAt: Option<TimeText>)

  function CoreOf(claim: Claim): Core {
    Core(claim.labels, claim.metadata, claim.creationTimestamp, claim.shutdownTime)
  }

  ghost function Cores(s: State): map<string, Core> {
    map n | n in s.claims :: CoreOf(s.claims[n])
  }

  /** The sandbox reports the core of the claim it was read from. */
  predicate Reports(sandbox: Sandbox, core: Core) {
    && core.createdAt == Some(Instant(sandbox.createdAt))
    && core.expiresAt == Some(Instant(sandbox.expiresAt))
    && PROFILE_LABEL in core.labels && core.labels[PROFILE_LABEL] == sandbox.profile
    && sandbox.metadata == if core.metadata.Some? && core.metadata.value.Metadata? then core.metadata.value.entries else map[]
  }

  /** A create takes effect when its post is served for a free name ... */
  lemma PostTakesEffect(cfg: Config, u: Universe, s: State, call: nat, request: Request, claim: Claim, now: int, lost: bool)
    requires Inv(cfg, u, s) && GoodCall(cfg, u, s, Posting(request, claim)) && claim.name.value !in s.claims
    ensures var s' := ServePost(cfg, s, call, request, claim, now, lost);
            var own := CoreOf(claim.(creationTimestamp := Some(Instant(WholeSeconds(now)))));
            && Cores(s') == Ensure(Cores(s), claim.name.value, own).0
            && (!lost ==> s'.calls[call].reply.One?
                          && s'.calls[call].reply.sandbox.id == claim.name.value
                          && Reports(s'.calls[call].reply.sandbox, Ensure(Cores(s), claim.name.value, own).1))
  {
    var stored := claim.(creationTimestamp := Some(Instant(WholeSeconds(now))));
    StampedIsGood(cfg, s, claim, WholeSeconds(now), request);
    CoresAfterFill(s, ServePost(cfg, s, call, request, claim, now, lost), claim.name.value, stored);
    ReadReports(cfg, stored, Tenant(request));
  }

  lemma CoresAfterFill(s: State, s': State, name: string, stored: Claim)
    requires name !in s.claims && s'.claims == s.claims[name := stored]
    ensures Cores(s') == Ensure(Cores(s), name, CoreOf(stored)).0
    ensures Ensure(Cores(s), name, CoreOf(stored)).1 == CoreOf(stored)
  {
    assert Cores(s') == Cores(s)[name := CoreOf(stored)];
  }

  lemma ReadReports(cfg: Config, claim: Claim, t: string)
    ensures var r := ClaimToSandbox(cfg.digest, claim, t);
            r.Ok? ==> Reports(r.value, CoreOf(claim)) && claim.name == Some(r.value.id)
  {
  }

  /** ... or when its read after a conflict finds the claim: then its own values are discarded. */
  lemma ReadTakesEffect(cfg: Config, u: Universe, s: State, call: nat, request: Request, name: string, own: Core)
    requires World(cfg, u) && Inv(cfg, u, s) && GoodCall(cfg, u, s, Conflicted(request, name)) && name in s.claims
    ensures var s' := ServeRead(cfg, s, call, request, name, false);
            && Cores(s') == Ensure(Cores(s), name, own).0
            && s'.calls[call].reply.One? && s'.calls[call].reply.sandbox.id == name
            && Reports(s'.calls[call].reply.sandbox, Ensure(Cores(s), name, own).1)
  {
    assert GoodClaim(cfg, s, name, s.claims[name]);
    ReadableIff(cfg.digest, s.claims[name], Tenant(request));
    ReadReports(cfg, s.claims[name], Tenant(request));
    assert Ensure(Cores(s), name, own) == (Cores(s), CoreOf(s.claims[name]));
  }

  /** Whichever of its two requests a successful create ends with, that step is one insert-if-absent on
      the stored claims, and the returned sandbox reports what that operation returns. */
  lemma CreateTakesEffectAtomically(cfg: Config, u: Universe, s: State, call: nat, now: int, own: Core)
    requires World(cfg, u) && Inv(cfg, u, s) && call in s.calls
    requires s.calls[call].Posting? || s.calls[call].Conflicted?
    requires s.calls[call].Posting? ==>
               own == CoreOf(s.calls[call].claim.(creationTimestamp := Some(Instant(WholeSeconds(now)))))
    requires Answered(ServeStep(cfg, s, call, now, false, None).value, call)
    ensures var s' := ServeStep(cfg, s, call, now, false, None).value;
            var sandbox := s'.calls[call].reply.sandbox;
            && Cores(s') == Ensure(Cores(s), sandbox.id, own).0
            && Reports(sandbox, Ensure(Cores(s), sandbox.id, own).1)
  {
    assert GoodCall(cfg, u, s, s.calls[call]);
    match s.calls[call] {
      case Posting(request, claim) => PostTakesEffect(cfg, u, s, call, request, claim, now, false);
      case Conflicted(request, name) => ReadTakesEffect(cfg, u, s, call, request, name, own);
    }
  }

  predicate Succeeds(call: Call) {
    call.Returned? && call.reply.One?
  }

  predicate Answered(s: State, call: nat) {
    call in s.calls && Succeeds(s.calls[call])
  }

  /** Every step but its removal keeps a stored claim and its core. */
  lemma StepKeepsCore(cfg: Config, s: State, a: Action, n: string)
    requires Step(cfg, s, a).Some? && n in s.claims && a != Remove(n)
    ensures n in Step(cfg, s, a).value.claims && CoreOf(Step(cfg, s, a).value.claims[n]) == CoreOf(s.claims[n])
  {
    if a.Serve? {
      ServeChangesClaims(cfg, s, a.call, a.now, a.lost, a.unreadable);
    }
  }

  /** After `k` actions the call was under way and the sandbox was what the stored claim read as. */
  predicate StoredAt(cfg: Config, actions: seq<Action>, k: int, call: nat, sandbox: Sandbox) {
    && 0 <= k <= |actions| && At(cfg, actions, k).Some?
    && var s := At(cfg, actions, k).value;
       && call in s.calls && sandbox.id in s.claims
       && ClaimToSandbox(cfg.digest, s.claims[sandbox.id], Tenant(s.calls[call].request)) == Ok(sandbox)
  }

  /** A sandbox returned by a create or a get was stored at some moment within the call. */
  lemma {:induction false} ReturnedWasStored(cfg: Config, u: Universe, actions: seq<Action>, j: nat, call: nat)
    requires World(cfg, u) && AllOccur(u, actions) && j <= |actions| && At(cfg, actions, j).Some?
    requires call in At(cfg, actions, j).value.calls && At(cfg, actions, j).value.calls[call].Returned?
    requires At(cfg, actions, j).value.calls[call].reply.One?
    ensures exists k :: StoredAt(cfg, actions, k, call, At(cfg, actions, j).value.calls[call].reply.sandbox) && k <= j
    decreases j
  {
    assert actions[..0] == [];
    if j > 0 {
      PrefixRuns(cfg, actions, j - 1);
      var s, s' := At(cfg, actions, j - 1).value, At(cfg, actions, j).value;
      ReachableInv(cfg, u, actions, j - 1);
      if call in s.calls && s.calls[call] == s'.calls[call] {
        ReturnedWasStored(cfg, u, actions, j - 1, call);
      } else {
        OnlyServingReturns(cfg, s, actions[j - 1], call);
        ServedReads(cfg, u, s, call, actions[j - 1].now, actions[j - 1].lost, actions[j - 1].unreadable);
        assert StoredAt(cfg, actions, j, call, s'.calls[call].reply.sandbox);
      }
    }
  }

  /** The answer of the call is what the stored claim of that name reads as. */
  predicate ReadsBack(cfg: Config, s: State, call: nat)
    requires Answered(s, call)
  {
    var Returned(request, One(sandbox)) := s.calls[call];
    sandbox.id in s.claims && ClaimToSandbox(cfg.digest, s.claims[sandbox.id], Tenant(request)) == Ok(sandbox)
  }

  lemma PostReads(cfg: Config, u: Universe, s: State, call: nat, request: Request, claim: Claim, now: int, lost: bool)
    requires GoodCall(cfg, u, s, Posting(request, claim))
    requires Answered(ServePost(cfg, s, call, request, claim, now, lost), call)
    ensures ReadsBack(cfg, ServePost(cfg, s, call, request, claim, now, lost), call)
  {
    StampedIsGood(cfg, s, claim, WholeSeconds(now), request);
  }

  lemma ReadReads(cfg: Config, u: Universe, s: State, call: nat, request: Request, name: string, lost: bool)
    requires Inv(cfg, u, s) && Answered(ServeRead(cfg, s, call, request, name, lost), call)
    ensures ReadsBack(cfg, ServeRead(cfg, s, call, request, name, lost), call)
  {
    assert GoodClaim(cfg, s, name, s.claims[name]);
  }

  lemma GetReads(cfg: Config, u: Universe, s: State, call: nat, t: string, id: string, lost: bool)
    requires Inv(cfg, u, s) && Answered(ServeRead(cfg, s, call, Get(t, id), id, lost), call)
    ensures ReadsBack(cfg, ServeRead(cfg, s, call, Get(t, id), id, lost), call)
  {
    ReadReads(cfg, u, s, call, Get(t, id), id, lost);
  }

  lemma ServedReads(cfg: Config, u: Universe, s: State, call: nat, now: int, lost: bool, unreadable: Option<string>)
    requires Inv(cfg, u, s) && ServeStep(cfg, s, call, now, lost, unreadable).Some?
    requires Answered(ServeStep(cfg, s, call, now, lost, unreadable).value, call)
    ensures ReadsBack(cfg, ServeStep(cfg, s, call, now, lost, unreadable).value, call)
  {
    assert GoodCall(cfg, u, s, s.calls[call]);
    match s.calls[call] {
      case Posting(request, claim) => PostReads(cfg, u, s, call, request, claim, now, lost);
      case Conflicted(request, name) => ReadReads(cfg, u, s, call, request, name, lost);
      case Reading(Get(t, id)) => GetReads(cfg, u, s, call, t, id, lost);
      case Reading(List(t)) => ListsDoNotAnswerOne(cfg, s, call, t, lost, unreadable);
      case _ =>
    }
  }

  lemma ListsDoNotAnswerOne(cfg: Config, s: State, call: nat, t: string, lost: bool, unreadable: Option<string>)
    requires ServeList(cfg, s, call, t, lost, unreadable).Some?
    ensures !Answered(ServeList(cfg, s, call, t, lost, unreadable).value, call)
  {
  }

  lemma OnlyServingReturns(cfg: Config, s: State, a: Action, call: nat)
    requires Step(cfg, s, a).Some? && Answered(Step(cfg, s, a).value, call)
    requires call !in s.calls || s.calls[call] != Step(cfg, s, a).value.calls[call]
    ensures a.Serve? && a.call == call
  {
  }

  /** What occurs in a run occurs in its calls. */
  ghost predicate RequestOccurs(u: Universe, request: Request) {
    request.Create? && request.command.idempotencyKey.Some? ==>
      (request.command.tenantId, request.command.idempotencyKey.value) in u.pairs
  }

  lemma ServingKeepsRequests(cfg: Config, s: State, call: nat, now: int, lost: bool, unreadable: Option<string>, c: nat)
    requires ServeStep(cfg, s, call, now, lost, unreadable).Some? && c in ServeStep(cfg, s, call, now, lost, unreadable).value.calls
    ensures c in s.calls && ServeStep(cfg, s, call, now, lost, unreadable).value.calls[c].request == s.calls[c].request
  {
  }

  lemma StepKeepsRequests(cfg: Config, s: State, a: Action, c: nat)
    requires Step(cfg, s, a).Some? && c in Step(cfg, s, a).value.calls
    ensures || (c in s.calls && Step(cfg, s, a).value.calls[c].request == s.calls[c].request)
            || (a.Invoke? && Step(cfg, s, a).value.calls[c].request == a.request)
  {
    if a.Serve? {
      ServingKeepsRequests(cfg, s, a.call, a.now, a.lost, a.unreadable, c);
    }
  }

  lemma {:induction false} CallsOccur(cfg: Config, u: Universe, actions: seq<Action>, i: nat, c: nat)
    requires AllOccur(u, actions) && i <= |actions| && At(cfg, actions, i).Some? && c in At(cfg, actions, i).value.calls
    ensures RequestOccurs(u, At(cfg, actions, i).value.calls[c].request)
    decreases i
  {
    assert actions[..0] == [];
    if i > 0 {
      PrefixRuns(cfg, actions, i - 1);
      var s := At(cfg, actions, i - 1).value;
      StepKeepsRequests(cfg, s, actions[i - 1], c);
      if c in s.calls {
        CallsOccur(cfg, u, actions, i - 1, c);
      }
    }
  }

  /** All successful creates of one pair return the same id; creates of different pairs never do. */
  lemma IdIdentifiesPair(cfg: Config, u: Universe, actions: seq<Action>, c: nat, d: nat)
    requires World(cfg, u) && AllOccur(u, actions) && Exec(cfg, START, actions).Some?
    requires var calls := Exec(cfg, START, actions).value.calls;
             c in calls && d in calls && KeyedSuccess(calls[c]) && KeyedSuccess(calls[d])
    ensures var calls := Exec(cfg, START, actions).value.calls;
            calls[c].reply.sandbox.id == calls[d].reply.sandbox.id <==> PairOf(calls[c]) == PairOf(calls[d])
  {
    assert actions[..|actions|] == actions;
    ReachableInv(cfg, u, actions, |actions|);
    CallsOccur(cfg, u, actions, |actions|, c);
    CallsOccur(cfg, u, actions, |actions|, d);
    var s := Exec(cfg, START, actions).value;
    assert GoodCall(cfg, u, s, s.calls[c]) && GoodCall(cfg, u, s, s.calls[d]);
    if s.calls[c].reply.sandbox.id == s.calls[d].reply.sandbox.id {
      KeyedNameInjective(cfg.digest, u, PairOf(s.calls[c]), PairOf(s.calls[d]));
    }
  }

  predicate KeyedSuccess(call: Call) {
    call.Returned? && call.request.Create? && call.request.command.idempotencyKey.Some? && call.reply.One?
  }

  function PairOf(call: Call): Pair
    requires KeyedSuccess(call)
  {
    (call.request.command.tenantId, call.request.command.idempotencyKey.value)
  }

  /** While nothing removes the claim, its core stays what it was. */
  lemma {:induction false} CorePersists(cfg: Config, actions: seq<Action>, i: nat, j: nat, n: string)
    requires i <= j <= |actions| && At(cfg, actions, j).Some?
    requires forall k :: i <= k < j ==> actions[k] != Remove(n)
    requires At(cfg, actions, i).Some? && n in At(cfg, actions, i).value.claims
    ensures n in At(cfg, actions, j).value.claims
    ensures CoreOf(At(cfg, actions, j).value.claims[n]) == CoreOf(At(cfg, actions, i).value.claims[n])
    decreases j
  {
    if i < j {
      PrefixRuns(cfg, actions, j - 1);
      CorePersists(cfg, actions, i, j - 1, n);
      StepKeepsCore(cfg, At(cfg, actions, j - 1).value, actions[j - 1], n);
    }
  }

  /** The first writer wins: in a run without removals of the claim, every successful create for one
      pair reports the one stored core, whichever replicas served them and however they interleaved. */
  lemma FirstWriterWins(cfg: Config, u: Universe, actions: seq<Action>, c: nat)
    requires World(cfg, u) && AllOccur(u, actions) && Exec(cfg, START, actions).Some?
    requires var calls := Exec(cfg, START, actions).value.calls;
             && c in calls && calls[c].Returned? && calls[c].reply.One?
             && (forall k :: 0 <= k < |actions| ==> actions[k] != Remove(calls[c].reply.sandbox.id))
    ensures var s := Exec(cfg, START, actions).value;
            var sandbox := s.calls[c].reply.sandbox;
            sandbox.id in s.claims && Reports(sandbox, CoreOf(s.claims[sandbox.id]))
  {
    assert actions[..|actions|] == actions;
    ReturnedWasStored(cfg, u, actions, |actions|, c);
    var s := Exec(cfg, START, actions).value;
    var sandbox := s.calls[c].reply.sandbox;
    var k :| StoredAt(cfg, actions, k, c, sandbox) && k <= |actions|;
    CorePersists(cfg, actions, k, |actions|, sandbox.id);
    ReadReports(cfg, At(cfg, actions, k).value.claims[sandbox.id], Tenant(At(cfg, actions, k).value.calls[c].request));
  }

  // ----- The two stores -----

  /** Two stores of the same values, one filed by pair and one by derived name. */
  ghost predicate SameContents<V>(digest: Digest, u: Universe, byPair: map<Pair, V>, byName: map<string, V>) {
    forall p :: p in u.pairs ==>
      var n := KeyedName(digest, p.0, p.1);
      (p in byPair <==> n in byName) && (p in byPair ==> byPair[p] == byName[n])
  }

  /** Insert-if-absent by pair, as the locked store does it, and by derived name, as the cluster does,
      answer alike and stay in step. */
  lemma StoresAgree<V>(digest: Digest, u: Universe, byPair: map<Pair, V>, byName: map<string, V>, p: Pair, value: V)
    requires CollisionFree(digest, u) && FromHeaders(u) && p in u.pairs
    requires SameContents(digest, u, byPair, byName)
    ensures var (byPair', a) := Ensure(byPair, p, value);
            var (byName', b) := Ensure(byName, KeyedName(digest, p.0, p.1), value);
            a == b && SameContents(digest, u, byPair', byName')
  {
    var (byPair', a) := Ensure(byPair, p, value);
    var (byName', b) := Ensure(byName, KeyedName(digest, p.0, p.1), value);
    forall q | q in u.pairs
      ensures var n := KeyedName(digest, q.0, q.1);
              (q in byPair' <==> n in byName') && (q in byPair' ==> byPair'[q] == byName'[n])
    {
      if KeyedName(digest, q.0, q.1) == KeyedName(digest, p.0, p.1) {
        KeyedNameInjective(digest, u, p, q);
      }
    }
  }

  /** One create with nothing in between: invoke, post and, after a conflict, read. */
  function CreateAlone(call: nat, command: CreateCommand, uuid: string, now: int, conflict: bool): seq<Action> {
    [Invoke(call, Create(command), uuid, now), Serve(call, now, false, None)] + if conflict then [Serve(call, now, false, None)] else []
  }

  /** Unlike the in-memory store, the cluster keeps the key taken after an accepted delete until the claim is really
      gone. A create with the key, with nothing in between, stores a new claim if and only if the name is free;
      otherwise it returns what the stored claim reads as, terminating if it is being deleted. */
  lemma KeyIsFreeIffGone(cfg: Config, u: Universe, s: State, call: nat, command: CreateCommand, uuid: string, now: int)
    requires World(cfg, u) && Inv(cfg, u, s) && call !in s.calls
    requires command.profile == cfg.profile && AsI64(command.ttlSeconds) >= 0
    requires Occurs(u, Invoke(call, Create(command), uuid, now)) && command.idempotencyKey.Some?
    ensures var n := KeyedName(cfg.digest, command.tenantId, command.idempotencyKey.value);
            var end := Exec(cfg, s, CreateAlone(call, command, uuid, now, n in s.claims));
            && end.Some? && Answered(end.value, call) && end.value.calls[call].reply.sandbox.id == n
            && (n in s.claims ==>
                  && end.value.claims == s.claims
                  && (s.claims[n].deleting ==> end.value.calls[call].reply.sandbox.state == Terminating))
            && (n !in s.claims ==>
                  && n in end.value.claims && end.value.claims == s.claims[n := end.value.claims[n]]
                  && end.value.calls[call].reply.sandbox.state == Pending)
  {
    var n := KeyedName(cfg.digest, command.tenantId, command.idempotencyKey.value);
    InvokeKeepsInv(cfg, u, s, call, Create(command), uuid, now);
    var built := BuildClaim(cfg.digest, command, cfg.warmPool, uuid, now).value;
    var s1 := Posted(cfg, s, call, command, uuid, built);
    assert Step(cfg, s, Invoke(call, Create(command), uuid, now)) == Some(s1);
    if n in s.claims {
      assert GoodCall(cfg, u, s1, s1.calls[call]);
      TakenNameIsRead(cfg, u, s, s1, call, command, uuid, now, built, n);
    } else {
      FreeNameIsFilled(cfg, s, s1, call, command, uuid, now, built, n);
    }
  }

  lemma TakenNameIsRead(cfg: Config, u: Universe, s: State, s1: State, call: nat, command: CreateCommand, uuid: string, now: int,
                        built: Claim, n: string)
    requires Inv(cfg, u, s) && n in s.claims && Extends(s, s1) && OwnedBy(s1, n, command.tenantId)
    requires Step(cfg, s, Invoke(call, Create(command), uuid, now)) == Some(s1) && s1.claims == s.claims
    requires call in s1.calls && s1.calls[call] == Posting(Create(command), built) && built.name == Some(n)
    ensures var end := Exec(cfg, s, CreateAlone(call, command, uuid, now, true));
            && end.Some? && Answered(end.value, call) && end.value.calls[call].reply.sandbox.id == n
            && end.value.claims == s.claims
            && (s.claims[n].deleting ==> end.value.calls[call].reply.sandbox.state == Terminating)
  {
    var invoke, serve := Invoke(call, Create(command), uuid, now), Serve(call, now, false, None);
    var s2 := ServePost(cfg, s1, call, Create(command), built, now, false);
    assert Step(cfg, s1, serve) == Some(s2);
    assert CreateAlone(call, command, uuid, now, true) == [invoke, serve, serve];
    ThreeSteps(cfg, s, invoke, serve, serve, s1, s2);
    assert GoodClaim(cfg, s, n, s.claims[n]);
    OwnerMayRead(cfg, u, s, s1, n, command.tenantId);
    ConflictReads(cfg, s, s2, call, command, n, now);
  }

  lemma FreeNameIsFilled(cfg: Config, s: State, s1: State, call: nat, command: CreateCommand, uuid: string, now: int,
                         built: Claim, n: string)
    requires n !in s.claims && BuildClaim(cfg.digest, command, cfg.warmPool, uuid, now) == Ok(built)
    requires Step(cfg, s, Invoke(call, Create(command), uuid, now)) == Some(s1) && s1.claims == s.claims
    requires call in s1.calls && s1.calls[call] == Posting(Create(command), built) && built.name == Some(n)
    ensures var end := Exec(cfg, s, CreateAlone(call, command, uuid, now, false));
            && end.Some? && Answered(end.value, call) && end.value.calls[call].reply.sandbox.id == n
            && n in end.value.claims && end.value.claims == s.claims[n := end.value.claims[n]]
            && end.value.calls[call].reply.sandbox.state == Pending
  {
    var invoke, serve := Invoke(call, Create(command), uuid, now), Serve(call, now, false, None);
    assert Step(cfg, s1, serve) == Some(ServePost(cfg, s1, call, Create(command), built, now, false));
    assert CreateAlone(call, command, uuid, now, false) == [invoke, serve];
    TwoSteps(cfg, s, invoke, serve, s1);
    BuiltClaimReadsBack(cfg.digest, command, cfg.warmPool, uuid, now, WholeSeconds(now));
  }

  lemma OwnerMayRead(cfg: Config, u: Universe, s: State, s1: State, n: string, t: string)
    requires Inv(cfg, u, s) && Extends(s, s1) && n in s.claims && OwnedBy(s1, n, t)
    ensures VerifyTenant(cfg.digest, s.claims[n], t)
  {
    assert GoodClaim(cfg, s, n, s.claims[n]);
  }

  /** The read after a conflict. */
  lemma ConflictReads(cfg: Config, s: State, s2: State, call: nat, command: CreateCommand, n: string, now: int)
    requires call in s2.calls && s2.calls[call] == Conflicted(Create(command), n) && s2.claims == s.claims
    requires n in s.claims && GoodClaim(cfg, s, n, s.claims[n])
    requires VerifyTenant(cfg.digest, s.claims[n], command.tenantId)
    ensures var end := Step(cfg, s2, Serve(call, now, false, None));
            && end.Some? && end.value.claims == s.claims && call in end.value.calls && Succeeds(end.value.calls[call])
            && end.value.calls[call].reply.sandbox.id == n
            && (s.claims[n].deleting ==> end.value.calls[call].reply.sandbox.state == Terminating)
  {
    assert Step(cfg, s2, Serve(call, now, false, None)) == Some(ServeRead(cfg, s2, call, Create(command), n, false));
    ReadableIff(cfg.digest, s.claims[n], command.tenantId);
  }

  lemma TwoSteps(cfg: Config, s: State, a: Action, b: Action, s1: State)
    requires Step(cfg, s, a) == Some(s1)
    ensures Exec(cfg, s, [a, b]) == Step(cfg, s1, b)
  {
    assert [a][..0] == [] && [a, b][..1] == [a];
    assert Exec(cfg, s, [a]) == Some(s1);
  }

  lemma ThreeSteps(cfg: Config, s: State, a: Action, b: Action, c: Action, s1: State, s2: State)
    requires Step(cfg, s, a) == Some(s1) && Step(cfg, s1, b) == Some(s2)
    ensures Exec(cfg, s, [a, b, c]) == Step(cfg, s2, c)
  {
    TwoSteps(cfg, s, a, b, s1);
    assert [a, b, c][..2] == [a, b];
  }
}
