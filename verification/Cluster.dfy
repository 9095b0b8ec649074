/**
 The Kubernetes sandbox store (`kubernetes.rs`) as an interleaved step system: any number of
 API calls from any number of replicas, each several cluster requests long, sharing the
 cluster's claims with controllers that update and remove claims at any moment. There is no lock.
 */
module Cluster {
  import opened Common
  import opened Domain
  import opened Identity
  import opened Claims

  datatype Config = Config(digest: Digest, profile: string, warmPool: string)

  datatype Request =
    | Create(command: CreateCommand)
    | Get(tenantId: string, id: string)
    | List(tenantId: string)
    | Delete(tenantId: string, id: string)

  datatype Reply = One(sandbox: Sandbox) | Many(sandboxes: set<Sandbox>) | Done | Failure(error: StoreError)

  /** Where a call is: which cluster request it has outstanding, or what it returned. */
  datatype Call =
    | Posting(request: Request, claim: Claim)
    | Conflicted(request: Request, name: string)
    | Reading(request: Request)
    | Verified(request: Request)
    | Returned(request: Request, reply: Reply)

  /** `owners` and `uuids` are history: for which tenant each claim name was derived, and the
      identifiers drawn so far. No step depends on `owners`. */
  datatype State = State(claims: map<string, Claim>, calls: map<nat, Call>, owners: map<string, string>, uuids: set<string>)

  datatype Action =
    | Invoke(call: nat, request: Request, uuid: string, now: int)
    | Serve(call: nat, now: int, lost: bool, unreadable: Option<string>)
    | Break(call: nat, message: string)
    | Update(name: string, terminating: bool, runtimeName: Option<string>, podIps: seq<Option<string>>, conditions: seq<Condition>)
    | Remove(name: string)

  const START := State(map[], map[], map[], {})

  function Tenant(request: Request): string {
    match request
    case Create(command) => command.tenantId
    case Get(t, _) => t
    case List(t) => t
    case Delete(t, _) => t
  }

  function ToReply(r: Result<Sandbox, StoreError>): Reply {
    match r
    case Ok(sandbox) => One(sandbox)
    case Err(e) => Failure(e)
  }

  function WrongProfile(profile: string): StoreError {
    Conflict("profile " + profile + " is not configured by this store")
  }

  // ----- Steps -----

  /** The API side of a call, up to its first cluster request. */
  function InvokeStep(cfg: Config, s: State, call: nat, request: Request, uuid: string, now: int): Option<State> {
    if call in s.calls then None
    else if !request.Create? then Some(s.(calls := s.calls[call := Reading(request)]))
    else
      var command := request.command;
      if command.profile != cfg.profile then
        Some(s.(calls := s.calls[call := Returned(request, Failure(WrongProfile(command.profile)))]))
      else if command.idempotencyKey.None? && (uuid in s.uuids || !UuidText(uuid)) then None
      else
        match BuildClaim(cfg.digest, command, cfg.warmPool, uuid, now)
        case Err(e) => Some(s.(calls := s.calls[call := Returned(request, Failure(e))]))
        case Ok(claim) => Some(Posted(cfg, s, call, command, uuid, claim))
  }

  /** The claim is about to be posted; its name is recorded as derived for the tenant. */
  function Posted(cfg: Config, s: State, call: nat, command: CreateCommand, uuid: string, claim: Claim): State {
    State(s.claims, s.calls[call := Posting(Create(command), claim)],
          s.owners[ClaimName(cfg.digest, command, uuid) := command.tenantId],
          if command.idempotencyKey.None? then s.uuids + {uuid} else s.uuids)
  }

  function Finish(s: State, call: nat, request: Request, reply: Reply, lost: bool): State {
    s.(calls := s.calls[call := Returned(request, if lost then Failure(Unavailable("connection lost")) else reply)])
  }

  /** What a list selects: claims carrying the tenant's label. */
  function Selected(cfg: Config, s: State, tenantId: string): set<string> {
    set n | n in s.claims && VerifyTenant(cfg.digest, s.claims[n], tenantId)
  }

  /** Creating an object: a conflict when the name is taken, otherwise the claim is stored and stamped. */
  function ServePost(cfg: Config, s: State, call: nat, request: Request, claim: Claim, now: int, lost: bool): State {
    if claim.name.None? then Finish(s, call, request, Failure(Unavailable("claim name is missing")), false)
    else if claim.name.value in s.claims then
      if lost then Finish(s, call, request, Done, true)
      else s.(calls := s.calls[call := Conflicted(request, claim.name.value)])
    else
      var stored := claim.(creationTimestamp := Some(Instant(WholeSeconds(now))));
      Finish(s.(claims := s.claims[claim.name.value := stored]), call, request,
             ToReply(ClaimToSandbox(cfg.digest, stored, Tenant(request))), lost)
  }

  /** Getting an object, after a conflict or for a plain get. */
  function ServeRead(cfg: Config, s: State, call: nat, request: Request, name: string, lost: bool): State {
    Finish(s, call, request,
           if name in s.claims then ToReply(ClaimToSandbox(cfg.digest, s.claims[name], Tenant(request)))
           else Failure(NotFound), lost)
  }

  /** The first half of a delete: get the object and check its tenant. */
  function ServeLook(cfg: Config, s: State, call: nat, request: Request, id: string, lost: bool): State {
    if lost then Finish(s, call, request, Done, true)
    else if id in s.claims && VerifyTenant(cfg.digest, s.claims[id], Tenant(request)) then
      s.(calls := s.calls[call := Verified(request)])
    else Finish(s, call, request, Failure(NotFound), false)
  }

  /** The second half, in foreground mode: the claim is marked, and a controller removes it later. */
  function ServeMark(s: State, call: nat, request: Request, id: string, lost: bool): State {
    if id in s.claims then
      Finish(s.(claims := s.claims[id := s.claims[id].(deleting := true)]), call, request, Done, lost)
    else Finish(s, call, request, Failure(NotFound), lost)
  }

  /** The cluster processes the outstanding request of a call. The response may be lost. */
  function ServeStep(cfg: Config, s: State, call: nat, now: int, lost: bool, unreadable: Option<string>): Option<State> {
    if call !in s.calls then None
    else
      match s.calls[call]
      case Posting(request, claim) => Some(ServePost(cfg, s, call, request, claim, now, lost))
      case Conflicted(request, name) => Some(ServeRead(cfg, s, call, request, name, lost))
      case Reading(Get(t, id)) => Some(ServeRead(cfg, s, call, Get(t, id), id, lost))
      case Reading(List(t)) => ServeList(cfg, s, call, t, lost, unreadable)
      case Reading(Delete(t, id)) => Some(ServeLook(cfg, s, call, Delete(t, id), id, lost))
      case Verified(Delete(t, id)) => Some(ServeMark(s, call, Delete(t, id), id, lost))
      case _ => None
  }

  /** The list fails on an unreadable selected claim, whichever the conversion meets first. */
  function ServeList(cfg: Config, s: State, call: nat, t: string, lost: bool, unreadable: Option<string>): Option<State> {
    match unreadable
    case Some(n) =>
      if n in Selected(cfg, s, t) && ClaimToSandbox(cfg.digest, s.claims[n], t).Err? then
        Some(Finish(s, call, List(t), ToReply(ClaimToSandbox(cfg.digest, s.claims[n], t)), lost))
      else None
    case None =>
      if forall n :: n in Selected(cfg, s, t) ==> ClaimToSandbox(cfg.digest, s.claims[n], t).Ok? then
        Some(Finish(s, call, List(t),
                    Many(set n | n in Selected(cfg, s, t) :: ClaimToSandbox(cfg.digest, s.claims[n], t).value), lost))
      else None
  }

  function Step(cfg: Config, s: State, a: Action): Option<State> {
    match a
    case Invoke(call, request, uuid, now) => InvokeStep(cfg, s, call, request, uuid, now)
    case Serve(call, now, lost, unreadable) => ServeStep(cfg, s, call, now, lost, unreadable)
    case Break(call, message) =>
      if call !in s.calls || s.calls[call].Returned? then None
      else Some(Finish(s, call, s.calls[call].request, Failure(Unavailable(message)), false))
    case Update(name, terminating, runtimeName, podIps, conditions) =>
      if name !in s.claims then None
      else
        var c := s.claims[name];
        Some(s.(claims := s.claims[name := c.(deleting := c.deleting || terminating, runtimeName := runtimeName,
                                             podIps := podIps, conditions := conditions)]))
    case Remove(name) => Some(s.(claims := s.claims - {name}))
  }

  function Exec(cfg: Config, s: State, actions: seq<Action>): Option<State>
    decreases |actions|
  {
    if actions == [] then Some(s)
    else
      match Exec(cfg, s, actions[..|actions| - 1])
      case None => None
      case Some(before) => Step(cfg, before, actions[|actions| - 1])
  }

  // ----- Hypotheses -----

  ghost predicate Occurs(u: Universe, a: Action) {
    a.Invoke? ==>
      && Tenant(a.request) in u.tenants
      && (a.request.Create? && a.request.command.idempotencyKey.Some? ==>
            (a.request.command.tenantId, a.request.command.idempotencyKey.value) in u.pairs)
  }

  ghost predicate World(cfg: Config, u: Universe) {
    CollisionFree(cfg.digest, u) && FromHeaders(u)
  }

  // ----- The invariant -----

  ghost predicate KeyedFor(cfg: Config, u: Universe, name: string, t: string) {
    exists key :: (t, key) in u.pairs && name == KeyedName(cfg.digest, t, key)
  }

  ghost predicate DrawnName(s: State, name: string) {
    exists uuid :: uuid in s.uuids && name == UuidName(uuid)
  }

  ghost predicate OwnersJustified(cfg: Config, u: Universe, s: State) {
    && (forall uuid :: uuid in s.uuids ==> UuidText(uuid))
    && (forall n :: n in s.owners ==>
          s.owners[n] in u.tenants && (KeyedFor(cfg, u, n, s.owners[n]) || DrawnName(s, n)))
  }

  predicate OwnedBy(s: State, name: string, t: string) {
    name in s.owners && s.owners[name] == t
  }

  ghost predicate GoodClaim(cfg: Config, s: State, name: string, claim: Claim) {
    && name in s.owners
    && claim.name == Some(name)
    && VerifyTenant(cfg.digest, claim, s.owners[name])
    && Readable(claim)
  }

  ghost predicate GoodPosting(cfg: Config, s: State, request: Request, claim: Claim) {
    && request.Create?
    && claim.name.Some?
    && GoodClaim(cfg, s, claim.name.value, claim.(creationTimestamp := Some(Instant(0))))
    && s.owners[claim.name.value] == Tenant(request)
    && NamedFor(cfg, request, claim.name.value)
  }

  /** The name a keyed create always uses; others may use any. */
  predicate NamedFor(cfg: Config, request: Request, name: string) {
    request.Create? && request.command.idempotencyKey.Some? ==>
      name == KeyedName(cfg.digest, request.command.tenantId, request.command.idempotencyKey.value)
  }

  ghost predicate GoodReply(cfg: Config, s: State, request: Request, reply: Reply) {
    match reply
    case One(sandbox) =>
      && sandbox.tenantId == Tenant(request) && OwnedBy(s, sandbox.id, Tenant(request))
      && NamedFor(cfg, request, sandbox.id)
    case Many(sandboxes) =>
      forall sandbox :: sandbox in sandboxes ==>
        sandbox.tenantId == Tenant(request) && OwnedBy(s, sandbox.id, Tenant(request))
    case _ => true
  }

  ghost predicate GoodCall(cfg: Config, u: Universe, s: State, call: Call) {
    && Tenant(call.request) in u.tenants
    && match call
       case Posting(request, claim) => GoodPosting(cfg, s, request, claim)
       case Conflicted(request, name) =>
         request.Create? && OwnedBy(s, name, Tenant(request)) && NamedFor(cfg, request, name)
       case Reading(request) => !request.Create?
       case Verified(request) => request.Delete? && OwnedBy(s, request.id, request.tenantId)
       case Returned(request, reply) => GoodReply(cfg, s, request, reply)
  }

  ghost predicate Inv(cfg: Config, u: Universe, s: State) {
    && OwnersJustified(cfg, u, s)
    && (forall n :: n in s.claims ==> GoodClaim(cfg, s, n, s.claims[n]))
    && (forall c :: c in s.calls ==> GoodCall(cfg, u, s, s.calls[c]))
  }

  // ----- Names are bound to one tenant -----

  /** Deriving a claim name never re-binds a name that was derived before. */
  lemma DerivedNameKeepsOwner(cfg: Config, u: Universe, s: State, command: CreateCommand, uuid: string)
    requires World(cfg, u) && OwnersJustified(cfg, u, s)
    requires command.idempotencyKey.Some? ==> (command.tenantId, command.idempotencyKey.value) in u.pairs
    requires command.idempotencyKey.None? ==> uuid !in s.uuids && UuidText(uuid)
    ensures var n := ClaimName(cfg.digest, command, uuid);
            n in s.owners ==> s.owners[n] == command.tenantId
  {
    var n := ClaimName(cfg.digest, command, uuid);
    if n in s.owners {
      if KeyedFor(cfg, u, n, s.owners[n]) {
        var key :| (s.owners[n], key) in u.pairs && n == KeyedName(cfg.digest, s.owners[n], key);
        SlicesInRange(cfg.digest, s.owners[n], key);
        if command.idempotencyKey.Some? {
          KeyedNameInjective(cfg.digest, u, (s.owners[n], key), (command.tenantId, command.idempotencyKey.value));
        }
      } else {
        var drawn :| drawn in s.uuids && n == UuidName(drawn);
        assert |n| == 42;
        if command.idempotencyKey.None? {
          UuidNameInjective(drawn, uuid);
        }
      }
    }
  }

  /** Bindings only grow from `s` to `s'`. */
  predicate Extends(s: State, s': State) {
    forall n :: n in s.owners ==> n in s'.owners && s'.owners[n] == s.owners[n]
  }

  lemma GoodCallExtends(cfg: Config, u: Universe, s: State, s': State, call: Call)
    requires GoodCall(cfg, u, s, call) && Extends(s, s')
    ensures GoodCall(cfg, u, s', call)
  {
  }

  lemma BuiltClaimIsGood(cfg: Config, command: CreateCommand, uuid: string, now: int, s: State)
    requires BuildClaim(cfg.digest, command, cfg.warmPool, uuid, now).Ok?
    requires OwnedBy(s, ClaimName(cfg.digest, command, uuid), command.tenantId)
    ensures GoodPosting(cfg, s, Create(command), BuildClaim(cfg.digest, command, cfg.warmPool, uuid, now).value)
  {
    var claim := BuildClaim(cfg.digest, command, cfg.warmPool, uuid, now).value;
    BuiltClaimReadsBack(cfg.digest, command, cfg.warmPool, uuid, now, 0);
    var stored := claim.(creationTimestamp := Some(Instant(0)));
    ReadableIff(cfg.digest, stored, command.tenantId);
  }

  lemma NewCallKeepsInv(cfg: Config, u: Universe, s: State, call: nat, started: Call)
    requires Inv(cfg, u, s) && GoodCall(cfg, u, s, started)
    ensures Inv(cfg, u, s.(calls := s.calls[call := started]))
  {
    LocalChangeKeepsInv(cfg, u, s, s.(calls := s.calls[call := started]), "", call);
  }

  lemma InvokeKeepsInv(cfg: Config, u: Universe, s: State, call: nat, request: Request, uuid: string, now: int)
    requires World(cfg, u) && Inv(cfg, u, s) && Occurs(u, Invoke(call, request, uuid, now))
    requires InvokeStep(cfg, s, call, request, uuid, now).Some?
    ensures var s' := InvokeStep(cfg, s, call, request, uuid, now).value; Inv(cfg, u, s') && Extends(s, s')
  {
    if !request.Create? {
      NewCallKeepsInv(cfg, u, s, call, Reading(request));
    } else if request.command.profile != cfg.profile {
      NewCallKeepsInv(cfg, u, s, call, Returned(request, Failure(WrongProfile(request.command.profile))));
    } else {
      var built := BuildClaim(cfg.digest, request.command, cfg.warmPool, uuid, now);
      if built.Err? {
        NewCallKeepsInv(cfg, u, s, call, Returned(request, Failure(built.error)));
      } else {
        PostedKeepsInv(cfg, u, s, call, request.command, uuid, now);
      }
    }
  }

  lemma PostedKeepsInv(cfg: Config, u: Universe, s: State, call: nat, command: CreateCommand, uuid: string, now: int)
    requires World(cfg, u) && Inv(cfg, u, s) && call !in s.calls && command.tenantId in u.tenants
    requires command.idempotencyKey.Some? ==> (command.tenantId, command.idempotencyKey.value) in u.pairs
    requires command.idempotencyKey.None? ==> uuid !in s.uuids && UuidText(uuid)
    requires BuildClaim(cfg.digest, command, cfg.warmPool, uuid, now).Ok?
    ensures var claim := BuildClaim(cfg.digest, command, cfg.warmPool, uuid, now).value;
            var s' := Posted(cfg, s, call, command, uuid, claim); Inv(cfg, u, s') && Extends(s, s')
  {
    var claim := BuildClaim(cfg.digest, command, cfg.warmPool, uuid, now).value;
    var s' := Posted(cfg, s, call, command, uuid, claim);
    DerivedNameKeepsOwner(cfg, u, s, command, uuid);
    BuiltClaimIsGood(cfg, command, uuid, now, s');
    OwnersStayJustified(cfg, u, s, s', ClaimName(cfg.digest, command, uuid), command, uuid);
    assert GoodCall(cfg, u, s', s'.calls[call]);
    GrownStateKeepsInv(cfg, u, s, s', call);
  }

  /** More bindings and one more good call. */
  lemma GrownStateKeepsInv(cfg: Config, u: Universe, s: State, s': State, call: nat)
    requires Inv(cfg, u, s) && OwnersJustified(cfg, u, s') && Extends(s, s') && s'.claims == s.claims
    requires forall c :: c in s'.calls && c != call ==> c in s.calls && s'.calls[c] == s.calls[c]
    requires call in s'.calls ==> GoodCall(cfg, u, s', s'.calls[call])
    ensures Inv(cfg, u, s')
  {
    forall c | c in s'.calls
      ensures GoodCall(cfg, u, s', s'.calls[c])
    {
      if c != call {
        GoodCallExtends(cfg, u, s, s', s.calls[c]);
      }
    }
  }

  lemma OwnersStayJustified(cfg: Config, u: Universe, s: State, s': State, n: string, command: CreateCommand, uuid: string)
    requires OwnersJustified(cfg, u, s) && command.tenantId in u.tenants
    requires n == ClaimName(cfg.digest, command, uuid)
    requires command.idempotencyKey.Some? ==> (command.tenantId, command.idempotencyKey.value) in u.pairs
    requires command.idempotencyKey.None? ==> UuidText(uuid)
    requires s'.owners == s.owners[n := command.tenantId]
    requires s'.uuids == if command.idempotencyKey.None? then s.uuids + {uuid} else s.uuids
    ensures OwnersJustified(cfg, u, s')
  {
    forall m | m in s'.owners
      ensures s'.owners[m] in u.tenants && (KeyedFor(cfg, u, m, s'.owners[m]) || DrawnName(s', m))
    {
      if m == n {
        if command.idempotencyKey.Some? {
          assert KeyedFor(cfg, u, n, command.tenantId);
        } else {
          assert uuid in s'.uuids && n == UuidName(uuid);
        }
      } else if !KeyedFor(cfg, u, m, s.owners[m]) {
        var drawn :| drawn in s.uuids && m == UuidName(drawn);
        assert drawn in s'.uuids;
      }
    }
  }

  /** A readable claim that passes the tenant check was derived for that tenant. */
  lemma VerifiedMeansOwned(cfg: Config, u: Universe, s: State, name: string, t: string)
    requires World(cfg, u) && Inv(cfg, u, s) && t in u.tenants
    requires name in s.claims && VerifyTenant(cfg.digest, s.claims[name], t)
    ensures OwnedBy(s, name, t)
  {
    assert GoodClaim(cfg, s, name, s.claims[name]);
    assert TenantHash(cfg.digest, t) == TenantHash(cfg.digest, s.owners[name]);
  }

  /** Reading a stored claim on behalf of a tenant tells it only about its own claims. */
  lemma ReadIsGood(cfg: Config, u: Universe, s: State, name: string, request: Request)
    requires World(cfg, u) && Inv(cfg, u, s) && Tenant(request) in u.tenants
    requires name in s.claims && NamedFor(cfg, request, name)
    ensures GoodReply(cfg, s, request, ToReply(ClaimToSandbox(cfg.digest, s.claims[name], Tenant(request))))
  {
    ReadHasName(cfg.digest, s.claims[name], Tenant(request));
    if ClaimToSandbox(cfg.digest, s.claims[name], Tenant(request)).Ok? {
      VerifiedMeansOwned(cfg, u, s, name, Tenant(request));
      assert GoodClaim(cfg, s, name, s.claims[name]);
    }
  }

  lemma ReadHasName(digest: Digest, claim: Claim, t: string)
    ensures var r := ClaimToSandbox(digest, claim, t);
            r.Ok? ==> VerifyTenant(digest, claim, t) && r.value.tenantId == t && claim.name == Some(r.value.id)
  {
  }

  /** A list selects exactly the claims derived for the asking tenant, by whichever replica. */
  lemma ListSelectsExactlyOwn(cfg: Config, u: Universe, s: State, t: string, n: string)
    requires World(cfg, u) && Inv(cfg, u, s) && t in u.tenants && n in s.claims
    ensures n in Selected(cfg, s, t) <==> OwnedBy(s, n, t)
  {
    assert GoodClaim(cfg, s, n, s.claims[n]);
    if n in Selected(cfg, s, t) {
      VerifiedMeansOwned(cfg, u, s, n, t);
    }
  }

  lemma SelectedIsGood(cfg: Config, u: Universe, s: State, t: string, n: string)
    requires World(cfg, u) && Inv(cfg, u, s) && t in u.tenants && n in Selected(cfg, s, t)
    ensures var r := ClaimToSandbox(cfg.digest, s.claims[n], t);
            r.Ok? && r.value.id == n && r.value.tenantId == t && OwnedBy(s, n, t)
  {
    VerifiedMeansOwned(cfg, u, s, n, t);
    assert GoodClaim(cfg, s, n, s.claims[n]);
    ReadableIff(cfg.digest, s.claims[n], t);
  }

  lemma ListIsGood(cfg: Config, u: Universe, s: State, t: string)
    requires World(cfg, u) && Inv(cfg, u, s) && t in u.tenants
    ensures forall n :: n in Selected(cfg, s, t) ==>
              var r := ClaimToSandbox(cfg.digest, s.claims[n], t);
              r.Ok? && r.value.id == n && r.value.tenantId == t && OwnedBy(s, n, t)
  {
    forall n | n in Selected(cfg, s, t)
      ensures var r := ClaimToSandbox(cfg.digest, s.claims[n], t);
              r.Ok? && r.value.id == n && r.value.tenantId == t && OwnedBy(s, n, t)
    {
      SelectedIsGood(cfg, u, s, t, n);
    }
  }

  /** Replacing one claim by a good one and one call by a good one keeps the invariant. */
  lemma LocalChangeKeepsInv(cfg: Config, u: Universe, s: State, s': State, name: string, call: nat)
    requires Inv(cfg, u, s) && s'.owners == s.owners && s'.uuids == s.uuids
    requires forall n :: n in s'.claims && n != name ==> n in s.claims && s'.claims[n] == s.claims[n]
    requires name in s'.claims ==> GoodClaim(cfg, s, name, s'.claims[name])
    requires forall c :: c in s'.calls && c != call ==> c in s.calls && s'.calls[c] == s.calls[c]
    requires call in s'.calls ==> GoodCall(cfg, u, s, s'.calls[call])
    ensures Inv(cfg, u, s')
  {
    assert OwnersJustified(cfg, u, s') by {
      forall n | n in s'.owners && !KeyedFor(cfg, u, n, s'.owners[n])
        ensures DrawnName(s', n)
      {
        var drawn :| drawn in s.uuids && n == UuidName(drawn);
        assert drawn in s'.uuids;
      }
    }
    forall c | c in s'.calls
      ensures GoodCall(cfg, u, s', s'.calls[c])
    {
      GoodCallExtends(cfg, u, s, s', s'.calls[c]);
    }
  }

  lemma PostKeepsInv(cfg: Config, u: Universe, s: State, call: nat, request: Request, claim: Claim, now: int, lost: bool)
    requires World(cfg, u) && Inv(cfg, u, s) && GoodCall(cfg, u, s, Posting(request, claim))
    ensures Inv(cfg, u, ServePost(cfg, s, call, request, claim, now, lost))
  {
    var name := claim.name.value;
    if name in s.claims {
      NewCallKeepsInv(cfg, u, s, call, Conflicted(request, name));
      NewCallKeepsInv(cfg, u, s, call, Returned(request, Failure(Unavailable("connection lost"))));
    } else {
      var stored := claim.(creationTimestamp := Some(Instant(WholeSeconds(now))));
      StampedIsGood(cfg, s, claim, WholeSeconds(now), request);
      var reply := if lost then Failure(Unavailable("connection lost")) else ToReply(ClaimToSandbox(cfg.digest, stored, Tenant(request)));
      FilledKeepsInv(cfg, u, s, call, name, stored, Returned(request, reply));
    }
  }

  lemma FilledKeepsInv(cfg: Config, u: Universe, s: State, call: nat, name: string, stored: Claim, answered: Call)
    requires Inv(cfg, u, s) && GoodClaim(cfg, s, name, stored) && GoodCall(cfg, u, s, answered)
    ensures Inv(cfg, u, s.(claims := s.claims[name := stored], calls := s.calls[call := answered]))
  {
    LocalChangeKeepsInv(cfg, u, s, s.(claims := s.claims[name := stored], calls := s.calls[call := answered]), name, call);
  }

  /** The server's stamp completes a posted claim, and the creator may read it. */
  lemma StampedIsGood(cfg: Config, s: State, claim: Claim, stamp: int, request: Request)
    requires GoodPosting(cfg, s, request, claim)
    ensures var stored := claim.(creationTimestamp := Some(Instant(stamp)));
            && GoodClaim(cfg, s, claim.name.value, stored)
            && GoodReply(cfg, s, request, ToReply(ClaimToSandbox(cfg.digest, stored, Tenant(request))))
            && ClaimToSandbox(cfg.digest, stored, Tenant(request)).Ok?
  {
    var stored := claim.(creationTimestamp := Some(Instant(stamp)));
    ReadableIff(cfg.digest, stored, Tenant(request));
  }

  lemma ReadKeepsInv(cfg: Config, u: Universe, s: State, call: nat, request: Request, name: string, lost: bool)
    requires World(cfg, u) && Inv(cfg, u, s) && Tenant(request) in u.tenants && NamedFor(cfg, request, name)
    ensures Inv(cfg, u, ServeRead(cfg, s, call, request, name, lost))
  {
    if name in s.claims {
      ReadIsGood(cfg, u, s, name, request);
    }
    LocalChangeKeepsInv(cfg, u, s, ServeRead(cfg, s, call, request, name, lost), name, call);
  }

  lemma ListKeepsInv(cfg: Config, u: Universe, s: State, call: nat, t: string, lost: bool, unreadable: Option<string>)
    requires World(cfg, u) && Inv(cfg, u, s) && call in s.calls && s.calls[call] == Reading(List(t))
    requires ServeList(cfg, s, call, t, lost, unreadable).Some?
    ensures Inv(cfg, u, ServeList(cfg, s, call, t, lost, unreadable).value)
  {
    assert GoodCall(cfg, u, s, s.calls[call]);
    ListIsGood(cfg, u, s, t);
    var s' := ServeList(cfg, s, call, t, lost, unreadable).value;
    assert unreadable.None?;
    LocalChangeKeepsInv(cfg, u, s, s', "", call);
  }

  lemma LookKeepsInv(cfg: Config, u: Universe, s: State, call: nat, request: Request, lost: bool)
    requires World(cfg, u) && Inv(cfg, u, s) && request.Delete? && Tenant(request) in u.tenants
    ensures Inv(cfg, u, ServeLook(cfg, s, call, request, request.id, lost))
  {
    if request.id in s.claims && VerifyTenant(cfg.digest, s.claims[request.id], request.tenantId) {
      VerifiedMeansOwned(cfg, u, s, request.id, request.tenantId);
    }
    LocalChangeKeepsInv(cfg, u, s, ServeLook(cfg, s, call, request, request.id, lost), request.id, call);
  }

  lemma MarkedIsGood(cfg: Config, s: State, name: string)
    requires name in s.claims && GoodClaim(cfg, s, name, s.claims[name])
    ensures GoodClaim(cfg, s, name, s.claims[name].(deleting := true))
  {
  }

  lemma MarkKeepsInv(cfg: Config, u: Universe, s: State, call: nat, request: Request, lost: bool)
    requires World(cfg, u) && Inv(cfg, u, s) && request.Delete? && Tenant(request) in u.tenants
    ensures Inv(cfg, u, ServeMark(s, call, request, request.id, lost))
  {
    var reply := if lost then Failure(Unavailable("connection lost")) else if request.id in s.claims then Done else Failure(NotFound);
    var answered := Returned(request, reply);
    NewCallKeepsInv(cfg, u, s, call, answered);
    if request.id in s.claims {
      var marked := s.(claims := s.claims[request.id := s.claims[request.id].(deleting := true)]);
      MarkedKeepsInv(cfg, u, s, request.id);
      NewCallKeepsInv(cfg, u, marked, call, answered);
      assert ServeMark(s, call, request, request.id, lost) == marked.(calls := s.calls[call := answered]);
    } else {
      assert ServeMark(s, call, request, request.id, lost) == s.(calls := s.calls[call := answered]);
    }
  }

  lemma MarkedKeepsInv(cfg: Config, u: Universe, s: State, name: string)
    requires Inv(cfg, u, s) && name in s.claims
    ensures Inv(cfg, u, s.(claims := s.claims[name := s.claims[name].(deleting := true)]))
  {
    MarkedIsGood(cfg, s, name);
    var s' := s.(claims := s.claims[name := s.claims[name].(deleting := true)]);
    forall c | c in s'.calls
      ensures GoodCall(cfg, u, s', s'.calls[c])
    {
      GoodCallExtends(cfg, u, s, s', s.calls[c]);
    }
  }

  lemma ServeKeepsInv(cfg: Config, u: Universe, s: State, call: nat, now: int, lost: bool, unreadable: Option<string>)
    requires World(cfg, u) && Inv(cfg, u, s) && ServeStep(cfg, s, call, now, lost, unreadable).Some?
    ensures Inv(cfg, u, ServeStep(cfg, s, call, now, lost, unreadable).value)
  {
    assert GoodCall(cfg, u, s, s.calls[call]);
    match s.calls[call] {
      case Posting(request, claim) => PostKeepsInv(cfg, u, s, call, request, claim, now, lost);
      case Conflicted(request, name) => ReadKeepsInv(cfg, u, s, call, request, name, lost);
      case Reading(Get(t, id)) => ReadKeepsInv(cfg, u, s, call, Get(t, id), id, lost);
      case Reading(List(t)) => ListKeepsInv(cfg, u, s, call, t, lost, unreadable);
      case Reading(Delete(t, id)) => LookKeepsInv(cfg, u, s, call, Delete(t, id), lost);
      case Verified(Delete(t, id)) => MarkKeepsInv(cfg, u, s, call, Delete(t, id), lost);
    }
  }

  /** The only two ways in which serving a request changes the claims: a free name is filled by a
      create, or a verified delete marks its own claim. */
  lemma ServeChangesClaims(cfg: Config, s: State, call: nat, now: int, lost: bool, unreadable: Option<string>)
    requires ServeStep(cfg, s, call, now, lost, unreadable).Some?
    ensures var claims := ServeStep(cfg, s, call, now, lost, unreadable).value.claims;
            match s.calls[call]
            case Posting(request, claim) =>
              if claim.name.Some? && claim.name.value !in s.claims
              then claims == s.claims[claim.name.value := claim.(creationTimestamp := Some(Instant(WholeSeconds(now))))]
              else claims == s.claims
            case Verified(request) =>
              request.Delete? &&
              if request.id in s.claims
              then claims == s.claims[request.id := s.claims[request.id].(deleting := true)]
              else claims == s.claims
            case _ => claims == s.claims
  {
  }

  lemma ServeKeepsOwners(cfg: Config, s: State, call: nat, now: int, lost: bool, unreadable: Option<string>)
    requires ServeStep(cfg, s, call, now, lost, unreadable).Some?
    ensures ServeStep(cfg, s, call, now, lost, unreadable).value.owners == s.owners
  {
  }

  lemma OutsideKeepsInv(cfg: Config, u: Universe, s: State, a: Action)
    requires Inv(cfg, u, s) && (a.Break? || a.Update? || a.Remove?) && Step(cfg, s, a).Some?
    ensures Inv(cfg, u, Step(cfg, s, a).value) && Step(cfg, s, a).value.owners == s.owners
  {
    var s' := Step(cfg, s, a).value;
    match a {
      case Break(call, _) =>
        assert GoodCall(cfg, u, s, s.calls[call]);
        LocalChangeKeepsInv(cfg, u, s, s', "", call);
      case Update(name, _, _, _, _) =>
        assert GoodClaim(cfg, s, name, s.claims[name]);
        LocalChangeKeepsInv(cfg, u, s, s', name, 0);
      case Remove(name) =>
        LocalChangeKeepsInv(cfg, u, s, s', name, 0);
    }
  }

  /** Every step keeps the invariant and every binding of a name to a tenant. */
  lemma StepKeepsInv(cfg: Config, u: Universe, s: State, a: Action)
    requires World(cfg, u) && Inv(cfg, u, s) && Occurs(u, a) && Step(cfg, s, a).Some?
    ensures Inv(cfg, u, Step(cfg, s, a).value) && Extends(s, Step(cfg, s, a).value)
  {
    if a.Invoke? {
      InvokeKeepsInv(cfg, u, s, a.call, a.request, a.uuid, a.now);
    } else if a.Serve? {
      ServeKeepsInv(cfg, u, s, a.call, a.now, a.lost, a.unreadable);
      ServeKeepsOwners(cfg, s, a.call, a.now, a.lost, a.unreadable);
    } else {
      OutsideKeepsInv(cfg, u, s, a);
    }
  }
}
