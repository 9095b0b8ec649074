/**
 What the Kubernetes store answers, over every interleaving and in terms of the stored claims and of whom their
 names were derived for: lists, gets, both halves of a delete, and the refusals of a create.
 */
module ClusterAnswers {
  import opened Common
  import opened Domain
  import opened Identity
  import opened Claims
  import opened Cluster
  import opened ClusterRuns

  /** In the state `s` after the first `i` actions the call is in `call`, and the next action serves it. */
  ghost predicate ServedAt(cfg: Config, u: Universe, actions: seq<Action>, i: nat, s: State, call: nat, phase: Call) {
    && World(cfg, u) && AllOccur(u, actions) && i < |actions| && At(cfg, actions, i) == Some(s)
    && actions[i].Serve? && actions[i].call == call && call in s.calls && s.calls[call] == phase
    && At(cfg, actions, i + 1).Some?
  }

  /** The answer is the call's, and the response was not lost. */
  predicate Replies(s: State, call: nat, request: Request, reply: Reply) {
    call in s.calls && s.calls[call] == Returned(request, reply)
  }

  /** The state after serving, and that both states are reachable good ones. */
  lemma ServedState(cfg: Config, u: Universe, actions: seq<Action>, i: nat, s: State, call: nat, phase: Call) returns (s': State)
    requires ServedAt(cfg, u, actions, i, s, call, phase)
    ensures At(cfg, actions, i + 1) == Some(s')
    ensures ServeStep(cfg, s, call, actions[i].now, actions[i].lost, actions[i].unreadable) == Some(s')
    ensures Inv(cfg, u, s) && GoodCall(cfg, u, s, phase)
  {
    PrefixRuns(cfg, actions, i);
    ReachableInv(cfg, u, actions, i);
    s' := At(cfg, actions, i + 1).value;
  }

  // ----- Lists -----

  /** The sandboxes a tenant has: what its stored claims read as. */
  ghost predicate HasSandbox(cfg: Config, s: State, t: string, sandbox: Sandbox) {
    exists n :: n in s.claims && OwnedBy(s, n, t) && ClaimToSandbox(cfg.digest, s.claims[n], t) == Ok(sandbox)
  }

  lemma ListedIff(cfg: Config, u: Universe, s: State, call: nat, t: string, sandboxes: set<Sandbox>, sandbox: Sandbox)
    requires World(cfg, u) && Inv(cfg, u, s) && t in u.tenants
    requires ServeList(cfg, s, call, t, false, None)
          == Some(s.(calls := s.calls[call := Returned(List(t), Many(sandboxes))]))
    ensures sandbox in sandboxes <==> HasSandbox(cfg, s, t, sandbox)
  {
    ListIsGood(cfg, u, s, t);
    var s' := ServeList(cfg, s, call, t, false, None).value;
    assert s'.calls[call] == Returned(List(t), Many(sandboxes));
    var listed := set n | n in Selected(cfg, s, t) :: ClaimToSandbox(cfg.digest, s.claims[n], t).value;
    assert s'.calls[call] == Returned(List(t), Many(listed));
    if sandbox in sandboxes {
      var n :| n in Selected(cfg, s, t) && ClaimToSandbox(cfg.digest, s.claims[n], t).value == sandbox;
      assert OwnedBy(s, n, t);
    }
    if HasSandbox(cfg, s, t, sandbox) {
      var n :| n in s.claims && OwnedBy(s, n, t) && ClaimToSandbox(cfg.digest, s.claims[n], t) == Ok(sandbox);
      ListSelectsExactlyOwn(cfg, u, s, t, n);
    }
  }

  lemma ServedListIsMany(cfg: Config, u: Universe, s: State, call: nat, t: string, unreadable: Option<string>, s': State)
      returns (sandboxes: set<Sandbox>)
    requires World(cfg, u) && Inv(cfg, u, s) && t in u.tenants
    requires ServeList(cfg, s, call, t, false, unreadable) == Some(s')
    ensures unreadable.None? && s' == s.(calls := s.calls[call := Returned(List(t), Many(sandboxes))])
  {
    ListIsGood(cfg, u, s, t);
    sandboxes := s'.calls[call].reply.sandboxes;
  }

  /** A list that is served without losing its response answers exactly the sandboxes of the asking tenant: one for
      every stored claim whose name was derived for it, by whichever replica, and nothing else. It never fails. */
  lemma ListAnswersExactlyOwn(cfg: Config, u: Universe, actions: seq<Action>, i: nat, s: State, call: nat, t: string)
      returns (sandboxes: set<Sandbox>)
    requires ServedAt(cfg, u, actions, i, s, call, Reading(List(t))) && !actions[i].lost
    ensures Replies(At(cfg, actions, i + 1).value, call, List(t), Many(sandboxes))
    ensures forall sandbox :: sandbox in sandboxes <==> HasSandbox(cfg, s, t, sandbox)
    ensures forall n :: n in s.claims ==> (OwnedBy(s, n, t) <==> exists sandbox :: sandbox in sandboxes && sandbox.id == n)
  {
    var s' := ServedState(cfg, u, actions, i, s, call, Reading(List(t)));
    sandboxes := ServedListIsMany(cfg, u, s, call, t, actions[i].unreadable, s');
    forall sandbox
      ensures sandbox in sandboxes <==> HasSandbox(cfg, s, t, sandbox)
    {
      ListedIff(cfg, u, s, call, t, sandboxes, sandbox);
    }
    forall n | n in s.claims
      ensures OwnedBy(s, n, t) <==> exists sandbox :: sandbox in sandboxes && sandbox.id == n
    {
      OwnedIsListed(cfg, u, s, t, sandboxes, n);
    }
  }

  lemma StoredReadsAs(cfg: Config, u: Universe, s: State, n: string, t: string)
    requires Inv(cfg, u, s) && n in s.claims && OwnedBy(s, n, t)
    ensures var r := ClaimToSandbox(cfg.digest, s.claims[n], t); r.Ok? && r.value.id == n
  {
    assert GoodClaim(cfg, s, n, s.claims[n]);
    ReadableIff(cfg.digest, s.claims[n], t);
  }

  lemma OwnedIsListed(cfg: Config, u: Universe, s: State, t: string, sandboxes: set<Sandbox>, n: string)
    requires Inv(cfg, u, s) && n in s.claims
    requires forall sandbox :: sandbox in sandboxes <==> HasSandbox(cfg, s, t, sandbox)
    ensures OwnedBy(s, n, t) <==> exists sandbox :: sandbox in sandboxes && sandbox.id == n
  {
    if OwnedBy(s, n, t) {
      StoredReadsAs(cfg, u, s, n, t);
      var sandbox := ClaimToSandbox(cfg.digest, s.claims[n], t).value;
      assert HasSandbox(cfg, s, t, sandbox) && sandbox.id == n;
    }
    if sandbox :| sandbox in sandboxes && sandbox.id == n {
      assert HasSandbox(cfg, s, t, sandbox);
      var m :| m in s.claims && OwnedBy(s, m, t) && ClaimToSandbox(cfg.digest, s.claims[m], t) == Ok(sandbox);
      StoredReadsAs(cfg, u, s, m, t);
    }
  }

  /** On every reachable state an outstanding list can be served, whether or not its response will be lost. */
  lemma ListCanBeServed(cfg: Config, u: Universe, actions: seq<Action>, call: nat, t: string, now: int, lost: bool)
    requires World(cfg, u) && AllOccur(u, actions) && Exec(cfg, START, actions).Some?
    requires var s := Exec(cfg, START, actions).value; call in s.calls && s.calls[call] == Reading(List(t))
    ensures Exec(cfg, START, actions + [Serve(call, now, lost, None)]).Some?
  {
    var s := Exec(cfg, START, actions).value;
    assert actions[..|actions|] == actions;
    ReachableInv(cfg, u, actions, |actions|);
    assert GoodCall(cfg, u, s, s.calls[call]);
    ListIsGood(cfg, u, s, t);
    assert (actions + [Serve(call, now, lost, None)])[..|actions|] == actions;
  }

  // ----- Gets -----

  lemma ReadOfStored(cfg: Config, u: Universe, s: State, id: string, t: string)
    requires World(cfg, u) && Inv(cfg, u, s) && t in u.tenants && id in s.claims
    ensures OwnedBy(s, id, t) ==> ClaimToSandbox(cfg.digest, s.claims[id], t).Ok?
    ensures !OwnedBy(s, id, t) ==> ClaimToSandbox(cfg.digest, s.claims[id], t) == Err(NotFound)
  {
    assert GoodClaim(cfg, s, id, s.claims[id]);
    ReadableIff(cfg.digest, s.claims[id], t);
    if VerifyTenant(cfg.digest, s.claims[id], t) {
      VerifiedMeansOwned(cfg, u, s, id, t);
    }
  }

  /** A get that is served without losing its response answers what the stored claim reads as if its name was derived
      for the asking tenant, and "not found" otherwise: another tenant's claim looks like no claim at all. */
  lemma GetAnswersExactlyOwn(cfg: Config, u: Universe, actions: seq<Action>, i: nat, s: State, call: nat, t: string, id: string)
    requires ServedAt(cfg, u, actions, i, s, call, Reading(Get(t, id))) && !actions[i].lost
    ensures var s' := At(cfg, actions, i + 1).value;
            if id in s.claims && OwnedBy(s, id, t)
            then && ClaimToSandbox(cfg.digest, s.claims[id], t).Ok?
                 && Replies(s', call, Get(t, id), One(ClaimToSandbox(cfg.digest, s.claims[id], t).value))
            else Replies(s', call, Get(t, id), Failure(NotFound))
  {
    var s' := ServedState(cfg, u, actions, i, s, call, Reading(Get(t, id)));
    if id in s.claims {
      ReadOfStored(cfg, u, s, id, t);
    }
  }

  /** The sandbox shows this status: the runtime's name, the first pod address, and a state that is terminating for a
      claim being deleted and otherwise running exactly if the first Ready condition is "True". */
  ghost predicate Shows(sandbox: Sandbox, deleting: bool, runtimeName: Option<string>, podIps: seq<Option<string>>,
                        conditions: seq<Condition>)
  {
    && sandbox.runtimeId == runtimeName
    && (podIps != [] ==> sandbox.runtimePodIp == podIps[0]) && (podIps == [] ==> sandbox.runtimePodIp == None)
    && (deleting ==> sandbox.state == Terminating && sandbox.reason == None)
    && (!deleting ==>
          (sandbox.state == Running <==> exists k :: IsFirstReady(conditions, k) && conditions[k].status == Some("True")))
  }

  /** What a controller reports about a claim is what the next get of its tenant answers. */
  lemma ReportedStatusIsRead(cfg: Config, u: Universe, actions: seq<Action>, i: nat, s: State, call: nat, t: string, id: string,
                             terminating: bool, runtimeName: Option<string>, podIps: seq<Option<string>>, conditions: seq<Condition>)
    requires ServedAt(cfg, u, actions, i + 1, s, call, Reading(Get(t, id))) && !actions[i + 1].lost
    requires actions[i] == Update(id, terminating, runtimeName, podIps, conditions) && OwnedBy(s, id, t)
    ensures At(cfg, actions, i).Some? && id in At(cfg, actions, i).value.claims
    ensures Answered(At(cfg, actions, i + 2).value, call)
    ensures Shows(At(cfg, actions, i + 2).value.calls[call].reply.sandbox,
                  At(cfg, actions, i).value.claims[id].deleting || terminating, runtimeName, podIps, conditions)
  {
    PrefixRuns(cfg, actions, i);
    UpdateReports(cfg, At(cfg, actions, i).value, s, id, terminating, runtimeName, podIps, conditions);
    GetAnswersExactlyOwn(cfg, u, actions, i + 1, s, call, t, id);
    StatusOfRead(cfg, s.claims[id], t);
  }

  lemma UpdateReports(cfg: Config, s: State, s': State, id: string, terminating: bool, runtimeName: Option<string>,
                      podIps: seq<Option<string>>, conditions: seq<Condition>)
    requires Step(cfg, s, Update(id, terminating, runtimeName, podIps, conditions)) == Some(s')
    ensures id in s.claims && id in s'.claims
    ensures var c := s'.claims[id];
            && c.deleting == (s.claims[id].deleting || terminating) && c.runtimeName == runtimeName
            && c.podIps == podIps && c.conditions == conditions
  {
  }

  lemma StatusOfRead(cfg: Config, claim: Claim, t: string)
    requires ClaimToSandbox(cfg.digest, claim, t).Ok?
    ensures Shows(ClaimToSandbox(cfg.digest, claim, t).value, claim.deleting, claim.runtimeName, claim.podIps, claim.conditions)
  {
    FirstReadyPosition(claim.conditions);
    if k :| IsFirstReady(claim.conditions, k) && claim.conditions[k].status == Some("True") {
      FirstReadyIs(claim.conditions, k);
    }
  }

  // ----- Deletes -----

  /** The first half of a delete goes on exactly if the claim is stored and was derived for the asking tenant;
      otherwise it answers "not found". No claim changes. */
  lemma DeleteLooksForOwn(cfg: Config, u: Universe, actions: seq<Action>, i: nat, s: State, call: nat, t: string, id: string)
    requires ServedAt(cfg, u, actions, i, s, call, Reading(Delete(t, id))) && !actions[i].lost
    ensures var s' := At(cfg, actions, i + 1).value;
            && s'.claims == s.claims && call in s'.calls
            && s'.calls[call] == if id in s.claims && OwnedBy(s, id, t) then Verified(Delete(t, id))
                                 else Returned(Delete(t, id), Failure(NotFound))
  {
    var s' := ServedState(cfg, u, actions, i, s, call, Reading(Delete(t, id)));
    LookAnswers(cfg, u, s, call, t, id);
  }

  lemma LookAnswers(cfg: Config, u: Universe, s: State, call: nat, t: string, id: string)
    requires World(cfg, u) && Inv(cfg, u, s) && t in u.tenants
    ensures ServeLook(cfg, s, call, Delete(t, id), id, false)
         == s.(calls := s.calls[call := if id in s.claims && OwnedBy(s, id, t) then Verified(Delete(t, id))
                                        else Returned(Delete(t, id), Failure(NotFound))])
  {
    if id in s.claims {
      ReadOfStored(cfg, u, s, id, t);
      ReadableIff(cfg.digest, s.claims[id], t);
    }
  }

  /** The second half marks the claim, or answers "not found" when it is gone by then. Whoever reads a marked claim
      finds the sandbox terminating, until a controller removes it. */
  lemma DeleteMarksOwn(cfg: Config, u: Universe, actions: seq<Action>, i: nat, s: State, call: nat, t: string, id: string)
    requires ServedAt(cfg, u, actions, i, s, call, Verified(Delete(t, id))) && !actions[i].lost
    ensures var s' := At(cfg, actions, i + 1).value;
            && OwnedBy(s, id, t) && s'.claims.Keys == s.claims.Keys
            && Replies(s', call, Delete(t, id), if id in s.claims then Done else Failure(NotFound))
            && (id in s.claims ==>
                  && s'.claims[id].deleting && ClaimToSandbox(cfg.digest, s'.claims[id], t).Ok?
                  && ClaimToSandbox(cfg.digest, s'.claims[id], t).value.state == Terminating)
            && (forall n :: n in s.claims && n != id ==> s'.claims[n] == s.claims[n])
  {
    var s' := ServedState(cfg, u, actions, i, s, call, Verified(Delete(t, id)));
    if id in s.claims {
      MarkedReads(cfg, u, s, id, t);
      assert s'.claims == s.claims[id := s.claims[id].(deleting := true)];
    } else {
      assert s'.claims == s.claims;
    }
  }

  lemma MarkedReads(cfg: Config, u: Universe, s: State, id: string, t: string)
    requires Inv(cfg, u, s) && id in s.claims && OwnedBy(s, id, t)
    ensures var r := ClaimToSandbox(cfg.digest, s.claims[id].(deleting := true), t);
            r.Ok? && r.value.state == Terminating
  {
    assert GoodClaim(cfg, s, id, s.claims[id]);
    MarkedIsGood(cfg, s, id);
    ReadableIff(cfg.digest, s.claims[id].(deleting := true), t);
  }

  /** Once marked, a claim stays marked as long as it is stored. */
  lemma {:induction false} MarkedStaysMarked(cfg: Config, actions: seq<Action>, i: nat, j: nat, id: string)
    requires i <= j <= |actions| && At(cfg, actions, j).Some? && At(cfg, actions, i).Some?
    requires forall k :: i <= k < j ==> actions[k] != Remove(id)
    requires id in At(cfg, actions, i).value.claims && At(cfg, actions, i).value.claims[id].deleting
    ensures id in At(cfg, actions, j).value.claims && At(cfg, actions, j).value.claims[id].deleting
    decreases j
  {
    if i < j {
      PrefixRuns(cfg, actions, j - 1);
      MarkedStaysMarked(cfg, actions, i, j - 1, id);
      StepKeepsMark(cfg, At(cfg, actions, j - 1).value, actions[j - 1], id);
    }
  }

  lemma StepKeepsMark(cfg: Config, s: State, a: Action, n: string)
    requires Step(cfg, s, a).Some? && n in s.claims && s.claims[n].deleting && a != Remove(n)
    ensures n in Step(cfg, s, a).value.claims && Step(cfg, s, a).value.claims[n].deleting
  {
    if a.Serve? {
      ServeChangesClaims(cfg, s, a.call, a.now, a.lost, a.unreadable);
    }
  }

  // ----- Losses -----

  /** The same claims and the same other calls, but this call is told that the connection failed. */
  predicate LosesAnswer(s: State, kept: State, lost: State, call: nat)
    requires call in s.calls
  {
    && lost.claims == kept.claims && call in kept.calls
    && lost.calls == s.calls[call := Returned(s.calls[call].request, Failure(Unavailable("connection lost")))]
    && kept.calls == s.calls[call := kept.calls[call]]
  }

  lemma LostPost(cfg: Config, s: State, call: nat, request: Request, claim: Claim, now: int)
    requires call in s.calls && s.calls[call] == Posting(request, claim) && claim.name.Some?
    ensures LosesAnswer(s, ServePost(cfg, s, call, request, claim, now, false), ServePost(cfg, s, call, request, claim, now, true), call)
  {
  }

  lemma LostDelete(cfg: Config, s: State, call: nat, t: string, id: string)
    requires call in s.calls && s.calls[call].request == Delete(t, id)
    ensures LosesAnswer(s, ServeLook(cfg, s, call, Delete(t, id), id, false), ServeLook(cfg, s, call, Delete(t, id), id, true), call)
    ensures LosesAnswer(s, ServeMark(s, call, Delete(t, id), id, false), ServeMark(s, call, Delete(t, id), id, true), call)
  {
  }

  lemma LostList(cfg: Config, s: State, call: nat, t: string, unreadable: Option<string>)
    requires call in s.calls && s.calls[call].request == List(t) && ServeList(cfg, s, call, t, true, unreadable).Some?
    ensures ServeList(cfg, s, call, t, false, unreadable).Some?
    ensures LosesAnswer(s, ServeList(cfg, s, call, t, false, unreadable).value,
                        ServeList(cfg, s, call, t, true, unreadable).value, call)
  {
  }

  lemma LostRead(cfg: Config, s: State, call: nat, request: Request, name: string)
    requires call in s.calls && s.calls[call].request == request
    ensures LosesAnswer(s, ServeRead(cfg, s, call, request, name, false), ServeRead(cfg, s, call, request, name, true), call)
  {
  }

  /** A lost response changes what the call learns and nothing else: the cluster has done the same. */
  lemma LossChangesTheAnswerOnly(cfg: Config, u: Universe, s: State, call: nat, now: int, unreadable: Option<string>)
    requires Inv(cfg, u, s) && ServeStep(cfg, s, call, now, true, unreadable).Some?
    ensures ServeStep(cfg, s, call, now, false, unreadable).Some?
    ensures LosesAnswer(s, ServeStep(cfg, s, call, now, false, unreadable).value,
                        ServeStep(cfg, s, call, now, true, unreadable).value, call)
  {
    assert GoodCall(cfg, u, s, s.calls[call]);
    match s.calls[call] {
      case Posting(request, claim) => LostPost(cfg, s, call, request, claim, now);
      case Conflicted(request, name) => LostRead(cfg, s, call, request, name);
      case Reading(Get(t, id)) => LostRead(cfg, s, call, Get(t, id), id);
      case Reading(List(t)) => LostList(cfg, s, call, t, unreadable);
      case Reading(Delete(t, id)) => LostDelete(cfg, s, call, t, id);
      case Verified(Delete(t, id)) => LostDelete(cfg, s, call, t, id);
    }
  }

  // ----- Creates -----

  /** A create is refused at once, without a request to the cluster, exactly for a profile other than the configured one
      or a lifetime too large; otherwise it posts a claim under the name derived for it. */
  lemma CreateRefusedIff(cfg: Config, s: State, call: nat, command: CreateCommand, uuid: string, now: int)
    requires InvokeStep(cfg, s, call, Create(command), uuid, now).Some?
    ensures var s' := InvokeStep(cfg, s, call, Create(command), uuid, now).value;
            && s'.claims == s.claims && call in s'.calls && s'.calls[call].request == Create(command)
            && (s'.calls[call].Returned? <==> command.profile != cfg.profile || AsI64(command.ttlSeconds) < 0)
            && (s'.calls[call].Returned? ==> s'.calls[call].reply.Failure? && s'.calls[call].reply.error.Conflict?)
            && (!s'.calls[call].Returned? ==>
                  && s'.calls[call].Posting? && s'.calls[call].claim.name == Some(ClaimName(cfg.digest, command, uuid))
                  && OwnedBy(s', ClaimName(cfg.digest, command, uuid), command.tenantId))
  {
    BuiltClaimReadsBack(cfg.digest, command, cfg.warmPool, uuid, now, 0);
  }

  predicate ForProfile(cfg: Config, claim: Claim) {
    PROFILE_LABEL in claim.labels && claim.labels[PROFILE_LABEL] == cfg.profile && claim.warmPool == cfg.warmPool
  }

  ghost predicate AllForProfile(cfg: Config, s: State) {
    && (forall n :: n in s.claims ==> ForProfile(cfg, s.claims[n]))
    && (forall c :: c in s.calls && s.calls[c].Posting? ==> ForProfile(cfg, s.calls[c].claim))
  }

  lemma InvokeKeepsProfile(cfg: Config, s: State, call: nat, request: Request, uuid: string, now: int)
    requires AllForProfile(cfg, s) && InvokeStep(cfg, s, call, request, uuid, now).Some?
    ensures AllForProfile(cfg, InvokeStep(cfg, s, call, request, uuid, now).value)
  {
    var s' := InvokeStep(cfg, s, call, request, uuid, now).value;
    assert forall c :: c in s'.calls && c != call ==> c in s.calls && s'.calls[c] == s.calls[c];
    if s'.calls[call].Posting? {
      BuiltForProfile(cfg, request.command, uuid, now);
    }
  }

  lemma BuiltForProfile(cfg: Config, command: CreateCommand, uuid: string, now: int)
    requires BuildClaim(cfg.digest, command, cfg.warmPool, uuid, now).Ok? && command.profile == cfg.profile
    ensures ForProfile(cfg, BuildClaim(cfg.digest, command, cfg.warmPool, uuid, now).value)
  {
    BuiltClaimReadsBack(cfg.digest, command, cfg.warmPool, uuid, now, 0);
  }

  /** Only this call changes, and it is no longer posting. */
  predicate OnlyCall(s: State, s': State, call: nat) {
    call in s'.calls && !s'.calls[call].Posting? && s'.calls == s.calls[call := s'.calls[call]]
  }

  lemma PostIsOver(cfg: Config, s: State, call: nat, request: Request, claim: Claim, now: int, lost: bool)
    ensures OnlyCall(s, ServePost(cfg, s, call, request, claim, now, lost), call)
  {
  }

  lemma ServingPostsNothing(cfg: Config, s: State, call: nat, now: int, lost: bool, unreadable: Option<string>)
    requires ServeStep(cfg, s, call, now, lost, unreadable).Some?
    ensures OnlyCall(s, ServeStep(cfg, s, call, now, lost, unreadable).value, call)
  {
    if s.calls[call].Posting? {
      PostIsOver(cfg, s, call, s.calls[call].request, s.calls[call].claim, now, lost);
    }
  }

  lemma StepKeepsProfile(cfg: Config, s: State, a: Action)
    requires AllForProfile(cfg, s) && Step(cfg, s, a).Some?
    ensures AllForProfile(cfg, Step(cfg, s, a).value)
  {
    if a.Invoke? {
      InvokeKeepsProfile(cfg, s, a.call, a.request, a.uuid, a.now);
    } else if a.Serve? {
      ServeChangesClaims(cfg, s, a.call, a.now, a.lost, a.unreadable);
      ServingPostsNothing(cfg, s, a.call, a.now, a.lost, a.unreadable);
    }
  }

  /** Whatever clients ask for, every claim a run stores carries the configured profile and warm pool. */
  lemma {:induction false} StoredForProfile(cfg: Config, actions: seq<Action>, i: nat)
    requires i <= |actions| && At(cfg, actions, i).Some?
    ensures AllForProfile(cfg, At(cfg, actions, i).value)
    decreases i
  {
    if i == 0 {
      assert actions[..0] == [];
    } else {
      PrefixRuns(cfg, actions, i - 1);
      StoredForProfile(cfg, actions, i - 1);
      StepKeepsProfile(cfg, At(cfg, actions, i - 1).value, actions[i - 1]);
    }
  }
}
