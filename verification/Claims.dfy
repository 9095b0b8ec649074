/** Building and reading `SandboxClaim` objects (`kubernetes.rs`). */
module Claims {
  import opened Common
  import opened Domain
  import opened Identity

  const TENANT_HASH_LABEL := "xolis.io/tenant-hash"
  const PROFILE_LABEL := "xolis.io/profile"
  const IDEMPOTENCY_HASH_LABEL := "xolis.io/idempotency-hash"

  /** A timestamp as stored, and metadata JSON as stored: readable or not. */
  datatype TimeText = Instant(time: int) | BadTime(error: string)

  datatype MetadataText = Metadata(entries: map<string, string>) | BadMetadata(error: string)

  datatype Condition = Condition(kind: Option<string>, status: Option<string>, reason: Option<string>, message: Option<string>)

  /** The parts of a claim the API reads or writes. Absent lists read like empty ones. */
  datatype Claim = Claim(
    name: Option<string>,
    labels: map<string, string>,
    metadata: Option<MetadataText>,
    warmPool: string,
    shutdownTime: Option<TimeText>,
    creationTimestamp: Option<TimeText>,
    deleting: bool,
    runtimeName: Option<string>,
    podIps: seq<Option<string>>,
    conditions: seq<Condition>)

  /** RFC 3339 with whole seconds drops the fraction. */
  function WholeSeconds(time: int): (r: int)
    ensures r <= time < r + NANOS_PER_SECOND && r % NANOS_PER_SECOND == 0
  {
    time / NANOS_PER_SECOND * NANOS_PER_SECOND
  }

  function ClaimName(digest: Digest, command: CreateCommand, uuid: string): string {
    match command.idempotencyKey
    case Some(key) => KeyedName(digest, command.tenantId, key)
    case None => UuidName(uuid)
  }

  function BuildClaim(digest: Digest, command: CreateCommand, warmPool: string, uuid: string, now: int)
      : Result<Claim, StoreError>
  {
    if command.ttlSeconds >= 0x8000_0000_0000_0000 then Err(Conflict("TTL is too large"))
    else
      var expiresAt := now + command.ttlSeconds * NANOS_PER_SECOND;
      var labels := map[TENANT_HASH_LABEL := TenantHash(digest, command.tenantId), PROFILE_LABEL := command.profile];
      var allLabels :=
        match command.idempotencyKey
        case None => labels
        case Some(key) =>
          labels[IDEMPOTENCY_HASH_LABEL := Clip(IdempotencyHash(digest, command.tenantId, key), LABEL_HASH_LENGTH)];
      Ok(Claim(Some(ClaimName(digest, command, uuid)), allLabels, Some(Metadata(command.metadata)), warmPool,
               Some(Instant(WholeSeconds(expiresAt))), None, false, None, [], []))
  }

  predicate VerifyTenant(digest: Digest, claim: Claim, tenantId: string) {
    TENANT_HASH_LABEL in claim.labels && claim.labels[TENANT_HASH_LABEL] == TenantHash(digest, tenantId)
  }

  function FirstReady(conditions: seq<Condition>): Option<Condition> {
    if conditions == [] then None
    else if conditions[0].kind == Some("Ready") then Some(conditions[0])
    else FirstReady(conditions[1..])
  }

  function Detail(reason: Option<string>, message: Option<string>): Option<string> {
    match (reason, message)
    case (Some(r), Some(m)) => if m == "" then Some(r) else Some(r + ": " + m)
    case (Some(r), None) => Some(r)
    case (None, Some(m)) => if m == "" then None else Some(m)
    case (None, None) => None
  }

  function ClaimState(claim: Claim): (SandboxState, Option<string>) {
    if claim.deleting then (Terminating, None)
    else
      match FirstReady(claim.conditions)
      case None => (Pending, None)
      case Some(condition) =>
        var detail := Detail(condition.reason, condition.message);
        if condition.status == Some("True") then (Running, detail)
        else
          match condition.reason
          case Some(r) =>
            if r in {"ClaimExpired", "Expired"} then (Expired, detail)
            else if r in {"ReconcilerError", "InvalidMetadata", "TemplateNotFound", "WarmPoolNotFound"} then (Failed, detail)
            else (Pending, detail)
          case None => (Pending, detail)
  }

  function ClaimToSandbox(digest: Digest, claim: Claim, tenantId: string): Result<Sandbox, StoreError> {
    if !VerifyTenant(digest, claim, tenantId) then Err(NotFound)
    else if claim.name.None? then Err(Unavailable("claim name is missing"))
    else if claim.creationTimestamp.None? then Err(Unavailable("claim creation timestamp is missing"))
    else if claim.creationTimestamp.value.BadTime? then
      Err(Unavailable("invalid claim creation timestamp: " + claim.creationTimestamp.value.error))
    else if claim.shutdownTime.None? then Err(Unavailable("claim shutdown time is missing"))
    else if claim.shutdownTime.value.BadTime? then
      Err(Unavailable("invalid claim shutdown time: " + claim.shutdownTime.value.error))
    else if PROFILE_LABEL !in claim.labels then Err(Unavailable("claim profile label is missing"))
    else if claim.metadata.Some? && claim.metadata.value.BadMetadata? then
      Err(Unavailable("invalid claim metadata: " + claim.metadata.value.error))
    else
      var (state, reason) := ClaimState(claim);
      Ok(Sandbox(claim.name.value, tenantId, claim.runtimeName,
                 if claim.podIps == [] then None else claim.podIps[0],
                 claim.labels[PROFILE_LABEL], state,
                 claim.creationTimestamp.value.time, claim.shutdownTime.value.time,
                 if claim.metadata.Some? then claim.metadata.value.entries else map[], reason))
  }

  /** `running_sandbox`: the guard in front of every runtime operation. */
  predicate ReadyForRuntime(sandbox: Sandbox) {
    sandbox.state == Running && sandbox.runtimeId.Some?
  }

  // ----- What reading a claim means -----

  /** A claim the API can read once the server has stamped it. */
  predicate Readable(claim: Claim) {
    && claim.name.Some?
    && claim.creationTimestamp.Some? && claim.creationTimestamp.value.Instant?
    && claim.shutdownTime.Some? && claim.shutdownTime.value.Instant?
    && PROFILE_LABEL in claim.labels
    && (claim.metadata.Some? ==> claim.metadata.value.Metadata?)
  }

  /** Reading succeeds exactly for readable claims of the asking tenant, and a tenant mismatch is
      reported as "not found" whatever else is wrong with the claim. */
  lemma ReadableIff(digest: Digest, claim: Claim, tenantId: string)
    ensures ClaimToSandbox(digest, claim, tenantId).Ok? <==> VerifyTenant(digest, claim, tenantId) && Readable(claim)
    ensures ClaimToSandbox(digest, claim, tenantId) == Err(NotFound) <==> !VerifyTenant(digest, claim, tenantId)
  {
  }

  /** Building a claim, letting the server stamp it, and reading it back gives the requested sandbox:
      only the fraction of a second of the expiry is lost. */
  lemma BuiltClaimReadsBack(digest: Digest, command: CreateCommand, warmPool: string, uuid: string, now: int, stamp: int)
    ensures BuildClaim(digest, command, warmPool, uuid, now).Ok? <==> AsI64(command.ttlSeconds) >= 0
    ensures AsI64(command.ttlSeconds) >= 0 ==>
              var claim := BuildClaim(digest, command, warmPool, uuid, now).value;
              var stored := claim.(creationTimestamp := Some(Instant(stamp)));
              && Readable(stored)
              && ClaimToSandbox(digest, stored, command.tenantId)
                 == Ok(Sandbox(ClaimName(digest, command, uuid), command.tenantId, None, None, command.profile, Pending,
                               stamp, WholeSeconds(now + AsI64(command.ttlSeconds) * NANOS_PER_SECOND),
                               command.metadata, None))
  {
    if AsI64(command.ttlSeconds) >= 0 {
      var claim := BuildClaim(digest, command, warmPool, uuid, now).value;
      assert TENANT_HASH_LABEL != PROFILE_LABEL by {
        assert TENANT_HASH_LABEL[9] == 't' && PROFILE_LABEL[9] == 'p';
      }
      assert IDEMPOTENCY_HASH_LABEL[9] == 'i';
      assert claim.labels[TENANT_HASH_LABEL] == TenantHash(digest, command.tenantId);
      assert claim.labels[PROFILE_LABEL] == command.profile;
    }
  }

  /** Everything a created claim carries, written out: the tenant's label, the profile, the label of the key if there is
      one and no other label, the warm pool, and nothing that only the cluster or a controller sets. */
  lemma BuiltClaimCarries(digest: Digest, command: CreateCommand, warmPool: string, uuid: string, now: int)
    requires AsI64(command.ttlSeconds) >= 0
    ensures BuildClaim(digest, command, warmPool, uuid, now).Ok?
    ensures var claim := BuildClaim(digest, command, warmPool, uuid, now).value;
            && claim.labels.Keys == {"xolis.io/tenant-hash", "xolis.io/profile"}
                                    + (if command.idempotencyKey.Some? then {"xolis.io/idempotency-hash"} else {})
            && claim.labels["xolis.io/tenant-hash"] == Clip(Hex(digest(command.tenantId)), 32)
            && claim.labels["xolis.io/profile"] == command.profile
            && (command.idempotencyKey.Some? ==>
                  claim.labels["xolis.io/idempotency-hash"]
                  == Clip(Hex(digest(command.tenantId + ['\0'] + command.idempotencyKey.value)), 32))
            && claim.warmPool == warmPool && !claim.deleting && claim.creationTimestamp.None? && claim.runtimeName.None?
            && claim.podIps == [] && claim.conditions == []
  {
    assert TENANT_HASH_LABEL[9] == 't' && PROFILE_LABEL[9] == 'p' && IDEMPOTENCY_HASH_LABEL[9] == 'i';
  }

  /** `i` is the position of the first Ready condition. */
  predicate IsFirstReady(conditions: seq<Condition>, i: int) {
    && 0 <= i < |conditions| && conditions[i].kind == Some("Ready")
    && forall j :: 0 <= j < i ==> conditions[j].kind != Some("Ready")
  }

  lemma {:induction false} FirstReadyPosition(conditions: seq<Condition>)
    ensures FirstReady(conditions).None? <==> forall j :: 0 <= j < |conditions| ==> conditions[j].kind != Some("Ready")
    ensures FirstReady(conditions).Some? ==>
              exists i :: IsFirstReady(conditions, i) && FirstReady(conditions) == Some(conditions[i])
  {
    if conditions != [] && conditions[0].kind != Some("Ready") {
      var rest := conditions[1..];
      FirstReadyPosition(rest);
      assert forall j :: 1 <= j < |conditions| ==> conditions[j] == rest[j - 1];
      if FirstReady(rest).Some? {
        var i :| IsFirstReady(rest, i) && FirstReady(rest) == Some(rest[i]);
        assert IsFirstReady(conditions, i + 1);
      }
    } else if conditions != [] {
      assert IsFirstReady(conditions, 0);
    }
  }

  lemma FirstReadyIs(conditions: seq<Condition>, i: int)
    requires IsFirstReady(conditions, i)
    ensures FirstReady(conditions) == Some(conditions[i])
  {
    FirstReadyPosition(conditions);
    var k :| IsFirstReady(conditions, k) && FirstReady(conditions) == Some(conditions[k]);
    assert i == k;
  }

  /** The public state and reason of a claim that is not being deleted depend on its first Ready condition only. */
  lemma StateFollowsFirstReady(claim: Claim, i: int)
    requires !claim.deleting && IsFirstReady(claim.conditions, i)
    ensures var condition := claim.conditions[i];
            var (state, detail) := ClaimState(claim);
            && (state == Running <==> condition.status == Some("True"))
            && (state == Expired <==> condition.status != Some("True")
                                      && (condition.reason == Some("ClaimExpired") || condition.reason == Some("Expired")))
            && (state == Failed <==> condition.status != Some("True")
                                     && (condition.reason == Some("ReconcilerError") || condition.reason == Some("InvalidMetadata")
                                         || condition.reason == Some("TemplateNotFound")
                                         || condition.reason == Some("WarmPoolNotFound")))
            && state != Terminating
            && (detail.None? <==> condition.reason.None? && (condition.message.None? || condition.message == Some("")))
            && (detail.Some? ==>
                  detail.value == (if condition.reason.Some? then condition.reason.value else "")
                                  + (if condition.reason.Some? && condition.message.Some? && condition.message.value != "" then ": " else "")
                                  + (if condition.message.Some? then condition.message.value else ""))
  {
    FirstReadyIs(claim.conditions, i);
    var condition := claim.conditions[i];
    if Detail(condition.reason, condition.message).Some? {
      DetailJoins(condition.reason, condition.message);
    }
  }

  /** A claim being deleted is terminating, one without a Ready condition is pending, both without a reason. */
  lemma StateWithoutReady(claim: Claim)
    ensures claim.deleting ==> ClaimState(claim) == (Terminating, None)
    ensures !claim.deleting && (forall i :: 0 <= i < |claim.conditions| ==> claim.conditions[i].kind != Some("Ready")) ==>
              ClaimState(claim) == (Pending, None)
  {
    FirstReadyPosition(claim.conditions);
  }

  lemma DetailJoins(reason: Option<string>, message: Option<string>)
    requires Detail(reason, message).Some?
    ensures Detail(reason, message).value
         == (if reason.Some? then reason.value else "")
            + (if reason.Some? && message.Some? && message.value != "" then ": " else "")
            + (if message.Some? then message.value else "")
  {
    var r, m := if reason.Some? then reason.value else "", if message.Some? then message.value else "";
    assert r + "" + m == r + m && "" + "" + m == m && r + "" == r;
  }

  /** A runtime operation is admitted only on a live claim of the caller whose first Ready condition
      is "True" and whose runtime has a name. */
  lemma RuntimeOnlyOnReadyClaims(digest: Digest, claim: Claim, tenantId: string)
    requires ClaimToSandbox(digest, claim, tenantId).Ok?
    ensures ReadyForRuntime(ClaimToSandbox(digest, claim, tenantId).value)
            <==> && !claim.deleting && claim.runtimeName.Some?
                 && exists i :: IsFirstReady(claim.conditions, i) && claim.conditions[i].status == Some("True")
  {
    FirstReadyPosition(claim.conditions);
    var first := FirstReady(claim.conditions);
    if i :| IsFirstReady(claim.conditions, i) && claim.conditions[i].status == Some("True") {
      var k :| IsFirstReady(claim.conditions, k) && first == Some(claim.conditions[k]);
      assert i == k;
    }
  }
}
