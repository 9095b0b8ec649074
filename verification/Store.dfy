/**
 The in-memory sandbox store of `store.rs`: two coupled maps behind one lock, so each call
 is one atomic operation. The random identifier and the clock reading of a create are inputs.
 */
module Store {
  import opened Common
  import opened Domain

  type PairKey = (string, string)

  datatype State = State(sandboxes: map<string, Sandbox>, idempotency: map<PairKey, string>)

  const EMPTY := State(map[], map[])

  datatype Op =
    | Create(command: CreateCommand, now: int, freshId: string)
    | List(tenantId: string)
    | Get(tenantId: string, id: string)
    | Delete(tenantId: string, id: string)

  /** Answers; a list is compared as a set, its order being only fixed up to equal creation times. */
  datatype Answer =
    | Stored(sandbox: Sandbox)
    | Listed(sandboxes: set<Sandbox>)
    | Deleted
    | Refused(error: StoreError)

  function Tenant(op: Op): string {
    match op
    case Create(command, _, _) => command.tenantId
    case List(t) => t
    case Get(t, _) => t
    case Delete(t, _) => t
  }

  // ----- What each call does -----

  function NewSandbox(command: CreateCommand, now: int, id: string): Sandbox {
    Sandbox(id, command.tenantId, Some(id), None, command.profile, Pending, now,
            now + AsI64(command.ttlSeconds) * NANOS_PER_SECOND, command.metadata, None)
  }

  function ApplyCreate(s: State, command: CreateCommand, now: int, freshId: string): (State, Answer) {
    var created := NewSandbox(command, now, freshId);
    match command.idempotencyKey
    case None => (s.(sandboxes := s.sandboxes[freshId := created]), Stored(created))
    case Some(key) =>
      var pair := (command.tenantId, key);
      if pair in s.idempotency then
        var id := s.idempotency[pair];
        (s, if id in s.sandboxes then Stored(s.sandboxes[id]) else Refused(Conflict("stale idempotency record")))
      else
        (State(s.sandboxes[freshId := created], s.idempotency[pair := freshId]), Stored(created))
  }

  function Owned(s: State, tenantId: string): set<Sandbox> {
    set id | id in s.sandboxes && s.sandboxes[id].tenantId == tenantId :: s.sandboxes[id]
  }

  predicate Visible(s: State, tenantId: string, id: string) {
    id in s.sandboxes && s.sandboxes[id].tenantId == tenantId
  }

  function ApplyDelete(s: State, tenantId: string, id: string): (State, Answer) {
    if !Visible(s, tenantId, id) then (s, Refused(NotFound))
    else
      var gone := s.sandboxes[id].id;
      (State(s.sandboxes - {id}, map pair | pair in s.idempotency && s.idempotency[pair] != gone :: s.idempotency[pair]),
       Deleted)
  }

  function Apply(s: State, op: Op): (State, Answer) {
    match op
    case Create(command, now, freshId) => ApplyCreate(s, command, now, freshId)
    case List(t) => (s, Listed(Owned(s, t)))
    case Get(t, id) => (s, if Visible(s, t, id) then Stored(s.sandboxes[id]) else Refused(NotFound))
    case Delete(t, id) => ApplyDelete(s, t, id)
  }

  // ----- The object -----

  predicate Sorted(items: seq<Sandbox>) {
    forall i, j :: 0 <= i < j < |items| ==> items[i].createdAt <= items[j].createdAt
  }

  /** Where a stable sort puts `sandbox`: after everything created no later. */
  function Position(items: seq<Sandbox>, sandbox: Sandbox): (p: nat)
    ensures p <= |items|
    ensures forall i :: 0 <= i < p ==> items[i].createdAt <= sandbox.createdAt
    ensures p < |items| ==> items[p].createdAt > sandbox.createdAt
  {
    if items == [] || items[0].createdAt > sandbox.createdAt then 0 else 1 + Position(items[1..], sandbox)
  }

  function Insert(items: seq<Sandbox>, sandbox: Sandbox): seq<Sandbox> {
    var p := Position(items, sandbox);
    items[..p] + [sandbox] + items[p..]
  }

  lemma InsertPermutes<T>(items: seq<T>, p: nat, x: T)
    requires p <= |items|
    ensures multiset(items[..p] + [x] + items[p..]) == multiset(items) + multiset{x}
  {
    assert items == items[..p] + items[p..];
  }

  lemma InsertSorts(items: seq<Sandbox>, sandbox: Sandbox)
    requires Sorted(items)
    ensures Sorted(Insert(items, sandbox))
    ensures multiset(Insert(items, sandbox)) == multiset(items) + multiset{sandbox}
  {
    var p := Position(items, sandbox);
    InsertPermutes(items, p, sandbox);
    SortedAround(items, p, sandbox);
  }

  lemma SortedAround(items: seq<Sandbox>, p: nat, sandbox: Sandbox)
    requires Sorted(items) && p <= |items|
    requires forall i :: 0 <= i < p ==> items[i].createdAt <= sandbox.createdAt
    requires p < |items| ==> items[p].createdAt > sandbox.createdAt
    ensures Sorted(items[..p] + [sandbox] + items[p..])
  {
    var r := items[..p] + [sandbox] + items[p..];
    forall i, j | 0 <= i < j < |r|
      ensures r[i].createdAt <= r[j].createdAt
    {
      assert r[j] == if j < p then items[j] else if j == p then sandbox else items[j - 1];
      assert r[i] == if i < p then items[i] else if i == p then sandbox else items[i - 1];
      if j > p {
        assert items[p].createdAt <= items[j - 1].createdAt;
      }
    }
  }

  lemma SameMembers<T>(items: seq<T>, members: set<T>, x: T)
    requires multiset(items) == multiset(members)
    ensures x in items <==> x in members
  {
    assert x in items <==> x in multiset(items);
  }

  lemma ListedMembers(s: State, items: seq<Sandbox>, tenantId: string)
    requires multiset(items) == multiset(Owned(s, tenantId))
    ensures forall sandbox :: sandbox in items <==>
              exists id :: id in s.sandboxes && s.sandboxes[id] == sandbox && sandbox.tenantId == tenantId
  {
    forall sandbox
      ensures sandbox in items <==> sandbox in Owned(s, tenantId)
    {
      SameMembers(items, Owned(s, tenantId), sandbox);
    }
  }

  /** The sandboxes of a tenant filed under some of the ids. */
  ghost function OwnedAmong(s: State, ids: set<string>, tenantId: string): set<Sandbox> {
    set id | id in ids && id in s.sandboxes && s.sandboxes[id].tenantId == tenantId :: s.sandboxes[id]
  }

  lemma AllAmong(s: State, tenantId: string)
    ensures OwnedAmong(s, s.sandboxes.Keys, tenantId) == Owned(s, tenantId)
  {
  }

  lemma OneMoreId(s: State, ids: set<string>, id: string, tenantId: string)
    requires Consistent(s) && id in s.sandboxes && id !in ids
    ensures var before, after := OwnedAmong(s, ids, tenantId), OwnedAmong(s, ids + {id}, tenantId);
            if s.sandboxes[id].tenantId == tenantId
            then after == before + {s.sandboxes[id]} && s.sandboxes[id] !in before
            else after == before
  {
  }

  /** One round of listing: the list stays sorted and covers one more id. */
  lemma ListRound(s: State, items: seq<Sandbox>, ids: set<string>, id: string, tenantId: string)
    requires Consistent(s) && id in s.sandboxes && id !in ids
    requires Sorted(items) && multiset(items) == multiset(OwnedAmong(s, ids, tenantId))
    ensures var more := if s.sandboxes[id].tenantId == tenantId then Insert(items, s.sandboxes[id]) else items;
            Sorted(more) && multiset(more) == multiset(OwnedAmong(s, ids + {id}, tenantId))
  {
    OneMoreId(s, ids, id, tenantId);
    if s.sandboxes[id].tenantId == tenantId {
      InsertSorts(items, s.sandboxes[id]);
    }
  }

  class InMemorySandboxStore {
    var sandboxes: map<string, Sandbox>
    var idempotency: map<PairKey, string>

    function View(): State
      reads this
    {
      State(sandboxes, idempotency)
    }

    constructor ()
      ensures View() == EMPTY
    {
      sandboxes := map[];
      idempotency := map[];
    }

    method Create(command: CreateCommand, now: int, freshId: string) returns (r: Result<Sandbox, StoreError>)
      modifies this
      ensures View() == ApplyCreate(old(View()), command, now, freshId).0
      ensures ApplyCreate(old(View()), command, now, freshId).1
           == match r case Ok(sandbox) => Stored(sandbox) case Err(e) => Refused(e)
      ensures Consistent(old(View())) && freshId !in old(sandboxes) ==> Consistent(View()) && r.Ok?
      ensures command.idempotencyKey.None? || (command.tenantId, command.idempotencyKey.value) !in old(idempotency) ==>
                && r == Ok(Sandbox(freshId, command.tenantId, Some(freshId), None, command.profile, Pending, now,
                                   now + AsI64(command.ttlSeconds) * 1_000_000_000, command.metadata, None))
                && sandboxes == old(sandboxes)[freshId := r.value]
                && idempotency == if command.idempotencyKey.None? then old(idempotency)
                                  else old(idempotency)[(command.tenantId, command.idempotencyKey.value) := freshId]
      ensures command.idempotencyKey.Some? && (command.tenantId, command.idempotencyKey.value) in old(idempotency) ==>
                && sandboxes == old(sandboxes) && idempotency == old(idempotency)
                && var id := old(idempotency)[(command.tenantId, command.idempotencyKey.value)];
                   r == if id in sandboxes then Ok(sandboxes[id]) else Err(Conflict("stale idempotency record"))
    {
      if command.idempotencyKey.Some? {
        var lookup := (command.tenantId, command.idempotencyKey.value);
        if lookup in idempotency {
          var id := idempotency[lookup];
          return if id in sandboxes then Ok(sandboxes[id]) else Err(Conflict("stale idempotency record"));
        }
      }
      var sandbox := NewSandbox(command, now, freshId);
      if command.idempotencyKey.Some? {
        idempotency := idempotency[(command.tenantId, command.idempotencyKey.value) := sandbox.id];
      }
      sandboxes := sandboxes[sandbox.id := sandbox];
      r := Ok(sandbox);
    }

    /** The tenant's sandboxes, each once, in creation order. */
    method List(tenantId: string) returns (items: seq<Sandbox>)
      requires Consistent(View())
      ensures multiset(items) == multiset(Owned(View(), tenantId))
      ensures Sorted(items)
      ensures forall sandbox :: sandbox in items <==>
                exists id :: id in sandboxes && sandboxes[id] == sandbox && sandbox.tenantId == tenantId
    {
      items := [];
      var pending := sandboxes.Keys;
      ghost var taken: set<string> := {};
      ghost var s := View();
      while pending != {}
        invariant taken + pending == sandboxes.Keys && taken !! pending
        invariant multiset(items) == multiset(OwnedAmong(s, taken, tenantId))
        invariant Sorted(items)
        decreases pending
      {
        var id :| id in pending;
        ListRound(s, items, taken, id, tenantId);
        if sandboxes[id].tenantId == tenantId {
          items := Insert(items, sandboxes[id]);
        }
        pending := pending - {id};
        taken := taken + {id};
      }
      AllAmong(s, tenantId);
      ListedMembers(s, items, tenantId);
    }

    method Get(tenantId: string, id: string) returns (r: Result<Sandbox, StoreError>)
      ensures Apply(View(), Op.Get(tenantId, id)).1
           == match r case Ok(sandbox) => Stored(sandbox) case Err(e) => Refused(e)
      ensures r.Ok? <==> id in sandboxes && sandboxes[id].tenantId == tenantId
      ensures r.Ok? ==> r.value == sandboxes[id]
      ensures r.Err? ==> r.error == NotFound
    {
      if id in sandboxes && sandboxes[id].tenantId == tenantId {
        r := Ok(sandboxes[id]);
      } else {
        r := Err(NotFound);
      }
    }

    method Delete(tenantId: string, id: string) returns (r: Result<(), StoreError>)
      modifies this
      ensures View() == ApplyDelete(old(View()), tenantId, id).0
      ensures ApplyDelete(old(View()), tenantId, id).1
           == match r case Ok(_) => Deleted case Err(e) => Refused(e)
      ensures Consistent(old(View())) ==> Consistent(View())
      ensures r.Ok? <==> id in old(sandboxes) && old(sandboxes)[id].tenantId == tenantId
      ensures r.Ok? ==>
                && sandboxes == old(sandboxes) - {id}
                && (forall pair :: pair in idempotency ==> pair in old(idempotency) && idempotency[pair] == old(idempotency)[pair])
                && (forall pair :: pair in old(idempotency) ==>
                      (pair in idempotency <==> old(idempotency)[pair] != old(sandboxes)[id].id))
      ensures r.Err? ==> r.error == NotFound && sandboxes == old(sandboxes) && idempotency == old(idempotency)
    {
      if id !in sandboxes || sandboxes[id].tenantId != tenantId {
        return Err(NotFound);
      }
      var sandbox := sandboxes[id];
      sandboxes := sandboxes - {id};
      idempotency := map pair | pair in idempotency && idempotency[pair] != sandbox.id :: idempotency[pair];
      r := Ok(());
    }
  }

  // ----- Index agreement -----

  /** Sandboxes are filed under their own id; every idempotency entry points to a live sandbox of
      its tenant; no two entries share one. */
  ghost predicate Consistent(s: State) {
    && (forall id :: id in s.sandboxes ==> s.sandboxes[id].id == id)
    && (forall pair :: pair in s.idempotency ==>
          s.idempotency[pair] in s.sandboxes && s.sandboxes[s.idempotency[pair]].tenantId == pair.0)
    && (forall p, q :: p in s.idempotency && q in s.idempotency && s.idempotency[p] == s.idempotency[q] ==> p == q)
  }

  function Run(s: State, ops: seq<Op>): State
    decreases |ops|
  {
    if ops == [] then s else Run(Apply(s, ops[0]).0, ops[1..])
  }

  function Answers(s: State, ops: seq<Op>): (r: seq<Answer>)
    ensures |r| == |ops|
    decreases |ops|
  {
    if ops == [] then [] else [Apply(s, ops[0]).1] + Answers(Apply(s, ops[0]).0, ops[1..])
  }

  lemma {:induction false} RunAppend(s: State, ops: seq<Op>, more: seq<Op>)
    ensures Run(s, ops + more) == Run(Run(s, ops), more)
    decreases |ops|
  {
    if ops == [] {
      assert ops + more == more;
    } else {
      RunAppend(Apply(s, ops[0]).0, ops[1..], more);
      assert (ops + more)[1..] == ops[1..] + more;
    }
  }

  /** Every create of the run draws an identifier that is new: outside `used` and never drawn before. */
  ghost predicate FreshIds(ops: seq<Op>, used: set<string>) {
    ops != [] ==>
      if ops[0].Create? then ops[0].freshId !in used && FreshIds(ops[1..], used + {ops[0].freshId})
      else FreshIds(ops[1..], used)
  }

  function Used(op: Op): set<string> {
    if op.Create? then {op.freshId} else {}
  }

  lemma FreshTail(ops: seq<Op>, used: set<string>)
    requires ops != [] && FreshIds(ops, used)
    ensures Used(ops[0]) !! used && FreshIds(ops[1..], used + Used(ops[0]))
  {
    assert used + {} == used;
  }

  lemma StepKeepsConsistent(s: State, op: Op)
    requires Consistent(s) && Used(op) !! s.sandboxes.Keys
    ensures Consistent(Apply(s, op).0)
    ensures Apply(s, op).0.sandboxes.Keys <= s.sandboxes.Keys + Used(op)
  {
  }

  /** After any run the two maps agree, and the stale-record conflict was never answered. */
  lemma {:induction false} RunKeepsConsistent(s: State, ops: seq<Op>, used: set<string>)
    requires Consistent(s) && s.sandboxes.Keys <= used && FreshIds(ops, used)
    ensures Consistent(Run(s, ops))
    ensures forall i :: 0 <= i < |ops| ==> !(Answers(s, ops)[i].Refused? && Answers(s, ops)[i].error.Conflict?)
    decreases |ops|
  {
    if ops != [] {
      FreshTail(ops, used);
      StepKeepsConsistent(s, ops[0]);
      RunKeepsConsistent(Apply(s, ops[0]).0, ops[1..], used + Used(ops[0]));
    }
  }

  lemma StaleRecordUnreachable(ops: seq<Op>)
    requires FreshIds(ops, {})
    ensures Consistent(Run(EMPTY, ops))
    ensures forall i :: 0 <= i < |ops| ==> !(Answers(EMPTY, ops)[i].Refused? && Answers(EMPTY, ops)[i].error.Conflict?)
  {
    RunKeepsConsistent(EMPTY, ops, {});
  }

  // ----- Deletion is final, creation is idempotent -----

  predicate Mentions(answer: Answer, id: string) {
    match answer
    case Stored(sandbox) => sandbox.id == id
    case Listed(sandboxes) => exists sandbox :: sandbox in sandboxes && sandbox.id == id
    case _ => false
  }

  lemma StepKeepsGone(s: State, op: Op, id: string)
    requires Consistent(s) && id !in s.sandboxes && id !in Used(op)
    ensures id !in Apply(s, op).0.sandboxes && !Mentions(Apply(s, op).1, id)
  {
  }

  /** An identifier that was used and is gone never shows up again, in any answer of any later call. */
  lemma {:induction false} GoneForEver(s: State, ops: seq<Op>, used: set<string>, id: string)
    requires Consistent(s) && s.sandboxes.Keys <= used && FreshIds(ops, used)
    requires id in used && id !in s.sandboxes
    ensures id !in Run(s, ops).sandboxes
    ensures forall i :: 0 <= i < |ops| ==> !Mentions(Answers(s, ops)[i], id)
    decreases |ops|
  {
    if ops != [] {
      FreshTail(ops, used);
      StepKeepsConsistent(s, ops[0]);
      StepKeepsGone(s, ops[0], id);
      GoneForEver(Apply(s, ops[0]).0, ops[1..], used + Used(ops[0]), id);
    }
  }

  /** Creating again with the key of a deleted sandbox yields a new identifier, at once and for ever. */
  lemma RecreatedIsNew(s: State, tenantId: string, id: string, between: seq<Op>, again: Op, used: set<string>)
    requires Consistent(s) && s.sandboxes.Keys <= used && Visible(s, tenantId, id)
    requires again.Create? && FreshIds(between + [again], used)
    ensures var after := Run(Apply(s, Op.Delete(tenantId, id)).0, between);
            Apply(after, again).1.Stored? && Apply(after, again).1.sandbox.id != id
  {
    var deleted := Apply(s, Op.Delete(tenantId, id)).0;
    StepKeepsConsistent(s, Op.Delete(tenantId, id));
    FreshSplit(between, [again], used);
    RunKeepsConsistent(deleted, between, used);
    GoneForEver(deleted, between, used, id);
    RunStaysInUsed(deleted, between, used);
    var after := Run(deleted, between);
    FreshTail([again], UsedBy(between, used));
    UsedByGrows(between, used);
    StepKeepsGone(after, again, id);
  }

  function UsedBy(ops: seq<Op>, used: set<string>): set<string> {
    if ops == [] then used else UsedBy(ops[1..], used + Used(ops[0]))
  }

  lemma {:induction false} UsedByGrows(ops: seq<Op>, used: set<string>)
    ensures used <= UsedBy(ops, used)
  {
    if ops != [] {
      UsedByGrows(ops[1..], used + Used(ops[0]));
    }
  }

  lemma {:induction false} FreshSplit(ops: seq<Op>, more: seq<Op>, used: set<string>)
    requires FreshIds(ops + more, used)
    ensures FreshIds(ops, used) && FreshIds(more, UsedBy(ops, used))
  {
    if ops == [] {
      assert ops + more == more;
    } else {
      FreshTail(ops + more, used);
      assert (ops + more)[1..] == ops[1..] + more;
      FreshSplit(ops[1..], more, used + Used(ops[0]));
      assert used + {} == used;
    }
  }

  lemma {:induction false} RunStaysInUsed(s: State, ops: seq<Op>, used: set<string>)
    requires Consistent(s) && s.sandboxes.Keys <= used && FreshIds(ops, used)
    ensures Run(s, ops).sandboxes.Keys <= UsedBy(ops, used)
    decreases |ops|
  {
    if ops != [] {
      FreshTail(ops, used);
      StepKeepsConsistent(s, ops[0]);
      RunStaysInUsed(Apply(s, ops[0]).0, ops[1..], used + Used(ops[0]));
    }
  }

  lemma StepKeepsEntry(s: State, op: Op, pair: PairKey)
    requires Consistent(s) && Used(op) !! s.sandboxes.Keys && pair in s.idempotency
    requires op != Op.Delete(pair.0, s.idempotency[pair])
    ensures var s' := Apply(s, op).0; var id := s.idempotency[pair];
            pair in s'.idempotency && s'.idempotency[pair] == id && s'.sandboxes[id] == s.sandboxes[id]
  {
  }

  /** As long as its tenant does not delete it, the sandbox stored for a key keeps being the answer
      to every create with that key, whatever else happens in between. */
  lemma {:induction false} KeyedCreateIsStable(s: State, ops: seq<Op>, used: set<string>, pair: PairKey, again: Op)
    requires Consistent(s) && s.sandboxes.Keys <= used && FreshIds(ops, used) && pair in s.idempotency
    requires forall i :: 0 <= i < |ops| ==> ops[i] != Op.Delete(pair.0, s.idempotency[pair])
    requires again.Create? && again.command.tenantId == pair.0 && again.command.idempotencyKey == Some(pair.1)
    ensures Apply(Run(s, ops), again) == (Run(s, ops), Stored(s.sandboxes[s.idempotency[pair]]))
    decreases |ops|
  {
    if ops != [] {
      FreshTail(ops, used);
      StepKeepsConsistent(s, ops[0]);
      StepKeepsEntry(s, ops[0], pair);
      KeyedCreateIsStable(Apply(s, ops[0]).0, ops[1..], used + Used(ops[0]), pair, again);
    }
  }

  // ----- What is found -----

  /** The sandbox as its tenant sees it: found under its id and listed. */
  predicate Shown(s: State, t: string, sandbox: Sandbox) {
    && Apply(s, Op.Get(t, sandbox.id)).1 == Stored(sandbox)
    && Apply(s, Op.List(t)).1.Listed? && sandbox in Apply(s, Op.List(t)).1.sandboxes
  }

  /** Not found under its id, and nothing with its id is listed. */
  predicate Hidden(s: State, t: string, id: string) {
    && Apply(s, Op.Get(t, id)).1 == Refused(NotFound)
    && Apply(s, Op.List(t)).1.Listed? && !Mentions(Apply(s, Op.List(t)).1, id)
  }

  lemma ShownOrHidden(s: State, t: string, id: string)
    requires Consistent(s)
    ensures id in s.sandboxes && s.sandboxes[id].tenantId == t ==> Shown(s, t, s.sandboxes[id])
    ensures id !in s.sandboxes || s.sandboxes[id].tenantId != t ==> Hidden(s, t, id)
  {
  }

  lemma StepKeepsSandbox(s: State, op: Op, id: string)
    requires Consistent(s) && Used(op) !! s.sandboxes.Keys && id in s.sandboxes
    ensures var s' := Apply(s, op).0;
            if op == Op.Delete(s.sandboxes[id].tenantId, id) then id !in s'.sandboxes
            else id in s'.sandboxes && s'.sandboxes[id] == s.sandboxes[id]
  {
  }

  lemma {:induction false} StoredUntilDeleted(s: State, ops: seq<Op>, used: set<string>, id: string)
    requires Consistent(s) && s.sandboxes.Keys <= used && FreshIds(ops, used) && id in s.sandboxes
    ensures var s' := Run(s, ops);
            if Op.Delete(s.sandboxes[id].tenantId, id) in ops then id !in s'.sandboxes
            else id in s'.sandboxes && s'.sandboxes[id] == s.sandboxes[id]
    decreases |ops|
  {
    if ops != [] {
      FreshTail(ops, used);
      StepKeepsConsistent(s, ops[0]);
      StepKeepsSandbox(s, ops[0], id);
      assert ops == [ops[0]] + ops[1..];
      if ops[0] == Op.Delete(s.sandboxes[id].tenantId, id) {
        GoneForEver(Apply(s, ops[0]).0, ops[1..], used + Used(ops[0]), id);
      } else {
        StoredUntilDeleted(Apply(s, ops[0]).0, ops[1..], used + Used(ops[0]), id);
      }
    }
  }

  /** A new sandbox has the requested profile, lifetime and metadata and is found and listed by its own tenant, just like
      that, until that tenant deletes it; no other tenant ever finds it, and after the deletion nobody does. */
  lemma FoundUntilDeleted(s: State, command: CreateCommand, now: int, freshId: string, after: seq<Op>, used: set<string>, t: string)
    requires Consistent(s) && s.sandboxes.Keys <= used && FreshIds([Op.Create(command, now, freshId)] + after, used)
    requires command.idempotencyKey.None? || (command.tenantId, command.idempotencyKey.value) !in s.idempotency
    ensures var end := Run(s, [Op.Create(command, now, freshId)] + after);
            if t == command.tenantId && Op.Delete(t, freshId) !in after
            then Shown(end, t, Sandbox(freshId, t, Some(freshId), None, command.profile, Pending, now,
                                       now + AsI64(command.ttlSeconds) * 1_000_000_000, command.metadata, None))
            else Hidden(end, t, freshId)
  {
    var create := Op.Create(command, now, freshId);
    var ops := [create] + after;
    assert ops[0] == create && ops[1..] == after;
    FreshTail(ops, used);
    StepKeepsConsistent(s, create);
    var created := Apply(s, create).0;
    StoredUntilDeleted(created, after, used + {freshId}, freshId);
    RunKeepsConsistent(created, after, used + {freshId});
    ShownOrHidden(Run(created, after), t, freshId);
  }

  // ----- Refinement of the sequential specification -----

  /** What is stored for each (tenant, key) pair. */
  ghost function ByKey(s: State): map<PairKey, Sandbox> {
    map pair | pair in s.idempotency && s.idempotency[pair] in s.sandboxes :: s.sandboxes[s.idempotency[pair]]
  }

  lemma FilledByKey(s: State, pair: PairKey, sandbox: Sandbox)
    requires Consistent(s) && sandbox.id !in s.sandboxes && pair !in s.idempotency
    ensures ByKey(State(s.sandboxes[sandbox.id := sandbox], s.idempotency[pair := sandbox.id])) == ByKey(s)[pair := sandbox]
  {
  }

  /** A keyed create is exactly one insert-if-absent on the stored pairs. */
  lemma CreateRefinesEnsure(s: State, command: CreateCommand, now: int, freshId: string)
    requires Consistent(s) && freshId !in s.sandboxes && command.idempotencyKey.Some?
    ensures var (s', answer) := ApplyCreate(s, command, now, freshId);
            answer.Stored? &&
            (ByKey(s'), answer.sandbox)
            == Ensure(ByKey(s), (command.tenantId, command.idempotencyKey.value), NewSandbox(command, now, freshId))
  {
    var (s', answer) := ApplyCreate(s, command, now, freshId);
    var pair := (command.tenantId, command.idempotencyKey.value);
    if pair !in s.idempotency {
      FilledByKey(s, pair, NewSandbox(command, now, freshId));
    }
  }

  /** The effect of a call on the sandboxes by pair: a keyed create inserts if absent, a delete erases the pair
      whose entry points to the sandbox, if one does. */
  ghost function EffectsOf(s: State, op: Op): seq<Effect<PairKey, Sandbox>> {
    match op
    case Create(command, now, freshId) =>
      (match command.idempotencyKey
       case None => []
       case Some(key) => [EnsureEntry((command.tenantId, key), NewSandbox(command, now, freshId))])
    case Delete(t, id) =>
      if Visible(s, t, id) && exists pair :: pair in s.idempotency && s.idempotency[pair] == id then
        var pair :| pair in s.idempotency && s.idempotency[pair] == id;
        [EraseEntry(pair)]
      else []
    case _ => []
  }

  ghost function AllEffects(s: State, ops: seq<Op>): seq<Effect<PairKey, Sandbox>>
    decreases |ops|
  {
    if ops == [] then [] else EffectsOf(s, ops[0]) + AllEffects(Apply(s, ops[0]).0, ops[1..])
  }

  lemma DeletedPairErased(s: State, t: string, id: string, pair: PairKey)
    requires Consistent(s) && Visible(s, t, id) && pair in s.idempotency && s.idempotency[pair] == id
    ensures ByKey(ApplyDelete(s, t, id).0) == ByKey(s) - {pair}
  {
  }

  lemma UnkeyedDeleteKeepsPairs(s: State, t: string, id: string)
    requires Consistent(s) && Visible(s, t, id) && forall pair :: pair in s.idempotency ==> s.idempotency[pair] != id
    ensures ByKey(ApplyDelete(s, t, id).0) == ByKey(s)
  {
  }

  lemma DeleteErases(s: State, t: string, id: string)
    requires Consistent(s)
    ensures ByKey(ApplyDelete(s, t, id).0) == PerformAll(ByKey(s), EffectsOf(s, Op.Delete(t, id)))
  {
    if Visible(s, t, id) {
      if exists pair :: pair in s.idempotency && s.idempotency[pair] == id {
        var pair := EffectsOf(s, Op.Delete(t, id))[0].key;
        DeletedPairErased(s, t, id, pair);
        OneEffect(ByKey(s), EraseEntry(pair));
      } else {
        UnkeyedDeleteKeepsPairs(s, t, id);
      }
    }
  }

  lemma CreateInserts(s: State, command: CreateCommand, now: int, freshId: string)
    requires Consistent(s) && freshId !in s.sandboxes
    ensures ByKey(ApplyCreate(s, command, now, freshId).0)
         == PerformAll(ByKey(s), EffectsOf(s, Op.Create(command, now, freshId)))
  {
    if command.idempotencyKey.Some? {
      CreateRefinesEnsure(s, command, now, freshId);
      OneEffect(ByKey(s), EffectsOf(s, Op.Create(command, now, freshId))[0]);
    }
  }

  /** Over whole runs, what the locked store holds by pair is a sequential run of insertions if absent and erasures. */
  lemma {:induction false} RunIsSequential(s: State, ops: seq<Op>, used: set<string>)
    requires Consistent(s) && s.sandboxes.Keys <= used && FreshIds(ops, used)
    ensures ByKey(Run(s, ops)) == PerformAll(ByKey(s), AllEffects(s, ops))
    decreases |ops|
  {
    if ops != [] {
      var op := ops[0];
      FreshTail(ops, used);
      StepKeepsConsistent(s, op);
      RunIsSequential(Apply(s, op).0, ops[1..], used + Used(op));
      PerformAppend(ByKey(s), EffectsOf(s, op), AllEffects(Apply(s, op).0, ops[1..]));
      match op {
        case Create(command, now, freshId) => CreateInserts(s, command, now, freshId);
        case Delete(t, id) => DeleteErases(s, t, id);
        case _ =>
      }
    }
  }


  // ----- Tenant decomposition -----

  ghost function SandboxesOf(sandboxes: map<string, Sandbox>, t: string): map<string, Sandbox> {
    map id | id in sandboxes && sandboxes[id].tenantId == t :: sandboxes[id]
  }

  ghost function KeysOf(idempotency: map<PairKey, string>, t: string): map<PairKey, string> {
    map pair | pair in idempotency && pair.0 == t :: idempotency[pair]
  }

  /** The part of the store that belongs to one tenant. */
  ghost function Project(s: State, t: string): State {
    State(SandboxesOf(s.sandboxes, t), KeysOf(s.idempotency, t))
  }

  lemma SandboxAdded(sandboxes: map<string, Sandbox>, id: string, sandbox: Sandbox, t: string)
    requires id !in sandboxes
    ensures SandboxesOf(sandboxes[id := sandbox], t)
         == if sandbox.tenantId == t then SandboxesOf(sandboxes, t)[id := sandbox] else SandboxesOf(sandboxes, t)
  {
  }

  lemma KeyAdded(idempotency: map<PairKey, string>, pair: PairKey, id: string, t: string)
    requires pair !in idempotency
    ensures KeysOf(idempotency[pair := id], t)
         == if pair.0 == t then KeysOf(idempotency, t)[pair := id] else KeysOf(idempotency, t)
  {
  }

  function Mine(ops: seq<Op>, t: string): seq<Op> {
    if ops == [] then [] else (if Tenant(ops[0]) == t then [ops[0]] else []) + Mine(ops[1..], t)
  }

  /** The answers tenant `t` gets out of the shared store. */
  function MyAnswers(s: State, ops: seq<Op>, t: string): seq<Answer>
    decreases |ops|
  {
    if ops == [] then []
    else
      var (s', answer) := Apply(s, ops[0]);
      (if Tenant(ops[0]) == t then [answer] else []) + MyAnswers(s', ops[1..], t)
  }

  lemma OwnCreateProjects(s: State, command: CreateCommand, now: int, freshId: string)
    requires Consistent(s) && freshId !in s.sandboxes
    ensures var t := command.tenantId; var after := ApplyCreate(s, command, now, freshId);
            ApplyCreate(Project(s, t), command, now, freshId) == (Project(after.0, t), after.1)
  {
    var t := command.tenantId;
    var created := NewSandbox(command, now, freshId);
    SandboxAdded(s.sandboxes, freshId, created, t);
    if command.idempotencyKey.Some? {
      var pair := (t, command.idempotencyKey.value);
      if pair !in s.idempotency {
        KeyAdded(s.idempotency, pair, freshId, t);
      }
    }
  }

  lemma OwnListProjects(s: State, t: string)
    ensures Owned(Project(s, t), t) == Owned(s, t)
  {
    var p := Project(s, t);
    forall x | x in Owned(s, t)
      ensures x in Owned(p, t)
    {
      var id :| id in s.sandboxes && s.sandboxes[id].tenantId == t && s.sandboxes[id] == x;
      assert id in p.sandboxes && p.sandboxes[id] == x;
    }
  }

  lemma OwnDeleteProjects(s: State, t: string, id: string)
    requires Consistent(s)
    ensures var after := ApplyDelete(s, t, id);
            ApplyDelete(Project(s, t), t, id) == (Project(after.0, t), after.1)
  {
    var after, mine := ApplyDelete(s, t, id), ApplyDelete(Project(s, t), t, id);
    assert after.1 == mine.1;
    assert Project(after.0, t).sandboxes == mine.0.sandboxes;
    assert Project(after.0, t).idempotency == mine.0.idempotency;
  }

  lemma OwnStepProjects(s: State, op: Op, t: string)
    requires Consistent(s) && Used(op) !! s.sandboxes.Keys && Tenant(op) == t
    ensures Apply(Project(s, t), op) == (Project(Apply(s, op).0, t), Apply(s, op).1)
  {
    match op {
      case Create(command, now, freshId) => OwnCreateProjects(s, command, now, freshId);
      case List(_) => OwnListProjects(s, t);
      case Get(_, _) =>
      case Delete(_, id) => OwnDeleteProjects(s, t, id);
    }
  }

  lemma OtherCreateIsInvisible(s: State, command: CreateCommand, now: int, freshId: string, t: string)
    requires Consistent(s) && freshId !in s.sandboxes && command.tenantId != t
    ensures Project(ApplyCreate(s, command, now, freshId).0, t) == Project(s, t)
  {
    SandboxAdded(s.sandboxes, freshId, NewSandbox(command, now, freshId), t);
    if command.idempotencyKey.Some? {
      var pair := (command.tenantId, command.idempotencyKey.value);
      if pair !in s.idempotency {
        KeyAdded(s.idempotency, pair, freshId, t);
      }
    }
  }

  lemma OtherDeleteIsInvisible(s: State, other: string, id: string, t: string)
    requires Consistent(s) && other != t
    ensures Project(ApplyDelete(s, other, id).0, t) == Project(s, t)
  {
    var s' := ApplyDelete(s, other, id).0;
    assert Project(s', t).sandboxes == Project(s, t).sandboxes;
    assert Project(s', t).idempotency == Project(s, t).idempotency;
  }

  lemma OtherStepIsInvisible(s: State, op: Op, t: string)
    requires Consistent(s) && Used(op) !! s.sandboxes.Keys && Tenant(op) != t
    ensures Project(Apply(s, op).0, t) == Project(s, t)
  {
    match op {
      case Create(command, now, freshId) => OtherCreateIsInvisible(s, command, now, freshId, t);
      case List(_) =>
      case Get(_, _) =>
      case Delete(other, id) => OtherDeleteIsInvisible(s, other, id, t);
    }
  }

  /** From any consistent store, what a tenant is told is what it would be told if it were alone. */
  lemma {:induction false} TenantDecomposition(s: State, ops: seq<Op>, used: set<string>, t: string)
    requires Consistent(s) && s.sandboxes.Keys <= used && FreshIds(ops, used)
    ensures MyAnswers(s, ops, t) == Answers(Project(s, t), Mine(ops, t))
    ensures Project(Run(s, ops), t) == Run(Project(s, t), Mine(ops, t))
    decreases |ops|
  {
    if ops != [] {
      var (s', answer) := Apply(s, ops[0]);
      FreshTail(ops, used);
      StepKeepsConsistent(s, ops[0]);
      TenantDecomposition(s', ops[1..], used + Used(ops[0]), t);
      if Tenant(ops[0]) == t {
        OwnStepProjects(s, ops[0], t);
        assert Mine(ops, t) == [ops[0]] + Mine(ops[1..], t);
        assert Mine(ops, t)[1..] == Mine(ops[1..], t);
      } else {
        OtherStepIsInvisible(s, ops[0], t);
        assert Mine(ops, t) == [] + Mine(ops[1..], t) == Mine(ops[1..], t);
        assert MyAnswers(s, ops, t) == [] + MyAnswers(s', ops[1..], t);
      }
    }
  }

  /** Over whole runs from the empty store: sharing it is unobservable. */
  lemma TenantsAreIsolated(ops: seq<Op>, t: string)
    requires FreshIds(ops, {})
    ensures MyAnswers(EMPTY, ops, t) == Answers(EMPTY, Mine(ops, t))
  {
    assert Project(EMPTY, t) == EMPTY;
    TenantDecomposition(EMPTY, ops, {}, t);
  }
}
