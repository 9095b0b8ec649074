/**
 Whole runs of the Kubernetes store as sequential runs of insertions if absent and erasures: the specification
 the locked in-memory store also runs (`Store.RunIsSequential`). And what that means for a retrying client.
 */
module Sequential {
  import opened Common
  import opened Domain
  import opened Identity
  import opened Claims
  import opened Cluster
  import opened ClusterRuns

  // ----- Effects -----

  /** The effect of an action on the stored cores. A create has its effect when its post fills a free name, or when
      its read after a conflict finds the claim; what it would have inserted then, `own`, does not matter. */
  function EffectsOf(s: State, a: Action, own: nat -> Core): seq<Effect<string, Core>> {
    match a
    case Remove(n) => [EraseEntry(n)]
    case Serve(call, now, lost, _) =>
      if call !in s.calls then []
      else
        (match s.calls[call]
         case Posting(_, claim) =>
           if claim.name.Some? && claim.name.value !in s.claims then
             [EnsureEntry(claim.name.value, CoreOf(claim.(creationTimestamp := Some(Instant(WholeSeconds(now))))))]
           else []
         case Conflicted(_, name) => if name in s.claims && !lost then [EnsureEntry(name, own(call))] else []
         case _ => [])
    case _ => []
  }

  function AllEffects(cfg: Config, actions: seq<Action>, own: nat -> Core): seq<Effect<string, Core>> {
    if actions == [] then []
    else
      var init := actions[..|actions| - 1];
      match Exec(cfg, START, init)
      case None => []
      case Some(s) => AllEffects(cfg, init, own) + EffectsOf(s, actions[|actions| - 1], own)
  }

  lemma SameCores(s: State, s': State)
    requires s.claims.Keys == s'.claims.Keys && forall n :: n in s.claims ==> CoreOf(s'.claims[n]) == CoreOf(s.claims[n])
    ensures Cores(s') == Cores(s)
  {
  }

  lemma ServeIsSequential(cfg: Config, s: State, call: nat, now: int, lost: bool, unreadable: Option<string>, own: nat -> Core)
    requires ServeStep(cfg, s, call, now, lost, unreadable).Some?
    ensures Cores(ServeStep(cfg, s, call, now, lost, unreadable).value)
         == PerformAll(Cores(s), EffectsOf(s, Serve(call, now, lost, unreadable), own))
  {
    var s' := ServeStep(cfg, s, call, now, lost, unreadable).value;
    ServeChangesClaims(cfg, s, call, now, lost, unreadable);
    match s.calls[call] {
      case Posting(_, claim) =>
        if claim.name.Some? && claim.name.value !in s.claims {
          var stored := claim.(creationTimestamp := Some(Instant(WholeSeconds(now))));
          CoresAfterFill(s, s', claim.name.value, stored);
          OneEffect(Cores(s), EnsureEntry(claim.name.value, CoreOf(stored)));
        } else {
          SameCores(s, s');
        }
      case Conflicted(_, name) =>
        SameCores(s, s');
        OneEffect(Cores(s), EnsureEntry(name, own(call)));
      case _ => SameCores(s, s');
    }
  }

  lemma StepIsSequential(cfg: Config, s: State, a: Action, own: nat -> Core)
    requires Step(cfg, s, a).Some?
    ensures Cores(Step(cfg, s, a).value) == PerformAll(Cores(s), EffectsOf(s, a, own))
  {
    match a {
      case Serve(call, now, lost, unreadable) => ServeIsSequential(cfg, s, call, now, lost, unreadable, own);
      case Remove(n) =>
        OneEffect(Cores(s), EraseEntry(n));
        assert Cores(s.(claims := s.claims - {n})) == Cores(s) - {n};
      case _ => SameCores(s, Step(cfg, s, a).value);
    }
  }

  /** Over every interleaving, what the cluster stores is a sequential run of the effects, in the order they happen. */
  lemma {:induction false} RunIsSequential(cfg: Config, actions: seq<Action>, own: nat -> Core)
    requires Exec(cfg, START, actions).Some?
    ensures Cores(Exec(cfg, START, actions).value) == PerformAll(map[], AllEffects(cfg, actions, own))
    decreases |actions|
  {
    if actions == [] {
      assert Cores(START) == map[];
    } else {
      var init, last := actions[..|actions| - 1], actions[|actions| - 1];
      RunIsSequential(cfg, init, own);
      var s := Exec(cfg, START, init).value;
      StepIsSequential(cfg, s, last, own);
      PerformAppend(map[], AllEffects(cfg, init, own), EffectsOf(s, last, own));
    }
  }

  // ----- Answers -----

  /** At action `i` the call, still under way, has its one effect, on the name its answer carries, and the sandbox
      reports what the sequential run answers at that point. */
  ghost predicate AnswersAt(cfg: Config, actions: seq<Action>, own: nat -> Core, i: nat, call: nat, sandbox: Sandbox)
    requires i < |actions|
  {
    && At(cfg, actions, i).Some? && call in At(cfg, actions, i).value.calls && !At(cfg, actions, i).value.calls[call].Returned?
    && actions[i].Serve? && actions[i].call == call
    && var effects := EffectsOf(At(cfg, actions, i).value, actions[i], own);
       && |effects| == 1 && effects[0].EnsureEntry? && effects[0].key == sandbox.id
       && Reports(sandbox, Ensure(PerformAll(map[], AllEffects(cfg, actions[..i], own)), sandbox.id, effects[0].value).1)
  }

  lemma AnswerNow(cfg: Config, u: Universe, actions: seq<Action>, own: nat -> Core, i: nat, call: nat)
    requires World(cfg, u) && AllOccur(u, actions) && i < |actions| && At(cfg, actions, i + 1).Some?
    requires actions[i].Serve? && actions[i].call == call
    requires Answered(At(cfg, actions, i + 1).value, call) && At(cfg, actions, i + 1).value.calls[call].request.Create?
    requires At(cfg, actions, i).Some? && call in At(cfg, actions, i).value.calls
    requires !At(cfg, actions, i).value.calls[call].Returned?
    ensures AnswersAt(cfg, actions, own, i, call, At(cfg, actions, i + 1).value.calls[call].reply.sandbox)
  {
    PrefixRuns(cfg, actions, i);
    ReachableInv(cfg, u, actions, i);
    var s := At(cfg, actions, i).value;
    RunIsSequential(cfg, actions[..i], own);
    CreateAnswers(cfg, u, s, call, actions[i].now, actions[i].lost, actions[i].unreadable, own);
  }

  lemma CreateAnswers(cfg: Config, u: Universe, s: State, call: nat, now: int, lost: bool, unreadable: Option<string>, own: nat -> Core)
    requires World(cfg, u) && Inv(cfg, u, s) && ServeStep(cfg, s, call, now, lost, unreadable).Some?
    requires Answered(ServeStep(cfg, s, call, now, lost, unreadable).value, call) && !s.calls[call].Returned?
    requires ServeStep(cfg, s, call, now, lost, unreadable).value.calls[call].request.Create?
    ensures var sandbox := ServeStep(cfg, s, call, now, lost, unreadable).value.calls[call].reply.sandbox;
            var effects := EffectsOf(s, Serve(call, now, lost, unreadable), own);
            && |effects| == 1 && effects[0].EnsureEntry? && effects[0].key == sandbox.id
            && Reports(sandbox, Ensure(Cores(s), sandbox.id, effects[0].value).1)
  {
    assert GoodCall(cfg, u, s, s.calls[call]);
    ServingKeepsRequests(cfg, s, call, now, lost, unreadable, call);
    match s.calls[call] {
      case Posting(request, claim) => PostTakesEffect(cfg, u, s, call, request, claim, now, false);
      case Conflicted(request, name) => ReadTakesEffect(cfg, u, s, call, request, name, own(call));
    }
  }

  /** Linearizability over whole runs: every successful create has its effect at one moment within the call, and
      answers what the sequential run of all effects, in their order, answers there. */
  lemma {:induction false} CreatesAreLinearizable(cfg: Config, u: Universe, actions: seq<Action>, own: nat -> Core, j: nat, call: nat)
    returns (i: nat)
    requires World(cfg, u) && AllOccur(u, actions) && j <= |actions| && At(cfg, actions, j).Some?
    requires Answered(At(cfg, actions, j).value, call) && At(cfg, actions, j).value.calls[call].request.Create?
    ensures i < j && AnswersAt(cfg, actions, own, i, call, At(cfg, actions, j).value.calls[call].reply.sandbox)
    decreases j
  {
    assert actions[..0] == [];
    PrefixRuns(cfg, actions, j - 1);
    var s, s' := At(cfg, actions, j - 1).value, At(cfg, actions, j).value;
    if call in s.calls && s.calls[call] == s'.calls[call] {
      i := CreatesAreLinearizable(cfg, u, actions, own, j - 1, call);
    } else {
      i := j - 1;
      OnlyServingReturns(cfg, s, actions[i], call);
      AnswerNow(cfg, u, actions, own, i, call);
    }
  }

  lemma EffectEndsCall(cfg: Config, s: State, a: Action, own: nat -> Core)
    requires Step(cfg, s, a).Some? && a.Serve? && EffectsOf(s, a, own) != []
    ensures a.call in s.calls && !s.calls[a.call].Returned? && Step(cfg, s, a).value.calls[a.call].Returned?
  {
  }

  lemma ReturnedStays(cfg: Config, s: State, a: Action, call: nat)
    requires Step(cfg, s, a).Some? && call in s.calls && s.calls[call].Returned?
    ensures call in Step(cfg, s, a).value.calls && Step(cfg, s, a).value.calls[call].Returned?
  {
  }

  lemma {:induction false} ReturnedForEver(cfg: Config, actions: seq<Action>, i: nat, j: nat, call: nat)
    requires i <= j <= |actions| && At(cfg, actions, j).Some?
    requires At(cfg, actions, i).Some? && call in At(cfg, actions, i).value.calls && At(cfg, actions, i).value.calls[call].Returned?
    ensures call in At(cfg, actions, j).value.calls && At(cfg, actions, j).value.calls[call].Returned?
    decreases j
  {
    if i < j {
      PrefixRuns(cfg, actions, j - 1);
      ReturnedForEver(cfg, actions, i, j - 1, call);
      ReturnedStays(cfg, At(cfg, actions, j - 1).value, actions[j - 1], call);
    }
  }

  /** No call has more than one effect. */
  lemma OneEffectPerCall(cfg: Config, actions: seq<Action>, own: nat -> Core, i: nat, j: nat)
    requires i < j < |actions| && At(cfg, actions, j + 1).Some? && At(cfg, actions, i + 1).Some?
    requires At(cfg, actions, i).Some? && At(cfg, actions, j).Some?
    requires actions[i].Serve? && EffectsOf(At(cfg, actions, i).value, actions[i], own) != []
    requires actions[j].Serve? && EffectsOf(At(cfg, actions, j).value, actions[j], own) != []
    ensures actions[i].call != actions[j].call
  {
    PrefixRuns(cfg, actions, i);
    PrefixRuns(cfg, actions, j);
    EffectEndsCall(cfg, At(cfg, actions, i).value, actions[i], own);
    EffectEndsCall(cfg, At(cfg, actions, j).value, actions[j], own);
    ReturnedForEver(cfg, actions, i + 1, j, actions[i].call);
  }

  // ----- The same run by pair -----

  ghost predicate Names(digest: Digest, u: Universe, name: string, p: Pair) {
    p in u.pairs && name == KeyedName(digest, p.0, p.1)
  }

  /** An effect on a claim name as an effect on the pair the name is derived from, if there is one. */
  ghost function ByPair<V>(digest: Digest, u: Universe, effect: Effect<string, V>): seq<Effect<Pair, V>> {
    if exists p :: Names(digest, u, effect.key, p) then
      var p :| Names(digest, u, effect.key, p);
      [match effect case EnsureEntry(_, value) => EnsureEntry(p, value) case EraseEntry(_) => EraseEntry(p)]
    else []
  }

  ghost function AllByPair<V>(digest: Digest, u: Universe, effects: seq<Effect<string, V>>): seq<Effect<Pair, V>> {
    if effects == [] then []
    else AllByPair(digest, u, effects[..|effects| - 1]) + ByPair(digest, u, effects[|effects| - 1])
  }

  lemma ErasuresAgree<V>(digest: Digest, u: Universe, byPair: map<Pair, V>, byName: map<string, V>, p: Pair)
    requires CollisionFree(digest, u) && FromHeaders(u) && p in u.pairs && SameContents(digest, u, byPair, byName)
    ensures SameContents(digest, u, byPair - {p}, byName - {KeyedName(digest, p.0, p.1)})
  {
    forall q | q in u.pairs
      ensures var n := KeyedName(digest, q.0, q.1);
              && (q in byPair - {p} <==> n in byName - {KeyedName(digest, p.0, p.1)})
              && (q in byPair - {p} ==> (byPair - {p})[q] == (byName - {KeyedName(digest, p.0, p.1)})[n])
    {
      if KeyedName(digest, q.0, q.1) == KeyedName(digest, p.0, p.1) {
        KeyedNameInjective(digest, u, p, q);
      }
    }
  }

  lemma EffectAgrees<V>(digest: Digest, u: Universe, byPair: map<Pair, V>, byName: map<string, V>, effect: Effect<string, V>)
    requires CollisionFree(digest, u) && FromHeaders(u) && SameContents(digest, u, byPair, byName)
    ensures SameContents(digest, u, PerformAll(byPair, ByPair(digest, u, effect)), PerformEffect(byName, effect))
  {
    if exists p :: Names(digest, u, effect.key, p) {
      var translated := ByPair(digest, u, effect)[0];
      OneEffect(byPair, translated);
      match effect {
        case EnsureEntry(_, value) => StoresAgree(digest, u, byPair, byName, translated.key, value);
        case EraseEntry(_) => ErasuresAgree(digest, u, byPair, byName, translated.key);
      }
    } else {
      assert forall q :: q in u.pairs ==> !Names(digest, u, effect.key, q);
    }
  }

  /** A list of effects by name and the same list by pair, run sequentially, stay in step. */
  lemma {:induction false} SequencesAgree<V>(digest: Digest, u: Universe, effects: seq<Effect<string, V>>)
    requires CollisionFree(digest, u) && FromHeaders(u)
    ensures SameContents(digest, u, PerformAll(map[], AllByPair(digest, u, effects)), PerformAll(map[], effects))
    decreases |effects|
  {
    if effects != [] {
      var init, last := effects[..|effects| - 1], effects[|effects| - 1];
      SequencesAgree(digest, u, init);
      EffectAgrees(digest, u, PerformAll(map[], AllByPair(digest, u, init)), PerformAll(map[], init), last);
      PerformAppend(map[], AllByPair(digest, u, init), ByPair(digest, u, last));
    }
  }

  /** What the sequential run by pair answers an insertion for `p` after the effects of the first `i` actions. */
  ghost function AnswerByPair(cfg: Config, u: Universe, actions: seq<Action>, own: nat -> Core, i: nat, p: Pair, value: Core): Core
    requires i <= |actions|
  {
    Ensure(PerformAll(map[], AllByPair(cfg.digest, u, AllEffects(cfg, actions[..i], own))), p, value).1
  }

  /** The whole run of the cluster, which has no lock, is a sequential run, by pair, of insertions if absent and
      erasures, and every successful keyed create answers what that run answers for its pair at one moment within
      the call. */
  lemma ClusterRunIsSequentialByPair(cfg: Config, u: Universe, actions: seq<Action>, own: nat -> Core, call: nat) returns (i: nat)
    requires World(cfg, u) && AllOccur(u, actions) && Exec(cfg, START, actions).Some?
    requires call in Exec(cfg, START, actions).value.calls && KeyedSuccess(Exec(cfg, START, actions).value.calls[call])
    ensures var end := Exec(cfg, START, actions).value;
            SameContents(cfg.digest, u, PerformAll(map[], AllByPair(cfg.digest, u, AllEffects(cfg, actions, own))), Cores(end))
    ensures var answered := Exec(cfg, START, actions).value.calls[call];
            && i < |actions| && AnswersAt(cfg, actions, own, i, call, answered.reply.sandbox)
            && var value := EffectsOf(At(cfg, actions, i).value, actions[i], own)[0].value;
               Reports(answered.reply.sandbox, AnswerByPair(cfg, u, actions, own, i, PairOf(answered), value))
  {
    assert actions[..|actions|] == actions;
    RunIsSequential(cfg, actions, own);
    SequencesAgree(cfg.digest, u, AllEffects(cfg, actions, own));
    i := CreatesAreLinearizable(cfg, u, actions, own, |actions|, call);
    var end := Exec(cfg, START, actions).value;
    ReachableInv(cfg, u, actions, |actions|);
    CallsOccur(cfg, u, actions, |actions|, call);
    assert GoodCall(cfg, u, end, end.calls[call]);
    var effects, p := AllEffects(cfg, actions[..i], own), PairOf(end.calls[call]);
    var value := EffectsOf(At(cfg, actions, i).value, actions[i], own)[0].value;
    SequencesAgree(cfg.digest, u, effects);
    StoresAgree(cfg.digest, u, PerformAll(map[], AllByPair(cfg.digest, u, effects)), PerformAll(map[], effects), p, value);
  }

  // ----- Exactly-once creation on the cluster -----

  predicate Present(cfg: Config, actions: seq<Action>, n: string) {
    Exec(cfg, START, actions).Some? && n in Exec(cfg, START, actions).value.claims
  }

  /** How often the name came to be stored, and how often it was lost. */
  function Fills(cfg: Config, actions: seq<Action>, n: string): nat {
    if actions == [] then 0
    else
      var init := actions[..|actions| - 1];
      Fills(cfg, init, n) + if !Present(cfg, init, n) && Present(cfg, actions, n) then 1 else 0
  }

  function Losses(cfg: Config, actions: seq<Action>, n: string): nat {
    if actions == [] then 0
    else
      var init := actions[..|actions| - 1];
      Losses(cfg, init, n) + if Present(cfg, init, n) && !Present(cfg, actions, n) then 1 else 0
  }

  lemma {:induction false} FillsAreConserved(cfg: Config, actions: seq<Action>, n: string)
    ensures Fills(cfg, actions, n) == Losses(cfg, actions, n) + if Present(cfg, actions, n) then 1 else 0
    decreases |actions|
  {
    if actions != [] {
      FillsAreConserved(cfg, actions[..|actions| - 1], n);
    }
  }

  /** A create without a key posts a name no pair has. */
  predicate UnkeyedName(call: Call) {
    call.Posting? && call.request.Create? && call.request.command.idempotencyKey.None? ==>
      call.claim.name.Some? && |call.claim.name.value| == 42
  }

  lemma ServingPostsNothing(cfg: Config, s: State, call: nat, now: int, lost: bool, unreadable: Option<string>, c: nat)
    requires ServeStep(cfg, s, call, now, lost, unreadable).Some? && c in ServeStep(cfg, s, call, now, lost, unreadable).value.calls
    ensures var after := ServeStep(cfg, s, call, now, lost, unreadable).value.calls[c];
            c in s.calls && (after == s.calls[c] || !after.Posting?)
  {
  }

  lemma StepPosts(cfg: Config, s: State, a: Action, c: nat)
    requires Step(cfg, s, a).Some? && c in Step(cfg, s, a).value.calls
    requires c in s.calls ==> UnkeyedName(s.calls[c])
    ensures UnkeyedName(Step(cfg, s, a).value.calls[c])
  {
    if a.Serve? {
      ServingPostsNothing(cfg, s, a.call, a.now, a.lost, a.unreadable, c);
    }
  }

  lemma {:induction false} PostsOwnName(cfg: Config, actions: seq<Action>, i: nat, c: nat)
    requires i <= |actions| && At(cfg, actions, i).Some? && c in At(cfg, actions, i).value.calls
    ensures UnkeyedName(At(cfg, actions, i).value.calls[c])
    decreases i
  {
    assert actions[..0] == [];
    if i > 0 {
      PrefixRuns(cfg, actions, i - 1);
      var s := At(cfg, actions, i - 1).value;
      if c in s.calls {
        PostsOwnName(cfg, actions, i - 1, c);
      }
      StepPosts(cfg, s, actions[i - 1], c);
    }
  }

  /** The call is a create for the pair, about to be stored. */
  predicate PostsFor(call: Call, p: Pair) {
    && call.Posting? && call.request.Create? && call.request.command.tenantId == p.0
    && call.request.command.idempotencyKey == Some(p.1)
  }

  lemma PostedNameHasPair(cfg: Config, u: Universe, actions: seq<Action>, i: nat, c: nat, p: Pair)
    requires World(cfg, u) && AllOccur(u, actions) && i <= |actions| && At(cfg, actions, i).Some? && p in u.pairs
    requires c in At(cfg, actions, i).value.calls && At(cfg, actions, i).value.calls[c].Posting?
    requires At(cfg, actions, i).value.calls[c].claim.name == Some(KeyedName(cfg.digest, p.0, p.1))
    ensures PostsFor(At(cfg, actions, i).value.calls[c], p)
  {
    ReachableInv(cfg, u, actions, i);
    PostsOwnName(cfg, actions, i, c);
    CallsOccur(cfg, u, actions, i, c);
    SlicesInRange(cfg.digest, p.0, p.1);
    var s := At(cfg, actions, i).value;
    var call := s.calls[c];
    assert GoodCall(cfg, u, s, call);
    var command := call.request.command;
    if command.idempotencyKey.Some? {
      KeyedNameInjective(cfg.digest, u, (command.tenantId, command.idempotencyKey.value), p);
    }
  }

  lemma StepChangesName(cfg: Config, s: State, a: Action, n: string)
    requires Step(cfg, s, a).Some?
    ensures n in s.claims && n !in Step(cfg, s, a).value.claims ==> a == Remove(n)
    ensures n !in s.claims && n in Step(cfg, s, a).value.claims ==>
              a.Serve? && a.call in s.calls && s.calls[a.call].Posting? && s.calls[a.call].claim.name == Some(n)
  {
    if a.Serve? {
      ServeChangesClaims(cfg, s, a.call, a.now, a.lost, a.unreadable);
    }
  }

  /** Only a removal loses the name of a pair, and only serving the post of a create for that pair fills it. */
  lemma WhoChangesAName(cfg: Config, u: Universe, actions: seq<Action>, i: nat, p: Pair)
    requires World(cfg, u) && AllOccur(u, actions) && i < |actions| && At(cfg, actions, i + 1).Some? && p in u.pairs
    ensures At(cfg, actions, i).Some?
    ensures var n, s, s' := KeyedName(cfg.digest, p.0, p.1), At(cfg, actions, i).value, At(cfg, actions, i + 1).value;
            && (n in s.claims && n !in s'.claims ==> actions[i] == Remove(n))
            && (n !in s.claims && n in s'.claims ==>
                  actions[i].Serve? && actions[i].call in s.calls && PostsFor(s.calls[actions[i].call], p))
  {
    var n := KeyedName(cfg.digest, p.0, p.1);
    PrefixRuns(cfg, actions, i);
    var s := At(cfg, actions, i).value;
    StepChangesName(cfg, s, actions[i], n);
    if n !in s.claims && n in At(cfg, actions, i + 1).value.claims {
      PostedNameHasPair(cfg, u, actions, i, actions[i].call, p);
    }
  }

  lemma {:induction false} FillsGrow(cfg: Config, actions: seq<Action>, k: nat, n: string)
    requires k <= |actions|
    ensures Fills(cfg, actions[..k], n) <= Fills(cfg, actions, n)
    decreases |actions|
  {
    if k == |actions| {
      assert actions[..k] == actions;
    } else {
      var init := actions[..|actions| - 1];
      FillsGrow(cfg, init, k, n);
      assert init[..k] == actions[..k];
    }
  }

  lemma {:induction false} NoRemovalNoLoss(cfg: Config, actions: seq<Action>, n: string)
    requires Exec(cfg, START, actions).Some? && forall k :: 0 <= k < |actions| ==> actions[k] != Remove(n)
    ensures Losses(cfg, actions, n) == 0
    decreases |actions|
  {
    if actions != [] {
      var init, last := actions[..|actions| - 1], actions[|actions| - 1];
      assert forall k :: 0 <= k < |init| ==> init[k] == actions[k];
      NoRemovalNoLoss(cfg, init, n);
      StepChangesName(cfg, Exec(cfg, START, init).value, last, n);
    }
  }

  lemma SuccessMeansFilled(cfg: Config, u: Universe, actions: seq<Action>, call: nat)
    requires World(cfg, u) && AllOccur(u, actions) && Exec(cfg, START, actions).Some?
    requires call in Exec(cfg, START, actions).value.calls && KeyedSuccess(Exec(cfg, START, actions).value.calls[call])
    ensures var p := PairOf(Exec(cfg, START, actions).value.calls[call]); Fills(cfg, actions, KeyedName(cfg.digest, p.0, p.1)) >= 1
  {
    assert actions[..|actions|] == actions;
    ReachableInv(cfg, u, actions, |actions|);
    ReturnedWasStored(cfg, u, actions, |actions|, call);
    var end := Exec(cfg, START, actions).value;
    assert GoodCall(cfg, u, end, end.calls[call]);
    var id := end.calls[call].reply.sandbox.id;
    var k :| StoredAt(cfg, actions, k, call, end.calls[call].reply.sandbox) && k <= |actions|;
    assert Present(cfg, actions[..k], id);
    FillsAreConserved(cfg, actions[..k], id);
    FillsGrow(cfg, actions, k, id);
  }

  /** Action `i` removes the name while it is stored. */
  predicate RemovedAt(cfg: Config, actions: seq<Action>, i: int, n: string) {
    0 <= i < |actions| && Present(cfg, actions[..i], n) && actions[i] == Remove(n)
  }

  /** Action `j` serves the post of a create for the pair. */
  predicate PostServedAt(cfg: Config, actions: seq<Action>, j: int, p: Pair) {
    && 0 <= j < |actions| && At(cfg, actions, j).Some? && actions[j].Serve?
    && actions[j].call in At(cfg, actions, j).value.calls && PostsFor(At(cfg, actions, j).value.calls[actions[j].call], p)
  }

  /** A stored claim of the pair is removed, and later the post of a create for the pair is served. */
  ghost predicate RemovedThenPosted(cfg: Config, actions: seq<Action>, p: Pair) {
    exists i, j :: i < j && RemovedAt(cfg, actions, i, KeyedName(cfg.digest, p.0, p.1)) && PostServedAt(cfg, actions, j, p)
  }

  lemma {:induction false} LossIsRemoval(cfg: Config, actions: seq<Action>, n: string) returns (i: int)
    requires Exec(cfg, START, actions).Some? && Losses(cfg, actions, n) > 0
    ensures RemovedAt(cfg, actions, i, n)
    decreases |actions|
  {
    var init, last := actions[..|actions| - 1], actions[|actions| - 1];
    if Losses(cfg, init, n) > 0 {
      i := LossIsRemoval(cfg, init, n);
      assert init[..i] == actions[..i];
    } else {
      i := |init|;
      StepChangesName(cfg, Exec(cfg, START, init).value, last, n);
    }
  }

  lemma LaterActions(cfg: Config, actions: seq<Action>, i: int, j: int, n: string, p: Pair)
    requires actions != []
    ensures RemovedAt(cfg, actions[..|actions| - 1], i, n) ==> RemovedAt(cfg, actions, i, n)
    ensures PostServedAt(cfg, actions[..|actions| - 1], j, p) ==> PostServedAt(cfg, actions, j, p)
  {
    var init := actions[..|actions| - 1];
    if 0 <= i < |init| {
      assert init[..i] == actions[..i];
    }
    if 0 <= j < |init| {
      assert init[..j] == actions[..j];
    }
  }

  lemma LastFillIsPost(cfg: Config, u: Universe, actions: seq<Action>, p: Pair)
    requires World(cfg, u) && AllOccur(u, actions) && Exec(cfg, START, actions).Some? && p in u.pairs && actions != []
    requires var n := KeyedName(cfg.digest, p.0, p.1); !Present(cfg, actions[..|actions| - 1], n) && Present(cfg, actions, n)
    ensures PostServedAt(cfg, actions, |actions| - 1, p)
  {
    assert actions[..|actions|] == actions;
    WhoChangesAName(cfg, u, actions, |actions| - 1, p);
  }

  /** A name stored twice has been removed and posted again in between. */
  lemma {:induction false} StoredTwiceMeansRemoved(cfg: Config, u: Universe, actions: seq<Action>, p: Pair) returns (i: int, j: int)
    requires World(cfg, u) && AllOccur(u, actions) && Exec(cfg, START, actions).Some? && p in u.pairs
    requires Fills(cfg, actions, KeyedName(cfg.digest, p.0, p.1)) >= 2
    ensures i < j && RemovedAt(cfg, actions, i, KeyedName(cfg.digest, p.0, p.1)) && PostServedAt(cfg, actions, j, p)
    decreases |actions|
  {
    var n, init := KeyedName(cfg.digest, p.0, p.1), actions[..|actions| - 1];
    if Fills(cfg, init, n) >= 2 {
      i, j := StoredTwiceMeansRemoved(cfg, u, init, p);
    } else {
      FillsAreConserved(cfg, init, n);
      i := LossIsRemoval(cfg, init, n);
      j := |init|;
      LastFillIsPost(cfg, u, actions, p);
    }
    LaterActions(cfg, actions, i, j, n, p);
  }

  /** Once the post of a create is served, whether it fills the name or meets a conflict, the name is stored. */
  lemma ServedPostStands(cfg: Config, u: Universe, actions: seq<Action>, j: nat, p: Pair)
    requires World(cfg, u) && AllOccur(u, actions) && PostServedAt(cfg, actions, j, p) && At(cfg, actions, j + 1).Some?
    ensures Present(cfg, actions[..j + 1], KeyedName(cfg.digest, p.0, p.1))
  {
    PrefixRuns(cfg, actions, j);
    ReachableInv(cfg, u, actions, j);
    var s := At(cfg, actions, j).value;
    assert GoodCall(cfg, u, s, s.calls[actions[j].call]);
    ServeChangesClaims(cfg, s, actions[j].call, actions[j].now, actions[j].lost, actions[j].unreadable);
  }

  lemma {:induction false} EarlierStates(cfg: Config, actions: seq<Action>, i: nat)
    requires i <= |actions| && Exec(cfg, START, actions).Some?
    ensures At(cfg, actions, i).Some?
    decreases |actions|
  {
    if i == |actions| {
      assert actions[..i] == actions;
    } else {
      var init := actions[..|actions| - 1];
      EarlierStates(cfg, init, i);
      assert init[..i] == actions[..i];
    }
  }

  lemma {:induction false} LossesGrow(cfg: Config, actions: seq<Action>, k: nat, n: string)
    requires k <= |actions|
    ensures Losses(cfg, actions[..k], n) <= Losses(cfg, actions, n)
    decreases |actions|
  {
    if k == |actions| {
      assert actions[..k] == actions;
    } else {
      var init := actions[..|actions| - 1];
      LossesGrow(cfg, init, k, n);
      assert init[..k] == actions[..k];
    }
  }

  lemma RemovalLoses(cfg: Config, actions: seq<Action>, i: nat, n: string)
    requires RemovedAt(cfg, actions, i, n) && At(cfg, actions, i + 1).Some?
    ensures Losses(cfg, actions[..i + 1], n) >= 1
  {
    PrefixRuns(cfg, actions, i);
    assert actions[..i + 1][..i] == actions[..i];
  }

  lemma RemovedIsLost(cfg: Config, actions: seq<Action>, i: nat, m: nat, n: string)
    requires Exec(cfg, START, actions).Some? && RemovedAt(cfg, actions, i, n) && i < m <= |actions|
    ensures Losses(cfg, actions[..m], n) >= 1
  {
    EarlierStates(cfg, actions, i + 1);
    RemovalLoses(cfg, actions, i, n);
    LossIsKept(cfg, actions, i + 1, m, n);
  }

  lemma PostedIsPresent(cfg: Config, u: Universe, actions: seq<Action>, j: nat, p: Pair)
    requires World(cfg, u) && AllOccur(u, actions) && Exec(cfg, START, actions).Some? && PostServedAt(cfg, actions, j, p)
    ensures Present(cfg, actions[..j + 1], KeyedName(cfg.digest, p.0, p.1))
  {
    EarlierStates(cfg, actions, j + 1);
    ServedPostStands(cfg, u, actions, j, p);
  }

  /** And a name removed and posted again in between has been stored twice. */
  lemma RemovedThenPostedStoresTwice(cfg: Config, u: Universe, actions: seq<Action>, p: Pair, n: string, i: nat, j: nat)
    requires World(cfg, u) && AllOccur(u, actions) && Exec(cfg, START, actions).Some? && n == KeyedName(cfg.digest, p.0, p.1)
    requires i < j < |actions| && RemovedAt(cfg, actions, i, n) && PostServedAt(cfg, actions, j, p)
    ensures Fills(cfg, actions, n) >= 2
  {
    var m := j + 1;
    RemovedIsLost(cfg, actions, i, m, n);
    PostedIsPresent(cfg, u, actions, j, p);
    FillsAreConserved(cfg, actions[..m], n);
    FillsGrow(cfg, actions, m, n);
  }

  lemma LossIsKept(cfg: Config, actions: seq<Action>, k: nat, m: nat, n: string)
    requires k <= m <= |actions|
    ensures Losses(cfg, actions[..k], n) <= Losses(cfg, actions[..m], n)
  {
    LossesGrow(cfg, actions[..m], k, n);
    assert actions[..m][..k] == actions[..k];
  }

  /** However many of a client's attempts are executed, by whichever replicas and however they interleave with each
      other and with other calls: the claim of their pair is stored at most once if and only if no post of a create
      for the pair is served after a removal of its stored claim; without any removal it is stored exactly as often
      as it is there at the end; and it is stored at least once if one of the attempts succeeds. */
  lemma ClusterCreatesExactlyOnce(cfg: Config, u: Universe, actions: seq<Action>, p: Pair)
    requires World(cfg, u) && AllOccur(u, actions) && Exec(cfg, START, actions).Some? && p in u.pairs
    ensures var n, end := KeyedName(cfg.digest, p.0, p.1), Exec(cfg, START, actions).value;
            && (Fills(cfg, actions, n) <= 1 <==> !RemovedThenPosted(cfg, actions, p))
            && ((forall k :: 0 <= k < |actions| ==> actions[k] != Remove(n)) ==>
                  Fills(cfg, actions, n) == if n in end.claims then 1 else 0)
            && (forall c :: c in end.calls && KeyedSuccess(end.calls[c]) && PairOf(end.calls[c]) == p ==> Fills(cfg, actions, n) >= 1)
  {
    var n, end := KeyedName(cfg.digest, p.0, p.1), Exec(cfg, START, actions).value;
    if RemovedThenPosted(cfg, actions, p) {
      var i, j :| i < j && RemovedAt(cfg, actions, i, n) && PostServedAt(cfg, actions, j, p);
      RemovedThenPostedStoresTwice(cfg, u, actions, p, n, i, j);
    } else if Fills(cfg, actions, n) >= 2 {
      var i, j := StoredTwiceMeansRemoved(cfg, u, actions, p);
    }
    FillsAreConserved(cfg, actions, n);
    if forall k :: 0 <= k < |actions| ==> actions[k] != Remove(n) {
      NoRemovalNoLoss(cfg, actions, n);
    }
    forall c | c in end.calls && KeyedSuccess(end.calls[c]) && PairOf(end.calls[c]) == p
      ensures Fills(cfg, actions, n) >= 1
    {
      SuccessMeansFilled(cfg, u, actions, c);
    }
  }

  // ----- Two runs -----

  lemma OneMore(cfg: Config, run: seq<Action>, s: State, a: Action, s': State, n: string)
    requires Exec(cfg, START, run) == Some(s) && Step(cfg, s, a) == Some(s')
    ensures Exec(cfg, START, run + [a]) == Some(s')
    ensures Fills(cfg, run + [a], n) == Fills(cfg, run, n) + if n !in s.claims && n in s'.claims then 1 else 0
  {
    assert (run + [a])[..|run|] == run;
  }

  /** A keyed create this store can serve, of a pair that occurs. */
  ghost predicate Servable(cfg: Config, u: Universe, command: CreateCommand) {
    && command.profile == cfg.profile && AsI64(command.ttlSeconds) >= 0 && command.idempotencyKey.Some?
    && command.tenantId in u.tenants && (command.tenantId, command.idempotencyKey.value) in u.pairs
  }

  /** A create is invoked and its post served while the name is free. */
  lemma Creating(cfg: Config, u: Universe, run: seq<Action>, s: State, call: nat, command: CreateCommand, now: int)
    returns (run': seq<Action>, s': State)
    requires World(cfg, u) && AllOccur(u, run) && Exec(cfg, START, run) == Some(s) && call !in s.calls && Servable(cfg, u, command)
    requires KeyedName(cfg.digest, command.tenantId, command.idempotencyKey.value) !in s.claims
    ensures var n := KeyedName(cfg.digest, command.tenantId, command.idempotencyKey.value);
            && AllOccur(u, run') && Exec(cfg, START, run') == Some(s') && Fills(cfg, run', n) == Fills(cfg, run, n) + 1
            && n in s'.claims && Answered(s', call) && s'.calls == s.calls[call := s'.calls[call]]
            && VerifyTenant(cfg.digest, s'.claims[n], command.tenantId)
  {
    var n := KeyedName(cfg.digest, command.tenantId, command.idempotencyKey.value);
    var invoke, serve := Invoke(call, Create(command), "", now), Serve(call, now, false, None);
    var built := BuildClaim(cfg.digest, command, cfg.warmPool, "", now).value;
    var s1 := Posted(cfg, s, call, command, "", built);
    OneMore(cfg, run, s, invoke, s1, n);
    s' := ServePost(cfg, s1, call, Create(command), built, now, false);
    OneMore(cfg, run + [invoke], s1, serve, s', n);
    run' := run + [invoke] + [serve];
    BuiltClaimReadsBack(cfg.digest, command, cfg.warmPool, "", now, WholeSeconds(now));
    ReadableIff(cfg.digest, s'.claims[n], command.tenantId);
  }

  /** With a removal between two creates for one pair, both succeed and the claim is stored twice. */
  lemma RemovalBetweenCreatesStoresTwice(cfg: Config, u: Universe, command: CreateCommand, now: int)
    returns (actions: seq<Action>, s: State)
    requires World(cfg, u) && Servable(cfg, u, command)
    ensures AllOccur(u, actions) && Exec(cfg, START, actions) == Some(s) && Answered(s, 0) && Answered(s, 1)
    ensures Fills(cfg, actions, KeyedName(cfg.digest, command.tenantId, command.idempotencyKey.value)) == 2
  {
    var n := KeyedName(cfg.digest, command.tenantId, command.idempotencyKey.value);
    actions, s := Creating(cfg, u, [], START, 0, command, now);
    var gone := s.(claims := s.claims - {n});
    OneMore(cfg, actions, s, Remove(n), gone, n);
    actions, s := Creating(cfg, u, actions + [Remove(n)], gone, 1, command, now);
  }

  /** A tenant's delete of a stored claim, with nothing in between, marks it. */
  lemma Deleting(cfg: Config, run: seq<Action>, s: State, call: nat, t: string, n: string, now: int)
    returns (run': seq<Action>, s': State)
    requires Exec(cfg, START, run) == Some(s) && call !in s.calls && n in s.claims && VerifyTenant(cfg.digest, s.claims[n], t)
    ensures run' == run + [Invoke(call, Request.Delete(t, n), "", now)] + [Serve(call, now, false, None)] + [Serve(call, now, false, None)]
    ensures Exec(cfg, START, run') == Some(s') && s'.claims == s.claims[n := s.claims[n].(deleting := true)]
    ensures s'.calls == s.calls[call := Returned(Request.Delete(t, n), Done)]
  {
    var request, serve := Request.Delete(t, n), Serve(call, now, false, None);
    var s1 := s.(calls := s.calls[call := Cluster.Reading(request)]);
    OneMore(cfg, run, s, Invoke(call, request, "", now), s1, n);
    run' := run + [Invoke(call, request, "", now)];
    var s2 := s1.(calls := s1.calls[call := Verified(request)]);
    assert Step(cfg, s1, serve) == Some(ServeLook(cfg, s1, call, request, n, false));
    OneMore(cfg, run', s1, serve, s2, n);
    s' := ServeMark(s2, call, request, n, false);
    OneMore(cfg, run' + [serve], s2, serve, s', n);
    run' := run' + [serve] + [serve];
  }

  lemma {:induction false} ExecAppend(cfg: Config, s: State, before: seq<Action>, after: seq<Action>)
    ensures Exec(cfg, s, before + after) == match Exec(cfg, s, before) case None => None case Some(mid) => Exec(cfg, mid, after)
    decreases |after|
  {
    if after == [] {
      assert before + after == before;
    } else {
      ExecAppend(cfg, s, before, after[..|after| - 1]);
      assert (before + after)[..|before + after| - 1] == before + after[..|after| - 1];
    }
  }

  /** A create again while the claim of its key is being deleted. */
  lemma Recreating(cfg: Config, u: Universe, run: seq<Action>, s: State, call: nat, command: CreateCommand, now: int)
    requires World(cfg, u) && AllOccur(u, run) && Exec(cfg, START, run) == Some(s) && call !in s.calls && Servable(cfg, u, command)
    requires var n := KeyedName(cfg.digest, command.tenantId, command.idempotencyKey.value); n in s.claims && s.claims[n].deleting
    ensures var end := Exec(cfg, START, run + CreateAlone(call, command, "", now, true));
            && end.Some? && Answered(end.value, call) && end.value.claims == s.claims
            && end.value.calls[call].reply.sandbox.state == Terminating
  {
    assert run[..|run|] == run;
    ReachableInv(cfg, u, run, |run|);
    KeyIsFreeIffGone(cfg, u, s, call, command, "", now);
    ExecAppend(cfg, START, run, CreateAlone(call, command, "", now, true));
  }

  /** A create, an accepted delete, and a create again with the same key: while the claim has not been removed, the
      second create succeeds with the terminating sandbox, and stores nothing. */
  lemma DeletedKeyAnswersTerminating(cfg: Config, u: Universe, command: CreateCommand, now: int)
    returns (run: seq<Action>, deleted: State)
    requires World(cfg, u) && Servable(cfg, u, command)
    ensures var n := KeyedName(cfg.digest, command.tenantId, command.idempotencyKey.value);
            && AllOccur(u, run) && Exec(cfg, START, run) == Some(deleted) && n in deleted.claims
            && 1 in deleted.calls && deleted.calls[1] == Returned(Request.Delete(command.tenantId, n), Done)
    ensures var end := Exec(cfg, START, run + CreateAlone(2, command, "", now, true));
            && end.Some? && Answered(end.value, 2) && end.value.claims == deleted.claims
            && end.value.calls[2].reply.sandbox.state == Terminating
  {
    var n := KeyedName(cfg.digest, command.tenantId, command.idempotencyKey.value);
    var created, s := Creating(cfg, u, [], START, 0, command, now);
    run, deleted := Deleting(cfg, created, s, 1, command.tenantId, n, now);
    Recreating(cfg, u, run, deleted, 2, command, now);
  }
}
