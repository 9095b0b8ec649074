/**
 A run of the locked store for every run of the cluster: one call of `Store` for each effect of the cluster's run,
 after which both hold sandboxes that report the same, and by which both answer the same.
 */
module BothStores {
  import opened Common
  import opened Domain
  import opened Identity
  import opened Claims
  import opened ClusterRuns
  import opened Sequential
  import Cluster
  import Store

  // ----- The calls -----

  /** A stored core whose lifetime is a whole number of seconds that fits 64 bits, as a create can ask for. */
  predicate Representable(core: Core) {
    && core.createdAt.Some? && core.createdAt.value.Instant? && core.expiresAt.Some? && core.expiresAt.value.Instant?
    && PROFILE_LABEL in core.labels
    && var lifetime := core.expiresAt.value.time - core.createdAt.value.time;
       lifetime % NANOS_PER_SECOND == 0 && -0x8000_0000_0000_0000 <= lifetime / NANOS_PER_SECOND < 0x8000_0000_0000_0000
  }

  function TtlOf(core: Core): U64
    requires Representable(core)
  {
    var seconds := (core.expiresAt.value.time - core.createdAt.value.time) / NANOS_PER_SECOND;
    if seconds >= 0 then seconds else seconds + 0x1_0000_0000_0000_0000
  }

  function CommandFor(pair: Pair, core: Core): CreateCommand
    requires Representable(core)
  {
    CreateCommand(pair.0, Some(pair.1), core.labels[PROFILE_LABEL], TtlOf(core),
                  if core.metadata.Some? && core.metadata.value.Metadata? then core.metadata.value.entries else map[])
  }

  /** Identifiers that differ in length. */
  function FreshId(n: nat): (id: string)
    ensures |id| == n
  {
    seq(n, i => 'x')
  }

  /** An insertion is a keyed create at the time the core was created; an erasure deletes what is stored for the pair. */
  function OpFor(effect: Effect<Pair, Core>, index: nat, s: Store.State): Store.Op
    requires effect.EnsureEntry? ==> Representable(effect.value)
  {
    match effect
    case EnsureEntry(pair, core) => Store.Op.Create(CommandFor(pair, core), core.createdAt.value.time, FreshId(index))
    case EraseEntry(pair) =>
      if pair in s.idempotency then Store.Op.Delete(pair.0, s.idempotency[pair]) else Store.Op.List(pair.0)
  }

  predicate AllRepresentable<K(!new)>(effects: seq<Effect<K, Core>>) {
    forall i :: 0 <= i < |effects| && effects[i].EnsureEntry? ==> Representable(effects[i].value)
  }

  function OpsFor(effects: seq<Effect<Pair, Core>>): (ops: seq<Store.Op>)
    requires AllRepresentable(effects)
    ensures |ops| == |effects|
  {
    if effects == [] then []
    else
      var init := effects[..|effects| - 1];
      OpsFor(init) + [OpFor(effects[|effects| - 1], |init|, Store.Run(Store.EMPTY, OpsFor(init)))]
  }

  // ----- They are a legal run -----

  lemma {:induction false} FreshJoin(ops: seq<Store.Op>, last: Store.Op, used: set<string>)
    requires Store.FreshIds(ops, used) && Store.Used(last) !! Store.UsedBy(ops, used)
    ensures Store.FreshIds(ops + [last], used) && Store.UsedBy(ops + [last], used) == Store.UsedBy(ops, used) + Store.Used(last)
    decreases |ops|
  {
    if ops == [] {
      assert ops + [last] == [last] && [last][1..] == [];
    } else {
      Store.FreshTail(ops, used);
      assert (ops + [last])[1..] == ops[1..] + [last] && used + {} == used;
      FreshJoin(ops[1..], last, used + Store.Used(ops[0]));
    }
  }

  lemma {:induction false} OpsAreFresh(effects: seq<Effect<Pair, Core>>)
    requires AllRepresentable(effects)
    ensures Store.FreshIds(OpsFor(effects), {})
    ensures forall id :: id in Store.UsedBy(OpsFor(effects), {}) ==> |id| < |effects|
    decreases |effects|
  {
    if effects != [] {
      var init := effects[..|effects| - 1];
      OpsAreFresh(init);
      FreshJoin(OpsFor(init), OpFor(effects[|effects| - 1], |init|, Store.Run(Store.EMPTY, OpsFor(init))), {});
    }
  }

  lemma RunSnoc(ops: seq<Store.Op>, last: Store.Op)
    ensures Store.Run(Store.EMPTY, ops + [last]) == Store.Apply(Store.Run(Store.EMPTY, ops), last).0
  {
    Store.RunAppend(Store.EMPTY, ops, [last]);
    assert [last][1..] == [];
  }

  /** The state of the locked store after the calls. */
  function LockedState(effects: seq<Effect<Pair, Core>>): Store.State
    requires AllRepresentable(effects)
  {
    Store.Run(Store.EMPTY, OpsFor(effects))
  }

  lemma LockedStateConsistent(effects: seq<Effect<Pair, Core>>)
    requires AllRepresentable(effects)
    ensures Store.Consistent(LockedState(effects)) && FreshId(|effects|) !in LockedState(effects).sandboxes
  {
    OpsAreFresh(effects);
    Store.RunKeepsConsistent(Store.EMPTY, OpsFor(effects), {});
    Store.RunStaysInUsed(Store.EMPTY, OpsFor(effects), {});
  }

  // ----- Both hold and answer the same -----

  /** The sandboxes held by pair report the cores held by pair. */
  ghost predicate ReportAll(sandboxes: map<Pair, Sandbox>, cores: map<Pair, Core>) {
    sandboxes.Keys == cores.Keys && forall p :: p in cores ==> Reports(sandboxes[p], cores[p])
  }

  lemma NewSandboxReports(pair: Pair, core: Core, id: string)
    requires Representable(core)
    ensures Reports(Store.NewSandbox(CommandFor(pair, core), core.createdAt.value.time, id), core)
  {
    assert AsI64(TtlOf(core)) == (core.expiresAt.value.time - core.createdAt.value.time) / NANOS_PER_SECOND;
  }

  /** A create after the calls for `effects` answers as the sequential run does, and leaves the same behind. */
  lemma CreateAnswersAlike(s: Store.State, cores: map<Pair, Core>, pair: Pair, core: Core, id: string)
    requires Store.Consistent(s) && id !in s.sandboxes && ReportAll(Store.ByKey(s), cores) && Representable(core)
    ensures var (s', answer) := Store.ApplyCreate(s, CommandFor(pair, core), core.createdAt.value.time, id);
            && answer.Stored? && Reports(answer.sandbox, Ensure(cores, pair, core).1)
            && ReportAll(Store.ByKey(s'), Ensure(cores, pair, core).0)
  {
    Store.CreateRefinesEnsure(s, CommandFor(pair, core), core.createdAt.value.time, id);
    NewSandboxReports(pair, core, id);
  }

  lemma ErasedAlike(sandboxes: map<Pair, Sandbox>, cores: map<Pair, Core>, pair: Pair)
    requires ReportAll(sandboxes, cores)
    ensures ReportAll(sandboxes - {pair}, cores - {pair}) && (pair !in sandboxes ==> sandboxes - {pair} == sandboxes)
  {
  }

  lemma EraseLeavesAlike(s: Store.State, cores: map<Pair, Core>, pair: Pair)
    requires Store.Consistent(s) && ReportAll(Store.ByKey(s), cores)
    ensures ReportAll(Store.ByKey(Store.Apply(s, OpFor(EraseEntry(pair), 0, s)).0), cores - {pair})
  {
    ErasedAlike(Store.ByKey(s), cores, pair);
    if pair in s.idempotency {
      Store.DeletedPairErased(s, pair.0, s.idempotency[pair], pair);
    }
  }

  /** After the calls for any list of effects, the locked store holds by pair what the sequential run holds. */
  lemma {:induction false} LockedStoreReports(effects: seq<Effect<Pair, Core>>)
    requires AllRepresentable(effects)
    ensures ReportAll(Store.ByKey(LockedState(effects)), PerformAll(map[], effects))
    decreases |effects|
  {
    if effects == [] {
      assert Store.ByKey(Store.EMPTY) == map[];
    } else {
      var init, last := effects[..|effects| - 1], effects[|effects| - 1];
      LockedStoreReports(init);
      LockedStateConsistent(init);
      var s := LockedState(init);
      RunSnoc(OpsFor(init), OpFor(last, |init|, s));
      match last {
        case EnsureEntry(pair, core) => CreateAnswersAlike(s, PerformAll(map[], init), pair, core, FreshId(|init|));
        case EraseEntry(pair) => EraseLeavesAlike(s, PerformAll(map[], init), pair);
      }
    }
  }

  lemma {:induction false} TranslationRepresentable(digest: Digest, u: Universe, effects: seq<Effect<string, Core>>)
    requires AllRepresentable(effects)
    ensures AllRepresentable(AllByPair(digest, u, effects))
    decreases |effects|
  {
    if effects != [] {
      TranslationRepresentable(digest, u, effects[..|effects| - 1]);
    }
  }

  /** The effects of a run of the cluster, by pair. */
  ghost function PairEffects(cfg: Cluster.Config, u: Universe, actions: seq<Cluster.Action>, own: nat -> Core): seq<Effect<Pair, Core>> {
    AllByPair(cfg.digest, u, AllEffects(cfg, actions, own))
  }

  /** What the locked store holds for a pair after its calls reports what the cluster holds under the pair's name. */
  ghost predicate HoldAlike(cfg: Cluster.Config, u: Universe, locked: Store.State, cluster: Cluster.State) {
    forall p :: p in u.pairs ==>
      var n := KeyedName(cfg.digest, p.0, p.1);
      && (p in Store.ByKey(locked) <==> n in cluster.claims)
      && (p in Store.ByKey(locked) ==> Reports(Store.ByKey(locked)[p], CoreOf(cluster.claims[n])))
  }

  /** For every run of the cluster there is a run of the locked store, with fresh identifiers, after which the two hold
      sandboxes that report the same for every pair. */
  lemma LockedStoreDoesTheSame(cfg: Cluster.Config, u: Universe, actions: seq<Cluster.Action>, own: nat -> Core)
    requires Cluster.World(cfg, u) && AllOccur(u, actions) && Cluster.Exec(cfg, Cluster.START, actions).Some?
    requires AllRepresentable(AllEffects(cfg, actions, own))
    ensures AllRepresentable(PairEffects(cfg, u, actions, own)) && Store.FreshIds(OpsFor(PairEffects(cfg, u, actions, own)), {})
    ensures HoldAlike(cfg, u, LockedState(PairEffects(cfg, u, actions, own)), Cluster.Exec(cfg, Cluster.START, actions).value)
  {
    var effects := AllEffects(cfg, actions, own);
    TranslationRepresentable(cfg.digest, u, effects);
    OpsAreFresh(PairEffects(cfg, u, actions, own));
    LockedStoreReports(PairEffects(cfg, u, actions, own));
    Sequential.RunIsSequential(cfg, actions, own);
    SequencesAgree(cfg.digest, u, effects);
  }

  lemma {:induction false} EarlierEffects(cfg: Cluster.Config, actions: seq<Cluster.Action>, own: nat -> Core, i: nat)
    requires i <= |actions| && Cluster.Exec(cfg, Cluster.START, actions).Some? && AllRepresentable(AllEffects(cfg, actions, own))
    ensures AllRepresentable(AllEffects(cfg, actions[..i], own))
    ensures i < |actions| && At(cfg, actions, i).Some? ==>
              AllRepresentable(Sequential.EffectsOf(At(cfg, actions, i).value, actions[i], own))
    decreases |actions|
  {
    if i == |actions| {
      assert actions[..i] == actions;
    } else {
      var init, last := actions[..|actions| - 1], actions[|actions| - 1];
      var s := Cluster.Exec(cfg, Cluster.START, init).value;
      PartsRepresentable(AllEffects(cfg, init, own), Sequential.EffectsOf(s, last, own));
      assert init[..i] == actions[..i];
      EarlierEffects(cfg, init, own, i);
    }
  }

  lemma PartsRepresentable<K(!new)>(effects: seq<Effect<K, Core>>, more: seq<Effect<K, Core>>)
    requires AllRepresentable(effects + more)
    ensures AllRepresentable(effects) && AllRepresentable(more)
  {
    assert forall i :: 0 <= i < |effects| ==> (effects + more)[i] == effects[i];
    assert forall i :: 0 <= i < |more| ==> (effects + more)[|effects| + i] == more[i];
  }

  /** And every successful keyed create is answered alike: at some moment within the call, the locked store, after the
      calls for what had happened on the cluster by then, answers a create for the pair with a sandbox that reports
      the same core as the sandbox the cluster's create returns. */
  lemma CreatesAreAnsweredAlike(cfg: Cluster.Config, u: Universe, actions: seq<Cluster.Action>, own: nat -> Core, call: nat)
    returns (i: nat, op: Store.Op, core: Core)
    requires Cluster.World(cfg, u) && AllOccur(u, actions) && Cluster.Exec(cfg, Cluster.START, actions).Some?
    requires AllRepresentable(AllEffects(cfg, actions, own))
    requires var calls := Cluster.Exec(cfg, Cluster.START, actions).value.calls; call in calls && KeyedSuccess(calls[call])
    ensures var answered := Cluster.Exec(cfg, Cluster.START, actions).value.calls[call];
            && i < |actions| && AnswersAt(cfg, actions, own, i, call, answered.reply.sandbox)
            && AllRepresentable(PairEffects(cfg, u, actions[..i], own))
            && op.Create? && (op.command.tenantId, op.command.idempotencyKey) == (PairOf(answered).0, Some(PairOf(answered).1))
            && var answer := Store.Apply(LockedState(PairEffects(cfg, u, actions[..i], own)), op).1;
               answer.Stored? && Reports(answer.sandbox, core) && Reports(answered.reply.sandbox, core)
  {
    i := ClusterRunIsSequentialByPair(cfg, u, actions, own, call);
    EarlierEffects(cfg, actions, own, i);
    var pair := PairOf(Cluster.Exec(cfg, Cluster.START, actions).value.calls[call]);
    var value := Sequential.EffectsOf(At(cfg, actions, i).value, actions[i], own)[0].value;
    var effects := PairEffects(cfg, u, actions[..i], own);
    TranslationRepresentable(cfg.digest, u, AllEffects(cfg, actions[..i], own));
    LockedStoreReports(effects);
    LockedStateConsistent(effects);
    op := OpFor(EnsureEntry(pair, value), |effects|, LockedState(effects));
    core := AnswerByPair(cfg, u, actions, own, i, pair, value);
    CreateAnswersAlike(LockedState(effects), PerformAll(map[], effects), pair, value, FreshId(|effects|));
  }
}
