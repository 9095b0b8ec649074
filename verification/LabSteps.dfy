/**
 What the lab workflows do to the node group and to the warm pool, over every run, whatever fails: the steps are made in
 the order written out here, every step that needs a file or a pool finds it checked, and a passed cleanup leaves
 nothing scaled up.
 */
module LabSteps {
  import opened Common
  import opened Lab

  /** The steps of a plan, one after another. */
  function StepsOf(items: seq<Item>): seq<Step> {
    if items == [] then []
    else
      var last := items[|items| - 1];
      StepsOf(items[..|items| - 1]) + match last case InPhase(_, steps) => steps case Bare(step) => [step]
  }

  lemma StepsOfSnoc(items: seq<Item>, item: Item)
    ensures StepsOf(items + [item]) == StepsOf(items) + match item case InPhase(_, steps) => steps case Bare(step) => [step]
  {
    assert (items + [item])[..|items|] == items;
  }

  lemma {:induction false} StepsOfAppend(items: seq<Item>, more: seq<Item>)
    ensures StepsOf(items + more) == StepsOf(items) + StepsOf(more)
    decreases |more|
  {
    if more == [] {
      assert items + more == items && StepsOf(items) + [] == StepsOf(items);
    } else {
      var init, last := more[..|more| - 1], more[|more| - 1];
      StepsOfAppend(items, init);
      assert (items + more)[..|items + more| - 1] == items + init;
      Assoc(StepsOf(items), StepsOf(init), match last case InPhase(_, steps) => steps case Bare(step) => [step]);
    }
  }

  /** From `begin` on, the log holds the first of these steps, in order. */
  predicate Follows(log: seq<Attempt>, begin: nat, steps: seq<Step>) {
    && begin <= |log| <= begin + |steps|
    && forall i :: begin <= i < |log| ==> log[i].step == steps[i - begin]
  }

  lemma FollowsOn(log: seq<Attempt>, begin: nat, steps: seq<Step>, longer: seq<Attempt>, more: seq<Step>)
    requires Follows(log, begin, steps) && |log| == begin + |steps| && log <= longer && Follows(longer, |log|, more)
    ensures Follows(longer, begin, steps + more)
  {
    forall i | begin <= i < |longer|
      ensures longer[i].step == (steps + more)[i - begin]
    {
      assert i < |log| ==> longer[i] == log[i];
    }
  }

  lemma ItemFollows(fails: Oracle, p: Progress, item: Item)
    requires p.failed.None?
    ensures var q, steps := AfterItem(fails, p, item), match item case InPhase(_, steps) => steps case Bare(step) => [step];
            p.log <= q.log && Follows(q.log, |p.log|, steps) && (q.failed.None? ==> |q.log| == |p.log| + |steps|)
  {
    match item {
      case InPhase(name, steps) => StepsRecorded(fails, p, steps, Some(name));
      case Bare(step) =>
        StepsSnoc(fails, p, [], step, None);
        StepsRecorded(fails, p, [] + [step], None);
    }
  }

  /** A plan is followed step by step, up to the first failure. */
  lemma {:induction false} PlanIsFollowed(fails: Oracle, p: Progress, items: seq<Item>)
    requires p.failed.None?
    ensures var q := AfterItems(fails, p, items);
            && p.log <= q.log && Follows(q.log, |p.log|, StepsOf(items))
            && (q.failed.None? ==> |q.log| == |p.log| + |StepsOf(items)|)
    decreases |items|
  {
    if items != [] {
      var init, last := items[..|items| - 1], items[|items| - 1];
      PlanIsFollowed(fails, p, init);
      var q := AfterItems(fails, p, init);
      if q.failed.None? {
        ItemFollows(fails, q, last);
        FollowsOn(q.log, |p.log|, StepsOf(init), AfterItem(fails, q, last).log,
                  match last case InPhase(_, steps) => steps case Bare(step) => [step]);
      }
    }
  }

  // ----- The steps, written out -----

  /** For each manifest in turn, a check that it is there and then its application. */
  predicate AppliesEach(steps: seq<Step>, manifests: nat) {
    && |steps| == 2 * manifests
    && forall k :: 0 <= k < manifests ==> steps[2 * k] == RequireManifest(k) && steps[2 * k + 1] == ApplyManifest(k)
  }

  lemma {:induction false} ManifestsInTurn(manifests: nat)
    ensures AppliesEach(ManifestSteps(manifests), manifests)
  {
    if manifests > 0 {
      ManifestsInTurn(manifests - 1);
    }
  }

  lemma SetupSteps(manifests: nat)
    ensures StepsOf(Setup(manifests))
         == [UpdateKubeconfig, ScaleUp, WaitForNodes(1), UpdateKubeconfig] + ManifestSteps(manifests)
            + [RequireInstallScript, RunInstallScript, RequireServiceManifests, ApplyServiceManifests]
  {
    var start, bootstrap := InPhase(NodeStart, START_NODE), InPhase(RuntimeBootstrap, Bootstrap(manifests));
    var install, deploy := InPhase(AgentSandboxInstall, INSTALL), InPhase(ServiceDeploy, DEPLOY);
    StepsOfSnoc([], start);
    StepsOfSnoc([] + [start], bootstrap);
    StepsOfSnoc([] + [start] + [bootstrap], install);
    StepsOfSnoc([] + [start] + [bootstrap] + [install], deploy);
    assert Setup(manifests) == [] + [start] + [bootstrap] + [install] + [deploy];
    assert [] + START_NODE + ([UpdateKubeconfig] + ManifestSteps(manifests)) + INSTALL + DEPLOY
        == START_NODE + [UpdateKubeconfig] + ManifestSteps(manifests) + (INSTALL + DEPLOY);
  }

  /** Whatever fails, `service` makes these steps and no others, in this order, up to the first failure; then it stops
      the node. */
  lemma ServiceSteps(fails: Oracle, manifests: nat, p: Progress) returns (manifestSteps: seq<Step>)
    requires p.failed.None?
    ensures AppliesEach(manifestSteps, manifests)
    ensures Follows(AfterItems(fails, p, ServicePlan(manifests)).log, |p.log|,
                    [UpdateKubeconfig, ScaleUp, WaitForNodes(1), UpdateKubeconfig] + manifestSteps
                    + [RequireInstallScript, RunInstallScript, RequireServiceManifests, ApplyServiceManifests]
                    + [RequireTestScript, RequireTestScript, RunAcceptance] + [SnapshotServiceResources])
  {
    manifestSteps := ManifestSteps(manifests);
    ManifestsInTurn(manifests);
    PlanIsFollowed(fails, p, ServicePlan(manifests));
    SetupSteps(manifests);
    StepsOfSnoc(Setup(manifests), InPhase(ServiceAcceptance, ACCEPTANCE));
    StepsOfSnoc(Setup(manifests) + [InPhase(ServiceAcceptance, ACCEPTANCE)], InPhase(ResourceSnapshot, [SnapshotServiceResources]));
  }

  // ----- The warm pool -----

  /** What the pool was last set to, and whether that size has been waited for since. */
  datatype Pool = Pool(size: Option<nat>, ready: bool)

  function PoolAfter(steps: seq<Step>): Pool {
    if steps == [] then Pool(None, false)
    else
      var before := PoolAfter(steps[..|steps| - 1]);
      match steps[|steps| - 1]
      case SetWarmPool(n) => Pool(Some(n), false)
      case WaitForWarmPool(n) => if before.size == Some(n) then before.(ready := true) else before
      case _ => before
  }

  lemma PoolSnoc(steps: seq<Step>, step: Step)
    ensures PoolAfter(steps + [step])
         == match step
            case SetWarmPool(n) => Pool(Some(n), false)
            case WaitForWarmPool(n) => (if PoolAfter(steps).size == Some(n) then PoolAfter(steps).(ready := true) else PoolAfter(steps))
            case _ => PoolAfter(steps)
  {
    assert (steps + [step])[..|steps|] == steps;
  }

  function PoolFor(mode: Mode): nat {
    if mode == Cold then 0 else 1
  }

  /** The step may be made here: what it uses has just been checked, and a sample meets the pool it is meant for. */
  predicate MayFollow(before: seq<Step>, step: Step) {
    match step
    case ApplyManifest(k) => before != [] && before[|before| - 1] == RequireManifest(k)
    case RunInstallScript => before != [] && before[|before| - 1] == RequireInstallScript
    case ApplyServiceManifests => before != [] && before[|before| - 1] == RequireServiceManifests
    case RunAcceptance => before != [] && before[|before| - 1] == RequireTestScript
    case RunSample(mode, _) =>
      && before != [] && before[|before| - 1] == RequireTestScript && PoolAfter(before) == Pool(Some(PoolFor(mode)), true)
      && (mode == Warm ==> |before| >= 2 && before[|before| - 2] == WaitForWarmPool(1))
    case _ => true
  }

  /** Every step of the list may be made where it stands. */
  predicate Guarded(steps: seq<Step>) {
    steps != [] ==> Guarded(steps[..|steps| - 1]) && MayFollow(steps[..|steps| - 1], steps[|steps| - 1])
  }

  lemma GuardedSnoc(steps: seq<Step>, step: Step)
    requires Guarded(steps) && MayFollow(steps, step)
    ensures Guarded(steps + [step])
  {
    assert (steps + [step])[..|steps|] == steps;
  }

  lemma {:induction false} GuardedAt(steps: seq<Step>, i: nat)
    requires Guarded(steps) && i < |steps|
    ensures MayFollow(steps[..i], steps[i])
    decreases |steps|
  {
    if i < |steps| - 1 {
      GuardedAt(steps[..|steps| - 1], i);
      assert steps[..|steps| - 1][..i] == steps[..i];
    }
  }

  /** Two more steps, the first of which any list allows. */
  lemma GuardedPair(steps: seq<Step>, first: Step, second: Step)
    requires Guarded(steps) && MayFollow(steps, first) && MayFollow(steps + [first], second)
    ensures Guarded(steps + [first, second])
    ensures PoolAfter(steps + [first, second]) == PoolAfter(steps + [first] + [second])
  {
    GuardedSnoc(steps, first);
    GuardedSnoc(steps + [first], second);
    assert steps + [first, second] == steps + [first] + [second];
  }

  lemma {:induction false} GuardedManifests(steps: seq<Step>, manifests: nat)
    requires Guarded(steps)
    ensures Guarded(steps + ManifestSteps(manifests))
  {
    if manifests == 0 {
      assert steps + [] == steps;
    } else {
      GuardedManifests(steps, manifests - 1);
      var before := steps + ManifestSteps(manifests - 1);
      GuardedPair(before, RequireManifest(manifests - 1), ApplyManifest(manifests - 1));
      Assoc(steps, ManifestSteps(manifests - 1), [RequireManifest(manifests - 1), ApplyManifest(manifests - 1)]);
    }
  }

  lemma GuardedStart()
    ensures Guarded([UpdateKubeconfig, ScaleUp, WaitForNodes(1), UpdateKubeconfig])
  {
    GuardedSnoc([], UpdateKubeconfig);
    var one := [] + [UpdateKubeconfig];
    GuardedSnoc(one, ScaleUp);
    GuardedSnoc(one + [ScaleUp], WaitForNodes(1));
    GuardedSnoc(one + [ScaleUp] + [WaitForNodes(1)], UpdateKubeconfig);
    assert one + [ScaleUp] + [WaitForNodes(1)] + [UpdateKubeconfig]
        == [UpdateKubeconfig, ScaleUp, WaitForNodes(1), UpdateKubeconfig];
  }

  lemma GuardedSetup(manifests: nat)
    ensures Guarded(StepsOf(Setup(manifests)))
  {
    SetupSteps(manifests);
    GuardedStart();
    var start := [UpdateKubeconfig, ScaleUp, WaitForNodes(1), UpdateKubeconfig];
    GuardedManifests(start, manifests);
    var before := start + ManifestSteps(manifests);
    GuardedPair(before, RequireInstallScript, RunInstallScript);
    GuardedPair(before + [RequireInstallScript, RunInstallScript], RequireServiceManifests, ApplyServiceManifests);
    assert before + [RequireInstallScript, RunInstallScript] + [RequireServiceManifests, ApplyServiceManifests]
        == before + [RequireInstallScript, RunInstallScript, RequireServiceManifests, ApplyServiceManifests];
  }

  lemma PoolReady(steps: seq<Step>, n: nat)
    requires Guarded(steps)
    ensures var r := steps + [SetWarmPool(n), WaitForWarmPool(n)];
            Guarded(r) && PoolAfter(r) == Pool(Some(n), true) && r[|r| - 1] == WaitForWarmPool(n)
  {
    GuardedPair(steps, SetWarmPool(n), WaitForWarmPool(n));
    PoolSnoc(steps, SetWarmPool(n));
    PoolSnoc(steps + [SetWarmPool(n)], WaitForWarmPool(n));
  }

  lemma OneSample(steps: seq<Step>, mode: Mode, index: nat)
    requires Guarded(steps) && PoolAfter(steps) == Pool(Some(PoolFor(mode)), true)
    requires mode == Warm ==> steps != [] && steps[|steps| - 1] == WaitForWarmPool(1)
    ensures var r := steps + [RequireTestScript, RunSample(mode, index)];
            Guarded(r) && PoolAfter(r) == Pool(Some(PoolFor(mode)), true)
  {
    PoolSnoc(steps, RequireTestScript);
    GuardedPair(steps, RequireTestScript, RunSample(mode, index));
    PoolSnoc(steps + [RequireTestScript], RunSample(mode, index));
  }

  lemma {:induction false} ColdAreGuarded(steps: seq<Step>, count: nat)
    requires Guarded(steps) && PoolAfter(steps) == Pool(Some(0), true)
    ensures var r := steps + StepsOf(ColdSamples(count)); Guarded(r) && PoolAfter(r) == Pool(Some(0), true)
  {
    if count == 0 {
      assert steps + [] == steps;
    } else {
      ColdAreGuarded(steps, count - 1);
      var before := StepsOf(ColdSamples(count - 1));
      StepsOfSnoc(ColdSamples(count - 1), InPhase(Sample(Cold, count), SampleSteps(Cold, count)));
      OneSample(steps + before, Cold, count);
      Assoc(steps, before, [RequireTestScript, RunSample(Cold, count)]);
    }
  }

  lemma AnotherWait(steps: seq<Step>)
    requires Guarded(steps) && PoolAfter(steps) == Pool(Some(1), true)
    ensures var r := steps + [WaitForWarmPool(1)];
            Guarded(r) && PoolAfter(r) == Pool(Some(1), true) && r[|r| - 1] == WaitForWarmPool(1)
  {
    GuardedSnoc(steps, WaitForWarmPool(1));
    PoolSnoc(steps, WaitForWarmPool(1));
  }

  lemma WarmStepsOf(count: nat)
    requires count > 0
    ensures StepsOf(WarmSamples(count))
         == StepsOf(WarmSamples(count - 1)) + (if count > 1 then [WaitForWarmPool(1)] else [])
            + [RequireTestScript, RunSample(Warm, count)]
  {
    var before := WarmSamples(count - 1);
    var sample := InPhase(Sample(Warm, count), SampleSteps(Warm, count));
    if count > 1 {
      StepsOfSnoc(before, Bare(WaitForWarmPool(1)));
      StepsOfSnoc(before + [Bare(WaitForWarmPool(1))], sample);
    } else {
      assert before + [] == before && StepsOf(before) + [] == StepsOf(before);
      StepsOfSnoc(before, sample);
    }
  }

  lemma OneWarm(steps: seq<Step>, again: bool, count: nat)
    requires Guarded(steps) && PoolAfter(steps) == Pool(Some(1), true)
    requires !again ==> steps != [] && steps[|steps| - 1] == WaitForWarmPool(1)
    ensures var r := steps + ((if again then [WaitForWarmPool(1)] else []) + [RequireTestScript, RunSample(Warm, count)]);
            Guarded(r) && PoolAfter(r) == Pool(Some(1), true)
  {
    if again {
      AnotherWait(steps);
      OneSample(steps + [WaitForWarmPool(1)], Warm, count);
      Assoc(steps, [WaitForWarmPool(1)], [RequireTestScript, RunSample(Warm, count)]);
    } else {
      OneSample(steps, Warm, count);
      assert [] + [RequireTestScript, RunSample(Warm, count)] == [RequireTestScript, RunSample(Warm, count)];
    }
  }

  lemma {:induction false} WarmAreGuarded(steps: seq<Step>, count: nat)
    requires Guarded(steps) && PoolAfter(steps) == Pool(Some(1), true)
    requires steps != [] && steps[|steps| - 1] == WaitForWarmPool(1)
    ensures var r := steps + StepsOf(WarmSamples(count)); Guarded(r) && PoolAfter(r) == Pool(Some(1), true)
  {
    if count == 0 {
      assert steps + [] == steps;
    } else {
      WarmAreGuarded(steps, count - 1);
      WarmStepsOf(count);
      var before := StepsOf(WarmSamples(count - 1));
      if count == 1 {
        assert steps + before == steps;
      }
      OneWarm(steps + before, count > 1, count);
      var more := (if count > 1 then [WaitForWarmPool(1)] else []) + [RequireTestScript, RunSample(Warm, count)];
      Assoc(before, if count > 1 then [WaitForWarmPool(1)] else [], [RequireTestScript, RunSample(Warm, count)]);
      Assoc(steps, before, more);
    }
  }

  lemma GuardedBenchmark(manifests: nat, iterations: nat)
    ensures Guarded(StepsOf(BenchmarkPlan(manifests, iterations)))
  {
    var cold, warm := InPhase(ColdPoolReady, PoolSteps(0)), InPhase(WarmPoolReady, PoolSteps(1));
    var setup := Setup(manifests);
    GuardedSetup(manifests);
    StepsOfSnoc(setup, cold);
    PoolReady(StepsOf(setup), 0);
    StepsOfAppend(setup + [cold], ColdSamples(iterations));
    ColdAreGuarded(StepsOf(setup + [cold]), iterations);
    var before := setup + [cold] + ColdSamples(iterations);
    StepsOfSnoc(before, warm);
    PoolReady(StepsOf(before), 1);
    StepsOfAppend(before + [warm], WarmSamples(iterations));
    WarmAreGuarded(StepsOf(before + [warm]), iterations);
  }

  lemma GuardedService(manifests: nat)
    ensures Guarded(StepsOf(ServicePlan(manifests)))
  {
    GuardedSetup(manifests);
    var setup := Setup(manifests);
    StepsOfSnoc(setup, InPhase(ServiceAcceptance, ACCEPTANCE));
    StepsOfSnoc(setup + [InPhase(ServiceAcceptance, ACCEPTANCE)], InPhase(ResourceSnapshot, [SnapshotServiceResources]));
    var before := StepsOf(setup);
    GuardedPair(before, RequireTestScript, RequireTestScript);
    GuardedSnoc(before + [RequireTestScript, RequireTestScript], RunAcceptance);
    GuardedSnoc(before + [RequireTestScript, RequireTestScript] + [RunAcceptance], SnapshotServiceResources);
    assert before + [RequireTestScript, RequireTestScript] + [RunAcceptance] == before + ACCEPTANCE;
  }

  /** The steps attempted so far. */
  function StepsIn(log: seq<Attempt>): (r: seq<Step>)
    ensures |r| == |log| && forall i :: 0 <= i < |r| ==> r[i] == log[i].step
  {
    seq(|log|, i requires 0 <= i < |log| => log[i].step)
  }

  /** In a run from an empty log, every step was made where it may be made, and every step before it had succeeded. */
  predicate EachGuarded(log: seq<Attempt>) {
    forall i :: 0 <= i < |log| ==> MayFollow(StepsIn(log[..i]), log[i].step) && forall j :: 0 <= j < i ==> log[j].ok
  }

  lemma FollowedIsGuarded(log: seq<Attempt>, steps: seq<Step>, failed: Option<nat>)
    requires Follows(log, 0, steps) && Guarded(steps) && FirstFailure(log, 0, failed)
    requires failed.Some? ==> failed.value == |log| - 1
    ensures EachGuarded(log)
  {
    forall i | 0 <= i < |log|
      ensures MayFollow(StepsIn(log[..i]), log[i].step)
    {
      GuardedAt(steps, i);
      assert StepsIn(log[..i]) == steps[..i];
    }
  }

  /** Whatever fails in `service`: a manifest is applied right after it was found, and so are the install script, the
      service manifests and the test script used right after they were found. */
  lemma ServiceChecksFirst(fails: Oracle, manifests: nat)
    ensures EachGuarded(AfterItems(fails, Progress([], [], None), ServicePlan(manifests)).log)
  {
    var p := Progress([], [], None);
    PlanIsFollowed(fails, p, ServicePlan(manifests));
    PlanLog(fails, p, ServicePlan(manifests));
    GuardedService(manifests);
    FollowedIsGuarded(AfterItems(fails, p, ServicePlan(manifests)).log, StepsOf(ServicePlan(manifests)),
                      AfterItems(fails, p, ServicePlan(manifests)).failed);
  }

  /** Whatever fails in `benchmark`, for every number of iterations: a cold sample is only taken with the pool last set
      to zero and a warm one with the pool last set to one, in both cases waited for, and a warm one right after such a
      wait; and everything that is applied or run was checked just before. */
  lemma SamplesMeetTheirPool(fails: Oracle, manifests: nat, iterations: nat)
    ensures EachGuarded(AfterItems(fails, Progress([], [], None), BenchmarkPlan(manifests, iterations)).log)
  {
    var p := Progress([], [], None);
    var plan := BenchmarkPlan(manifests, iterations);
    PlanIsFollowed(fails, p, plan);
    PlanLog(fails, p, plan);
    GuardedBenchmark(manifests, iterations);
    FollowedIsGuarded(AfterItems(fails, p, plan).log, StepsOf(plan), AfterItems(fails, p, plan).failed);
  }

  // ----- Phases -----

  /** The phase in which a step is made, where that is fixed. */
  predicate Belongs(step: Step, phase: Option<PhaseName>) {
    match step
    case ScaleUp => phase == Some(NodeStart)
    case ApplyManifest(_) => phase == Some(RuntimeBootstrap)
    case RunInstallScript => phase == Some(AgentSandboxInstall)
    case ApplyServiceManifests => phase == Some(ServiceDeploy)
    case RunAcceptance => phase == Some(ServiceAcceptance)
    case SnapshotServiceResources => phase == Some(ResourceSnapshot)
    case SetWarmPool(n) => phase == Some(if n == 0 then ColdPoolReady else WarmPoolReady)
    case RunSample(mode, index) => phase == Some(Sample(mode, index))
    case _ => true
  }

  predicate ItemBelongs(item: Item) {
    match item
    case InPhase(name, steps) => forall k :: 0 <= k < |steps| ==> Belongs(steps[k], Some(name))
    case Bare(step) => Belongs(step, None)
  }

  predicate AllBelong(items: seq<Item>) {
    forall i :: 0 <= i < |items| ==> ItemBelongs(items[i])
  }

  lemma {:induction false} PlanBelongs(fails: Oracle, p: Progress, items: seq<Item>)
    requires p.failed.None? && AllBelong(items)
    ensures var q := AfterItems(fails, p, items);
            |p.log| <= |q.log| && forall i :: |p.log| <= i < |q.log| ==> Belongs(q.log[i].step, q.log[i].phase)
    decreases |items|
  {
    if items != [] {
      var init, last := items[..|items| - 1], items[|items| - 1];
      PlanBelongs(fails, p, init);
      var q := AfterItems(fails, p, init);
      if q.failed.None? {
        ItemFollows(fails, q, last);
        ItemRecorded(fails, q, last);
      }
    }
  }

  lemma {:induction false} SamplesBelong(count: nat)
    ensures AllBelong(ColdSamples(count)) && AllBelong(WarmSamples(count))
  {
    if count > 0 {
      SamplesBelong(count - 1);
    }
  }

  lemma SetupBelongs(manifests: nat)
    ensures AllBelong(Setup(manifests))
  {
    ManifestsInTurn(manifests);
    var steps := ManifestSteps(manifests);
    forall k | 0 <= k < |Bootstrap(manifests)|
      ensures Belongs(Bootstrap(manifests)[k], Some(RuntimeBootstrap))
    {
      if k > 0 {
        EachIsManifest(steps, manifests, k - 1);
      }
    }
  }

  lemma EachIsManifest(steps: seq<Step>, manifests: nat, i: nat)
    requires AppliesEach(steps, manifests) && i < |steps|
    ensures steps[i].RequireManifest? || steps[i].ApplyManifest?
  {
    var k := i / 2;
    assert i == 2 * k || i == 2 * k + 1;
    assert steps[2 * k].RequireManifest? && steps[2 * k + 1].ApplyManifest?;
  }

  /** The phases of a plan. */
  function PhaseNames(items: seq<Item>): seq<PhaseName> {
    if items == [] then []
    else
      var last := items[|items| - 1];
      PhaseNames(items[..|items| - 1]) + if last.InPhase? then [last.name] else []
  }

  lemma PhaseNamesSnoc(items: seq<Item>, item: Item)
    ensures PhaseNames(items + [item]) == PhaseNames(items) + if item.InPhase? then [item.name] else []
  {
    assert (items + [item])[..|items|] == items;
  }

  lemma {:induction false} PhaseNamesAppend(items: seq<Item>, more: seq<Item>)
    ensures PhaseNames(items + more) == PhaseNames(items) + PhaseNames(more)
    decreases |more|
  {
    if more == [] {
      assert items + more == items && PhaseNames(items) + [] == PhaseNames(items);
    } else {
      var init, last := more[..|more| - 1], more[|more| - 1];
      PhaseNamesAppend(items, init);
      assert (items + more)[..|items + more| - 1] == items + init;
      Assoc(PhaseNames(items), PhaseNames(init), if last.InPhase? then [last.name] else []);
    }
  }

  lemma SetupNames(manifests: nat)
    ensures PhaseNames(Setup(manifests)) == [NodeStart, RuntimeBootstrap, AgentSandboxInstall, ServiceDeploy]
  {
    var a, b := InPhase(NodeStart, START_NODE), InPhase(RuntimeBootstrap, Bootstrap(manifests));
    var c, d := InPhase(AgentSandboxInstall, INSTALL), InPhase(ServiceDeploy, DEPLOY);
    PhaseNamesSnoc([], a);
    PhaseNamesSnoc([] + [a], b);
    PhaseNamesSnoc([] + [a] + [b], c);
    PhaseNamesSnoc([] + [a] + [b] + [c], d);
    assert Setup(manifests) == [] + [a] + [b] + [c] + [d];
  }

  /** One phase for each sample, numbered from one. */
  function Numbered(mode: Mode, count: nat): (r: seq<PhaseName>)
    ensures |r| == count && forall k :: 0 <= k < count ==> r[k] == Sample(mode, k + 1)
  {
    seq(count, k requires 0 <= k < count => Sample(mode, k + 1))
  }

  lemma NumberedSnoc(mode: Mode, count: nat)
    requires count > 0
    ensures Numbered(mode, count) == Numbered(mode, count - 1) + [Sample(mode, count)]
  {
  }

  lemma {:induction false} ColdNames(count: nat)
    ensures PhaseNames(ColdSamples(count)) == Numbered(Cold, count)
  {
    if count > 0 {
      ColdNames(count - 1);
      PhaseNamesSnoc(ColdSamples(count - 1), InPhase(Sample(Cold, count), SampleSteps(Cold, count)));
      NumberedSnoc(Cold, count);
    }
  }

  lemma {:induction false} WarmNames(count: nat)
    ensures PhaseNames(WarmSamples(count)) == Numbered(Warm, count)
  {
    if count > 0 {
      WarmNames(count - 1);
      NumberedSnoc(Warm, count);
      WaitHasNoName(WarmSamples(count - 1), count > 1);
      PhaseNamesSnoc(WarmSamples(count - 1) + if count > 1 then [Bare(WaitForWarmPool(1))] else [],
                     InPhase(Sample(Warm, count), SampleSteps(Warm, count)));
    }
  }

  lemma WaitHasNoName(items: seq<Item>, waits: bool)
    ensures PhaseNames(items + if waits then [Bare(WaitForWarmPool(1))] else []) == PhaseNames(items)
  {
    if waits {
      PhaseNamesSnoc(items, Bare(WaitForWarmPool(1)));
    } else {
      assert items + [] == items;
    }
  }

  lemma BenchmarkPlanNames(manifests: nat, iterations: nat)
    ensures PhaseNames(BenchmarkPlan(manifests, iterations))
         == [NodeStart, RuntimeBootstrap, AgentSandboxInstall, ServiceDeploy, ColdPoolReady] + Numbered(Cold, iterations)
            + [WarmPoolReady] + Numbered(Warm, iterations)
  {
    var setup, cold, warm := Setup(manifests), InPhase(ColdPoolReady, PoolSteps(0)), InPhase(WarmPoolReady, PoolSteps(1));
    SetupNames(manifests);
    PhaseNamesSnoc(setup, cold);
    var opening := setup + [cold];
    assert PhaseNames(opening) == [NodeStart, RuntimeBootstrap, AgentSandboxInstall, ServiceDeploy, ColdPoolReady];
    ColdNames(iterations);
    PhaseNamesAppend(opening, ColdSamples(iterations));
    var middle := opening + ColdSamples(iterations);
    PhaseNamesSnoc(middle, warm);
    WarmNames(iterations);
    PhaseNamesAppend(middle + [warm], WarmSamples(iterations));
  }

  lemma ServicePlanNames(manifests: nat)
    ensures PhaseNames(ServicePlan(manifests))
         == [NodeStart, RuntimeBootstrap, AgentSandboxInstall, ServiceDeploy, ServiceAcceptance, ResourceSnapshot]
  {
    SetupNames(manifests);
    PhaseNamesSnoc(Setup(manifests), InPhase(ServiceAcceptance, ACCEPTANCE));
    PhaseNamesSnoc(Setup(manifests) + [InPhase(ServiceAcceptance, ACCEPTANCE)], InPhase(ResourceSnapshot, [SnapshotServiceResources]));
  }

  /** From `begin` on, the results are those of the first of these phases, and all but the last passed. */
  predicate NamedInOrder(phases: seq<PhaseResult>, begin: nat, names: seq<PhaseName>) {
    && begin <= |phases| <= begin + |names|
    && (forall i :: begin <= i < |phases| ==> phases[i].name == names[i - begin])
    && (forall i :: begin <= i < |phases| - 1 ==> phases[i].passed)
  }

  lemma {:induction false} PassedNames(items: seq<Item>)
    ensures |Passed(items)| == |PhaseNames(items)|
    ensures forall i :: 0 <= i < |Passed(items)| ==> Passed(items)[i] == PhaseResult(PhaseNames(items)[i], true)
    decreases |items|
  {
    if items != [] {
      PassedNames(items[..|items| - 1]);
    }
  }

  lemma NamesOfPrefix(items: seq<Item>, k: nat)
    requires k <= |items|
    ensures PhaseNames(items[..k]) <= PhaseNames(items)
  {
    var init, rest := items[..k], items[k..];
    PhaseNamesAppend(init, rest);
    TakenApart(items, k);
    BeginsSum(PhaseNames(init), PhaseNames(rest));
  }

  lemma TakenApart<T>(s: seq<T>, k: nat)
    requires k <= |s|
    ensures s[..k] + s[k..] == s
  {
  }

  lemma BeginsSum<T>(a: seq<T>, b: seq<T>)
    ensures a <= a + b
  {
  }

  /** All of these passed, and they are named like that. */
  predicate PassedAs(phases: seq<PhaseResult>, names: seq<PhaseName>) {
    |phases| <= |names| && forall i :: 0 <= i < |phases| ==> phases[i] == PhaseResult(names[i], true)
  }

  lemma PassedPrefix(items: seq<Item>, k: nat)
    requires k <= |items|
    ensures PassedAs(Passed(items[..k]), PhaseNames(items)) && |Passed(items[..k])| == |PhaseNames(items[..k])|
  {
    PassedNames(items[..k]);
    NamesOfPrefix(items, k);
  }

  lemma FailsAs(phases: seq<PhaseResult>, name: PhaseName, names: seq<PhaseName>)
    requires PassedAs(phases, names) && |phases| < |names| && names[|phases|] == name
    ensures NamedInOrder(phases + [PhaseResult(name, false)], 0, names)
  {
  }

  lemma NextName(items: seq<Item>, k: nat)
    requires k < |items| && items[k].InPhase?
    ensures |PhaseNames(items[..k])| < |PhaseNames(items)| && PhaseNames(items)[|PhaseNames(items[..k])|] == items[k].name
  {
    var init := items[..k];
    PhaseNamesSnoc(init, items[k]);
    assert init + [items[k]] == items[..k + 1];
    NamesOfPrefix(items, k + 1);
  }

  lemma RecordedNamed(items: seq<Item>, k: nat)
    requires k <= |items|
    ensures NamedInOrder(Recorded(items, k), 0, PhaseNames(items))
  {
    var passed := Passed(items[..k]);
    PassedPrefix(items, k);
    if k < |items| && items[k].InPhase? {
      NextName(items, k);
      FailsAs(passed, items[k].name, PhaseNames(items));
    } else {
      assert passed + [] == passed;
    }
  }

  lemma NamedAfter(before: seq<PhaseResult>, phases: seq<PhaseResult>, names: seq<PhaseName>)
    requires NamedInOrder(phases, 0, names)
    ensures NamedInOrder(before + phases, |before|, names)
  {
  }

  lemma PlanNamed(fails: Oracle, p: Progress, items: seq<Item>)
    requires p.failed.None?
    ensures NamedInOrder(AfterItems(fails, p, items).phases, |p.phases|, PhaseNames(items))
  {
    var k := PassingPrefix(fails, p, items);
    PlanPhases(fails, p, items);
    RecordedNamed(items, k);
    NamedAfter(p.phases, Recorded(items, k), PhaseNames(items));
  }

  /** Whatever fails in `service`, its results name these phases in this order, up to the first that failed, and every
      step was made in the phase it belongs to. */
  lemma ServicePhases(fails: Oracle, manifests: nat, p: Progress)
    requires p.failed.None?
    ensures var q := AfterItems(fails, p, ServicePlan(manifests));
            && NamedInOrder(q.phases, |p.phases|, [NodeStart, RuntimeBootstrap, AgentSandboxInstall, ServiceDeploy,
                                                   ServiceAcceptance, ResourceSnapshot])
            && |p.log| <= |q.log| && (forall i :: |p.log| <= i < |q.log| ==> Belongs(q.log[i].step, q.log[i].phase))
  {
    PlanNamed(fails, p, ServicePlan(manifests));
    ServicePlanNames(manifests);
    SetupBelongs(manifests);
    PlanBelongs(fails, p, ServicePlan(manifests));
  }

  /** Whatever fails in `benchmark`, its results name the phases of the setup, the cold samples and the warm samples in
      order, one sample for each iteration, up to the first that failed, and every step was made in the phase it
      belongs to. */
  lemma BenchmarkPhases(fails: Oracle, manifests: nat, iterations: nat, p: Progress)
    requires p.failed.None?
    ensures var q := AfterItems(fails, p, BenchmarkPlan(manifests, iterations));
            && NamedInOrder(q.phases, |p.phases|,
                            [NodeStart, RuntimeBootstrap, AgentSandboxInstall, ServiceDeploy, ColdPoolReady]
                            + Numbered(Cold, iterations) + [WarmPoolReady] + Numbered(Warm, iterations))
            && |p.log| <= |q.log| && (forall i :: |p.log| <= i < |q.log| ==> Belongs(q.log[i].step, q.log[i].phase))
  {
    BenchmarkPlanNames(manifests, iterations);
    PlanNamed(fails, p, BenchmarkPlan(manifests, iterations));
    BenchmarkBelongs(manifests, iterations);
    PlanBelongs(fails, p, BenchmarkPlan(manifests, iterations));
  }

  lemma BenchmarkBelongs(manifests: nat, iterations: nat)
    ensures AllBelong(BenchmarkPlan(manifests, iterations))
  {
    SetupBelongs(manifests);
    SamplesBelong(iterations);
  }

  // ----- After the cleanup -----

  /** At `i` the node group was scaled down, with success, and it has not been scaled since; nor was the size of the
      pool changed. */
  predicate LeftDown(log: seq<Attempt>, i: int) {
    && 0 <= i < |log| && log[i].ok && log[i].step == ScaleDown
    && forall j :: i < j < |log| ==> !log[j].step.ScaleUp? && !log[j].step.ScaleDown? && !log[j].step.SetWarmPool?
  }

  lemma StoppedIsDown(log: seq<Attempt>, begin: nat, stop: nat)
    requires Stops(log, begin, stop) && log[|log| - 1].ok
    ensures |log| == stop + 3 && LeftDown(log, stop + 1) && log[|log| - 1].step == WaitForNodes(0)
  {
  }

  /** When `service` records its node stop as passed, whatever failed before, the last scaling was a successful one down
      to zero, and the nodes were waited for. */
  lemma ServiceLeavesNodeDown(fails: Oracle, manifests: nat, p: Progress)
    requires p.failed.None?
    ensures var end := ServiceEnd(fails, manifests, p);
            end.phases != [] && end.phases[|end.phases| - 1].name == NodeStop
            && (end.phases[|end.phases| - 1].passed ==>
                  |end.log| >= 2 && LeftDown(end.log, |end.log| - 2) && end.log[|end.log| - 1] == Attempt(WaitForNodes(0), Some(NodeStop), true))
  {
    ServiceRun(fails, manifests, p);
    var end := ServiceEnd(fails, manifests, p);
    if end.phases[|end.phases| - 1].passed {
      StoppedIsDown(end.log, |p.log|, |AfterItems(fails, p, ServicePlan(manifests)).log|);
    }
  }

  /** At `i` the pool was set to zero, with success, and it has not been set since. */
  predicate LeftEmpty(log: seq<Attempt>, i: int) {
    && 0 <= i < |log| && log[i].ok && log[i].step == SetWarmPool(0)
    && forall j :: i < j < |log| ==> !log[j].step.SetWarmPool?
  }

  lemma ResetIsEmpty(log: seq<Attempt>, begin: nat, reset: nat, stop: nat)
    requires ResetsThenStops(log, begin, reset, stop) && log[stop - 1].ok
    ensures LeftEmpty(log, reset)
  {
  }

  lemma ResetStoppedIsDown(log: seq<Attempt>, begin: nat, reset: nat, stop: nat)
    requires ResetsThenStops(log, begin, reset, stop) && log[|log| - 1].ok
    ensures |log| >= 2 && LeftDown(log, |log| - 2) && log[|log| - 1] == Attempt(WaitForNodes(0), Some(NodeStop), true)
  {
  }

  /** When `benchmark` records its pool cleanup as passed, the pool was last set to zero; when it records its node stop
      as passed, the last scaling was a successful one down to zero, and the nodes were waited for. */
  lemma BenchmarkLeavesNothingUp(fails: Oracle, manifests: nat, iterations: nat, p: Progress)
    requires p.failed.None?
    ensures var end := BenchmarkEnd(fails, manifests, iterations, p);
            && |end.phases| >= 2
            && end.phases[|end.phases| - 2].name == WarmPoolCleanup && end.phases[|end.phases| - 1].name == NodeStop
            && (end.phases[|end.phases| - 2].passed ==> exists i :: LeftEmpty(end.log, i))
            && (end.phases[|end.phases| - 1].passed ==>
                  |end.log| >= 2 && LeftDown(end.log, |end.log| - 2) && end.log[|end.log| - 1] == Attempt(WaitForNodes(0), Some(NodeStop), true))
  {
    var end := BenchmarkEnd(fails, manifests, iterations, p);
    var stop := BenchmarkRun(fails, manifests, iterations, p);
    var reset := |AfterItems(fails, p, BenchmarkPlan(manifests, iterations)).log|;
    if end.phases[|end.phases| - 2].passed {
      ResetIsEmpty(end.log, |p.log|, reset, stop);
    }
    if end.phases[|end.phases| - 1].passed {
      ResetStoppedIsDown(end.log, |p.log|, reset, stop);
    }
  }
}
