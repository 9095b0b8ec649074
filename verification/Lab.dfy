/**
 The lab workflows of `xolis_aws_lab.py`. Whatever the lab does (a command, a check for a file, a wait) is an
 attempt in its log, and the attempt at position `i` fails when the oracle says `fails(i)`; an exception is
 represented by the position of the attempt that raised it.
 */
module Lab {
  import opened Common

  datatype Mode = Cold | Warm

  datatype Step =
    | UpdateKubeconfig
    | ScaleUp
    | ScaleDown
    | WaitForNodes(atLeast: nat)
    | RequireManifest(index: nat)
    | ApplyManifest(index: nat)
    | RequireInstallScript
    | RunInstallScript
    | RequireServiceManifests
    | ApplyServiceManifests
    | RequireTestScript
    | RunAcceptance
    | RunSample(mode: Mode, index: nat)
    | SnapshotServiceResources
    | SetWarmPool(replicas: nat)
    | WaitForWarmPool(replicas: nat)
    | WriteSummary
    | WriteReport

  datatype PhaseName =
    | NodeStart | RuntimeBootstrap | AgentSandboxInstall | ServiceDeploy | ServiceAcceptance | ResourceSnapshot
    | ColdPoolReady | Sample(mode: Mode, index: nat) | WarmPoolReady | WarmPoolCleanup | NodeStop

  datatype PhaseResult = PhaseResult(name: PhaseName, passed: bool)

  /** `phase` is the phase the attempt was made in, if any. */
  datatype Attempt = Attempt(step: Step, phase: Option<PhaseName>, ok: bool)

  datatype Report = Report(passed: bool, phases: seq<PhaseResult>)

  type Oracle = nat -> bool

  // ----- What the workflows do, step by step -----

  datatype Item = InPhase(name: PhaseName, steps: seq<Step>) | Bare(step: Step)

  const START_NODE := [UpdateKubeconfig, ScaleUp, WaitForNodes(1)]
  const STOP_NODE := [UpdateKubeconfig, ScaleDown, WaitForNodes(0)]
  const INSTALL := [RequireInstallScript, RunInstallScript]
  const DEPLOY := [RequireServiceManifests, ApplyServiceManifests]
  const ACCEPTANCE := [RequireTestScript, RequireTestScript, RunAcceptance]

  function ManifestSteps(manifests: nat): seq<Step> {
    if manifests == 0 then [] else ManifestSteps(manifests - 1) + [RequireManifest(manifests - 1), ApplyManifest(manifests - 1)]
  }

  function Bootstrap(manifests: nat): seq<Step> {
    [UpdateKubeconfig] + ManifestSteps(manifests)
  }

  function PoolSteps(replicas: nat): seq<Step> {
    [SetWarmPool(replicas), WaitForWarmPool(replicas)]
  }

  function SampleSteps(mode: Mode, index: nat): seq<Step> {
    [RequireTestScript, RunSample(mode, index)]
  }

  function Setup(manifests: nat): seq<Item> {
    [InPhase(NodeStart, START_NODE), InPhase(RuntimeBootstrap, Bootstrap(manifests)), InPhase(AgentSandboxInstall, INSTALL),
     InPhase(ServiceDeploy, DEPLOY)]
  }

  function ServicePlan(manifests: nat): seq<Item> {
    Setup(manifests) + [InPhase(ServiceAcceptance, ACCEPTANCE)] + [InPhase(ResourceSnapshot, [SnapshotServiceResources])]
  }

  function ColdSamples(count: nat): seq<Item> {
    if count == 0 then [] else ColdSamples(count - 1) + [InPhase(Sample(Cold, count), SampleSteps(Cold, count))]
  }

  /** Between two warm samples the pool is waited for, outside any phase. */
  function WarmSamples(count: nat): seq<Item> {
    if count == 0 then []
    else
      WarmSamples(count - 1) + (if count > 1 then [Bare(WaitForWarmPool(1))] else [])
      + [InPhase(Sample(Warm, count), SampleSteps(Warm, count))]
  }

  function BenchmarkPlan(manifests: nat, iterations: nat): seq<Item> {
    Setup(manifests) + [InPhase(ColdPoolReady, PoolSteps(0))] + ColdSamples(iterations) + [InPhase(WarmPoolReady, PoolSteps(1))]
    + WarmSamples(iterations)
  }

  // ----- How far a workflow has got -----

  /** `failed` is the position of the attempt that raised the exception under way. */
  datatype Progress = Progress(log: seq<Attempt>, phases: seq<PhaseResult>, failed: Option<nat>)

  function AfterStep(fails: Oracle, p: Progress, step: Step, phase: Option<PhaseName>): Progress {
    if p.failed.Some? then p
    else
      p.(log := p.log + [Attempt(step, phase, !fails(|p.log|))], failed := if fails(|p.log|) then Some(|p.log|) else None)
  }

  function AfterSteps(fails: Oracle, p: Progress, steps: seq<Step>, phase: Option<PhaseName>): Progress {
    if steps == [] then p
    else AfterStep(fails, AfterSteps(fails, p, steps[..|steps| - 1], phase), steps[|steps| - 1], phase)
  }

  function AfterItem(fails: Oracle, p: Progress, item: Item): Progress {
    if p.failed.Some? then p
    else
      match item
      case Bare(step) => AfterStep(fails, p, step, None)
      case InPhase(name, steps) =>
        var q := AfterSteps(fails, p, steps, Some(name));
        q.(phases := q.phases + [PhaseResult(name, q.failed.None?)])
  }

  function AfterItems(fails: Oracle, p: Progress, items: seq<Item>): Progress {
    if items == [] then p else AfterItem(fails, AfterItems(fails, p, items[..|items| - 1]), items[|items| - 1])
  }

  /** A cleanup phase is attempted whatever happened before; its own failure is remembered only if it is the first. */
  function AfterCleanup(fails: Oracle, p: Progress, name: PhaseName, steps: seq<Step>): Progress {
    var q := AfterItem(fails, p.(failed := None), InPhase(name, steps));
    q.(failed := if p.failed.Some? then p.failed else q.failed)
  }

  function ServiceEnd(fails: Oracle, manifests: nat, p: Progress): Progress {
    AfterCleanup(fails, AfterItems(fails, p, ServicePlan(manifests)), NodeStop, STOP_NODE)
  }

  function BenchmarkEnd(fails: Oracle, manifests: nat, iterations: nat, p: Progress): Progress {
    var q := AfterCleanup(fails, AfterItems(fails, p, BenchmarkPlan(manifests, iterations)), WarmPoolCleanup, PoolSteps(0));
    AfterCleanup(fails, q, NodeStop, STOP_NODE)
  }

  /** Files written at the end; an error there takes the place of the one remembered. */
  function Written(fails: Oracle, end: Progress, files: seq<Step>): Progress {
    AfterSteps(fails, end.(failed := None), files, None)
  }

  datatype Outcome = Completed | InvalidIterations | Raised(at: nat)

  function OutcomeOf(end: Progress, written: Progress): Outcome {
    if written.failed.Some? then Raised(written.failed.value)
    else if end.failed.Some? then Raised(end.failed.value)
    else Completed
  }

  lemma StepsSnoc(fails: Oracle, p: Progress, steps: seq<Step>, step: Step, phase: Option<PhaseName>)
    ensures AfterSteps(fails, p, steps + [step], phase) == AfterStep(fails, AfterSteps(fails, p, steps, phase), step, phase)
  {
    assert (steps + [step])[..|steps|] == steps;
  }

  lemma ItemsSnoc(fails: Oracle, p: Progress, items: seq<Item>, item: Item)
    ensures AfterItems(fails, p, items + [item]) == AfterItem(fails, AfterItems(fails, p, items), item)
  {
    assert (items + [item])[..|items|] == items;
  }

  /** Nothing happens after a failure. */
  lemma {:induction false} FailedSteps(fails: Oracle, p: Progress, steps: seq<Step>, more: seq<Step>, phase: Option<PhaseName>)
    requires AfterSteps(fails, p, steps, phase).failed.Some?
    ensures AfterSteps(fails, p, steps + more, phase) == AfterSteps(fails, p, steps, phase)
    decreases |more|
  {
    if more == [] {
      assert steps + more == steps;
    } else {
      var init := more[..|more| - 1];
      FailedSteps(fails, p, steps, init, phase);
      StepsSnoc(fails, p, steps + init, more[|more| - 1], phase);
      assert steps + init + [more[|more| - 1]] == steps + more;
    }
  }

  lemma {:induction false} FailedItems(fails: Oracle, p: Progress, items: seq<Item>, more: seq<Item>)
    requires AfterItems(fails, p, items).failed.Some?
    ensures AfterItems(fails, p, items + more) == AfterItems(fails, p, items)
    decreases |more|
  {
    if more == [] {
      assert items + more == items;
    } else {
      var init := more[..|more| - 1];
      FailedItems(fails, p, items, init);
      ItemsSnoc(fails, p, items + init, more[|more| - 1]);
      assert items + init + [more[|more| - 1]] == items + more;
    }
  }

  lemma {:induction false} ItemsAppend(fails: Oracle, p: Progress, items: seq<Item>, more: seq<Item>)
    ensures AfterItems(fails, p, items + more) == AfterItems(fails, AfterItems(fails, p, items), more)
    decreases |more|
  {
    if more == [] {
      assert items + more == items;
    } else {
      var init, last := more[..|more| - 1], more[|more| - 1];
      ItemsAppend(fails, p, items, init);
      ItemsSnoc(fails, p, items + init, last);
      assert items + init + [last] == items + more;
    }
  }

  lemma FailedBefore(fails: Oracle, p: Progress, items: seq<Item>)
    requires p.failed.Some?
    ensures AfterItems(fails, p, items) == p
  {
    FailedItems(fails, p, [], items);
    assert [] + items == items;
  }

  // ----- The lab -----

  class AwsLab {
    const manifests: nat
    const fails: Oracle
    var phaseResults: seq<PhaseResult>
    var log: seq<Attempt>
    var reports: seq<Report>

    constructor (manifests: nat, fails: Oracle)
      ensures this.manifests == manifests && this.fails == fails
      ensures phaseResults == [] && log == [] && reports == []
    {
      this.manifests := manifests;
      this.fails := fails;
      phaseResults, log, reports := [], [], [];
    }

    ghost function At(failed: Option<nat>): Progress
      reads this
    {
      Progress(log, phaseResults, failed)
    }

    method Perform(step: Step, phase: Option<PhaseName>) returns (failure: Option<nat>)
      modifies this`log
      ensures At(failure) == AfterStep(fails, old(At(None)), step, phase)
    {
      failure := if fails(|log|) then Some(|log|) else None;
      log := log + [Attempt(step, phase, failure.None?)];
    }

    /** The context manager around a body: the phase is recorded however the body ends. */
    method Phase(name: PhaseName, steps: seq<Step>) returns (failure: Option<nat>)
      modifies this`log, this`phaseResults
      ensures At(failure) == AfterItem(fails, old(At(None)), InPhase(name, steps))
    {
      failure := None;
      var i := 0;
      while i < |steps| && failure.None?
        invariant i <= |steps| && phaseResults == old(phaseResults)
        invariant At(failure) == AfterSteps(fails, old(At(None)), steps[..i], Some(name))
      {
        StepsSnoc(fails, old(At(None)), steps[..i], steps[i], Some(name));
        assert steps[..i] + [steps[i]] == steps[..i + 1];
        failure := Perform(steps[i], Some(name));
        i := i + 1;
      }
      if failure.Some? {
        FailedSteps(fails, old(At(None)), steps[..i], steps[i..], Some(name));
        assert steps[..i] + steps[i..] == steps;
      } else {
        assert steps[..i] == steps;
      }
      phaseResults := phaseResults + [PhaseResult(name, failure.None?)];
    }

    /** The `try` block of `service`. */
    method ServiceBody() returns (failure: Option<nat>)
      modifies this`log, this`phaseResults
      ensures At(failure) == AfterItems(fails, old(At(None)), ServicePlan(manifests))
    {
      failure := SetupBody();
      if failure.None? {
        failure := Phase(ServiceAcceptance, ACCEPTANCE);
      }
      ghost var items := Setup(manifests) + [InPhase(ServiceAcceptance, ACCEPTANCE)];
      ItemsSnoc(fails, old(At(None)), Setup(manifests), InPhase(ServiceAcceptance, ACCEPTANCE));
      assert At(failure) == AfterItems(fails, old(At(None)), items);
      if failure.None? {
        failure := Phase(ResourceSnapshot, [SnapshotServiceResources]);
      }
      ItemsSnoc(fails, old(At(None)), items, InPhase(ResourceSnapshot, [SnapshotServiceResources]));
    }

    /** The four phases both workflows begin with. */
    method SetupBody() returns (failure: Option<nat>)
      modifies this`log, this`phaseResults
      ensures At(failure) == AfterItems(fails, old(At(None)), Setup(manifests))
    {
      ghost var begin := At(None);
      ghost var items := [];
      failure := Phase(NodeStart, START_NODE);
      ItemsSnoc(fails, begin, items, InPhase(NodeStart, START_NODE));
      items := items + [InPhase(NodeStart, START_NODE)];
      if failure.None? {
        failure := Phase(RuntimeBootstrap, Bootstrap(manifests));
      }
      ItemsSnoc(fails, begin, items, InPhase(RuntimeBootstrap, Bootstrap(manifests)));
      items := items + [InPhase(RuntimeBootstrap, Bootstrap(manifests))];
      if failure.None? {
        failure := Phase(AgentSandboxInstall, INSTALL);
      }
      ItemsSnoc(fails, begin, items, InPhase(AgentSandboxInstall, INSTALL));
      items := items + [InPhase(AgentSandboxInstall, INSTALL)];
      if failure.None? {
        failure := Phase(ServiceDeploy, DEPLOY);
      }
      ItemsSnoc(fails, begin, items, InPhase(ServiceDeploy, DEPLOY));
      assert items + [InPhase(ServiceDeploy, DEPLOY)] == Setup(manifests);
    }

    /** A cleanup block after the body; `failure` is the exception remembered so far. */
    method Cleanup(name: PhaseName, steps: seq<Step>, failure: Option<nat>) returns (remembered: Option<nat>)
      modifies this`log, this`phaseResults
      ensures At(remembered) == AfterCleanup(fails, old(At(failure)), name, steps)
    {
      var own := Phase(name, steps);
      remembered := if failure.Some? then failure else own;
    }

    /** The report says passed when no exception is remembered. */
    method WriteWorkflowReport(failure: Option<nat>) returns (own: Option<nat>)
      modifies this`log, this`reports
      ensures At(own) == AfterStep(fails, old(At(None)), WriteReport, None)
      ensures reports == old(reports) + if own.None? then [Report(failure.None?, phaseResults)] else []
    {
      own := Perform(WriteReport, None);
      if own.None? {
        reports := reports + [Report(failure.None?, phaseResults)];
      }
    }

    method Service() returns (outcome: Outcome)
      modifies this
      ensures var end := ServiceEnd(fails, manifests, old(At(None)));
              var written := Written(fails, end, [WriteReport]);
              && log == written.log && phaseResults == end.phases && outcome == OutcomeOf(end, written)
              && reports == old(reports) + if written.failed.None? then [Report(end.failed.None?, end.phases)] else []
    {
      var failure := ServiceBody();
      failure := Cleanup(NodeStop, STOP_NODE, failure);
      ghost var end := At(failure);
      StepsSnoc(fails, end.(failed := None), [], WriteReport, None);
      var own := WriteWorkflowReport(failure);
      outcome := if own.Some? then Raised(own.value) else if failure.Some? then Raised(failure.value) else Completed;
    }

    method ColdBody(iterations: nat) returns (failure: Option<nat>)
      modifies this`log, this`phaseResults
      ensures At(failure) == AfterItems(fails, old(At(None)), ColdSamples(iterations))
    {
      failure := None;
      for index := 1 to iterations + 1
        invariant At(failure) == AfterItems(fails, old(At(None)), ColdSamples(index - 1))
      {
        var item := InPhase(Sample(Cold, index), SampleSteps(Cold, index));
        ItemsSnoc(fails, old(At(None)), ColdSamples(index - 1), item);
        if failure.None? {
          failure := Phase(Sample(Cold, index), SampleSteps(Cold, index));
        }
      }
    }

    method WarmBody(iterations: nat) returns (failure: Option<nat>)
      modifies this`log, this`phaseResults
      ensures At(failure) == AfterItems(fails, old(At(None)), WarmSamples(iterations))
    {
      failure := None;
      for index := 1 to iterations + 1
        invariant At(failure) == AfterItems(fails, old(At(None)), WarmSamples(index - 1))
      {
        if index > 1 {
          ItemsSnoc(fails, old(At(None)), WarmSamples(index - 1), Bare(WaitForWarmPool(1)));
          if failure.None? {
            failure := Perform(WaitForWarmPool(1), None);
          }
        }
        ghost var items := WarmSamples(index - 1) + if index > 1 then [Bare(WaitForWarmPool(1))] else [];
        assert At(failure) == AfterItems(fails, old(At(None)), items) by {
          assert WarmSamples(index - 1) + [] == WarmSamples(index - 1);
        }
        ItemsSnoc(fails, old(At(None)), items, InPhase(Sample(Warm, index), SampleSteps(Warm, index)));
        if failure.None? {
          failure := Phase(Sample(Warm, index), SampleSteps(Warm, index));
        }
      }
    }

    /** The `try` block of `benchmark`. */
    method BenchmarkBody(iterations: nat) returns (failure: Option<nat>)
      modifies this`log, this`phaseResults
      ensures At(failure) == AfterItems(fails, old(At(None)), BenchmarkPlan(manifests, iterations))
    {
      ghost var begin := At(None);
      ghost var items := Setup(manifests);
      failure := SetupBody();
      ItemsSnoc(fails, begin, items, InPhase(ColdPoolReady, PoolSteps(0)));
      items := items + [InPhase(ColdPoolReady, PoolSteps(0))];
      if failure.None? {
        failure := Phase(ColdPoolReady, PoolSteps(0));
      }
      ItemsAppend(fails, begin, items, ColdSamples(iterations));
      items := items + ColdSamples(iterations);
      if failure.None? {
        failure := ColdBody(iterations);
      } else {
        FailedBefore(fails, At(failure), ColdSamples(iterations));
      }
      assert At(failure) == AfterItems(fails, begin, items);
      ItemsSnoc(fails, begin, items, InPhase(WarmPoolReady, PoolSteps(1)));
      items := items + [InPhase(WarmPoolReady, PoolSteps(1))];
      if failure.None? {
        failure := Phase(WarmPoolReady, PoolSteps(1));
      }
      ItemsAppend(fails, begin, items, WarmSamples(iterations));
      if failure.None? {
        failure := WarmBody(iterations);
      } else {
        FailedBefore(fails, At(failure), WarmSamples(iterations));
      }
    }

    method Benchmark(iterations: int) returns (outcome: Outcome)
      modifies this
      ensures iterations < 1 ==>
                outcome == InvalidIterations && log == old(log) && phaseResults == old(phaseResults) && reports == old(reports)
      ensures iterations >= 1 ==>
                var end := BenchmarkEnd(fails, manifests, iterations, old(At(None)));
                var written := Written(fails, end, [WriteSummary, WriteReport]);
                && log == written.log && phaseResults == end.phases && outcome == OutcomeOf(end, written)
                && reports == old(reports) + if written.failed.None? then [Report(end.failed.None?, end.phases)] else []
    {
      if iterations < 1 {
        return InvalidIterations;
      }
      var failure := BenchmarkBody(iterations);
      failure := Cleanup(WarmPoolCleanup, PoolSteps(0), failure);
      failure := Cleanup(NodeStop, STOP_NODE, failure);
      ghost var end := At(failure);
      StepsSnoc(fails, end.(failed := None), [], WriteSummary, None);
      StepsSnoc(fails, end.(failed := None), [WriteSummary], WriteReport, None);
      assert [WriteSummary] + [WriteReport] == [WriteSummary, WriteReport];
      var own := Perform(WriteSummary, None);
      if own.None? {
        own := WriteWorkflowReport(failure);
      }
      outcome := if own.Some? then Raised(own.value) else if failure.Some? then Raised(failure.value) else Completed;
    }
  }

  // ----- What a run records -----

  function Passed(items: seq<Item>): seq<PhaseResult> {
    if items == [] then []
    else
      var last := items[|items| - 1];
      Passed(items[..|items| - 1]) + if last.InPhase? then [PhaseResult(last.name, true)] else []
  }

  lemma PassedSnoc(items: seq<Item>, item: Item)
    ensures Passed(items + [item]) == Passed(items) + if item.InPhase? then [PhaseResult(item.name, true)] else []
  {
    assert (items + [item])[..|items|] == items;
  }

  /** All attempts in `log` from `begin` on, but the one at `failed`, succeeded. */
  predicate FirstFailure(log: seq<Attempt>, begin: int, failed: Option<nat>) {
    match failed
    case None => forall i :: 0 <= begin <= i < |log| ==> log[i].ok
    case Some(at) => 0 <= begin <= at < |log| && !log[at].ok && forall i :: begin <= i < at ==> log[i].ok
  }

  predicate MadeIn(log: seq<Attempt>, begin: int, phase: Option<PhaseName>) {
    forall i :: 0 <= begin <= i < |log| ==> log[i].phase == phase
  }

  /** The steps of a body are attempted in order up to the first failure, which is the last attempt. */
  lemma {:induction false} StepsRecorded(fails: Oracle, p: Progress, steps: seq<Step>, phase: Option<PhaseName>)
    requires p.failed.None?
    ensures var q := AfterSteps(fails, p, steps, phase);
            && p.log <= q.log && q.phases == p.phases && MadeIn(q.log, |p.log|, phase)
            && |q.log| - |p.log| <= |steps| && (forall i :: |p.log| <= i < |q.log| ==> q.log[i].step == steps[i - |p.log|])
            && FirstFailure(q.log, |p.log|, q.failed)
            && (q.failed.None? ==> |q.log| - |p.log| == |steps|)
            && (q.failed.Some? ==> q.failed.value == |q.log| - 1)
    decreases |steps|
  {
    if steps != [] {
      StepsRecorded(fails, p, steps[..|steps| - 1], phase);
    }
  }

  lemma ItemRecorded(fails: Oracle, p: Progress, item: Item)
    requires p.failed.None?
    ensures var q, phase := AfterItem(fails, p, item), if item.InPhase? then Some(item.name) else None;
            && p.log <= q.log && MadeIn(q.log, |p.log|, phase) && FirstFailure(q.log, |p.log|, q.failed)
            && q.phases == p.phases + (if item.InPhase? then [PhaseResult(item.name, q.failed.None?)] else [])
            && (q.failed.Some? ==> q.failed.value == |q.log| - 1)
  {
    match item {
      case InPhase(name, steps) => StepsRecorded(fails, p, steps, Some(name));
      case Bare(step) =>
        StepsSnoc(fails, p, [], step, None);
        StepsRecorded(fails, p, [] + [step], None);
        assert p.phases + [] == p.phases;
    }
  }

  /** The phases of a plan, when its first `k` items pass and the next one, if there is one, fails. */
  function Recorded(items: seq<Item>, k: nat): seq<PhaseResult>
    requires k <= |items|
  {
    Passed(items[..k]) + if k < |items| && items[k].InPhase? then [PhaseResult(items[k].name, false)] else []
  }

  /** How many items of a plan pass before the first that fails. */
  function PassingPrefix(fails: Oracle, p: Progress, items: seq<Item>): nat {
    if items == [] || AfterItems(fails, p, items).failed.None? then |items|
    else PassingPrefix(fails, p, items[..|items| - 1])
  }

  lemma {:induction false} PassingPrefixIsLongest(fails: Oracle, p: Progress, items: seq<Item>)
    requires p.failed.None?
    ensures var k := PassingPrefix(fails, p, items);
            && k <= |items| && (k == |items| <==> AfterItems(fails, p, items).failed.None?)
            && AfterItems(fails, p, items[..k]).failed.None?
            && (k < |items| ==> AfterItems(fails, p, items[..k + 1]).failed.Some?)
    decreases |items|
  {
    var k := PassingPrefix(fails, p, items);
    if items == [] || AfterItems(fails, p, items).failed.None? {
      assert items[..|items|] == items;
    } else {
      var init := items[..|items| - 1];
      PassingPrefixIsLongest(fails, p, init);
      assert init[..k] == items[..k];
      if k < |init| {
        assert init[..k + 1] == items[..k + 1];
      } else {
        assert items[..k + 1] == items;
      }
    }
  }

  /** The first failure in the log of a plan is its last attempt, made in the phase that failed, if in any. */
  lemma {:induction false} PlanLog(fails: Oracle, p: Progress, items: seq<Item>)
    requires p.failed.None?
    ensures var q, k := AfterItems(fails, p, items), PassingPrefix(fails, p, items);
            && p.log <= q.log && FirstFailure(q.log, |p.log|, q.failed)
            && (q.failed.Some? ==>
                  && k < |items| && q.failed.value == |q.log| - 1
                  && q.log[q.failed.value].phase == if items[k].InPhase? then Some(items[k].name) else None)
    decreases |items|
  {
    PassingPrefixIsLongest(fails, p, items);
    if items != [] {
      var init := items[..|items| - 1];
      PlanLog(fails, p, init);
      if AfterItems(fails, p, init).failed.None? {
        PassingPrefixIsLongest(fails, p, init);
        ItemRecorded(fails, AfterItems(fails, p, init), items[|items| - 1]);
      }
    }
  }

  lemma RecordedOfInit(items: seq<Item>, k: nat)
    requires k < |items| - 1
    ensures Recorded(items, k) == Recorded(items[..|items| - 1], k)
  {
    assert items[..k] == items[..|items| - 1][..k];
  }

  lemma RecordedInFull(items: seq<Item>)
    ensures Recorded(items, |items|) == Passed(items)
  {
    assert items[..|items|] == items;
  }

  lemma RecordedSnoc(init: seq<Item>, last: Item, passed: bool)
    ensures Recorded(init + [last], if passed then |init| + 1 else |init|)
         == Passed(init) + if last.InPhase? then [PhaseResult(last.name, passed)] else []
  {
    if passed {
      RecordedInFull(init + [last]);
      PassedSnoc(init, last);
    } else {
      assert (init + [last])[..|init|] == init;
    }
  }

  /** A plan records its longest passing prefix and then, if there is one, the phase that fails. */
  lemma {:induction false} PlanPhases(fails: Oracle, p: Progress, items: seq<Item>)
    requires p.failed.None?
    ensures PassingPrefix(fails, p, items) <= |items|
    ensures AfterItems(fails, p, items).phases == p.phases + Recorded(items, PassingPrefix(fails, p, items))
    decreases |items|
  {
    PassingPrefixIsLongest(fails, p, items);
    if items == [] {
      assert p.phases + Recorded([], 0) == p.phases;
    } else {
      var init, last := items[..|items| - 1], items[|items| - 1];
      PlanPhases(fails, p, init);
      PassingPrefixIsLongest(fails, p, init);
      assert init + [last] == items;
      if AfterItems(fails, p, init).failed.Some? {
        RecordedOfInit(items, PassingPrefix(fails, p, init));
      } else {
        PhasesOfSnoc(fails, p, init, last);
      }
    }
  }

  lemma PhasesOfSnoc(fails: Oracle, p: Progress, init: seq<Item>, last: Item)
    requires p.failed.None? && AfterItems(fails, p, init).failed.None?
    requires AfterItems(fails, p, init).phases == p.phases + Recorded(init, |init|)
    ensures var q := AfterItems(fails, p, init + [last]);
            q.phases == p.phases + Recorded(init + [last], if q.failed.None? then |init| + 1 else |init|)
  {
    ItemsSnoc(fails, p, init, last);
    ItemRecorded(fails, AfterItems(fails, p, init), last);
    RecordedInFull(init);
    var q := AfterItems(fails, p, init + [last]);
    RecordedSnoc(init, last, q.failed.None?);
    Assoc(p.phases, Passed(init), if last.InPhase? then [PhaseResult(last.name, q.failed.None?)] else []);
  }

  lemma {:induction false} PassedAllPass(items: seq<Item>)
    ensures forall i :: 0 <= i < |Passed(items)| ==> Passed(items)[i].passed
    decreases |items|
  {
    if items != [] {
      PassedAllPass(items[..|items| - 1]);
    }
  }

  /** Only the phases of its own items appear in the log of a plan. */
  predicate Avoids(items: seq<Item>, phase: Option<PhaseName>) {
    forall i :: 0 <= i < |items| ==> (if items[i].InPhase? then Some(items[i].name) else None) != phase
  }

  predicate NoAttempt(log: seq<Attempt>, begin: int, end: int, phase: Option<PhaseName>) {
    forall i :: 0 <= begin <= i < end <= |log| ==> log[i].phase != phase
  }

  lemma {:induction false} PlanAvoids(fails: Oracle, p: Progress, items: seq<Item>, phase: Option<PhaseName>)
    requires p.failed.None? && Avoids(items, phase)
    ensures var q := AfterItems(fails, p, items); NoAttempt(q.log, |p.log|, |q.log|, phase)
    decreases |items|
  {
    if items != [] {
      var init := items[..|items| - 1];
      PlanAvoids(fails, p, init, phase);
      if AfterItems(fails, p, init).failed.None? {
        ItemRecorded(fails, AfterItems(fails, p, init), items[|items| - 1]);
      }
    }
  }

  // ----- The workflows -----

  predicate AllPassed(phases: seq<PhaseResult>, begin: nat) {
    forall i :: begin <= i < |phases| ==> phases[i].passed
  }

  /** From `at` to `end` the log holds the attempts of one cleanup phase: its steps in order, up to the first
      that fails, and at least one. */
  predicate CleanedUp(log: seq<Attempt>, at: nat, end: nat, name: PhaseName, steps: seq<Step>) {
    && at < end <= |log| && end - at <= |steps|
    && (forall i :: at <= i < end ==> log[i].phase == Some(name) && log[i].step == steps[i - at])
    && (forall i :: at <= i < end - 1 ==> log[i].ok)
    && (end - at < |steps| ==> !log[end - 1].ok)
  }

  lemma CleanupRecorded(fails: Oracle, p: Progress, name: PhaseName, steps: seq<Step>, begin: nat)
    requires begin <= |p.log| && FirstFailure(p.log, begin, p.failed) && steps != []
    ensures var q := AfterCleanup(fails, p, name, steps);
            && p.log < q.log && CleanedUp(q.log, |p.log|, |q.log|, name, steps)
            && FirstFailure(q.log, begin, q.failed)
            && q.phases == p.phases + [PhaseResult(name, q.log[|q.log| - 1].ok)]
            && (q.failed.None? <==> p.failed.None? && q.log[|q.log| - 1].ok)
  {
    StepsRecorded(fails, p.(failed := None), steps, Some(name));
    var q := AfterCleanup(fails, p, name, steps);
    assert forall i :: 0 <= i < |p.log| ==> q.log[i] == p.log[i];
  }

  /** No attempt made outside a phase failed. */
  predicate OutsideOk(log: seq<Attempt>, begin: nat) {
    forall i :: begin <= i < |log| && log[i].phase.None? ==> log[i].ok
  }

  /** A plan passes exactly when all recorded phases passed and nothing outside a phase failed. */
  lemma PlanStatus(fails: Oracle, p: Progress, items: seq<Item>)
    requires p.failed.None?
    ensures var q := AfterItems(fails, p, items);
            |p.phases| <= |q.phases| && |p.log| <= |q.log|
            && (q.failed.None? <==> AllPassed(q.phases, |p.phases|) && OutsideOk(q.log, |p.log|))
  {
    var k := PassingPrefix(fails, p, items);
    PassingPrefixIsLongest(fails, p, items);
    PlanLog(fails, p, items);
    PlanPhases(fails, p, items);
    PassedAllPass(items[..k]);
    var q := AfterItems(fails, p, items);
    if k < |items| && items[k].InPhase? {
      assert !q.phases[|q.phases| - 1].passed;
    }
  }

  lemma CleanupStatus(fails: Oracle, p: Progress, name: PhaseName, steps: seq<Step>, begin: nat, phases: nat)
    requires begin <= |p.log| && phases <= |p.phases| && FirstFailure(p.log, begin, p.failed) && steps != []
    requires p.failed.None? <==> AllPassed(p.phases, phases) && OutsideOk(p.log, begin)
    ensures var q := AfterCleanup(fails, p, name, steps);
            q.failed.None? <==> AllPassed(q.phases, phases) && OutsideOk(q.log, begin)
  {
    CleanupRecorded(fails, p, name, steps, begin);
    var q := AfterCleanup(fails, p, name, steps);
    assert q.phases[|p.phases|].passed == q.log[|q.log| - 1].ok;
    assert forall i :: 0 <= i < |p.phases| ==> q.phases[i] == p.phases[i];
    assert forall i :: 0 <= i < |p.log| ==> q.log[i] == p.log[i];
  }

  lemma ServicePlanShape(manifests: nat)
    ensures Avoids(ServicePlan(manifests), Some(NodeStop)) && Avoids(ServicePlan(manifests), None)
  {
  }

  /** What `service` and `benchmark` have in common: the longest passing prefix of the plan is recorded, then the
      failing phase if there is one, then the cleanup phases; and the remembered error is the first in the log. */
  ghost predicate RunsPlan(fails: Oracle, p: Progress, plan: seq<Item>, end: Progress, cleanups: seq<PhaseResult>) {
    var k := PassingPrefix(fails, p, plan);
    && k <= |plan| && AfterItems(fails, p, plan[..k]).failed.None?
    && (k < |plan| ==> AfterItems(fails, p, plan[..k + 1]).failed.Some?)
    && end.phases == p.phases + Recorded(plan, k) + cleanups
    && FirstFailure(end.log, |p.log|, end.failed)
  }

  /** The node stop is attempted exactly once, after everything else. */
  ghost predicate Stops(log: seq<Attempt>, begin: nat, stop: nat) {
    && begin <= stop < |log| && CleanedUp(log, stop, |log|, NodeStop, [UpdateKubeconfig, ScaleDown, WaitForNodes(0)])
    && NoAttempt(log, begin, stop, Some(NodeStop))
  }

  /** A run of a plan followed by the node stop, whatever fails. */
  ghost predicate RunsThenStops(fails: Oracle, p: Progress, plan: seq<Item>, end: Progress) {
    && Stops(end.log, |p.log|, |AfterItems(fails, p, plan).log|)
    && RunsPlan(fails, p, plan, end, [PhaseResult(NodeStop, end.log[|end.log| - 1].ok)])
  }

  /** A cleanup that follows a plan which has no phase of that name. */
  lemma CleanupFollows(fails: Oracle, q: Progress, name: PhaseName, steps: seq<Step>, begin: nat)
    requires begin <= |q.log| && FirstFailure(q.log, begin, q.failed) && steps != []
    requires NoAttempt(q.log, begin, |q.log|, Some(name))
    ensures var end := AfterCleanup(fails, q, name, steps);
            && q.log < end.log && CleanedUp(end.log, |q.log|, |end.log|, name, steps)
            && NoAttempt(end.log, begin, |q.log|, Some(name)) && FirstFailure(end.log, begin, end.failed)
            && end.phases == q.phases + [PhaseResult(name, end.log[|end.log| - 1].ok)]
  {
    CleanupRecorded(fails, q, name, steps, begin);
    var end := AfterCleanup(fails, q, name, steps);
    assert forall i :: 0 <= i < |q.log| ==> end.log[i] == q.log[i];
  }

  lemma PlanThenCleanup(fails: Oracle, p: Progress, plan: seq<Item>, name: PhaseName, steps: seq<Step>)
    requires p.failed.None? && Avoids(plan, Some(name)) && steps != []
    ensures var q := AfterItems(fails, p, plan);
            var end := AfterCleanup(fails, q, name, steps);
            && |p.log| <= |q.log| && q.log < end.log && CleanedUp(end.log, |q.log|, |end.log|, name, steps)
            && NoAttempt(end.log, |p.log|, |q.log|, Some(name))
            && end.phases == q.phases + [PhaseResult(name, end.log[|end.log| - 1].ok)]
            && FirstFailure(end.log, |p.log|, end.failed)
  {
    PlanLog(fails, p, plan);
    PlanAvoids(fails, p, plan, Some(name));
    CleanupFollows(fails, AfterItems(fails, p, plan), name, steps, |p.log|);
  }

  lemma PlanRecord(fails: Oracle, p: Progress, plan: seq<Item>, end: Progress, cleanups: seq<PhaseResult>)
    requires p.failed.None? && end.phases == AfterItems(fails, p, plan).phases + cleanups
    requires FirstFailure(end.log, |p.log|, end.failed)
    ensures RunsPlan(fails, p, plan, end, cleanups)
  {
    PassingPrefixIsLongest(fails, p, plan);
    PlanPhases(fails, p, plan);
  }

  lemma PlanThenStop(fails: Oracle, p: Progress, plan: seq<Item>, end: Progress)
    requires p.failed.None? && Avoids(plan, Some(NodeStop))
    requires end == AfterCleanup(fails, AfterItems(fails, p, plan), NodeStop, STOP_NODE)
    ensures RunsThenStops(fails, p, plan, end)
  {
    PlanThenCleanup(fails, p, plan, NodeStop, STOP_NODE);
    PlanRecord(fails, p, plan, end, [PhaseResult(NodeStop, end.log[|end.log| - 1].ok)]);
  }

  lemma PlanThenStopStatus(fails: Oracle, p: Progress, plan: seq<Item>)
    requires p.failed.None? && Avoids(plan, None)
    ensures var end := AfterCleanup(fails, AfterItems(fails, p, plan), NodeStop, STOP_NODE);
            end.failed.None? <==> AllPassed(end.phases, |p.phases|)
  {
    var q := AfterItems(fails, p, plan);
    PlanLog(fails, p, plan);
    PlanAvoids(fails, p, plan, None);
    PlanStatus(fails, p, plan);
    CleanupRecorded(fails, q, NodeStop, STOP_NODE, |p.log|);
    CleanupStatus(fails, q, NodeStop, STOP_NODE, |p.log|, |p.phases|);
  }

  /** One run of `service`, whatever fails: it runs its plan and then stops the node, and the status is passed
      exactly when all recorded phases passed. */
  lemma ServiceRun(fails: Oracle, manifests: nat, p: Progress)
    requires p.failed.None?
    ensures RunsThenStops(fails, p, ServicePlan(manifests), ServiceEnd(fails, manifests, p))
    ensures var end := ServiceEnd(fails, manifests, p); end.failed.None? <==> AllPassed(end.phases, |p.phases|)
  {
    ServicePlanShape(manifests);
    PlanThenStop(fails, p, ServicePlan(manifests), ServiceEnd(fails, manifests, p));
    PlanThenStopStatus(fails, p, ServicePlan(manifests));
  }

  lemma {:induction false} SamplesShape(count: nat, name: PhaseName)
    requires name.NodeStop? || name.WarmPoolCleanup?
    ensures Avoids(ColdSamples(count), Some(name)) && Avoids(WarmSamples(count), Some(name))
  {
    if count > 0 {
      SamplesShape(count - 1, name);
    }
  }

  lemma BenchmarkPlanShape(manifests: nat, iterations: nat, name: PhaseName)
    requires name.NodeStop? || name.WarmPoolCleanup?
    ensures Avoids(BenchmarkPlan(manifests, iterations), Some(name))
  {
    SamplesShape(iterations, name);
  }

  /** The pool reset and then the node stop are attempted, each exactly once, after everything else. */
  ghost predicate ResetsThenStops(log: seq<Attempt>, begin: nat, reset: nat, stop: nat) {
    && begin <= reset < stop < |log|
    && CleanedUp(log, reset, stop, WarmPoolCleanup, [SetWarmPool(0), WaitForWarmPool(0)])
    && CleanedUp(log, stop, |log|, NodeStop, [UpdateKubeconfig, ScaleDown, WaitForNodes(0)])
    && NoAttempt(log, begin, reset, Some(WarmPoolCleanup)) && NoAttempt(log, begin, stop, Some(NodeStop))
  }

  /** A second cleanup leaves the record of the first as it is. */
  lemma CleanupAgain(fails: Oracle, r: Progress, name: PhaseName, steps: seq<Step>, begin: nat, first: PhaseName, at: nat,
                     firstSteps: seq<Step>)
    requires begin <= at < |r.log| && FirstFailure(r.log, begin, r.failed) && steps != [] && name != first
    requires CleanedUp(r.log, at, |r.log|, first, firstSteps)
    requires NoAttempt(r.log, begin, at, Some(first)) && NoAttempt(r.log, begin, at, Some(name))
    ensures var end := AfterCleanup(fails, r, name, steps);
            && r.log < end.log && CleanedUp(end.log, at, |r.log|, first, firstSteps)
            && CleanedUp(end.log, |r.log|, |end.log|, name, steps)
            && NoAttempt(end.log, begin, at, Some(first)) && NoAttempt(end.log, begin, |r.log|, Some(name))
            && FirstFailure(end.log, begin, end.failed)
            && end.phases == r.phases + [PhaseResult(name, end.log[|end.log| - 1].ok)]
  {
    assert NoAttempt(r.log, begin, |r.log|, Some(name));
    CleanupFollows(fails, r, name, steps, begin);
    var end := AfterCleanup(fails, r, name, steps);
    assert forall i :: 0 <= i < |r.log| ==> end.log[i] == r.log[i];
  }

  lemma ShorterNoAttempt(log: seq<Attempt>, longer: seq<Attempt>, begin: nat, phase: Option<PhaseName>)
    requires log <= longer && begin <= |log| && NoAttempt(log, begin, |log|, phase)
    ensures NoAttempt(longer, begin, |log|, phase)
  {
    assert forall i :: 0 <= i < |log| ==> longer[i] == log[i];
  }

  /** A run of a plan followed by the pool reset and the node stop, whatever fails. */
  ghost predicate RunsThenResetsThenStops(fails: Oracle, p: Progress, plan: seq<Item>, end: Progress, stop: nat) {
    && ResetsThenStops(end.log, |p.log|, |AfterItems(fails, p, plan).log|, stop)
    && RunsPlan(fails, p, plan, end, [PhaseResult(WarmPoolCleanup, end.log[stop - 1].ok)]
                                     + [PhaseResult(NodeStop, end.log[|end.log| - 1].ok)])
  }

  lemma BothCleanups(fails: Oracle, q: Progress, r: Progress, end: Progress, begin: nat)
    requires begin <= |q.log| && FirstFailure(q.log, begin, q.failed)
    requires NoAttempt(q.log, begin, |q.log|, Some(NodeStop)) && NoAttempt(q.log, begin, |q.log|, Some(WarmPoolCleanup))
    requires r == AfterCleanup(fails, q, WarmPoolCleanup, PoolSteps(0))
    requires end == AfterCleanup(fails, r, NodeStop, STOP_NODE)
    ensures ResetsThenStops(end.log, begin, |q.log|, |r.log|) && FirstFailure(end.log, begin, end.failed)
    ensures end.phases == q.phases + [PhaseResult(WarmPoolCleanup, end.log[|r.log| - 1].ok)]
                          + [PhaseResult(NodeStop, end.log[|end.log| - 1].ok)]
  {
    CleanupFollows(fails, q, WarmPoolCleanup, PoolSteps(0), begin);
    ShorterNoAttempt(q.log, r.log, begin, Some(NodeStop));
    CleanupAgain(fails, r, NodeStop, STOP_NODE, begin, WarmPoolCleanup, |q.log|, PoolSteps(0));
    assert end.log[|r.log| - 1] == r.log[|r.log| - 1];
  }

  lemma PlanThenResetThenStop(fails: Oracle, p: Progress, plan: seq<Item>, r: Progress, end: Progress)
    requires p.failed.None? && Avoids(plan, Some(NodeStop)) && Avoids(plan, Some(WarmPoolCleanup))
    requires r == AfterCleanup(fails, AfterItems(fails, p, plan), WarmPoolCleanup, PoolSteps(0))
    requires end == AfterCleanup(fails, r, NodeStop, STOP_NODE)
    ensures RunsThenResetsThenStops(fails, p, plan, end, |r.log|)
  {
    PlanLog(fails, p, plan);
    PlanAvoids(fails, p, plan, Some(NodeStop));
    PlanAvoids(fails, p, plan, Some(WarmPoolCleanup));
    BothCleanups(fails, AfterItems(fails, p, plan), r, end, |p.log|);
    var first, second := PhaseResult(WarmPoolCleanup, end.log[|r.log| - 1].ok), PhaseResult(NodeStop, end.log[|end.log| - 1].ok);
    Assoc(AfterItems(fails, p, plan).phases, [first], [second]);
    PlanRecord(fails, p, plan, end, [first] + [second]);
  }

  /** One run of `benchmark`, whatever fails: it runs its plan, then resets the pool, then stops the node. */
  lemma BenchmarkRun(fails: Oracle, manifests: nat, iterations: nat, p: Progress) returns (stop: nat)
    requires p.failed.None?
    ensures RunsThenResetsThenStops(fails, p, BenchmarkPlan(manifests, iterations),
                                    BenchmarkEnd(fails, manifests, iterations, p), stop)
  {
    BenchmarkPlanShape(manifests, iterations, NodeStop);
    BenchmarkPlanShape(manifests, iterations, WarmPoolCleanup);
    var plan := BenchmarkPlan(manifests, iterations);
    var r := AfterCleanup(fails, AfterItems(fails, p, plan), WarmPoolCleanup, PoolSteps(0));
    stop := |r.log|;
    PlanThenResetThenStop(fails, p, plan, r, BenchmarkEnd(fails, manifests, iterations, p));
  }

  /** The status of `benchmark` is passed exactly when all recorded phases passed and no wait between warm
      samples failed: those are made outside any phase. */
  lemma BenchmarkStatus(fails: Oracle, manifests: nat, iterations: nat, p: Progress)
    requires p.failed.None?
    ensures var end := BenchmarkEnd(fails, manifests, iterations, p);
            end.failed.None? <==> AllPassed(end.phases, |p.phases|) && OutsideOk(end.log, |p.log|)
  {
    var plan := BenchmarkPlan(manifests, iterations);
    var q := AfterItems(fails, p, plan);
    PlanLog(fails, p, plan);
    PlanStatus(fails, p, plan);
    CleanupRecorded(fails, q, WarmPoolCleanup, PoolSteps(0), |p.log|);
    CleanupStatus(fails, q, WarmPoolCleanup, PoolSteps(0), |p.log|, |p.phases|);
    CleanupStatus(fails, AfterCleanup(fails, q, WarmPoolCleanup, PoolSteps(0)), NodeStop, STOP_NODE, |p.log|, |p.phases|);
  }

  /** The exception that leaves a workflow is the first one met, unless an earlier one was remembered and
      writing the report then failed as well. */
  lemma OutcomeIsFirstFailure(fails: Oracle, end: Progress, files: seq<Step>, begin: nat)
    requires begin <= |end.log| && FirstFailure(end.log, begin, end.failed)
    ensures var written := Written(fails, end, files);
            match OutcomeOf(end, written)
            case Completed => FirstFailure(written.log, begin, None)
            case InvalidIterations => false
            case Raised(at) => FirstFailure(written.log, begin, Some(at)) <==> end.failed.None? || written.failed.None?
  {
    StepsRecorded(fails, end.(failed := None), files, None);
    var written := Written(fails, end, files);
    assert forall i :: 0 <= i < |end.log| ==> written.log[i] == end.log[i];
  }

  // ----- A failure that no phase shows -----

  function Size(items: seq<Item>): nat {
    if items == [] then 0
    else
      var last := items[|items| - 1];
      Size(items[..|items| - 1]) + if last.InPhase? then |last.steps| else 1
  }

  lemma {:induction false} Unfailing(fails: Oracle, p: Progress, items: seq<Item>)
    requires p.failed.None? && forall i :: |p.log| <= i < |p.log| + Size(items) ==> !fails(i)
    ensures var q := AfterItems(fails, p, items); q.failed.None? && |q.log| == |p.log| + Size(items)
    decreases |items|
  {
    if items != [] {
      Unfailing(fails, p, items[..|items| - 1]);
      UnfailingItem(fails, AfterItems(fails, p, items[..|items| - 1]), items[|items| - 1]);
    }
  }

  lemma UnfailingItem(fails: Oracle, p: Progress, item: Item)
    requires p.failed.None?
    requires forall i :: |p.log| <= i < |p.log| + (if item.InPhase? then |item.steps| else 1) ==> !fails(i)
    ensures var q := AfterItem(fails, p, item);
            q.failed.None? && |q.log| == |p.log| + if item.InPhase? then |item.steps| else 1
  {
    if item.InPhase? {
      UnfailingSteps(fails, p, item.steps, Some(item.name));
    }
  }

  lemma {:induction false} UnfailingSteps(fails: Oracle, p: Progress, steps: seq<Step>, phase: Option<PhaseName>)
    requires p.failed.None? && forall i :: |p.log| <= i < |p.log| + |steps| ==> !fails(i)
    ensures var q := AfterSteps(fails, p, steps, phase); q.failed.None? && |q.log| == |p.log| + |steps|
    decreases |steps|
  {
    if steps != [] {
      UnfailingSteps(fails, p, steps[..|steps| - 1], phase);
    }
  }

  lemma {:induction false} WarmSamplesBegin(count: nat) returns (rest: seq<Item>)
    requires count >= 2
    ensures WarmSamples(count) == WarmSamples(1) + [Bare(WaitForWarmPool(1))] + rest
  {
    var last := InPhase(Sample(Warm, count), SampleSteps(Warm, count));
    if count == 2 {
      rest := [last];
    } else {
      rest := WarmSamplesBegin(count - 1);
      rest := rest + [Bare(WaitForWarmPool(1)), last];
    }
  }

  lemma BenchmarkPlanBegin(manifests: nat, iterations: nat) returns (items: seq<Item>, rest: seq<Item>)
    requires iterations >= 2
    ensures BenchmarkPlan(manifests, iterations) == items + [Bare(WaitForWarmPool(1))] + rest
  {
    var before := Setup(manifests) + [InPhase(ColdPoolReady, PoolSteps(0))] + ColdSamples(iterations)
                  + [InPhase(WarmPoolReady, PoolSteps(1))];
    rest := WarmSamplesBegin(iterations);
    items := before + WarmSamples(1);
    assert before + (WarmSamples(1) + [Bare(WaitForWarmPool(1))] + rest) == items + [Bare(WaitForWarmPool(1))] + rest;
  }

  /** A plan whose only failure is a step outside any phase records no failing phase. */
  lemma BareFailureHidden(fails: Oracle, p: Progress, items: seq<Item>, step: Step, rest: seq<Item>)
    requires p.failed.None? && forall i :: i >= |p.log| ==> (fails(i) <==> i == |p.log| + Size(items))
    ensures var q := AfterItems(fails, p, items + [Bare(step)] + rest);
            && q.failed == Some(|p.log| + Size(items)) && |q.log| == |p.log| + Size(items) + 1
            && |p.phases| <= |q.phases| && AllPassed(q.phases, |p.phases|)
  {
    Unfailing(fails, p, items);
    PlanStatus(fails, p, items);
    ItemsSnoc(fails, p, items, Bare(step));
    FailedItems(fails, p, items + [Bare(step)], rest);
  }

  lemma CleanupUnfailing(fails: Oracle, p: Progress, name: PhaseName, steps: seq<Step>, phases: nat)
    requires phases <= |p.phases| && AllPassed(p.phases, phases) && forall i :: i >= |p.log| ==> !fails(i)
    ensures var q := AfterCleanup(fails, p, name, steps);
            q.failed == p.failed && |q.log| >= |p.log| && |q.phases| >= phases && AllPassed(q.phases, phases)
  {
    UnfailingSteps(fails, p.(failed := None), steps, Some(name));
    StepsRecorded(fails, p.(failed := None), steps, Some(name));
  }

  /** With two or more iterations `benchmark` can fail without any recorded phase failing: it is enough that the
      wait between the first two warm samples fails. */
  lemma WaitFailureHidden(manifests: nat, iterations: nat) returns (fails: Oracle)
    requires iterations >= 2
    ensures var end := BenchmarkEnd(fails, manifests, iterations, Progress([], [], None));
            end.failed.Some? && AllPassed(end.phases, 0)
  {
    var p := Progress([], [], None);
    var items, rest := BenchmarkPlanBegin(manifests, iterations);
    var at := Size(items);
    fails := (i: nat) => i == at;
    BareFailureHidden(fails, p, items, WaitForWarmPool(1), rest);
    var q := AfterItems(fails, p, BenchmarkPlan(manifests, iterations));
    CleanupUnfailing(fails, q, WarmPoolCleanup, PoolSteps(0), 0);
    CleanupUnfailing(fails, AfterCleanup(fails, q, WarmPoolCleanup, PoolSteps(0)), NodeStop, STOP_NODE, 0);
  }

  lemma {:induction false} ColdSamplesPhased(count: nat)
    ensures Avoids(ColdSamples(count), None)
  {
    if count > 0 {
      ColdSamplesPhased(count - 1);
    }
  }

  /** With one iteration there is no such wait, and the status again says whether all recorded phases passed. */
  lemma SingleIterationStatus(fails: Oracle, manifests: nat, p: Progress)
    requires p.failed.None?
    ensures var end := BenchmarkEnd(fails, manifests, 1, p); end.failed.None? <==> AllPassed(end.phases, |p.phases|)
  {
    var plan := BenchmarkPlan(manifests, 1);
    var q := AfterItems(fails, p, plan);
    assert Avoids(plan, None) by {
      ColdSamplesPhased(1);
      assert WarmSamples(1) == [InPhase(Sample(Warm, 1), SampleSteps(Warm, 1))];
    }
    PlanAvoids(fails, p, plan, None);
    PlanLog(fails, p, plan);
    var r := AfterCleanup(fails, q, WarmPoolCleanup, PoolSteps(0));
    CleanupRecorded(fails, q, WarmPoolCleanup, PoolSteps(0), |p.log|);
    CleanupRecorded(fails, r, NodeStop, STOP_NODE, |p.log|);
    OutsideStaysOk(q.log, r.log, |p.log|, WarmPoolCleanup, PoolSteps(0));
    OutsideStaysOk(r.log, AfterCleanup(fails, r, NodeStop, STOP_NODE).log, |p.log|, NodeStop, STOP_NODE);
    BenchmarkStatus(fails, manifests, 1, p);
  }

  lemma OutsideStaysOk(log: seq<Attempt>, longer: seq<Attempt>, begin: nat, name: PhaseName, steps: seq<Step>)
    requires begin <= |log| && log < longer && OutsideOk(log, begin) && CleanedUp(longer, |log|, |longer|, name, steps)
    ensures OutsideOk(longer, begin)
  {
    assert forall i :: 0 <= i < |log| ==> longer[i] == log[i];
  }
}
