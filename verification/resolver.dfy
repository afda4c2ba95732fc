/**
 * The StartupOrderResolver coordinator: activation, the imperative half of
 * descriptor processing, the notification pass, and the two timer tasks
 * (the progress tick of capabilityListenerTimer and the diagnostics tick
 * of pendingCapabilityTimer). Timers and the tracker are reduced to their
 * states; listener callbacks and the other outward actions are appended to
 * a ghost log.
 */
module Resolver {
  import opened Outcomes
  import opened Beans
  import opened Registry
  import opened Classification

  /** A java.util.Timer: created, running its task at a fixed rate, or cancelled. */
  datatype TimerState = Unscheduled | Scheduled | Cancelled

  /** The OSGi service capability tracker. */
  datatype TrackerState = Created | Open | Closed

  /** What the coordinator does outside the registry, in order. */
  datatype Action =
    | OpenTracker
    | CloseTracker
    | ScheduleProgressTimer
    | ScheduleDiagnosticsTimer
    | CancelProgressTimer
    | CancelDiagnosticsTimer
      /** A listener's onAllRequiredCapabilitiesAvailable call, with whether its component was still registered then. */
    | NotifyListener(componentName: string, registeredAtCall: bool)
      /** The startup-time log and the server-info registration of CarbonStartupHandler. */
    | Finalise

  /** One warning of the diagnostics tick. */
  datatype Warning =
    | PendingCapability(component: StartupComponent, capability: ServiceCapability)
    | WaitingForListener(component: StartupComponent)
    | WaitingForProvider(provider: ProviderCapability)

  // ---------------------------------------------------------------------------
  // The notification pass, as a specification

  /** The callbacks of one pass over `snapshot`: each after its component was removed. */
  function NotifyActions(snapshot: seq<StartupComponent>): seq<Action>
  {
    if snapshot == [] then []
    else NotifyActions(snapshot[..|snapshot| - 1]) + [NotifyListener(snapshot[|snapshot| - 1].name, false)]
  }

  /** The registry calls of one pass over `snapshot`. */
  function RemoveCalls(snapshot: seq<StartupComponent>): seq<RegistryCall>
  {
    if snapshot == [] then []
    else RemoveCalls(snapshot[..|snapshot| - 1]) + [Removed(snapshot[|snapshot| - 1].name)]
  }

  /**
   * A notification pass calls the listener of every component of the
   * snapshot, in snapshot order, each after the component left the registry;
   * with distinct names (as a registry's are), each listener exactly once.
   */
  lemma {:induction false} NotificationPassSpec(snapshot: seq<StartupComponent>)
    ensures |NotifyActions(snapshot)| == |snapshot|
    ensures forall i | 0 <= i < |snapshot| :: NotifyActions(snapshot)[i] == NotifyListener(snapshot[i].name, false)
    ensures DistinctNames(snapshot) ==>
              forall i, j | 0 <= i < |snapshot| && 0 <= j < |snapshot| ::
                NotifyActions(snapshot)[i].componentName == NotifyActions(snapshot)[j].componentName ==> i == j
  {
    if snapshot != [] {
      NotificationPassSpec(snapshot[..|snapshot| - 1]);
    }
  }

  /** One more component of the snapshot: one more removal, one more callback and one more name. */
  lemma PassStep(snapshot: seq<StartupComponent>, i: nat, calls0: seq<RegistryCall>, actions0: seq<Action>)
    requires i < |snapshot|
    ensures calls0 + RemoveCalls(snapshot[..i]) + [Removed(snapshot[i].name)] == calls0 + RemoveCalls(snapshot[..i + 1])
    ensures actions0 + NotifyActions(snapshot[..i]) + [NotifyListener(snapshot[i].name, false)] == actions0 + NotifyActions(snapshot[..i + 1])
    ensures Names(snapshot[..i + 1]) == Names(snapshot[..i]) + {snapshot[i].name}
  {
    PrefixStep(snapshot, i);
    NamesSnoc(snapshot[..i], snapshot[i]);
  }

  /** Proof hint: growing a prefix by one element, proved in an empty context for the loops below. */
  lemma PrefixStep<T>(s: seq<T>, i: nat)
    requires i < |s|
    ensures s[..i + 1] == s[..i] + [s[i]] && s[..i + 1][..i] == s[..i]
  {
  }

  // ---------------------------------------------------------------------------
  // The diagnostics report, as a specification

  function CapabilityWarnings(component: StartupComponent, capabilities: seq<ServiceCapability>): seq<Warning>
  {
    if capabilities == [] then []
    else CapabilityWarnings(component, capabilities[..|capabilities| - 1])
         + [PendingCapability(component, capabilities[|capabilities| - 1])]
  }

  /** One warning per (pending component, capability it still waits for), component by component. */
  function PendingCapabilityWarnings(registry: StartupComponentManager, pending: seq<StartupComponent>): seq<Warning>
    reads registry
  {
    if pending == [] then []
    else PendingCapabilityWarnings(registry, pending[..|pending| - 1])
         + CapabilityWarnings(pending[|pending| - 1], registry.PendingProvideCapabilityList(pending[|pending| - 1].name))
  }

  function ListenerWarnings(components: seq<StartupComponent>): seq<Warning>
  {
    if components == [] then []
    else ListenerWarnings(components[..|components| - 1]) + [WaitingForListener(components[|components| - 1])]
  }

  function ProviderWarnings(providers: seq<ProviderCapability>): seq<Warning>
  {
    if providers == [] then []
    else ProviderWarnings(providers[..|providers| - 1]) + [WaitingForProvider(providers[|providers| - 1])]
  }

  /** The report of a diagnostics tick that finds components pending. */
  function DiagnosticReport(registry: StartupComponentManager): seq<Warning>
    reads registry
  {
    PendingCapabilityWarnings(registry, registry.PendingComponents())
    + ListenerWarnings(registry.PendingRequiredCapabilityListeners())
    + ProviderWarnings(registry.PendingCapabilityProviderList())
  }

  /** The section of the report a warning belongs to. */
  function Section(w: Warning): nat
  {
    match w
    case PendingCapability(_, _) => 0
    case WaitingForListener(_) => 1
    case WaitingForProvider(_) => 2
  }

  lemma {:induction false} CapabilityWarningsSpec(component: StartupComponent, capabilities: seq<ServiceCapability>)
    ensures forall w :: w in CapabilityWarnings(component, capabilities) <==>
              w.PendingCapability? && w.component == component && w.capability in capabilities
  {
    if capabilities != [] {
      var init := capabilities[..|capabilities| - 1];
      CapabilityWarningsSpec(component, init);
      assert capabilities == init + [capabilities[|capabilities| - 1]];
    }
  }

  lemma {:induction false} PendingCapabilityWarningsSpec(registry: StartupComponentManager, pending: seq<StartupComponent>)
    ensures forall w :: w in PendingCapabilityWarnings(registry, pending) <==>
              w.PendingCapability? && w.component in pending &&
              w.capability in registry.PendingProvideCapabilityList(w.component.name)
  {
    if pending != [] {
      var init := pending[..|pending| - 1];
      var last := pending[|pending| - 1];
      PendingCapabilityWarningsSpec(registry, init);
      CapabilityWarningsSpec(last, registry.PendingProvideCapabilityList(last.name));
      assert pending == init + [last];
    }
  }

  lemma {:induction false} ListenerWarningsSpec(components: seq<StartupComponent>)
    ensures forall w :: w in ListenerWarnings(components) <==> w.WaitingForListener? && w.component in components
  {
    if components != [] {
      var init := components[..|components| - 1];
      ListenerWarningsSpec(init);
      assert components == init + [components[|components| - 1]];
    }
  }

  lemma {:induction false} ProviderWarningsSpec(providers: seq<ProviderCapability>)
    ensures forall w :: w in ProviderWarnings(providers) <==> w.WaitingForProvider? && w.provider in providers
  {
    if providers != [] {
      var init := providers[..|providers| - 1];
      ProviderWarningsSpec(init);
      assert providers == init + [providers[|providers| - 1]];
    }
  }

  /**
   * The diagnostics report warns about exactly: each pending component with
   * each capability it still waits for, each pending component whose
   * listener service is missing, and each outstanding provider.
   */
  lemma DiagnosticReportSpec(registry: StartupComponentManager)
    ensures forall w :: w in DiagnosticReport(registry) && w.PendingCapability? <==>
              w.PendingCapability? && w.component in registry.PendingComponents() &&
              w.capability in registry.PendingProvideCapabilityList(w.component.name)
    ensures forall c :: WaitingForListener(c) in DiagnosticReport(registry) <==> c in registry.PendingRequiredCapabilityListeners()
    ensures forall p :: WaitingForProvider(p) in DiagnosticReport(registry) <==> p in registry.providers
  {
    PendingCapabilityWarningsSpec(registry, registry.PendingComponents());
    ListenerWarningsSpec(registry.PendingRequiredCapabilityListeners());
    ProviderWarningsSpec(registry.PendingCapabilityProviderList());
  }

  /**
   * The required-service list of a legacy listener reaches the registry:
   * once processRequiredCapabilityListeners has added its component, every
   * expected capability the listener lists and the tracker has not seen is
   * pending for that component name.
   */
  lemma ListenerRequirementsPending(registry: StartupComponentManager, before: seq<StartupComponent>,
                                    listeners: seq<ListenerCapability>)
    requires registry.Valid() && DistinctNames(before)
    requires registry.components == MergeAll(before, ListenerComponents(listeners))
    ensures forall l, s | l in listeners && s in registry.expected && s.name in l.requiredServiceList && s.name !in registry.available ::
              s in registry.PendingProvideCapabilityList(l.componentName)
  {
    var added := ListenerComponents(listeners);
    MergeAllServices(before, added);
    forall l, s | l in listeners && s in registry.expected && s.name in l.requiredServiceList && s.name !in registry.available
      ensures s in registry.PendingProvideCapabilityList(l.componentName)
    {
      var i :| 0 <= i < |listeners| && listeners[i] == l;
      assert added[i] in added;
      assert Declares(added, l.componentName, s.name);
    }
  }

  /**
   * The first section of the report names every such capability against
   * each pending component of the listener's name.
   */
  lemma ListenerRequirementsReported(registry: StartupComponentManager, before: seq<StartupComponent>,
                                     listeners: seq<ListenerCapability>)
    requires registry.Valid() && DistinctNames(before)
    requires registry.components == MergeAll(before, ListenerComponents(listeners))
    ensures forall l, s, c | l in listeners && s in registry.expected && s.name in l.requiredServiceList &&
                             s.name !in registry.available && c in registry.PendingComponents() && c.name == l.componentName ::
              PendingCapability(c, s) in DiagnosticReport(registry)
  {
    ListenerRequirementsPending(registry, before, listeners);
    DiagnosticReportSpec(registry);
  }

  /**
   * Activation's required services reach the diagnostics: once manifest
   * processing has run on the registry, every expected capability that a
   * built startup component or a legacy listener requires, and that the
   * tracker has not seen, is pending for that component name.
   */
  lemma ActivationRequirementsPending(registry: StartupComponentManager, before: seq<StartupComponent>,
                                      groups: map<string, seq<ManifestElement>>, procs: Processors)
    requires registry.Valid() && DistinctNames(before)
    requires registry.components == Registered(before, Classify(groups, procs).calls)
    ensures var beans := if StartupComponentHeader in groups
                         then ComponentBeans(groups[StartupComponentHeader], procs.startupComponentBean) else Done([]);
            beans.Done? ==>
              forall c, s | c in beans.value && s in registry.expected && s.name in c.requiredServices && s.name !in registry.available ::
                s in registry.PendingProvideCapabilityList(c.name)
    ensures var beans := if StartupComponentHeader in groups
                         then ComponentBeans(groups[StartupComponentHeader], procs.startupComponentBean) else Done([]);
            var ls := ProcessProvideCapabilitiesInternal(ProvideGroup(groups), procs.requireCapabilityListenerProcessor);
            beans.Done? && ls.Done? ==>
              forall l, s | l in ls.value && s in registry.expected && s.name in l.requiredServiceList && s.name !in registry.available ::
                s in registry.PendingProvideCapabilityList(l.componentName)
  {
    ClassifyServices(before, groups, procs);
    var ls := ProcessProvideCapabilitiesInternal(ProvideGroup(groups), procs.requireCapabilityListenerProcessor);
    if ls.Done? {
      var added := ListenerComponents(ls.value);
      forall l, s | l in ls.value && s in registry.expected && s.name in l.requiredServiceList
        ensures Declares(added, l.componentName, s.name)
      {
        var i :| 0 <= i < |ls.value| && ls.value[i] == l;
        assert added[i] in added;
      }
    }
  }

  /**
   * The first section of the report, after activation, names every such
   * capability against each pending component of that name.
   */
  lemma ActivationRequirementsReported(registry: StartupComponentManager, before: seq<StartupComponent>,
                                       groups: map<string, seq<ManifestElement>>, procs: Processors)
    requires registry.Valid() && DistinctNames(before)
    requires registry.components == Registered(before, Classify(groups, procs).calls)
    ensures var beans := if StartupComponentHeader in groups
                         then ComponentBeans(groups[StartupComponentHeader], procs.startupComponentBean) else Done([]);
            var ls := ProcessProvideCapabilitiesInternal(ProvideGroup(groups), procs.requireCapabilityListenerProcessor);
            beans.Done? && ls.Done? ==>
              forall l, s, c | l in ls.value && s in registry.expected && s.name in l.requiredServiceList &&
                               s.name !in registry.available && c in registry.PendingComponents() && c.name == l.componentName ::
                PendingCapability(c, s) in DiagnosticReport(registry)
  {
    ActivationRequirementsPending(registry, before, groups, procs);
    DiagnosticReportSpec(registry);
  }

  /**
   * The report never waits for what the tracker has already seen: a
   * registered service, a registered RequiredCapabilityListener, or a
   * resolved CapabilityProvider.
   */
  lemma ReportOmitsTracked(registry: StartupComponentManager)
    requires registry.Valid()
    ensures forall w | w in DiagnosticReport(registry) && w.PendingCapability? :: w.capability.name !in registry.available
    ensures forall w | w in DiagnosticReport(registry) && w.WaitingForListener? :: w.component.name !in registry.listenersRegistered
    ensures forall w | w in DiagnosticReport(registry) && w.WaitingForProvider? :: w.provider in registry.providers
  {
    DiagnosticReportSpec(registry);
  }

  /** The report gives its three sections in order: capability pairs, then listeners, then providers. */
  lemma DiagnosticReportOrder(registry: StartupComponentManager)
    ensures forall i, j | 0 <= i < j < |DiagnosticReport(registry)| ::
              Section(DiagnosticReport(registry)[i]) <= Section(DiagnosticReport(registry)[j])
  {
    var a := PendingCapabilityWarnings(registry, registry.PendingComponents());
    var b := ListenerWarnings(registry.PendingRequiredCapabilityListeners());
    var c := ProviderWarnings(registry.PendingCapabilityProviderList());
    PendingCapabilityWarningsSpec(registry, registry.PendingComponents());
    ListenerWarningsSpec(registry.PendingRequiredCapabilityListeners());
    ProviderWarningsSpec(registry.PendingCapabilityProviderList());
    SectionsConcat(a, b, c);
  }

  lemma SectionsConcat(a: seq<Warning>, b: seq<Warning>, c: seq<Warning>)
    requires forall w | w in a :: Section(w) == 0
    requires forall w | w in b :: Section(w) == 1
    requires forall w | w in c :: Section(w) == 2
    ensures forall i, j | 0 <= i < j < |a + b + c| :: Section((a + b + c)[i]) <= Section((a + b + c)[j])
  {
    var all := a + b + c;
    forall i, j | 0 <= i < j < |all| ensures Section(all[i]) <= Section(all[j]) {
      if i < |a| {
        assert all[i] == a[i];
      } else if i < |a| + |b| {
        assert all[i] == b[i - |a|];
        if j < |a| + |b| {
          assert all[j] == b[j - |a|];
        } else {
          assert all[j] == c[j - |a| - |b|];
        }
      } else {
        assert all[i] == c[i - |a| - |b|] && all[j] == c[j - |a| - |b|];
      }
    }
  }

  // ---------------------------------------------------------------------------
  // The coordinator

  class StartupOrderResolver {
    /** startupComponentManager; null once activation found nothing to coordinate. */
    var registry: StartupComponentManager?
    /** osgiServiceTracker; None once activation found nothing to coordinate. */
    var tracker: Option<TrackerState>
    /** capabilityListenerTimer, which runs the progress tick. */
    var progressTimer: TimerState
    /** pendingCapabilityTimer, which runs the diagnostics tick. */
    var diagnosticsTimer: TimerState
    /** The coordinator's outward actions, in order. */
    ghost var actions: seq<Action>

    ghost predicate Valid()
      reads this, registry
    {
      (registry != null ==> registry.Valid()) &&
      (registry == null <==> tracker.None?) &&
      (progressTimer == Scheduled ==> tracker == Some(Open)) &&
      (diagnosticsTimer == Scheduled ==> registry != null)
    }

    /** The field initialisers: a fresh registry, a tracker over it, two idle timers. */
    constructor ()
      ensures Valid() && fresh(registry)
      ensures registry.components == [] && registry.satisfiable == {} && registry.calls == []
      ensures registry.expected == [] && registry.providers == []
      ensures registry.available == {} && registry.listenersRegistered == {}
      ensures tracker == Some(Created) && progressTimer == Unscheduled && diagnosticsTimer == Unscheduled
      ensures actions == []
    {
      registry := new StartupComponentManager();
      tracker := Some(Created);
      progressTimer, diagnosticsTimer := Unscheduled, Unscheduled;
      actions := [];
    }

    /**
     * start: processes the descriptors; on any exception does nothing more;
     * with no pending component drops the registry and the tracker; otherwise
     * opens the tracker and schedules the progress and diagnostics timers.
     */
    method Start(elements: seq<ManifestElement>, procs: Processors)
      requires Valid() && registry != null && tracker == Some(Created)
      requires progressTimer == Unscheduled && diagnosticsTimer == Unscheduled
      modifies this, registry`components, registry`expected, registry`providers, registry`calls
      ensures Valid()
      ensures var outcome := Classify(GroupByHeader(elements), procs);
              old(registry).calls == old(registry.calls) + outcome.calls &&
              Names(old(registry).components) == old(Names(registry.components)) + DeclaredNames(outcome.calls) &&
              old(registry).expected == old(registry.expected) + ExpectedCapabilities(outcome.calls) &&
              old(registry).providers == old(registry.providers) + ProviderObligations(outcome.calls) &&
              old(registry).components == Registered(old(registry.components), outcome.calls)
      ensures old(registry).satisfiable == old(registry.satisfiable) && old(registry).available == old(registry.available) &&
              old(registry).listenersRegistered == old(registry.listenersRegistered)
      ensures !Classify(GroupByHeader(elements), procs).completed ==>
                registry == old(registry) && tracker == Some(Created) &&
                progressTimer == Unscheduled && diagnosticsTimer == Unscheduled && actions == old(actions)
      ensures Classify(GroupByHeader(elements), procs).completed && old(registry).PendingComponents() == [] ==>
                registry == null && tracker == None &&
                progressTimer == Unscheduled && diagnosticsTimer == Unscheduled && actions == old(actions)
      ensures Classify(GroupByHeader(elements), procs).completed && old(registry).PendingComponents() != [] ==>
                registry == old(registry) && tracker == Some(Open) &&
                progressTimer == Scheduled && diagnosticsTimer == Scheduled &&
                actions == old(actions) + [OpenTracker, ScheduleProgressTimer, ScheduleDiagnosticsTimer]
      ensures old(registry.components) == [] && Classify(GroupByHeader(elements), procs).completed ==>
                (registry == null <==> DeclaredNames(Classify(GroupByHeader(elements), procs).calls) == {})
    {
      var manager: StartupComponentManager := registry;
      ghost var wasEmpty := manager.components == [];
      var completed := ProcessManifestHeaders(elements, procs);
      if !completed {
        // The catch block: the error is logged and nothing is scheduled.
        return;
      }
      if wasEmpty {
        ghost var declared := DeclaredNames(Classify(GroupByHeader(elements), procs).calls);
        assert Names(manager.components) == declared && manager.satisfiable == {};
        DropNothing(manager.components);
        NoNamesEmpty(manager.components);
        assert manager.PendingComponents() == [] <==> declared == {};
      }
      BeginTracking();
    }

    /**
     * Steps 2 to 5 of start: with no pending component, drops the registry
     * and the tracker; otherwise opens the tracker and schedules the progress
     * timer, then the diagnostics timer.
     */
    method BeginTracking()
      requires Valid() && registry != null && tracker == Some(Created)
      requires progressTimer == Unscheduled && diagnosticsTimer == Unscheduled
      modifies this
      ensures Valid()
      ensures old(registry.PendingComponents()) == [] ==>
                registry == null && tracker == None &&
                progressTimer == Unscheduled && diagnosticsTimer == Unscheduled && actions == old(actions)
      ensures old(registry.PendingComponents()) != [] ==>
                registry == old(registry) && tracker == Some(Open) &&
                progressTimer == Scheduled && diagnosticsTimer == Scheduled &&
                actions == old(actions) + [OpenTracker, ScheduleProgressTimer, ScheduleDiagnosticsTimer]
    {
      if |registry.PendingComponents()| == 0 {
        registry := null;
        tracker := None;
        return;
      }
      tracker := Some(Open);
      actions := actions + [OpenTracker];
      progressTimer := Scheduled;
      actions := actions + [ScheduleProgressTimer];
      diagnosticsTimer := Scheduled;
      actions := actions + [ScheduleDiagnosticsTimer];
    }

    /** processManifestHeaders: groups the elements by header and processes the two groups in turn. */
    method ProcessManifestHeaders(elements: seq<ManifestElement>, procs: Processors) returns (completed: bool)
      requires registry != null && registry.Valid()
      modifies registry`components, registry`expected, registry`providers, registry`calls
      ensures registry.Valid()
      ensures completed == Classify(GroupByHeader(elements), procs).completed
      ensures registry.calls == old(registry.calls) + Classify(GroupByHeader(elements), procs).calls
      ensures Names(registry.components) == old(Names(registry.components)) + DeclaredNames(Classify(GroupByHeader(elements), procs).calls)
      ensures registry.expected == old(registry.expected) + ExpectedCapabilities(Classify(GroupByHeader(elements), procs).calls)
      ensures registry.providers == old(registry.providers) + ProviderObligations(Classify(GroupByHeader(elements), procs).calls)
      ensures registry.components == Registered(old(registry.components), Classify(GroupByHeader(elements), procs).calls)
      ensures registry.satisfiable == old(registry.satisfiable)
    {
      var groups := GroupByHeader(elements);
      ghost var start := registry.calls;
      ghost var before := registry.components;
      ghost var startup := StartupStage(Lookup(groups, StartupComponentHeader), procs.startupComponentBean);
      ghost var provided := ProvidedStage(groups, procs);
      ClassifyStages(groups, procs);
      completed := ProcessStartupComponents(Lookup(groups, StartupComponentHeader), procs.startupComponentBean);
      if !completed {
        assert start + [] == start;
        assert registry.expected + [] == registry.expected && registry.providers + [] == registry.providers;
        return;
      }
      completed := ProcessProvidedCapabilities(groups, procs);
      AppendAssoc(start, startup.value, provided.calls);
      RegisteredAppend(before, startup.value, provided.calls);
    }

    /** processStartupComponents: a null group is a no-op; otherwise one component per element is added. */
    method ProcessStartupComponents(group: Option<seq<ManifestElement>>, bean: ManifestElement -> Attempt<StartupComponent>)
      returns (completed: bool)
      requires registry != null && registry.Valid()
      modifies registry`components, registry`calls
      ensures registry.Valid()
      ensures completed == StartupStage(group, bean).Done?
      ensures completed ==> registry.calls == old(registry.calls) + StartupStage(group, bean).value
      ensures completed ==> Names(registry.components) == old(Names(registry.components)) + DeclaredNames(StartupStage(group, bean).value)
      ensures completed ==> registry.components == Registered(old(registry.components), StartupStage(group, bean).value)
      ensures !completed ==> registry.calls == old(registry.calls) && registry.components == old(registry.components)
      ensures registry.expected == old(registry.expected) && registry.providers == old(registry.providers)
      ensures registry.satisfiable == old(registry.satisfiable)
    {
      if group.None? {
        return true;
      }
      var components := ComponentBeans(group.value, bean);
      if components.Threw? {
        return false;
      }
      RegisteredOne(registry.components, Added(components.value));
      registry.AddComponents(components.value);
      assert [Added(components.value)][1..] == [];
      return true;
    }

    /**
     * processProvidedCapabilities: legacy listeners, then providers, then
     * service capabilities, each from the Provide-Capability group. A missing
     * group is processed as an empty one (see the finding in README.md).
     */
    method ProcessProvidedCapabilities(groups: map<string, seq<ManifestElement>>, procs: Processors) returns (completed: bool)
      requires registry != null && registry.Valid()
      modifies registry`components, registry`expected, registry`providers, registry`calls
      ensures registry.Valid()
      ensures completed == ProvidedStage(groups, procs).completed
      ensures registry.calls == old(registry.calls) + ProvidedStage(groups, procs).calls
      ensures Names(registry.components) == old(Names(registry.components)) + DeclaredNames(ProvidedStage(groups, procs).calls)
      ensures registry.expected == old(registry.expected) + ExpectedCapabilities(ProvidedStage(groups, procs).calls)
      ensures registry.providers == old(registry.providers) + ProviderObligations(ProvidedStage(groups, procs).calls)
      ensures registry.components == Registered(old(registry.components), ProvidedStage(groups, procs).calls)
      ensures registry.satisfiable == old(registry.satisfiable)
    {
      var elements := ProvideGroup(groups);
      ProvidedStageSplit(groups, procs);
      ProvidedStageRegistered(registry.components, groups, procs);
      var listeners := ProcessProvideCapabilitiesInternal(elements, procs.requireCapabilityListenerProcessor);
      if listeners.Threw? {
        assert registry.calls + [] == registry.calls;
        assert registry.expected + [] == registry.expected && registry.providers + [] == registry.providers;
        return false;
      }
      ghost var start := registry.calls;
      ProcessRequiredCapabilityListeners(listeners.value);
      ghost var head := [Added(ListenerComponents(listeners.value))];
      completed := ProcessCapabilityObligations(elements, procs);
      ghost var rest := ObligationStage(elements, procs).calls;
      AppendAssoc(start, head, rest);
    }

    /**
     * The second and third phases of processProvidedCapabilities: the
     * providers, then the service capabilities, each stopping at a throw.
     */
    method ProcessCapabilityObligations(elements: seq<ManifestElement>, procs: Processors) returns (completed: bool)
      requires registry != null && registry.Valid()
      modifies registry`components, registry`expected, registry`providers, registry`calls
      ensures registry.Valid()
      ensures completed == ObligationStage(elements, procs).completed
      ensures registry.calls == old(registry.calls) + ObligationStage(elements, procs).calls
      ensures Names(registry.components) == old(Names(registry.components))
      ensures registry.expected == old(registry.expected) + ExpectedCapabilities(ObligationStage(elements, procs).calls)
      ensures registry.providers == old(registry.providers) + ProviderObligations(ObligationStage(elements, procs).calls)
      ensures registry.components == Registered(old(registry.components), ObligationStage(elements, procs).calls)
      ensures registry.satisfiable == old(registry.satisfiable)
    {
      ObligationStageObligations(elements, procs);
      ObligationStageRegistered(registry.components, elements, procs);
      var providers := ProcessProvideCapabilitiesInternal(elements, procs.capabilityProviderProcessor);
      if providers.Threw? {
        assert registry.calls + [] == registry.calls;
        assert registry.expected + [] == registry.expected && registry.providers + [] == registry.providers;
        return false;
      }
      ProcessCapabilityProviders(providers.value);
      var services := ProcessProvideCapabilitiesInternal(elements, procs.osgiServiceCapabilityProcessor);
      if services.Threw? {
        assert registry.expected + [] == registry.expected;
        return false;
      }
      ProcessOSGiServiceCapabilities(services.value);
      AppendAssoc(old(registry.calls), ProviderCalls(providers.value), ServiceCalls(services.value));
      return true;
    }

    /** processRequiredCapabilityListeners: the legacy listeners become components and are added. */
    method ProcessRequiredCapabilityListeners(listeners: seq<ListenerCapability>)
      requires registry != null && registry.Valid()
      modifies registry`components, registry`calls
      ensures registry.Valid()
      ensures registry.calls == old(registry.calls) + [Added(ListenerComponents(listeners))]
      ensures Names(registry.components) == old(Names(registry.components)) + Names(ListenerComponents(listeners))
      ensures registry.components == MergeAll(old(registry.components), ListenerComponents(listeners))
      ensures registry.expected == old(registry.expected) && registry.providers == old(registry.providers)
      ensures registry.satisfiable == old(registry.satisfiable)
    {
      registry.AddComponents(ListenerComponents(listeners));
    }

    /** processCapabilityProviders: records each provider obligation, in order. */
    method ProcessCapabilityProviders(providers: seq<ProviderCapability>)
      requires registry != null && registry.Valid()
      modifies registry`providers, registry`calls
      ensures registry.Valid()
      ensures registry.calls == old(registry.calls) + ProviderCalls(providers)
      ensures registry.providers == old(registry.providers) + providers
      ensures registry.expected == old(registry.expected)
      ensures registry.components == old(registry.components) && registry.satisfiable == old(registry.satisfiable)
    {
      var i := 0;
      while i < |providers|
        invariant 0 <= i <= |providers|
        invariant registry.Valid()
        invariant registry.calls == old(registry.calls) + ProviderCalls(providers[..i])
        invariant registry.providers == old(registry.providers) + providers[..i]
        invariant registry.components == old(registry.components) && registry.satisfiable == old(registry.satisfiable)
      {
        registry.AddExpectedCapabilityProvider(providers[i]);
        assert providers[..i + 1][..i] == providers[..i];
        i := i + 1;
      }
      assert providers[..|providers|] == providers;
    }

    /**
     * processOSGiServiceCapabilities: links each capability that names a
     * dependent component to it, then records the capability as expected.
     */
    method ProcessOSGiServiceCapabilities(services: seq<ServiceCapability>)
      requires registry != null && registry.Valid()
      modifies registry`components, registry`expected, registry`calls
      ensures registry.Valid()
      ensures registry.calls == old(registry.calls) + ServiceCalls(services)
      ensures registry.expected == old(registry.expected) + services
      ensures registry.providers == old(registry.providers)
      ensures Names(registry.components) == old(Names(registry.components))
      ensures forall n, s :: s in ServicesOf(registry.components, n) <==>
                s in ServicesOf(old(registry.components), n) || (n in old(Names(registry.components)) && Links(services, n, s))
      ensures registry.components == Registered(old(registry.components), ServiceCalls(services))
      ensures registry.satisfiable == old(registry.satisfiable)
    {
      var i := 0;
      while i < |services|
        invariant 0 <= i <= |services|
        invariant registry.Valid()
        invariant registry.calls == old(registry.calls) + ServiceCalls(services[..i])
        invariant registry.expected == old(registry.expected) + services[..i]
        invariant registry.components == Registered(old(registry.components), ServiceCalls(services[..i]))
        invariant registry.satisfiable == old(registry.satisfiable)
      {
        var s := services[i];
        ProcessServiceCapability(s);
        PrefixStep(services, i);
        AppendAssoc(old(registry.calls), ServiceCalls(services[..i]), ServiceCallsOf(s));
        AppendAssoc(old(registry.expected), services[..i], [s]);
        RegisteredAppend(old(registry.components), ServiceCalls(services[..i]), ServiceCallsOf(s));
        i := i + 1;
      }
      assert services[..|services|] == services;
      ServiceCallsRegistered(old(registry.components), services);
    }

    /**
     * One capability of processOSGiServiceCapabilities: linked to its
     * dependent component when it names one, then recorded as expected.
     */
    method ProcessServiceCapability(s: ServiceCapability)
      requires registry != null && registry.Valid()
      modifies registry`components, registry`expected, registry`calls
      ensures registry.Valid()
      ensures registry.calls == old(registry.calls) + ServiceCallsOf(s)
      ensures registry.expected == old(registry.expected) + [s]
      ensures registry.components == Registered(old(registry.components), ServiceCallsOf(s))
      ensures registry.satisfiable == old(registry.satisfiable)
    {
      RegisteredServiceCallsOf(registry.components, s);
      if s.dependentComponentName.Some? {
        registry.AddRequiredServiceToComponent(s.dependentComponentName.value, s.name);
      }
      registry.AddExpectedRequiredCapability(s);
    }

    /**
     * notifySatisfiableComponents: for each component of the satisfiable
     * snapshot, removes it from the registry and then calls its listener.
     * Afterwards exactly the pending components remain registered.
     */
    method NotifySatisfiableComponents()
      requires Valid() && registry != null
      modifies registry`components, registry`satisfiable, registry`calls, this`actions
      ensures Valid()
      ensures registry.components == old(registry.PendingComponents()) && registry.satisfiable == {}
      ensures registry.PendingComponents() == old(registry.PendingComponents()) && registry.SatisfiableComponents() == []
      ensures registry.calls == old(registry.calls) + RemoveCalls(old(registry.SatisfiableComponents()))
      ensures actions == old(actions) + NotifyActions(old(registry.SatisfiableComponents()))
      ensures DistinctNames(old(registry.SatisfiableComponents()))
    {
      var manager: StartupComponentManager := registry;
      var snapshot := manager.SatisfiableComponents();
      ghost var pending := manager.PendingComponents();
      NamesOfFilters(manager.components, manager.satisfiable);
      FiltersKeepDistinct(manager.components, manager.satisfiable);
      assert Names(snapshot) == manager.satisfiable;
      NotificationPass(manager, snapshot);
      assert manager.components == pending && manager.satisfiable == {};
      DropNothing(pending);
      KeepNothing(pending);
    }

    /** The forEach of notifySatisfiableComponents over a snapshot: one Notify step per component, in order. */
    method NotificationPass(manager: StartupComponentManager, snapshot: seq<StartupComponent>)
      requires manager.Valid()
      modifies manager`components, manager`satisfiable, manager`calls, this`actions
      ensures manager.Valid()
      ensures manager.components == WithoutNames(old(manager.components), Names(snapshot))
      ensures manager.satisfiable == old(manager.satisfiable) - Names(snapshot)
      ensures manager.calls == old(manager.calls) + RemoveCalls(snapshot)
      ensures actions == old(actions) + NotifyActions(snapshot)
    {
      DropNothing(manager.components);
      ghost var removed: set<string> := {};
      var i := 0;
      while i < |snapshot|
        invariant 0 <= i <= |snapshot|
        invariant manager.Valid()
        invariant removed == Names(snapshot[..i])
        invariant manager.components == WithoutNames(old(manager.components), removed)
        invariant manager.satisfiable == old(manager.satisfiable) - removed
        invariant manager.calls == old(manager.calls) + RemoveCalls(snapshot[..i])
        invariant actions == old(actions) + NotifyActions(snapshot[..i])
      {
        var component := snapshot[i];
        Notify(manager, component);
        PassStep(snapshot, i, old(manager.calls), old(actions));
        WithoutNamesTwice(old(manager.components), removed, {component.name});
        removed := removed + {component.name};
        assert removed == Names(snapshot[..i + 1]);
        assert manager.components == WithoutNames(old(manager.components), removed);
        assert manager.calls == old(manager.calls) + RemoveCalls(snapshot[..i + 1]);
        assert actions == old(actions) + NotifyActions(snapshot[..i + 1]);
        i := i + 1;
      }
      assert snapshot[..|snapshot|] == snapshot;
    }

    /**
     * One step of the pass, under the component's name monitor: the component
     * leaves the registry, then its listener is called.
     */
    method Notify(manager: StartupComponentManager, component: StartupComponent)
      requires manager.Valid()
      modifies manager`components, manager`satisfiable, manager`calls, this`actions
      ensures manager.Valid()
      ensures manager.components == WithoutNames(old(manager.components), {component.name})
      ensures manager.satisfiable == old(manager.satisfiable) - {component.name}
      ensures manager.calls == old(manager.calls) + [Removed(component.name)]
      ensures actions == old(actions) + [NotifyListener(component.name, false)]
    {
      manager.RemoveSatisfiedComponent(component);
      actions := actions + [NotifyListener(component.name, component.name in Names(manager.components))];
    }

    /**
     * The progress tick: with nothing pending, a last notification pass, the
     * finalisation hooks, then this timer is cancelled and the tracker
     * closed; otherwise only a notification pass. The diagnostics timer is
     * left alone.
     */
    method ProgressTick()
      requires Valid() && progressTimer == Scheduled
      modifies this, registry`components, registry`satisfiable, registry`calls
      ensures Valid() && registry == old(registry) && registry != null
      ensures diagnosticsTimer == old(diagnosticsTimer)
      ensures registry.expected == old(registry.expected) && registry.providers == old(registry.providers)
      ensures registry.available == old(registry.available) && registry.listenersRegistered == old(registry.listenersRegistered)
      ensures registry.components == old(registry.PendingComponents()) && registry.satisfiable == {}
      ensures registry.calls == old(registry.calls) + RemoveCalls(old(registry.SatisfiableComponents()))
      ensures old(registry.PendingComponents()) == [] ==>
                progressTimer == Cancelled && tracker == Some(Closed) &&
                actions == old(actions) + NotifyActions(old(registry.SatisfiableComponents()))
                           + [Finalise, CancelProgressTimer, CloseTracker]
      ensures old(registry.PendingComponents()) != [] ==>
                progressTimer == Scheduled && tracker == old(tracker) &&
                actions == old(actions) + NotifyActions(old(registry.SatisfiableComponents()))
    {
      ghost var notified := actions + NotifyActions(registry.SatisfiableComponents());
      if |registry.PendingComponents()| == 0 {
        NotifySatisfiableComponents();
        assert actions == notified;
        actions := actions + [Finalise];
        progressTimer := Cancelled;
        actions := actions + [CancelProgressTimer];
        tracker := Some(Closed);
        actions := actions + [CloseTracker];
        return;
      }
      NotifySatisfiableComponents();
    }

    /**
     * The diagnostics tick: reads the registry and never changes it. With
     * nothing pending it cancels its own timer (only); otherwise it returns
     * the report.
     */
    method DiagnosticsTick() returns (report: seq<Warning>)
      requires Valid() && diagnosticsTimer == Scheduled
      modifies this`diagnosticsTimer, this`actions
      ensures Valid() && registry != null && unchanged(registry)
      ensures progressTimer == old(progressTimer) && tracker == old(tracker)
      ensures registry.PendingComponents() == [] ==>
                diagnosticsTimer == Cancelled && report == [] && actions == old(actions) + [CancelDiagnosticsTimer]
      ensures registry.PendingComponents() != [] ==>
                diagnosticsTimer == Scheduled && report == DiagnosticReport(registry) && actions == old(actions)
    {
      if |registry.PendingComponents()| == 0 {
        diagnosticsTimer := Cancelled;
        actions := actions + [CancelDiagnosticsTimer];
        return [];
      }
      report := CollectCapabilityWarnings(registry);
      var listenerWarnings := CollectListenerWarnings(registry.PendingRequiredCapabilityListeners());
      var providerWarnings := CollectProviderWarnings(registry.PendingCapabilityProviderList());
      report := report + listenerWarnings + providerWarnings;
    }

    /**
     * The tracker finds the last registered component satisfiable: the next
     * progress tick calls its listener exactly once, after removing it, then
     * finalises, cancels its own timer and closes the tracker; the next
     * diagnostics tick has nothing to report and cancels its timer too.
     */
    method LastComponentSatisfied(c: StartupComponent) returns (report: seq<Warning>)
      requires Valid() && progressTimer == Scheduled && diagnosticsTimer == Scheduled
      requires registry.components == [c] && registry.satisfiable == {}
      modifies this, registry`components, registry`satisfiable, registry`calls
      ensures Valid() && registry == old(registry) && registry.components == [] && report == []
      ensures actions == old(actions) + [NotifyListener(c.name, false), Finalise, CancelProgressTimer, CloseTracker, CancelDiagnosticsTimer]
      ensures progressTimer == Cancelled && diagnosticsTimer == Cancelled && tracker == Some(Closed)
    {
      assert registry.components[0].name == c.name;
      registry.MarkSatisfiable(c.name);
      assert registry.satisfiable == {c.name} && registry.components[1..] == [];
      assert WithNames([c], {c.name}) == [c] + WithNames([], {c.name});
      assert WithoutNames([c], {c.name}) == [] + WithoutNames([], {c.name});
      ProgressTick();
      assert NotifyActions([c]) == [NotifyListener(c.name, false)];
      report := DiagnosticsTick();
    }

    /**
     * The tracker sees a required service, a component's
     * RequiredCapabilityListener and a CapabilityProvider: the next
     * diagnostics report waits for none of them.
     */
    method DiagnosticsAfterTracking(serviceName: string, componentName: string, providedName: string)
      returns (report: seq<Warning>)
      requires Valid() && diagnosticsTimer == Scheduled
      modifies this`diagnosticsTimer, this`actions, registry`available, registry`listenersRegistered, registry`providers
      ensures Valid() && registry == old(registry)
      ensures forall w | w in report && w.PendingCapability? :: w.capability.name != serviceName
      ensures forall w | w in report && w.WaitingForListener? :: w.component.name != componentName
      ensures forall w | w in report && w.WaitingForProvider? :: w.provider.providedCapabilityName != providedName
    {
      registry.MarkCapabilityAvailable(serviceName);
      registry.MarkListenerRegistered(componentName);
      registry.ResolveProvider(providedName);
      report := DiagnosticsTick();
      ReportOmitsTracked(registry);
    }
  }

  /** The first section of the diagnostics report: each pending component with each capability it waits for. */
  method CollectCapabilityWarnings(registry: StartupComponentManager) returns (report: seq<Warning>)
    ensures report == PendingCapabilityWarnings(registry, registry.PendingComponents())
  {
    var pending := registry.PendingComponents();
    report := [];
    var i := 0;
    while i < |pending|
      invariant 0 <= i <= |pending|
      invariant report == PendingCapabilityWarnings(registry, pending[..i])
    {
      var component := pending[i];
      var warnings := CollectComponentWarnings(component, registry.PendingProvideCapabilityList(component.name));
      PrefixStep(pending, i);
      report := report + warnings;
      i := i + 1;
    }
    assert pending[..|pending|] == pending;
  }

  /** The warnings for one pending component: one per capability it waits for, in order. */
  method CollectComponentWarnings(component: StartupComponent, capabilities: seq<ServiceCapability>) returns (warnings: seq<Warning>)
    ensures warnings == CapabilityWarnings(component, capabilities)
  {
    warnings := [];
    var j := 0;
    while j < |capabilities|
      invariant 0 <= j <= |capabilities|
      invariant warnings == CapabilityWarnings(component, capabilities[..j])
    {
      warnings := warnings + [PendingCapability(component, capabilities[j])];
      assert capabilities[..j + 1][..j] == capabilities[..j];
      j := j + 1;
    }
    assert capabilities[..|capabilities|] == capabilities;
  }

  /** The second section: each pending component whose listener service is missing. */
  method CollectListenerWarnings(listeners: seq<StartupComponent>) returns (report: seq<Warning>)
    ensures report == ListenerWarnings(listeners)
  {
    report := [];
    var i := 0;
    while i < |listeners|
      invariant 0 <= i <= |listeners|
      invariant report == ListenerWarnings(listeners[..i])
    {
      report := report + [WaitingForListener(listeners[i])];
      assert listeners[..i + 1][..i] == listeners[..i];
      i := i + 1;
    }
    assert listeners[..|listeners|] == listeners;
  }

  /** The third section: each outstanding provider obligation. */
  method CollectProviderWarnings(providers: seq<ProviderCapability>) returns (report: seq<Warning>)
    ensures report == ProviderWarnings(providers)
  {
    report := [];
    var i := 0;
    while i < |providers|
      invariant 0 <= i <= |providers|
      invariant report == ProviderWarnings(providers[..i])
    {
      report := report + [WaitingForProvider(providers[i])];
      assert providers[..i + 1][..i] == providers[..i];
      i := i + 1;
    }
    assert providers[..|providers|] == providers;
  }
}
