# Startup order resolver (WSO2 Carbon kernel)

A Dafny model of `StartupOrderResolver`, the Carbon kernel component that holds
back "startup components" until every OSGi service they require is registered.

When the component activates, it reads two manifest headers from every bundle:

- `Startup-Component` declares components.
- `Provide-Capability` declares three kinds of capability:
  - legacy `RequiredCapabilityListener` declarations, which become components
  - `CapabilityProvider` obligations
  - OSGi service capabilities, optionally on behalf of a dependent component

Everything found is registered in the startup component registry (`StartupComponentManager`). If no component is pending, the resolver drops its registry and tracker and stops. Otherwise it opens the OSGi service tracker and schedules two timers:

- **Progress timer** (`capabilityListenerTimer`). Each tick notifies the components that have become satisfiable. Each component is removed from the registry before its `onAllRequiredCapabilitiesAvailable` callback. Once nothing is pending, the tick runs one last pass, the start-up finalisation, cancels its own timer and closes the tracker.
- **Diagnostics timer** (`pendingCapabilityTimer`). Each tick reports, in this order, the pending component/capability pairs, the missing listener services and the missing providers. Once nothing is pending, it cancels itself.

Layout:

- `outcomes.dfy`: `Option` (Java `Optional` and null) and `Attempt` (a call into code outside the model that either returns a value or throws).
- `beans.dfy`: the values the resolver passes around, and the name filters the registry is built from.
- `registry.dfy`: the registry as a class.
  - It exposes the observers and mutators the resolver calls, and a ghost log of the mutator calls.
  - `Registered` replays a call log on a component list. Each processing method states its new components as the replay of the calls it made, and `RegisteredServices` says which required services a replay leaves under each name.
  - The tracker's decisions arrive through four tracker steps: `MarkSatisfiable`, `MarkCapabilityAvailable`, `MarkListenerRegistered` and `ResolveProvider`.
- `classification.dfy`: the pure half of manifest processing.
  - Grouping by header, the processor pipeline, and the listener-to-component mapping.
  - The exact sequence of registry calls that processing makes (`Classify`), with the order and linking properties.
- `resolver.dfy`: the resolver itself, as a class.
  - Its state: the registry (or null), the tracker state, the two timer states, and a ghost log of outward actions (tracker open/close, timer schedule/cancel, listener callbacks, finalisation).
  - Its operations: activation, the processing methods, the notification pass and the two timer ticks.
  - The notification pass and the diagnostics report are each specified by a function with lemmas.

## Model

| member | source | states |
|---|---|---|
| Classification.GroupByHeaderSpec | core/src/main/java/org/wso2/carbon/kernel/internal/startupresolver/StartupOrderResolver.java:156-164 | The grouping has a key for exactly the header names that occur. Each group holds exactly the elements with that header, in input order, so no group is empty. |
| Classification.ProcessProvideCapabilitiesInternal | core/src/main/java/org/wso2/carbon/kernel/internal/startupresolver/StartupOrderResolver.java:336-351 | Succeeds iff the processor throws on no element. Its results are exactly the values the processor produced; empty `Optional`s are dropped. |
| Classification.ProcessInternalAppend | core/src/main/java/org/wso2/carbon/kernel/internal/startupresolver/StartupOrderResolver.java:341-350 | Order is kept: processing `a + b` gives the results of `a` followed by those of `b`, and throws if either part throws. |
| Classification.ProcessInternalSingle | core/src/main/java/org/wso2/carbon/kernel/internal/startupresolver/StartupOrderResolver.java:344-348 | One element gives its processor's value when present, nothing when empty, and a throw when the processor throws. |
| Classification.ComponentBeans | core/src/main/java/org/wso2/carbon/kernel/internal/startupresolver/StartupOrderResolver.java:292-295 | Fails iff some element's bean construction throws. Otherwise it holds exactly one component per element, position by position. |
| Classification.ListenerComponents | core/src/main/java/org/wso2/carbon/kernel/internal/startupresolver/StartupOrderResolver.java:366-375 | Each legacy listener becomes one component at the same position, with the same name, bundle and required-service list. |
| Classification.ProviderCallsShape | core/src/main/java/org/wso2/carbon/kernel/internal/startupresolver/StartupOrderResolver.java:380-386 | Each provider, in order, becomes exactly one provider-obligation call. These calls declare no component. |
| Classification.ServiceCallsExpectInOrder | core/src/main/java/org/wso2/carbon/kernel/internal/startupresolver/StartupOrderResolver.java:388-401 | Every service capability is recorded as expected, exactly once and in input order. These calls declare no component. |
| Classification.ServiceCallsLinkBeforeExpect | core/src/main/java/org/wso2/carbon/kernel/internal/startupresolver/StartupOrderResolver.java:393-398 | A capability naming a dependent component is linked to that component immediately before it is recorded as expected. A capability without one is only recorded. |
| Classification.ProvidedStageOrder | core/src/main/java/org/wso2/carbon/kernel/internal/startupresolver/StartupOrderResolver.java:307-326 | Provided capabilities are processed phase by phase (listener components, then providers, then service capabilities), even when a processor throws part-way. |
| Classification.ProvidedStageDeclares | core/src/main/java/org/wso2/carbon/kernel/internal/startupresolver/StartupOrderResolver.java:310-322 | Of the provided capabilities, only the legacy listeners declare components, and they declare exactly their own names. |
| Classification.ProviderCallsObligations | core/src/main/java/org/wso2/carbon/kernel/internal/startupresolver/StartupOrderResolver.java:380-386 | processCapabilityProviders records exactly its providers as obligations, in order, and no service capability. |
| Classification.ServiceCallsObligations | core/src/main/java/org/wso2/carbon/kernel/internal/startupresolver/StartupOrderResolver.java:388-401 | processOSGiServiceCapabilities records no provider obligation. |
| Classification.ObligationStageObligations | core/src/main/java/org/wso2/carbon/kernel/internal/startupresolver/StartupOrderResolver.java:314-322 | The provider and service phases record the providers once their processor succeeds, and the service capabilities once both processors succeed. They declare no component. |
| Classification.ProvidedStageSplit | core/src/main/java/org/wso2/carbon/kernel/internal/startupresolver/StartupOrderResolver.java:307-326 | A listener processor that throws makes no call. Otherwise the listener addition comes first and declares exactly the listener components, and the obligations recorded are exactly those of the provider and service phases. |
| Classification.ProvidedStageObligations | core/src/main/java/org/wso2/carbon/kernel/internal/startupresolver/StartupOrderResolver.java:307-326 | Provided-capability processing records the providers iff the listener and provider processors succeed, and the service capabilities iff all three succeed. Otherwise it records none. |
| Classification.ClassifyObligations | core/src/main/java/org/wso2/carbon/kernel/internal/startupresolver/StartupOrderResolver.java:155-168 | The Startup-Component additions record no obligation, so manifest processing records exactly the obligations of the provided capabilities. It records none when building a startup component throws. |
| Classification.ClassificationOrder | core/src/main/java/org/wso2/carbon/kernel/internal/startupresolver/StartupOrderResolver.java:155-168 | All registry calls of manifest processing run through the phases in order. The Startup-Component additions come first. A missing Startup-Component group adds no call. |
| Classification.RegisteredProviderCalls | core/src/main/java/org/wso2/carbon/kernel/internal/startupresolver/StartupOrderResolver.java:380-386 | Provider obligations never change the registered components. |
| Classification.ServiceCallsRegistered | core/src/main/java/org/wso2/carbon/kernel/internal/startupresolver/StartupOrderResolver.java:388-401 | The service-capability calls keep the registered names. A registered component gains exactly the names of the capabilities that name it as their dependent. A name that is not registered gains nothing. |
| Classification.ObligationStageRegistered | core/src/main/java/org/wso2/carbon/kernel/internal/startupresolver/StartupOrderResolver.java:314-322 | The provider and service phases change the components only through the service links, and only once both processors succeed. |
| Classification.ProvidedStageRegistered | core/src/main/java/org/wso2/carbon/kernel/internal/startupresolver/StartupOrderResolver.java:307-326 | A throwing listener processor leaves the components alone. Otherwise the listener components are merged first, and then the obligation phases are replayed. |
| Classification.ProvidedStageServices | core/src/main/java/org/wso2/carbon/kernel/internal/startupresolver/StartupOrderResolver.java:307-326 | After provided-capability processing, a name requires exactly its old services and, once the listener processor succeeds, those the listeners declare. Once all three processors succeed, it also requires the capabilities that link it while it is registered. |
| Classification.ClassifyServices | core/src/main/java/org/wso2/carbon/kernel/internal/startupresolver/StartupOrderResolver.java:155-168 | After manifest processing, a name requires exactly its old services and those of the built startup components of that name. It also requires those of the legacy listeners once their processor succeeds, and, once every processor succeeds, the capabilities linked to it while it is registered. |
| Classification.ClassifyAsWritten | core/src/main/java/org/wso2/carbon/kernel/internal/startupresolver/StartupOrderResolver.java:155-168 | As written (the lookup at lines 310-311): with a Provide-Capability group it is the corrected processing; without one it never completes. Its calls are always a prefix of the corrected calls, so it stops after the Startup-Component additions. |
| Classification.LoneStartupComponentAbortsAsWritten | core/src/main/java/org/wso2/carbon/kernel/internal/startupresolver/StartupOrderResolver.java:310-311 | As written, one Startup-Component clause with no Provide-Capability header registers the component and then aborts processing. The corrected processing completes. |
| Classification.MissingProvideGroupIsEmpty | core/src/main/java/org/wso2/carbon/kernel/internal/startupresolver/StartupOrderResolver.java:310-311 | With the missing Provide-Capability group treated as empty, processing completes whenever the startup components can be built, adding only an empty listener list; the as-written processing never completes. |
| Registry.StartupComponentManager.constructor | core/src/main/java/org/wso2/carbon/kernel/internal/startupresolver/StartupOrderResolver.java:87 | A fresh registry is empty and consistent. |
| Registry.StartupComponentManager.PendingComponents | core/src/main/java/org/wso2/carbon/kernel/internal/startupresolver/StartupOrderResolver.java:114 | Pending components are exactly the registered ones the tracker has not found satisfiable. |
| Registry.StartupComponentManager.SatisfiableComponents | core/src/main/java/org/wso2/carbon/kernel/internal/startupresolver/StartupOrderResolver.java:404 | Satisfiable components are exactly the registered ones the tracker has found satisfiable. |
| Registry.StartupComponentManager.PendingProvideCapabilityList | core/src/main/java/org/wso2/carbon/kernel/internal/startupresolver/StartupOrderResolver.java:237-239 | Gives exactly the expected capabilities whose name is among the registered required services of the named component (`ServicesOf`) and that are not yet available. An unknown name gives nothing. |
| Registry.StartupComponentManager.PendingCapabilityProviderList | core/src/main/java/org/wso2/carbon/kernel/internal/startupresolver/StartupOrderResolver.java:267-268 | Gives the outstanding provider obligations, in the order they were recorded. |
| Registry.StartupComponentManager.PendingRequiredCapabilityListeners | core/src/main/java/org/wso2/carbon/kernel/internal/startupresolver/StartupOrderResolver.java:256-257 | Gives exactly the pending components whose listener service has not been registered. |
| Registry.StartupComponentManager.AddComponents | core/src/main/java/org/wso2/carbon/kernel/internal/startupresolver/StartupOrderResolver.java:296 | The components become `MergeAll` of the old ones and the list. The registered names grow by exactly the added names, and names stay distinct. Every registered component keeps its position, name and bundle, and one the list does not name is kept as it was. Each name's required services grow by exactly those the list declares for it. It may change only the components and the call log, and states every other field unchanged. |
| Registry.MergeAllKeeps | core/src/main/java/org/wso2/carbon/kernel/internal/startupresolver/StartupOrderResolver.java:377 | Merging a list into the registry keeps every registered component in its position with its name and bundle. A component the list does not name is left unchanged. |
| Registry.MergeAllServices | core/src/main/java/org/wso2/carbon/kernel/internal/startupresolver/StartupOrderResolver.java:377 | After merging, a name requires exactly the services it required before plus those some listed component of that name declares. |
| Registry.MergeAllStoresNew | core/src/main/java/org/wso2/carbon/kernel/internal/startupresolver/StartupOrderResolver.java:296 | A listed component whose name is new to the registry and appears once in the list is stored exactly as given. |
| Registry.StartupComponentManager.AddRequiredServiceToComponent | core/src/main/java/org/wso2/carbon/kernel/internal/startupresolver/StartupOrderResolver.java:395-396 | The named component keeps its name and bundle, and its required services become exactly the old ones plus the capability. Every other component is unchanged. An unknown name changes no component. It may change only the components and the call log. The components become `Link` of the old ones. |
| Registry.LinkShape | core/src/main/java/org/wso2/carbon/kernel/internal/startupresolver/StartupOrderResolver.java:395-396 | Linking keeps every component in its position with its name and bundle. The component of that name gains exactly the capability, and every other component is unchanged. A name gains the capability iff it is the named one and is registered. |
| Registry.RegisteredAppend | core/src/main/java/org/wso2/carbon/kernel/internal/startupresolver/StartupOrderResolver.java:155-168 | Replaying two call logs in turn is the same as replaying their concatenation, so the stages of manifest processing compose. |
| Registry.ApplyServices | core/src/main/java/org/wso2/carbon/kernel/internal/startupresolver/StartupOrderResolver.java:296 | One addition or link adds to each name exactly the required services it grants. An addition grants the services a listed component of that name declares. A link grants its capability to a registered name. An obligation grants nothing. |
| Registry.RegisteredNames | core/src/main/java/org/wso2/carbon/kernel/internal/startupresolver/StartupOrderResolver.java:155-168 | Replaying a log without removals registers the old names and exactly the names its additions declare. |
| Registry.RegisteredServices | core/src/main/java/org/wso2/carbon/kernel/internal/startupresolver/StartupOrderResolver.java:155-168 | Replaying a log without removals, a name requires exactly its old services and those some call of the log grants it. A link counts only when its component was already registered or declared by an earlier addition. |
| Registry.StartupComponentManager.AddExpectedRequiredCapability | core/src/main/java/org/wso2/carbon/kernel/internal/startupresolver/StartupOrderResolver.java:398 | Appends the capability to the expected list. It may change only that list and the call log, and states every other field unchanged. |
| Registry.StartupComponentManager.AddExpectedCapabilityProvider | core/src/main/java/org/wso2/carbon/kernel/internal/startupresolver/StartupOrderResolver.java:383-384 | Appends the provider obligation. It may change only the provider list and the call log, and states every other field unchanged. |
| Registry.StartupComponentManager.RemoveSatisfiedComponent | core/src/main/java/org/wso2/carbon/kernel/internal/startupresolver/StartupOrderResolver.java:409 | The component leaves the registry: it is neither satisfiable nor pending afterwards, and the other components keep their order. |
| Resolver.NotificationPassSpec | core/src/main/java/org/wso2/carbon/kernel/internal/startupresolver/StartupOrderResolver.java:403-424 | A pass calls one listener per snapshot component, in snapshot order, each after its component was removed. With the registry's distinct names, each listener is called exactly once. |
| Resolver.PendingCapabilityWarningsSpec | core/src/main/java/org/wso2/carbon/kernel/internal/startupresolver/StartupOrderResolver.java:235-252 | The first section warns about exactly the pairs of a pending component and a capability it still waits for. |
| Resolver.DiagnosticReportSpec | core/src/main/java/org/wso2/carbon/kernel/internal/startupresolver/StartupOrderResolver.java:226-275 | The report warns about exactly: the pending component/capability pairs, the pending components whose listener service is missing, and the outstanding providers. |
| Resolver.ReportOmitsTracked | core/src/main/java/org/wso2/carbon/kernel/internal/startupresolver/StartupOrderResolver.java:235-275 | The report never waits for what the tracker has seen: no pair names an available service, no listener warning names a component whose listener is registered, and every provider warning is an outstanding obligation. |
| Resolver.DiagnosticReportOrder | core/src/main/java/org/wso2/carbon/kernel/internal/startupresolver/StartupOrderResolver.java:235-275 | The report gives its three sections in order: capability pairs, then missing listeners, then missing providers. |
| Resolver.CollectCapabilityWarnings | core/src/main/java/org/wso2/carbon/kernel/internal/startupresolver/StartupOrderResolver.java:235-252 | The nested loop produces the first section of the report. |
| Resolver.CollectComponentWarnings | core/src/main/java/org/wso2/carbon/kernel/internal/startupresolver/StartupOrderResolver.java:237-250 | The inner loop produces, for one pending component, one warning per capability it waits for, in order. |
| Resolver.CollectListenerWarnings | core/src/main/java/org/wso2/carbon/kernel/internal/startupresolver/StartupOrderResolver.java:256-264 | The loop produces the second section, one warning per pending listener, in order. |
| Resolver.CollectProviderWarnings | core/src/main/java/org/wso2/carbon/kernel/internal/startupresolver/StartupOrderResolver.java:267-275 | The loop produces the third section, one warning per outstanding provider, in order. |
| Resolver.StartupOrderResolver.constructor | core/src/main/java/org/wso2/carbon/kernel/internal/startupresolver/StartupOrderResolver.java:87-93 | The field initialisers: a registry whose every field is empty (components, satisfiable set, expected capabilities, providers, available services, registered listeners, call log), a created tracker, and two idle timers. |
| Resolver.StartupOrderResolver.Start | core/src/main/java/org/wso2/carbon/kernel/internal/startupresolver/StartupOrderResolver.java:104-135 | The registry receives exactly the calls of manifest processing. Its expected capabilities and provider obligations grow by exactly those the calls record. Its satisfiable set, available services and registered listeners are unchanged. If processing throws, nothing is scheduled. If nothing is pending, the resolver quiesces early and nulls the registry and tracker. Otherwise it opens the tracker, then schedules the progress timer, then the diagnostics timer. On a fresh registry it quiesces iff processing declared no component. Its components become `Registered`, the replay of those calls on the old components. |
| Resolver.StartupOrderResolver.BeginTracking | core/src/main/java/org/wso2/carbon/kernel/internal/startupresolver/StartupOrderResolver.java:114-130 | With nothing pending, it nulls the registry and tracker and schedules nothing. Otherwise it opens the tracker, then schedules the progress timer, then the diagnostics timer, and leaves the registry as it is. |
| Resolver.StartupOrderResolver.ProcessManifestHeaders | core/src/main/java/org/wso2/carbon/kernel/internal/startupresolver/StartupOrderResolver.java:155-168 | The registry receives exactly the calls of `Classify` on the grouped elements. It gains exactly the names they declare, and the expected capabilities and provider obligations they record. The frame leaves the satisfiable set, available services and registered listeners unchanged. Completes iff no helper throws. Its components become the replay (`Registered`) of those calls on the old components, so `ClassifyServices` gives each name's required services. |
| Resolver.StartupOrderResolver.ProcessStartupComponents | core/src/main/java/org/wso2/carbon/kernel/internal/startupresolver/StartupOrderResolver.java:286-298 | A null group is a no-op. Otherwise all the beans are added in one call, or, if a bean throws, the registry is left as it was. The expected capabilities and provider obligations never change. On completion the components become the replay of its calls: the beans merged into the registry. |
| Resolver.StartupOrderResolver.ProcessProvidedCapabilities | core/src/main/java/org/wso2/carbon/kernel/internal/startupresolver/StartupOrderResolver.java:307-326 | Makes exactly the calls of the three phases, stopping after the completed ones when a processor throws. Only legacy listeners add names. The expected capabilities and provider obligations grow by exactly those the calls record. Its components become the replay of its calls: the listener components merged, then the service links. |
| Resolver.StartupOrderResolver.ProcessCapabilityObligations | core/src/main/java/org/wso2/carbon/kernel/internal/startupresolver/StartupOrderResolver.java:314-322 | The provider phase, then the service phase, each stopping at a throw. The registry receives exactly the calls of `ObligationStage`, its expected capabilities and provider obligations grow by exactly those the calls record, and its names are unchanged. Its components become the replay of its calls, in which only the service links change anything. |
| Resolver.StartupOrderResolver.ProcessRequiredCapabilityListeners | core/src/main/java/org/wso2/carbon/kernel/internal/startupresolver/StartupOrderResolver.java:361-378 | Adds the listener components in one call: the components become their merge into the registry, which gains exactly their names. The expected capabilities and provider obligations are unchanged. |
| Resolver.ListenerRequirementsPending | core/src/main/java/org/wso2/carbon/kernel/internal/startupresolver/StartupOrderResolver.java:366-377 | After the listener components are added, every expected capability that a listener lists and the tracker has not seen is pending for that listener's component name. |
| Resolver.ListenerRequirementsReported | core/src/main/java/org/wso2/carbon/kernel/internal/startupresolver/StartupOrderResolver.java:235-252 | After the listener components are added, the first section of the report names each such capability against every pending component of that name. |
| Resolver.ActivationRequirementsPending | core/src/main/java/org/wso2/carbon/kernel/internal/startupresolver/StartupOrderResolver.java:155-168 | After manifest processing, every expected capability that a built startup component or a legacy listener requires, and that the tracker has not seen, is pending for that component name. |
| Resolver.ActivationRequirementsReported | core/src/main/java/org/wso2/carbon/kernel/internal/startupresolver/StartupOrderResolver.java:235-252 | After manifest processing, the first section of the report names each such listener capability against every pending component of that name. |
| Resolver.StartupOrderResolver.ProcessCapabilityProviders | core/src/main/java/org/wso2/carbon/kernel/internal/startupresolver/StartupOrderResolver.java:380-386 | Appends every provider obligation in order. The components and the expected capabilities are untouched. |
| Resolver.StartupOrderResolver.ProcessOSGiServiceCapabilities | core/src/main/java/org/wso2/carbon/kernel/internal/startupresolver/StartupOrderResolver.java:388-401 | Appends every capability to the expected list in order, each preceded by its link when it names a component. Each registered component's required services become exactly the old ones plus the names of the capabilities that name it as dependent. The provider obligations and the set of registered names are unchanged. The components are also the replay of its calls. |
| Resolver.StartupOrderResolver.ProcessServiceCapability | core/src/main/java/org/wso2/carbon/kernel/internal/startupresolver/StartupOrderResolver.java:393-399 | One capability is linked to its dependent component when it names one, and then recorded as expected. The components become the replay of those calls. |
| Resolver.StartupOrderResolver.NotifySatisfiableComponents | core/src/main/java/org/wso2/carbon/kernel/internal/startupresolver/StartupOrderResolver.java:403-424 | Afterwards exactly the previously pending components remain registered, with none satisfiable. The registry receives one removal per snapshot component, and the log gets one callback each, in snapshot order. The snapshot has distinct names, so each listener is called exactly once. |
| Resolver.StartupOrderResolver.NotificationPass | core/src/main/java/org/wso2/carbon/kernel/internal/startupresolver/StartupOrderResolver.java:404-423 | Over any snapshot: the snapshot's names leave the registry (the rest keep their order), and they leave the satisfiable set. The registry receives one removal per component, and the log gets one callback per component, in snapshot order. |
| Resolver.StartupOrderResolver.Notify | core/src/main/java/org/wso2/carbon/kernel/internal/startupresolver/StartupOrderResolver.java:408-421 | One component: it leaves the registry first, and then its listener is called. At the moment of the callback the component is no longer registered. |
| Resolver.StartupOrderResolver.ProgressTick | core/src/main/java/org/wso2/carbon/kernel/internal/startupresolver/StartupOrderResolver.java:190-211 | Always runs a notification pass and never touches the diagnostics timer. It changes only the registry's components, satisfiable set and call log. The expected capabilities, provider obligations, available services and registered listeners are stated unchanged. With nothing pending, it then finalises, cancels its own timer and closes the tracker, in that order. |
| Resolver.StartupOrderResolver.DiagnosticsTick | core/src/main/java/org/wso2/carbon/kernel/internal/startupresolver/StartupOrderResolver.java:222-277 | Never changes the registry, the progress timer or the tracker. With nothing pending, it cancels only its own timer. Otherwise it returns exactly `DiagnosticReport`. |
| Resolver.StartupOrderResolver.LastComponentSatisfied | core/src/main/java/org/wso2/carbon/kernel/internal/startupresolver/StartupOrderResolver.java:190-211 | Once the tracker marks the only registered component satisfiable, the progress tick removes it and calls its listener exactly once, then finalises, cancels its timer and closes the tracker; the following diagnostics tick reports nothing and cancels its timer. |
| Resolver.StartupOrderResolver.DiagnosticsAfterTracking | core/src/main/java/org/wso2/carbon/kernel/internal/startupresolver/StartupOrderResolver.java:222-277 | After the tracker sees a service, a component's listener and a provider, the next diagnostics report waits for none of them. |

## Left out

- OSGi plumbing is not modelled. This covers the bundle list, `AccessController.doPrivileged`, `isSupportedManifestHeaderExists` and `extractManifestElements`. Manifest elements arrive as a sequence, already filtered to the two supported headers.
- The per-element helpers are parameters (`Processors`); StartupOrderResolverUtils is not part of this model. These helpers are `getStartupComponentBean` and the three capability processors. Each may throw (`Attempt.Threw`).
- The registry's satisfiability bookkeeping and the OSGi service capability tracker are not part of this model. What they decide reaches the registry only through the four tracker steps of `StartupComponentManager`. Two resolver scenarios, `LastComponentSatisfied` and `DiagnosticsAfterTracking`, drive the ticks through those steps; satisfiability itself is not derived from the available services. The per-component listener object is not modelled either.
- Timer delays and periods, the configuration they are read from (`DataHolder`, `CarbonConfiguration`) and real time are left out. A tick is a method the environment may call while its timer is scheduled.
- Concurrency is left out: the two timer threads, OSGi callbacks racing with ticks, and the `componentName.intern()` monitor. Each tick runs atomically here.
- Log output is left out. The diagnostics warnings are returned as a `Warning` sequence instead of being logged.
- `CarbonStartupHandler.logServerStartupTime` and `registerCarbonServerInfoService` are one `Finalise` action.
- The `stop` deactivation method (debug log only) is left out.
- Resolver.StartupOrderResolver.NotifySatisfiableComponents does not model an exception thrown by a listener callback or a null listener. In the source either would escape the timer task and kill the timer thread.
- Resolver.StartupOrderResolver.Start does not model an exception from `startTracker` or from scheduling. Only exceptions during manifest processing take the catch path.
- The casts to the concrete capability types are type-level: each processor yields its own capability type.
- StartupResolverConstants is not part of this model. The two header names are taken from the doc comment of processManifestHeaders (StartupOrderResolver.java:144) as "Startup-Component" and "Provide-Capability"; the model relies only on their being distinct.
- Resolver.StartupOrderResolver.ProcessProvidedCapabilities follows the corrected lookup, where a missing Provide-Capability group counts as empty. As written, lines 310-311 pass null to processProvideCapabilitiesInternal, and the stream call at line 341 throws. That behaviour is modelled separately by `Classification.ClassifyAsWritten` (see Findings).
- Resolver.StartupOrderResolver.ProcessManifestHeaders follows the same corrected lookup. As written it stops after the Startup-Component additions whenever no bundle carries a Provide-Capability header, as `Classification.ClassifyAsWritten` states.
- Resolver.StartupOrderResolver.Start follows the same corrected lookup. As written, that case takes the catch path at line 132, so nothing is scheduled.
- Registry.StartupComponentManager.AddComponents does not keep the existing listener when a name is merged, because listeners are not modelled. It merges only the required-service lists.
- Registry.StartupComponentManager.AddComponents does not state which bundle a name new to the registry keeps when the list repeats that name. `MergeOne` keeps the first one, but no lemma states it.

## Findings

| source | as written | input that shows it | evidently intended | confidence | as-written member | corrected member |
|---|---|---|---|---|---|---|
| core/src/main/java/org/wso2/carbon/kernel/internal/startupresolver/StartupOrderResolver.java:310-311 | `groupedManifestElements.get` of the Provide-Capability header is passed to processProvideCapabilitiesInternal, which streams it. When no bundle carries that header the group is null, the stream call throws, and `start` logs the error and schedules nothing. | One bundle with one Startup-Component clause and no Provide-Capability header: the component is registered, and its listener is never notified. | A missing group is processed as an empty one, as processStartupComponents already does for a missing Startup-Component group (the null check at line 287). | medium, not executed | Classification.LoneStartupComponentAbortsAsWritten | Classification.MissingProvideGroupIsEmpty |

The rest of the model uses the corrected processing: `ProvideGroup` treats the missing group as empty.
