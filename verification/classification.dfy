/**
 * The pure half of descriptor processing: grouping the manifest elements by
 * header, running the capability processors, turning legacy listeners into
 * components, and the sequence of registry calls that processing makes.
 */
module Classification {
  import opened Outcomes
  import opened Beans
  import opened Registry

  /**
   * The helpers of StartupOrderResolverUtils that the resolver applies to
   * one manifest element each. Any of them may throw.
   */
  datatype Processors = Processors(
    startupComponentBean: ManifestElement -> Attempt<StartupComponent>,
    requireCapabilityListenerProcessor: ManifestElement -> Attempt<Option<ListenerCapability>>,
    capabilityProviderProcessor: ManifestElement -> Attempt<Option<ProviderCapability>>,
    osgiServiceCapabilityProcessor: ManifestElement -> Attempt<Option<ServiceCapability>>)

  /** The calls descriptor processing made, and whether it ran to the end without throwing. */
  datatype Classified = Classified(calls: seq<RegistryCall>, completed: bool)

  // ---------------------------------------------------------------------------
  // Grouping by header name

  /** The header names that occur among the elements. */
  function Headers(elements: seq<ManifestElement>): set<string>
  {
    set i | 0 <= i < |elements| :: elements[i].headerName
  }

  /** The elements carrying `header`, in order: the reference for one group. */
  function WithHeader(elements: seq<ManifestElement>, header: string): seq<ManifestElement>
  {
    if elements == [] then []
    else (if elements[0].headerName == header then [elements[0]] else []) + WithHeader(elements[1..], header)
  }

  /** `Collectors.groupingBy(getManifestHeaderName)`: one pass, appending each element to its header's list. */
  function GroupByHeader(elements: seq<ManifestElement>): map<string, seq<ManifestElement>>
  {
    if elements == [] then map[]
    else
      var groups := GroupByHeader(elements[..|elements| - 1]);
      var e := elements[|elements| - 1];
      groups[e.headerName := (if e.headerName in groups then groups[e.headerName] else []) + [e]]
  }

  /** `Map.get`: the group of a header, or null. */
  function Lookup(groups: map<string, seq<ManifestElement>>, header: string): Option<seq<ManifestElement>>
  {
    if header in groups then Some(groups[header]) else None
  }

  lemma {:induction false} WithHeaderAppend(a: seq<ManifestElement>, b: seq<ManifestElement>, header: string)
    ensures WithHeader(a + b, header) == WithHeader(a, header) + WithHeader(b, header)
  {
    if a != [] {
      assert (a + b)[1..] == a[1..] + b;
      WithHeaderAppend(a[1..], b, header);
    } else {
      assert a + b == b;
    }
  }

  lemma {:induction false} WithHeaderAbsent(elements: seq<ManifestElement>, header: string)
    requires header !in Headers(elements)
    ensures WithHeader(elements, header) == []
  {
    if elements != [] {
      assert elements[0].headerName in Headers(elements);
      assert Headers(elements[1..]) <= Headers(elements) by {
        forall h | h in Headers(elements[1..]) ensures h in Headers(elements) {
          var i :| 0 <= i < |elements[1..]| && elements[1..][i].headerName == h;
          assert elements[i + 1].headerName == h;
        }
      }
      WithHeaderAbsent(elements[1..], header);
    }
  }

  /**
   * The grouping has a key exactly for the headers that occur, and each
   * group holds exactly that header's elements in input order (so no group
   * is empty).
   */
  lemma {:induction false} GroupByHeaderSpec(elements: seq<ManifestElement>)
    ensures forall h :: h in GroupByHeader(elements) <==> h in Headers(elements)
    ensures forall h :: h in GroupByHeader(elements) ==>
              GroupByHeader(elements)[h] == WithHeader(elements, h) && GroupByHeader(elements)[h] != []
  {
    if elements != [] {
      var init := elements[..|elements| - 1];
      var e := elements[|elements| - 1];
      var groups := GroupByHeader(init);
      assert elements == init + [e];
      GroupByHeaderSpec(init);
      HeadersSnoc(init, e);
      if e.headerName !in Headers(init) {
        WithHeaderAbsent(init, e.headerName);
      }
      forall h | h in GroupByHeader(elements)
        ensures GroupByHeader(elements)[h] == WithHeader(elements, h) && GroupByHeader(elements)[h] != []
      {
        WithHeaderSnoc(init, e, h);
        if h != e.headerName {
          assert GroupByHeader(elements)[h] == groups[h];
        }
      }
    }
  }

  /** The headers of a list grown by one element. */
  lemma HeadersSnoc(init: seq<ManifestElement>, e: ManifestElement)
    ensures Headers(init + [e]) == Headers(init) + {e.headerName}
  {
    var all := init + [e];
    forall h ensures h in Headers(all) <==> h in Headers(init) || h == e.headerName {
      if h in Headers(all) {
        var i :| 0 <= i < |all| && all[i].headerName == h;
        if i < |init| { assert init[i].headerName == h; }
      }
      if h in Headers(init) {
        var i :| 0 <= i < |init| && init[i].headerName == h;
        assert all[i].headerName == h;
      }
      if h == e.headerName { assert all[|init|].headerName == h; }
    }
  }

  /** One header's elements of a list grown by one element. */
  lemma WithHeaderSnoc(init: seq<ManifestElement>, e: ManifestElement, h: string)
    ensures WithHeader(init + [e], h) == WithHeader(init, h) + (if e.headerName == h then [e] else [])
  {
    WithHeaderAppend(init, [e], h);
    assert [e][1..] == [];
  }

  // ---------------------------------------------------------------------------
  // Processing the elements of one header

  /**
   * processProvideCapabilitiesInternal: applies the processor to each element
   * in order and keeps the values it produced; if the processor throws on
   * any element, the whole call throws.
   */
  function ProcessProvideCapabilitiesInternal<T(!new)>(elements: seq<ManifestElement>, processor: ManifestElement -> Attempt<Option<T>>)
    : (r: Attempt<seq<T>>)
    ensures r.Done? <==> forall i :: 0 <= i < |elements| ==> !processor(elements[i]).Threw?
    ensures r.Done? ==> forall x :: x in r.value <==> exists i :: 0 <= i < |elements| && processor(elements[i]) == Done(Some(x))
  {
    if elements == [] then Done([])
    else
      match processor(elements[0])
      case Threw => Threw
      case Done(produced) =>
        match ProcessProvideCapabilitiesInternal(elements[1..], processor)
        case Threw => Threw
        case Done(rest) =>
          var r := (if produced.Some? then [produced.value] else []) + rest;
          assert forall x :: x in r <==> exists i :: 0 <= i < |elements| && processor(elements[i]) == Done(Some(x)) by {
            forall x ensures x in r <==> exists i :: 0 <= i < |elements| && processor(elements[i]) == Done(Some(x)) {
              if exists i :: 0 <= i < |elements| && processor(elements[i]) == Done(Some(x)) {
                var i :| 0 <= i < |elements| && processor(elements[i]) == Done(Some(x));
                if i > 0 { assert processor(elements[1..][i - 1]) == Done(Some(x)); }
              }
              if x in rest {
                var i :| 0 <= i < |elements[1..]| && processor(elements[1..][i]) == Done(Some(x));
                assert processor(elements[i + 1]) == Done(Some(x));
              }
            }
          }
          Done(r)
  }

  /**
   * Order: processing a concatenation yields the results of the first part
   * followed by those of the second, and throws if either part throws.
   */
  lemma {:induction false} ProcessInternalAppend<T(!new)>(a: seq<ManifestElement>, b: seq<ManifestElement>, processor: ManifestElement -> Attempt<Option<T>>)
    ensures ProcessProvideCapabilitiesInternal(a + b, processor) ==
            match (ProcessProvideCapabilitiesInternal(a, processor), ProcessProvideCapabilitiesInternal(b, processor))
            case (Done(x), Done(y)) => Done(x + y)
            case _ => Threw
  {
    if a == [] {
      assert a + b == b;
      match ProcessProvideCapabilitiesInternal(b, processor)
      case Done(y) => assert [] + y == y;
      case Threw =>
    } else {
      assert (a + b)[0] == a[0] && (a + b)[1..] == a[1..] + b;
      ProcessInternalAppend(a[1..], b, processor);
      match processor(a[0])
      case Threw =>
      case Done(produced) =>
        var head := if produced.Some? then [produced.value] else [];
        match (ProcessProvideCapabilitiesInternal(a[1..], processor), ProcessProvideCapabilitiesInternal(b, processor))
        case (Done(x), Done(y)) => assert head + (x + y) == (head + x) + y;
        case _ =>
    }
  }

  /** A single element yields its processor's value when present, nothing when empty. */
  lemma ProcessInternalSingle<T(!new)>(e: ManifestElement, processor: ManifestElement -> Attempt<Option<T>>)
    ensures ProcessProvideCapabilitiesInternal([e], processor) ==
            match processor(e)
            case Threw => Threw
            case Done(None) => Done([])
            case Done(Some(x)) => Done([x])
  {
    assert [e][0] == e && [e][1..] == [];
    assert ProcessProvideCapabilitiesInternal([e][1..], processor) == Done([]);
    match processor(e)
    case Done(Some(x)) => assert [x] + [] == [x];
    case Done(None) =>
      var none: seq<T> := [];
      assert none + none == none;
    case Threw =>
  }

  /** The `map(getStartupComponentBean)` of processStartupComponents: one component per element. */
  function ComponentBeans(elements: seq<ManifestElement>, bean: ManifestElement -> Attempt<StartupComponent>)
    : (r: Attempt<seq<StartupComponent>>)
    ensures r.Done? <==> forall i :: 0 <= i < |elements| ==> bean(elements[i]).Done?
    ensures r.Done? ==> |r.value| == |elements| && forall i :: 0 <= i < |elements| ==> bean(elements[i]) == Done(r.value[i])
  {
    if elements == [] then Done([])
    else
      match bean(elements[0])
      case Threw => Threw
      case Done(c) =>
        match ComponentBeans(elements[1..], bean)
        case Threw =>
          assert exists i :: 0 <= i < |elements[1..]| && !bean(elements[1..][i]).Done?;
          Threw
        case Done(rest) =>
          assert forall i :: 0 < i < |elements| ==> bean(elements[i]) == bean(elements[1..][i - 1]);
          Done([c] + rest)
  }

  /**
   * processRequiredCapabilityListeners' mapping: each legacy listener becomes
   * a component with the same name, bundle and required-service list.
   */
  function ListenerComponents(listeners: seq<ListenerCapability>): (r: seq<StartupComponent>)
    ensures |r| == |listeners|
    ensures forall i :: 0 <= i < |listeners| ==>
              r[i].name == listeners[i].componentName && r[i].bundle == listeners[i].bundle &&
              r[i].requiredServices == listeners[i].requiredServiceList
  {
    if listeners == [] then []
    else
      [StartupComponent(listeners[0].componentName, listeners[0].bundle, listeners[0].requiredServiceList)]
      + ListenerComponents(listeners[1..])
  }

  // ---------------------------------------------------------------------------
  // The registry calls descriptor processing makes

  /** The calls of processCapabilityProviders: one provider obligation per capability, in order. */
  function ProviderCalls(providers: seq<ProviderCapability>): seq<RegistryCall>
  {
    if providers == [] then []
    else ProviderCalls(providers[..|providers| - 1]) + [ProviderExpected(providers[|providers| - 1])]
  }

  /** The calls processOSGiServiceCapabilities makes for one capability. */
  function ServiceCallsOf(s: ServiceCapability): seq<RegistryCall>
  {
    match s.dependentComponentName
    case Some(component) => [Linked(component, s.name), Expected(s)]
    case None => [Expected(s)]
  }

  /** The calls of processOSGiServiceCapabilities, capability by capability. */
  function ServiceCalls(services: seq<ServiceCapability>): seq<RegistryCall>
  {
    if services == [] then []
    else ServiceCalls(services[..|services| - 1]) + ServiceCallsOf(services[|services| - 1])
  }

  /** Some capability of `services` is called `s` and names `component` as its dependent. */
  predicate Links(services: seq<ServiceCapability>, component: string, s: string)
  {
    exists c :: c in services && c.dependentComponentName == Some(component) && c.name == s
  }

  /** Proof hint: linking over one more capability. */
  lemma LinksSnoc(services: seq<ServiceCapability>, c: ServiceCapability)
    ensures forall n, s :: Links(services + [c], n, s) <==> Links(services, n, s) || (c.dependentComponentName == Some(n) && c.name == s)
  {
    forall n, s ensures Links(services + [c], n, s) <==> Links(services, n, s) || (c.dependentComponentName == Some(n) && c.name == s) {
      if Links(services + [c], n, s) {
        var d :| d in services + [c] && d.dependentComponentName == Some(n) && d.name == s;
        if d != c { assert d in services; }
      }
      if Links(services, n, s) {
        var d :| d in services && d.dependentComponentName == Some(n) && d.name == s;
        assert d in services + [c];
      }
      if c.dependentComponentName == Some(n) && c.name == s {
        assert c in services + [c];
      }
    }
  }

  /** The calls of processStartupComponents; a null group (no element with that header) is a no-op. */
  function StartupStage(group: Option<seq<ManifestElement>>, bean: ManifestElement -> Attempt<StartupComponent>)
    : Attempt<seq<RegistryCall>>
  {
    match group
    case None => Done([])
    case Some(elements) =>
      match ComponentBeans(elements, bean)
      case Threw => Threw
      case Done(components) => Done([Added(components)])
  }

  /** The Provide-Capability group, empty when no element carries that header. */
  function ProvideGroup(groups: map<string, seq<ManifestElement>>): seq<ManifestElement>
  {
    if ProvideCapabilityHeader in groups then groups[ProvideCapabilityHeader] else []
  }

  /**
   * The calls of processProvidedCapabilities: legacy listeners, then
   * providers, then service capabilities, each from the Provide-Capability
   * group (empty when no element carries that header). A throw stops it
   * after the calls already made.
   */
  function ProvidedStage(groups: map<string, seq<ManifestElement>>, procs: Processors): Classified
  {
    var elements := ProvideGroup(groups);
    match ProcessProvideCapabilitiesInternal(elements, procs.requireCapabilityListenerProcessor)
    case Threw => Classified([], false)
    case Done(listeners) =>
      var afterListeners := [Added(ListenerComponents(listeners))];
      match ProcessProvideCapabilitiesInternal(elements, procs.capabilityProviderProcessor)
      case Threw => Classified(afterListeners, false)
      case Done(providers) =>
        var afterProviders := afterListeners + ProviderCalls(providers);
        match ProcessProvideCapabilitiesInternal(elements, procs.osgiServiceCapabilityProcessor)
        case Threw => Classified(afterProviders, false)
        case Done(services) => Classified(afterProviders + ServiceCalls(services), true)
  }

  /**
   * The calls of the second and third phases of processProvidedCapabilities:
   * providers, then service capabilities. A throw stops it after the calls
   * already made.
   */
  function ObligationStage(elements: seq<ManifestElement>, procs: Processors): Classified
  {
    match ProcessProvideCapabilitiesInternal(elements, procs.capabilityProviderProcessor)
    case Threw => Classified([], false)
    case Done(providers) =>
      match ProcessProvideCapabilitiesInternal(elements, procs.osgiServiceCapabilityProcessor)
      case Threw => Classified(ProviderCalls(providers), false)
      case Done(services) => Classified(ProviderCalls(providers) + ServiceCalls(services), true)
  }

  /**
   * The obligations the provider and service phases record: the providers
   * once their processor succeeds, and the service capabilities once both
   * succeed. They declare no component.
   */
  lemma ObligationStageObligations(elements: seq<ManifestElement>, procs: Processors)
    ensures var ps := ProcessProvideCapabilitiesInternal(elements, procs.capabilityProviderProcessor);
            var ss := ProcessProvideCapabilitiesInternal(elements, procs.osgiServiceCapabilityProcessor);
            ProviderObligations(ObligationStage(elements, procs).calls) == (if ps.Done? then ps.value else []) &&
            ExpectedCapabilities(ObligationStage(elements, procs).calls) == (if ps.Done? && ss.Done? then ss.value else []) &&
            DeclaredNames(ObligationStage(elements, procs).calls) == {}
  {
    var ps := ProcessProvideCapabilitiesInternal(elements, procs.capabilityProviderProcessor);
    var ss := ProcessProvideCapabilitiesInternal(elements, procs.osgiServiceCapabilityProcessor);
    if ps.Done? {
      ProviderCallsObligations(ps.value);
      ProviderCallsShape(ps.value);
      if ss.Done? {
        ServiceCallsObligations(ss.value);
        ServiceCallsExpectInOrder(ss.value);
        ObligationsAppend(ProviderCalls(ps.value), ServiceCalls(ss.value));
        DeclaredNamesAppend(ProviderCalls(ps.value), ServiceCalls(ss.value));
      }
    }
  }

  /** processProvidedCapabilities as the listener phase followed by the obligation phases. */
  lemma ProvidedStageShape(groups: map<string, seq<ManifestElement>>, procs: Processors)
    ensures var ls := ProcessProvideCapabilitiesInternal(ProvideGroup(groups), procs.requireCapabilityListenerProcessor);
            var rest := ObligationStage(ProvideGroup(groups), procs);
            ProvidedStage(groups, procs) ==
              if ls.Threw? then Classified([], false)
              else Classified([Added(ListenerComponents(ls.value))] + rest.calls, rest.completed)
  {
    var elements := ProvideGroup(groups);
    var ls := ProcessProvideCapabilitiesInternal(elements, procs.requireCapabilityListenerProcessor);
    var ps := ProcessProvideCapabilitiesInternal(elements, procs.capabilityProviderProcessor);
    var ss := ProcessProvideCapabilitiesInternal(elements, procs.osgiServiceCapabilityProcessor);
    if ls.Done? {
      var head := [Added(ListenerComponents(ls.value))];
      if ps.Done? && ss.Done? {
        AppendAssoc(head, ProviderCalls(ps.value), ServiceCalls(ss.value));
      }
      if ps.Threw? {
        assert head + [] == head;
      }
    }
  }

  /**
   * The listener addition declares the components and records no
   * obligation; the later phases record the obligations.
   */
  lemma ProvidedStageSplit(groups: map<string, seq<ManifestElement>>, procs: Processors)
    ensures var ls := ProcessProvideCapabilitiesInternal(ProvideGroup(groups), procs.requireCapabilityListenerProcessor);
            var rest := ObligationStage(ProvideGroup(groups), procs);
            var stage := ProvidedStage(groups, procs);
            (ls.Threw? ==> stage == Classified([], false)) &&
            (ls.Done? ==> stage == Classified([Added(ListenerComponents(ls.value))] + rest.calls, rest.completed) &&
                          DeclaredNames(stage.calls) == Names(ListenerComponents(ls.value)) &&
                          ExpectedCapabilities(stage.calls) == ExpectedCapabilities(rest.calls) &&
                          ProviderObligations(stage.calls) == ProviderObligations(rest.calls))
  {
    ProvidedStageShape(groups, procs);
    var elements := ProvideGroup(groups);
    var ls := ProcessProvideCapabilitiesInternal(elements, procs.requireCapabilityListenerProcessor);
    if ls.Done? {
      AddedThen(ListenerComponents(ls.value), ObligationStage(elements, procs).calls);
      ObligationStageObligations(elements, procs);
    }
  }

  /** Proof hint: a non-empty sequence is its front followed by its last element. */
  lemma InitLast<T>(s: seq<T>)
    requires s != []
    ensures s == s[..|s| - 1] + [s[|s| - 1]]
  {
  }

  /**
   * Proof hint: associativity of concatenation, proved in an empty context
   * because asserting it beside the stage definitions is costly.
   */
  lemma AppendAssoc<T>(a: seq<T>, b: seq<T>, c: seq<T>)
    ensures a + b + c == a + (b + c)
  {
  }

  /** A component addition declares its components and records no obligation. */
  lemma AddedThen(components: seq<StartupComponent>, rest: seq<RegistryCall>)
    ensures DeclaredNames([Added(components)] + rest) == Names(components) + DeclaredNames(rest)
    ensures ExpectedCapabilities([Added(components)] + rest) == ExpectedCapabilities(rest)
    ensures ProviderObligations([Added(components)] + rest) == ProviderObligations(rest)
  {
    var head := [Added(components)];
    NoProviderObligations(head);
    NoExpectedCapabilities(head);
    ObligationsAppend(head, rest);
    DeclaredNamesAppend(head, rest);
    assert head[1..] == [];
  }

  /** processManifestHeaders after grouping: startup components, then provided capabilities. */
  function Classify(groups: map<string, seq<ManifestElement>>, procs: Processors): Classified
  {
    match StartupStage(Lookup(groups, StartupComponentHeader), procs.startupComponentBean)
    case Threw => Classified([], false)
    case Done(startup) =>
      var provided := ProvidedStage(groups, procs);
      Classified(startup + provided.calls, provided.completed)
  }

  /** Classify as its two stages: the startup stage, and the provided stage when the first completes. */
  lemma ClassifyStages(groups: map<string, seq<ManifestElement>>, procs: Processors)
    ensures var startup := StartupStage(Lookup(groups, StartupComponentHeader), procs.startupComponentBean);
            var provided := ProvidedStage(groups, procs);
            (startup.Threw? ==> Classify(groups, procs) == Classified([], false)) &&
            (startup.Done? ==> Classify(groups, procs) == Classified(startup.value + provided.calls, provided.completed) &&
                               DeclaredNames(Classify(groups, procs).calls) == DeclaredNames(startup.value) + DeclaredNames(provided.calls) &&
                               ExpectedCapabilities(Classify(groups, procs).calls) == ExpectedCapabilities(provided.calls) &&
                               ProviderObligations(Classify(groups, procs).calls) == ProviderObligations(provided.calls))
  {
    var startup := StartupStage(Lookup(groups, StartupComponentHeader), procs.startupComponentBean);
    if startup.Done? {
      var provided := ProvidedStage(groups, procs).calls;
      if startup.value == [] {
        assert startup.value + provided == provided;
        assert DeclaredNames(startup.value) == {};
      } else {
        AddedThen(startup.value[0].components, provided);
      }
    }
  }

  // ---------------------------------------------------------------------------
  // The components the calls leave registered

  /** Provider obligations leave the components alone. */
  lemma {:induction false} RegisteredProviderCalls(cs: seq<StartupComponent>, providers: seq<ProviderCapability>)
    requires DistinctNames(cs)
    ensures Registered(cs, ProviderCalls(providers)) == cs
    decreases |providers|
  {
    if providers != [] {
      var init := providers[..|providers| - 1];
      var calls := ProviderCalls(providers);
      assert calls[..|calls| - 1] == ProviderCalls(init);
      RegisteredProviderCalls(cs, init);
    }
  }

  /** The calls for one service capability link it to its dependent component, if it names one. */
  lemma RegisteredServiceCallsOf(cs: seq<StartupComponent>, s: ServiceCapability)
    requires DistinctNames(cs)
    ensures Registered(cs, ServiceCallsOf(s)) ==
              if s.dependentComponentName.Some? then Link(cs, s.dependentComponentName.value, s.name) else cs
  {
    var calls := ServiceCallsOf(s);
    if s.dependentComponentName.Some? {
      assert calls[..1] == [calls[0]];
      RegisteredOne(cs, calls[0]);
    } else {
      RegisteredOne(cs, calls[0]);
    }
  }

  /**
   * The service-capability calls keep the registered names, and give a
   * registered component exactly the capabilities that name it as their
   * dependent.
   */
  lemma {:induction false} ServiceCallsRegistered(cs: seq<StartupComponent>, services: seq<ServiceCapability>)
    requires DistinctNames(cs)
    ensures Names(Registered(cs, ServiceCalls(services))) == Names(cs)
    ensures forall n, s :: s in ServicesOf(Registered(cs, ServiceCalls(services)), n) <==>
              s in ServicesOf(cs, n) || (n in Names(cs) && Links(services, n, s))
    decreases |services|
  {
    if services != [] {
      var init, last := services[..|services| - 1], services[|services| - 1];
      assert services == init + [last];
      ServiceCallsRegistered(cs, init);
      var mid := Registered(cs, ServiceCalls(init));
      RegisteredAppend(cs, ServiceCalls(init), ServiceCallsOf(last));
      RegisteredServiceCallsOf(mid, last);
      LinksSnoc(init, last);
      if last.dependentComponentName.Some? {
        LinkShape(mid, last.dependentComponentName.value, last.name);
      }
      var r := Registered(cs, ServiceCalls(services));
      forall n, s ensures s in ServicesOf(r, n) <==> s in ServicesOf(cs, n) || (n in Names(cs) && Links(services, n, s)) {
        assert s in ServicesOf(mid, n) <==> s in ServicesOf(cs, n) || (n in Names(cs) && Links(init, n, s));
      }
    }
  }

  /** What the provider and service phases leave registered: only the service links change anything. */
  lemma ObligationStageRegistered(cs: seq<StartupComponent>, elements: seq<ManifestElement>, procs: Processors)
    requires DistinctNames(cs)
    ensures var ps := ProcessProvideCapabilitiesInternal(elements, procs.capabilityProviderProcessor);
            var ss := ProcessProvideCapabilitiesInternal(elements, procs.osgiServiceCapabilityProcessor);
            Registered(cs, ObligationStage(elements, procs).calls) ==
              if ps.Done? && ss.Done? then Registered(cs, ServiceCalls(ss.value)) else cs
  {
    var ps := ProcessProvideCapabilitiesInternal(elements, procs.capabilityProviderProcessor);
    var ss := ProcessProvideCapabilitiesInternal(elements, procs.osgiServiceCapabilityProcessor);
    if ps.Done? {
      RegisteredProviderCalls(cs, ps.value);
      if ss.Done? {
        RegisteredAppend(cs, ProviderCalls(ps.value), ServiceCalls(ss.value));
      }
    }
  }

  /** What processProvidedCapabilities leaves registered: the listener components merged, then the obligation phases. */
  lemma ProvidedStageRegistered(cs: seq<StartupComponent>, groups: map<string, seq<ManifestElement>>, procs: Processors)
    requires DistinctNames(cs)
    ensures var ls := ProcessProvideCapabilitiesInternal(ProvideGroup(groups), procs.requireCapabilityListenerProcessor);
            Registered(cs, ProvidedStage(groups, procs).calls) ==
              if ls.Threw? then cs
              else Registered(MergeAll(cs, ListenerComponents(ls.value)), ObligationStage(ProvideGroup(groups), procs).calls)
  {
    ProvidedStageShape(groups, procs);
    var ls := ProcessProvideCapabilitiesInternal(ProvideGroup(groups), procs.requireCapabilityListenerProcessor);
    if ls.Done? {
      var head := Added(ListenerComponents(ls.value));
      RegisteredAppend(cs, [head], ObligationStage(ProvideGroup(groups), procs).calls);
      RegisteredOne(cs, head);
    }
  }

  /**
   * The required services processProvidedCapabilities leaves under each
   * name: the old ones, those of the legacy listeners once their processor
   * succeeds, and, once all three processors succeed, each service
   * capability that names a registered component as its dependent.
   */
  lemma ProvidedStageServices(cs: seq<StartupComponent>, groups: map<string, seq<ManifestElement>>, procs: Processors)
    requires DistinctNames(cs)
    ensures var elements := ProvideGroup(groups);
            var ls := ProcessProvideCapabilitiesInternal(elements, procs.requireCapabilityListenerProcessor);
            var ps := ProcessProvideCapabilitiesInternal(elements, procs.capabilityProviderProcessor);
            var ss := ProcessProvideCapabilitiesInternal(elements, procs.osgiServiceCapabilityProcessor);
            var r := Registered(cs, ProvidedStage(groups, procs).calls);
            forall n, s :: s in ServicesOf(r, n) <==>
              s in ServicesOf(cs, n) ||
              (ls.Done? && Declares(ListenerComponents(ls.value), n, s)) ||
              (ls.Done? && ps.Done? && ss.Done? && n in Names(r) && Links(ss.value, n, s))
  {
    var elements := ProvideGroup(groups);
    var ls := ProcessProvideCapabilitiesInternal(elements, procs.requireCapabilityListenerProcessor);
    var ps := ProcessProvideCapabilitiesInternal(elements, procs.capabilityProviderProcessor);
    var ss := ProcessProvideCapabilitiesInternal(elements, procs.osgiServiceCapabilityProcessor);
    ProvidedStageRegistered(cs, groups, procs);
    if ls.Done? {
      var merged := MergeAll(cs, ListenerComponents(ls.value));
      MergeAllServices(cs, ListenerComponents(ls.value));
      ObligationStageRegistered(merged, elements, procs);
      if ps.Done? && ss.Done? {
        ServiceCallsRegistered(merged, ss.value);
      }
    }
  }

  /**
   * The required services manifest processing leaves under each name,
   * replayed from `cs`: the old ones, those of the built startup components,
   * those of the legacy listeners once their processor succeeds, and, once
   * every processor succeeds, each service capability that names a
   * registered component as its dependent.
   */
  lemma ClassifyServices(cs: seq<StartupComponent>, groups: map<string, seq<ManifestElement>>, procs: Processors)
    requires DistinctNames(cs)
    ensures var beans := if StartupComponentHeader in groups
                         then ComponentBeans(groups[StartupComponentHeader], procs.startupComponentBean) else Done([]);
            var elements := ProvideGroup(groups);
            var ls := ProcessProvideCapabilitiesInternal(elements, procs.requireCapabilityListenerProcessor);
            var ps := ProcessProvideCapabilitiesInternal(elements, procs.capabilityProviderProcessor);
            var ss := ProcessProvideCapabilitiesInternal(elements, procs.osgiServiceCapabilityProcessor);
            var r := Registered(cs, Classify(groups, procs).calls);
            forall n, s :: s in ServicesOf(r, n) <==>
              s in ServicesOf(cs, n) ||
              (beans.Done? && Declares(beans.value, n, s)) ||
              (beans.Done? && ls.Done? && Declares(ListenerComponents(ls.value), n, s)) ||
              (beans.Done? && ls.Done? && ps.Done? && ss.Done? && n in Names(r) && Links(ss.value, n, s))
  {
    var startup := StartupStage(Lookup(groups, StartupComponentHeader), procs.startupComponentBean);
    if startup.Done? {
      var mid := Registered(cs, startup.value);
      RegisteredAppend(cs, startup.value, ProvidedStage(groups, procs).calls);
      ProvidedStageServices(mid, groups, procs);
      if StartupComponentHeader in groups {
        var beans := ComponentBeans(groups[StartupComponentHeader], procs.startupComponentBean).value;
        RegisteredOne(cs, Added(beans));
        MergeAllServices(cs, beans);
      }
    }
  }

  // ---------------------------------------------------------------------------
  // Properties of the call sequence

  /** The phase a call belongs to: components, providers, service capabilities, removals. */
  function Phase(call: RegistryCall): nat
  {
    match call
    case Added(_) => 0
    case ProviderExpected(_) => 1
    case Linked(_, _) => 2
    case Expected(_) => 2
    case Removed(_) => 3
  }

  predicate PhasesOrdered(calls: seq<RegistryCall>)
  {
    forall i, j | 0 <= i < j < |calls| :: Phase(calls[i]) <= Phase(calls[j])
  }

  /** Every provider call is an obligation for the given providers, in order, and declares nothing. */
  lemma {:induction false} ProviderCallsShape(providers: seq<ProviderCapability>)
    ensures |ProviderCalls(providers)| == |providers|
    ensures forall k | 0 <= k < |providers| :: ProviderCalls(providers)[k] == ProviderExpected(providers[k])
    ensures DeclaredNames(ProviderCalls(providers)) == {}
  {
    if providers != [] {
      var init := providers[..|providers| - 1];
      ProviderCallsShape(init);
      DeclaredNamesAppend(ProviderCalls(init), [ProviderExpected(providers[|providers| - 1])]);
      assert DeclaredNames([ProviderExpected(providers[|providers| - 1])]) == {} by {
        assert [ProviderExpected(providers[|providers| - 1])][1..] == [];
      }
    }
  }

  /** The Expected calls of a sequence, in order. */
  function ExpectedCapabilities(calls: seq<RegistryCall>): seq<ServiceCapability>
  {
    if calls == [] then []
    else ExpectedCapabilities(calls[..|calls| - 1]) + (if calls[|calls| - 1].Expected? then [calls[|calls| - 1].capability] else [])
  }

  lemma {:induction false} ExpectedCapabilitiesAppend(a: seq<RegistryCall>, b: seq<RegistryCall>)
    ensures ExpectedCapabilities(a + b) == ExpectedCapabilities(a) + ExpectedCapabilities(b)
    decreases |b|
  {
    if b == [] {
      assert a + b == a;
    } else {
      var b' := b[..|b| - 1];
      assert (a + b)[..|a + b| - 1] == a + b';
      ExpectedCapabilitiesAppend(a, b');
    }
  }

  /** The ProviderExpected calls of a sequence, in order. */
  function ProviderObligations(calls: seq<RegistryCall>): seq<ProviderCapability>
  {
    if calls == [] then []
    else ProviderObligations(calls[..|calls| - 1]) + (if calls[|calls| - 1].ProviderExpected? then [calls[|calls| - 1].provider] else [])
  }

  lemma {:induction false} ProviderObligationsAppend(a: seq<RegistryCall>, b: seq<RegistryCall>)
    ensures ProviderObligations(a + b) == ProviderObligations(a) + ProviderObligations(b)
    decreases |b|
  {
    if b == [] {
      assert a + b == a;
    } else {
      var b' := b[..|b| - 1];
      assert (a + b)[..|a + b| - 1] == a + b';
      ProviderObligationsAppend(a, b');
    }
  }

  /** Both kinds of obligation distribute over concatenation. */
  lemma ObligationsAppend(a: seq<RegistryCall>, b: seq<RegistryCall>)
    ensures ProviderObligations(a + b) == ProviderObligations(a) + ProviderObligations(b)
    ensures ExpectedCapabilities(a + b) == ExpectedCapabilities(a) + ExpectedCapabilities(b)
  {
    ProviderObligationsAppend(a, b);
    ExpectedCapabilitiesAppend(a, b);
  }

  /** A call sequence without provider calls adds no provider obligation. */
  lemma {:induction false} NoProviderObligations(calls: seq<RegistryCall>)
    requires forall k | 0 <= k < |calls| :: !calls[k].ProviderExpected?
    ensures ProviderObligations(calls) == []
  {
    if calls != [] {
      NoProviderObligations(calls[..|calls| - 1]);
    }
  }

  /** A call sequence without Expected calls records no service capability. */
  lemma {:induction false} NoExpectedCapabilities(calls: seq<RegistryCall>)
    requires forall k | 0 <= k < |calls| :: !calls[k].Expected?
    ensures ExpectedCapabilities(calls) == []
  {
    if calls != [] {
      NoExpectedCapabilities(calls[..|calls| - 1]);
    }
  }

  /** processCapabilityProviders records exactly its providers, in order, and no service capability. */
  lemma {:induction false} ProviderCallsObligations(providers: seq<ProviderCapability>)
    ensures ProviderObligations(ProviderCalls(providers)) == providers
    ensures ExpectedCapabilities(ProviderCalls(providers)) == []
  {
    if providers != [] {
      var init := providers[..|providers| - 1];
      ProviderCallsObligations(init);
      var calls := ProviderCalls(providers);
      assert calls[..|calls| - 1] == ProviderCalls(init);
      assert providers == init + [providers[|providers| - 1]];
    }
  }

  /** processOSGiServiceCapabilities records no provider obligation. */
  lemma ServiceCallsObligations(services: seq<ServiceCapability>)
    ensures ProviderObligations(ServiceCalls(services)) == []
  {
    ServiceCallsOnly(services);
    NoProviderObligations(ServiceCalls(services));
  }

  /** The calls of processOSGiServiceCapabilities are links and Expected calls only. */
  lemma {:induction false} ServiceCallsOnly(services: seq<ServiceCapability>)
    ensures forall k | 0 <= k < |ServiceCalls(services)| :: ServiceCalls(services)[k].Linked? || ServiceCalls(services)[k].Expected?
  {
    if services != [] {
      var init := services[..|services| - 1];
      ServiceCallsOnly(init);
      var head := ServiceCalls(init);
      var tail := ServiceCallsOf(services[|services| - 1]);
      var all: seq<RegistryCall> := ServiceCalls(services);
      assert all == head + tail;
      forall k | 0 <= k < |all| ensures all[k].Linked? || all[k].Expected? {
        if k < |head| { assert all[k] == head[k]; } else { assert all[k] == tail[k - |head|]; }
      }
    }
  }

  /**
   * The link discipline at position k: a Linked call is followed at once by
   * the Expected call of the capability it links, and an Expected call is
   * preceded by its link exactly when the capability names a dependent
   * component.
   */
  predicate LinkedAt(calls: seq<RegistryCall>, k: nat)
    requires k < |calls|
  {
    match calls[k]
    case Linked(component, capability) =>
      k + 1 < |calls| && calls[k + 1].Expected? &&
      calls[k + 1].capability.dependentComponentName == Some(component) && calls[k + 1].capability.name == capability
    case Expected(s) =>
      (s.dependentComponentName.Some? ==> k > 0 && calls[k - 1] == Linked(s.dependentComponentName.value, s.name)) &&
      (s.dependentComponentName.None? ==> k == 0 || !calls[k - 1].Linked?)
    case _ => false
  }

  /** The calls for one capability keep the link discipline after any well-formed prefix. */
  lemma LinkedAfter(prefix: seq<RegistryCall>, s: ServiceCapability)
    requires forall k | 0 <= k < |prefix| :: LinkedAt(prefix, k)
    requires prefix != [] ==> prefix[|prefix| - 1].Expected?
    ensures forall k | 0 <= k < |prefix + ServiceCallsOf(s)| :: LinkedAt(prefix + ServiceCallsOf(s), k)
  {
    var all := prefix + ServiceCallsOf(s);
    forall k | 0 <= k < |all| ensures LinkedAt(all, k) {
      if k < |prefix| {
        assert LinkedAt(prefix, k);
        assert all[k] == prefix[k];
        if k > 0 { assert all[k - 1] == prefix[k - 1]; }
        if k + 1 < |prefix| { assert all[k + 1] == prefix[k + 1]; }
      } else if k > 0 && k - 1 < |prefix| {
        assert all[k - 1] == prefix[|prefix| - 1];
      }
    }
  }

  /**
   * processOSGiServiceCapabilities records every capability as expected, in
   * input order, and declares no component.
   */
  lemma {:induction false} ServiceCallsExpectInOrder(services: seq<ServiceCapability>)
    ensures ExpectedCapabilities(ServiceCalls(services)) == services
    ensures DeclaredNames(ServiceCalls(services)) == {}
  {
    if services != [] {
      var init := services[..|services| - 1];
      var s := services[|services| - 1];
      var tail := ServiceCallsOf(s);
      ServiceCallsExpectInOrder(init);
      ExpectedCapabilitiesAppend(ServiceCalls(init), tail);
      DeclaredNamesAppend(ServiceCalls(init), tail);
      ServiceCallsOfRecords(s);
      InitLast(services);
    }
  }

  /** The calls for one capability record exactly that capability and declare nothing. */
  lemma ServiceCallsOfRecords(s: ServiceCapability)
    ensures ExpectedCapabilities(ServiceCallsOf(s)) == [s]
    ensures DeclaredNames(ServiceCallsOf(s)) == {}
  {
    var tail := ServiceCallsOf(s);
    if s.dependentComponentName.Some? {
      assert tail[..1] == [Linked(s.dependentComponentName.value, s.name)];
      assert tail[..1][..0] == [];
      assert ExpectedCapabilities(tail[..1][..0]) == [];
      assert ExpectedCapabilities(tail[..1]) == [];
      assert tail[..|tail| - 1] == tail[..1];
      assert tail[1..] == [Expected(s)];
      assert [Expected(s)][1..] == [];
      assert DeclaredNames([Expected(s)][1..]) == {};
      assert DeclaredNames(tail[1..]) == {};
    } else {
      assert tail[..0] == [];
      assert tail[1..] == [];
    }
  }

  /**
   * In the calls of processOSGiServiceCapabilities, a capability with a
   * dependent component is linked to it immediately before it is recorded as
   * expected, and one without is only recorded.
   */
  lemma {:induction false} ServiceCallsLinkBeforeExpect(services: seq<ServiceCapability>)
    ensures forall k | 0 <= k < |ServiceCalls(services)| :: LinkedAt(ServiceCalls(services), k)
    ensures ServiceCalls(services) != [] ==> ServiceCalls(services)[|ServiceCalls(services)| - 1].Expected?
  {
    if services != [] {
      var init := services[..|services| - 1];
      ServiceCallsLinkBeforeExpect(init);
      LinkedAfter(ServiceCalls(init), services[|services| - 1]);
    }
  }

  /** Every call of the sequence belongs to a phase between `lo` and `hi`. */
  predicate PhasesWithin(calls: seq<RegistryCall>, lo: nat, hi: nat)
  {
    forall k | 0 <= k < |calls| :: lo <= Phase(calls[k]) <= hi
  }

  lemma PhasesOrderedConcat(a: seq<RegistryCall>, b: seq<RegistryCall>, lo: nat, p: nat, hi: nat)
    requires PhasesOrdered(a) && PhasesOrdered(b)
    requires lo <= p <= hi && PhasesWithin(a, lo, p) && PhasesWithin(b, p, hi)
    ensures PhasesOrdered(a + b) && PhasesWithin(a + b, lo, hi)
  {
    forall k | 0 <= k < |a + b| ensures lo <= Phase((a + b)[k]) <= hi {
      if k < |a| {
        assert (a + b)[k] == a[k];
      } else {
        assert (a + b)[k] == b[k - |a|];
      }
    }
    forall i, j | 0 <= i < j < |a + b| ensures Phase((a + b)[i]) <= Phase((a + b)[j]) {
      if j < |a| {
        assert (a + b)[i] == a[i] && (a + b)[j] == a[j];
      } else if i >= |a| {
        assert (a + b)[i] == b[i - |a|] && (a + b)[j] == b[j - |a|];
      } else {
        assert (a + b)[i] == a[i] && (a + b)[j] == b[j - |a|];
      }
    }
  }

  /** Provider calls all belong to the provider phase. */
  lemma ProviderCallsPhases(providers: seq<ProviderCapability>)
    ensures PhasesOrdered(ProviderCalls(providers)) && PhasesWithin(ProviderCalls(providers), 1, 2)
  {
    ProviderCallsShape(providers);
  }

  /** Service-capability calls all belong to the service phase. */
  lemma ServiceCallsPhases(services: seq<ServiceCapability>)
    ensures PhasesOrdered(ServiceCalls(services)) && PhasesWithin(ServiceCalls(services), 2, 3)
  {
    var calls := ServiceCalls(services);
    ServiceCallsLinkBeforeExpect(services);
    forall k | 0 <= k < |calls| ensures Phase(calls[k]) == 2 {
      assert LinkedAt(calls, k);
    }
  }

  /** processProvidedCapabilities runs its phases in order, even when it stops part-way. */
  lemma ProvidedStageOrder(groups: map<string, seq<ManifestElement>>, procs: Processors)
    ensures PhasesOrdered(ProvidedStage(groups, procs).calls)
    ensures PhasesWithin(ProvidedStage(groups, procs).calls, 0, 3)
  {
    var elements := ProvideGroup(groups);
    var ls := ProcessProvideCapabilitiesInternal(elements, procs.requireCapabilityListenerProcessor);
    var ps := ProcessProvideCapabilitiesInternal(elements, procs.capabilityProviderProcessor);
    var ss := ProcessProvideCapabilitiesInternal(elements, procs.osgiServiceCapabilityProcessor);
    if ls.Done? && ps.Done? {
      var head := [Added(ListenerComponents(ls.value))];
      var providers := ProviderCalls(ps.value);
      ProviderCallsPhases(ps.value);
      PhasesOrderedConcat(head, providers, 0, 1, 2);
      if ss.Done? {
        ServiceCallsPhases(ss.value);
        PhasesOrderedConcat(head + providers, ServiceCalls(ss.value), 0, 2, 3);
      } else {
        assert PhasesWithin(head + providers, 0, 3);
      }
    }
  }

  /**
   * Of the provided capabilities only the legacy listeners declare
   * components; providers and service capabilities only add obligations.
   */
  lemma {:induction false} ProvidedStageDeclares(groups: map<string, seq<ManifestElement>>, procs: Processors)
    ensures var ls := ProcessProvideCapabilitiesInternal(ProvideGroup(groups), procs.requireCapabilityListenerProcessor);
            DeclaredNames(ProvidedStage(groups, procs).calls) == if ls.Done? then Names(ListenerComponents(ls.value)) else {}
  {
    var elements := ProvideGroup(groups);
    var ls := ProcessProvideCapabilitiesInternal(elements, procs.requireCapabilityListenerProcessor);
    var ps := ProcessProvideCapabilitiesInternal(elements, procs.capabilityProviderProcessor);
    var ss := ProcessProvideCapabilitiesInternal(elements, procs.osgiServiceCapabilityProcessor);
    if ls.Done? {
      var head := [Added(ListenerComponents(ls.value))];
      assert head[1..] == [];
      if ps.Done? {
        ProviderCallsShape(ps.value);
        DeclaredNamesAppend(head, ProviderCalls(ps.value));
        if ss.Done? {
          ServiceCallsExpectInOrder(ss.value);
          DeclaredNamesAppend(head + ProviderCalls(ps.value), ServiceCalls(ss.value));
        }
      }
    }
  }

  /**
   * The obligations processProvidedCapabilities records: the providers once
   * the listener and provider processors succeed, and the service
   * capabilities once all three succeed; nothing otherwise.
   */
  lemma ProvidedStageObligations(groups: map<string, seq<ManifestElement>>, procs: Processors)
    ensures var elements := ProvideGroup(groups);
            var ls := ProcessProvideCapabilitiesInternal(elements, procs.requireCapabilityListenerProcessor);
            var ps := ProcessProvideCapabilitiesInternal(elements, procs.capabilityProviderProcessor);
            var ss := ProcessProvideCapabilitiesInternal(elements, procs.osgiServiceCapabilityProcessor);
            ProviderObligations(ProvidedStage(groups, procs).calls) == (if ls.Done? && ps.Done? then ps.value else []) &&
            ExpectedCapabilities(ProvidedStage(groups, procs).calls) == (if ls.Done? && ps.Done? && ss.Done? then ss.value else [])
  {
    var elements := ProvideGroup(groups);
    var ls := ProcessProvideCapabilitiesInternal(elements, procs.requireCapabilityListenerProcessor);
    var ps := ProcessProvideCapabilitiesInternal(elements, procs.capabilityProviderProcessor);
    var ss := ProcessProvideCapabilitiesInternal(elements, procs.osgiServiceCapabilityProcessor);
    if ls.Done? {
      var head := [Added(ListenerComponents(ls.value))];
      NoProviderObligations(head);
      NoExpectedCapabilities(head);
      if ps.Done? {
        var providers := ProviderCalls(ps.value);
        ProviderCallsObligations(ps.value);
        ProviderObligationsAppend(head, providers);
        ExpectedCapabilitiesAppend(head, providers);
        if ss.Done? {
          var services := ServiceCalls(ss.value);
          ServiceCallsObligations(ss.value);
          ServiceCallsExpectInOrder(ss.value);
          ProviderObligationsAppend(head + providers, services);
          ExpectedCapabilitiesAppend(head + providers, services);
        }
      }
    }
  }

  /**
   * The obligations manifest processing records, whatever the input: the
   * Startup-Component additions record none, so they are those of the
   * provided capabilities once the startup components are built, and none
   * when building them throws.
   */
  lemma ClassifyObligations(groups: map<string, seq<ManifestElement>>, procs: Processors)
    ensures var startup := StartupStage(Lookup(groups, StartupComponentHeader), procs.startupComponentBean);
            var provided := ProvidedStage(groups, procs).calls;
            ProviderObligations(Classify(groups, procs).calls) == (if startup.Done? then ProviderObligations(provided) else []) &&
            ExpectedCapabilities(Classify(groups, procs).calls) == (if startup.Done? then ExpectedCapabilities(provided) else [])
  {
    var startup := StartupStage(Lookup(groups, StartupComponentHeader), procs.startupComponentBean);
    if startup.Done? {
      var provided := ProvidedStage(groups, procs).calls;
      NoProviderObligations(startup.value);
      NoExpectedCapabilities(startup.value);
      ProviderObligationsAppend(startup.value, provided);
      ExpectedCapabilitiesAppend(startup.value, provided);
    }
  }

  /**
   * Classification order: whatever the input, and even when a processor
   * throws part-way, the calls run through the phases in order (all
   * component additions, then provider obligations, then service
   * capabilities). The Startup-Component additions come first, and a missing
   * Startup-Component group contributes no call at all.
   */
  lemma ClassificationOrder(groups: map<string, seq<ManifestElement>>, procs: Processors)
    ensures PhasesOrdered(Classify(groups, procs).calls)
    ensures StartupComponentHeader !in groups ==> Classify(groups, procs) == ProvidedStage(groups, procs)
    ensures StartupComponentHeader in groups && ComponentBeans(groups[StartupComponentHeader], procs.startupComponentBean).Done? ==>
              Classify(groups, procs).calls[0] == Added(ComponentBeans(groups[StartupComponentHeader], procs.startupComponentBean).value)
  {
    ProvidedStageOrder(groups, procs);
    var startup := StartupStage(Lookup(groups, StartupComponentHeader), procs.startupComponentBean);
    if startup.Done? {
      PhasesOrderedConcat(startup.value, ProvidedStage(groups, procs).calls, 0, 0, 3);
    }
    if StartupComponentHeader !in groups {
      assert Classify(groups, procs).calls == [] + ProvidedStage(groups, procs).calls;
    }
  }

  // ---------------------------------------------------------------------------
  // Finding: a missing Provide-Capability group

  /**
   * processManifestHeaders as written: when no element carries the
   * Provide-Capability header, `groupedManifestElements.get` returns null
   * and the first processProvideCapabilitiesInternal call dereferences it,
   * so processing stops after the Startup-Component additions.
   */
  function ClassifyAsWritten(groups: map<string, seq<ManifestElement>>, procs: Processors): (r: Classified)
    ensures ProvideCapabilityHeader in groups ==> r == Classify(groups, procs)
    ensures ProvideCapabilityHeader !in groups ==> !r.completed
    ensures r.calls <= Classify(groups, procs).calls
  {
    assert ListenerComponents([]) == [];
    assert ProviderCalls([]) == [] && ServiceCalls([]) == [];
    if ProvideCapabilityHeader in groups then Classify(groups, procs)
    else
      match StartupStage(Lookup(groups, StartupComponentHeader), procs.startupComponentBean)
      case Threw => Classified([], false)
      case Done(startup) => Classified(startup, false)
  }

  /**
   * The discrepancy on a concrete input: one bundle declaring one startup
   * component and no Provide-Capability header. As written the component is
   * registered and processing then fails (so activation schedules nothing and
   * the component is never notified); treating the missing group as empty
   * completes processing.
   */
  lemma LoneStartupComponentAbortsAsWritten(e: ManifestElement, c: StartupComponent, procs: Processors)
    requires e.headerName == StartupComponentHeader
    requires procs.startupComponentBean(e) == Done(c)
    ensures ClassifyAsWritten(GroupByHeader([e]), procs) == Classified([Added([c])], false)
    ensures Classify(GroupByHeader([e]), procs) == Classified([Added([c]), Added([])], true)
  {
    var groups := GroupByHeader([e]);
    assert [e][..0] == [] && [e][0] == e;
    var empty := GroupByHeader([e][..0]);
    assert empty == map[];
    var one: seq<ManifestElement> := [e];
    assert groups == empty[e.headerName := [] + one];
    assert [] + one == one;
    assert StartupComponentHeader in groups && groups[StartupComponentHeader] == one;
    assert StartupComponentHeader[0] != ProvideCapabilityHeader[0];
    assert Lookup(groups, StartupComponentHeader) == Some([e]) && ProvideCapabilityHeader !in groups;
    assert [e][1..] == [];
    assert ComponentBeans([e][1..], procs.startupComponentBean) == Done([]);
    assert procs.startupComponentBean([e][0]) == Done(c);
    assert [c] + [] == [c];
    assert ComponentBeans([e], procs.startupComponentBean) == Done([c]);
    assert ListenerComponents([]) == [];
    assert ProviderCalls([]) == [] && ServiceCalls([]) == [];
  }

  /**
   * Corrected: a missing Provide-Capability group is processed as an empty
   * one, so processing completes whenever the startup components can be
   * built, adding an empty list of legacy components and nothing else.
   */
  lemma MissingProvideGroupIsEmpty(groups: map<string, seq<ManifestElement>>, procs: Processors)
    requires ProvideCapabilityHeader !in groups
    ensures var startup := StartupStage(Lookup(groups, StartupComponentHeader), procs.startupComponentBean);
            Classify(groups, procs).completed == startup.Done? &&
            (startup.Done? ==> Classify(groups, procs).calls == startup.value + [Added([])])
    ensures !ClassifyAsWritten(groups, procs).completed
  {
    assert ListenerComponents([]) == [];
    assert ProviderCalls([]) == [] && ServiceCalls([]) == [];
  }
}
