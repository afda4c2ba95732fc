/**
 * The startup component registry (StartupComponentManager), seen only
 * through the observers and mutators the resolver calls. Its internal
 * satisfiability algorithm and the OSGi service tracker that drives it are
 * not part of this model: whatever they decide reaches the registry through
 * the four tracker steps at the end of the class.
 */
module Registry {
  import opened Outcomes
  import opened Beans

  /** One mutator call received by the registry, for the ghost call log. */
  datatype RegistryCall =
    | Added(components: seq<StartupComponent>)
    | Linked(componentName: string, capabilityName: string)
    | Expected(capability: ServiceCapability)
    | ProviderExpected(provider: ProviderCapability)
    | Removed(componentName: string)

  /** The components a call sequence declares. */
  function DeclaredNames(calls: seq<RegistryCall>): set<string>
  {
    if calls == [] then {}
    else (if calls[0].Added? then Names(calls[0].components) else {}) + DeclaredNames(calls[1..])
  }

  lemma {:induction false} DeclaredNamesAppend(a: seq<RegistryCall>, b: seq<RegistryCall>)
    ensures DeclaredNames(a + b) == DeclaredNames(a) + DeclaredNames(b)
  {
    if a == [] {
      assert a + b == b;
    } else {
      assert (a + b)[0] == a[0] && (a + b)[1..] == a[1..] + b;
      DeclaredNamesAppend(a[1..], b);
    }
  }

  /** The position of the component called `name`, if any. */
  function IndexOf(cs: seq<StartupComponent>, name: string): (r: Option<nat>)
    ensures r.Some? ==> r.value < |cs| && cs[r.value].name == name
    ensures r.None? ==> name !in Names(cs)
  {
    if cs == [] then None
    else if cs[0].name == name then Some(0)
    else match IndexOf(cs[1..], name)
      case None => None
      case Some(k) => Some(k + 1)
  }

  /** `a` followed by the entries of `b` that are not yet in it: a union that keeps `a` first. */
  function AppendMissing(a: seq<string>, b: seq<string>): (r: seq<string>)
    ensures |a| <= |r| && r[..|a|] == a
    ensures forall x :: x in r <==> x in a || x in b
    decreases |b|
  {
    if b == [] then a
    else AppendMissing(if b[0] in a then a else a + [b[0]], b[1..])
  }

  /** The required services registered for the component called `name`; none for an unknown name. */
  function ServicesOf(cs: seq<StartupComponent>, name: string): (r: seq<string>)
    ensures name !in Names(cs) ==> r == []
    ensures DistinctNames(cs) ==> forall i | 0 <= i < |cs| && cs[i].name == name :: r == cs[i].requiredServices
  {
    match IndexOf(cs, name)
    case None => []
    case Some(k) => cs[k].requiredServices
  }

  /** Some component of `cs` called `name` requires the service `s`. */
  predicate Declares(cs: seq<StartupComponent>, name: string, s: string)
  {
    exists c :: c in cs && c.name == name && s in c.requiredServices
  }

  /** Proof hint: declaring over one more component. */
  lemma DeclaresSnoc(cs: seq<StartupComponent>, c: StartupComponent)
    ensures forall n, s :: Declares(cs + [c], n, s) <==> Declares(cs, n, s) || (n == c.name && s in c.requiredServices)
  {
    forall n, s ensures Declares(cs + [c], n, s) <==> Declares(cs, n, s) || (n == c.name && s in c.requiredServices) {
      if Declares(cs + [c], n, s) {
        var d :| d in cs + [c] && d.name == n && s in d.requiredServices;
        if d != c { assert d in cs; }
      }
      if Declares(cs, n, s) {
        var d :| d in cs && d.name == n && s in d.requiredServices;
        assert d in cs + [c];
      }
      if n == c.name && s in c.requiredServices {
        assert c in cs + [c];
      }
    }
  }

  /**
   * Adds one component: a new name is appended as given; an existing one
   * keeps its position, name and bundle and gains the missing required
   * services.
   */
  function MergeOne(existing: seq<StartupComponent>, c: StartupComponent): (r: seq<StartupComponent>)
    requires DistinctNames(existing)
    ensures DistinctNames(r) && Names(r) == Names(existing) + {c.name}
  {
    match IndexOf(existing, c.name)
    case None =>
      AppendNewServices(existing, c);
      existing + [c]
    case Some(k) =>
      MergeIntoServices(existing, k, c);
      existing[k := Merged(existing[k], c)]
  }

  /** Merging one component keeps every entry in place and appends only a new name. */
  lemma MergeOneShape(existing: seq<StartupComponent>, c: StartupComponent)
    requires DistinctNames(existing)
    ensures var r := MergeOne(existing, c);
            |r| == (if c.name in Names(existing) then |existing| else |existing| + 1) &&
            (forall i | 0 <= i < |existing| ::
               r[i].name == existing[i].name && r[i].bundle == existing[i].bundle &&
               (existing[i].name != c.name ==> r[i] == existing[i])) &&
            (c.name !in Names(existing) ==> r[|existing|] == c)
  {
  }

  /** Merging one component adds exactly its required services to its name. */
  lemma MergeOneServices(existing: seq<StartupComponent>, c: StartupComponent)
    requires DistinctNames(existing)
    ensures forall n, s {:trigger s in ServicesOf(MergeOne(existing, c), n)} ::
              s in ServicesOf(MergeOne(existing, c), n) <==> s in ServicesOf(existing, n) || (n == c.name && s in c.requiredServices)
  {
    if c.name in Names(existing) {
      var k := IndexOf(existing, c.name).value;
      MergeIntoServices(existing, k, c);
    } else {
      AppendNewServices(existing, c);
    }
  }

  /** An existing entry with the required services of `c` it lacks appended. */
  function Merged(d: StartupComponent, c: StartupComponent): (r: StartupComponent)
    ensures r.name == d.name && r.bundle == d.bundle
    ensures forall s :: s in r.requiredServices <==> s in d.requiredServices || s in c.requiredServices
  {
    d.(requiredServices := AppendMissing(d.requiredServices, c.requiredServices))
  }

  /** Proof hint for MergeOne: appending a component under a new name. */
  lemma AppendNewServices(existing: seq<StartupComponent>, c: StartupComponent)
    requires DistinctNames(existing) && c.name !in Names(existing)
    ensures DistinctNames(existing + [c]) && Names(existing + [c]) == Names(existing) + {c.name}
    ensures forall n, s {:trigger s in ServicesOf(existing + [c], n)} ::
              s in ServicesOf(existing + [c], n) <==> s in ServicesOf(existing, n) || (n == c.name && s in c.requiredServices)
  {
    var r := existing + [c];
    assert forall i | 0 <= i < |existing| :: r[i] == existing[i];
    NamesSnoc(existing, c);
    assert DistinctNames(r) by {
      forall i, j | 0 <= i < j < |r| ensures r[i].name != r[j].name {
        if j == |existing| { assert existing[i].name in Names(existing); }
      }
    }
    forall n, s ensures s in ServicesOf(r, n) <==> s in ServicesOf(existing, n) || (n == c.name && s in c.requiredServices) {
      if n in Names(existing) {
        var i :| 0 <= i < |existing| && existing[i].name == n;
        assert r[i].name == n;
      } else if n == c.name {
        assert r[|existing|].name == n;
      }
    }
  }

  /** Proof hint for MergeOne: merging `c` into the entry of the same name at `k`. */
  lemma MergeIntoServices(existing: seq<StartupComponent>, k: nat, c: StartupComponent)
    requires DistinctNames(existing) && k < |existing| && existing[k].name == c.name
    ensures Names(existing[k := Merged(existing[k], c)]) == Names(existing)
    ensures forall n, s {:trigger s in ServicesOf(existing[k := Merged(existing[k], c)], n)} ::
              s in ServicesOf(existing[k := Merged(existing[k], c)], n) <==>
              s in ServicesOf(existing, n) || (n == c.name && s in c.requiredServices)
  {
    var r := existing[k := Merged(existing[k], c)];
    assert Names(r) == Names(existing) by {
      forall n ensures n in Names(r) <==> n in Names(existing) {
        if n in Names(existing) {
          var i :| 0 <= i < |existing| && existing[i].name == n;
          assert r[i].name == n;
        }
      }
    }
    assert DistinctNames(r);
    forall n, s ensures s in ServicesOf(r, n) <==> s in ServicesOf(existing, n) || (n == c.name && s in c.requiredServices) {
      if n in Names(existing) {
        var i :| 0 <= i < |existing| && existing[i].name == n;
        assert r[i].name == n;
      }
    }
  }


  /** Proof hint: one more merged component adds exactly its own required services. */
  lemma ServicesStep(existing: seq<StartupComponent>, init: seq<StartupComponent>, last: StartupComponent,
                     prev: seq<StartupComponent>, r: seq<StartupComponent>)
    requires forall n, s :: s in ServicesOf(prev, n) <==> s in ServicesOf(existing, n) || Declares(init, n, s)
    requires forall n, s {:trigger s in ServicesOf(r, n)} ::
               s in ServicesOf(r, n) <==> s in ServicesOf(prev, n) || (n == last.name && s in last.requiredServices)
    ensures forall n, s :: s in ServicesOf(r, n) <==> s in ServicesOf(existing, n) || Declares(init + [last], n, s)
  {
    DeclaresSnoc(init, last);
    forall n, s ensures s in ServicesOf(r, n) <==> s in ServicesOf(existing, n) || Declares(init + [last], n, s) {
      assert s in ServicesOf(prev, n) <==> s in ServicesOf(existing, n) || Declares(init, n, s);
    }
  }

  /** addComponents' effect: the components merged into the registry one by one, in order. */
  function MergeAll(existing: seq<StartupComponent>, cs: seq<StartupComponent>): (r: seq<StartupComponent>)
    requires DistinctNames(existing)
    ensures DistinctNames(r) && Names(r) == Names(existing) + Names(cs)
    decreases |cs|
  {
    if cs == [] then existing
    else
      assert cs == cs[..|cs| - 1] + [cs[|cs| - 1]];
      NamesSnoc(cs[..|cs| - 1], cs[|cs| - 1]);
      MergeOne(MergeAll(existing, cs[..|cs| - 1]), cs[|cs| - 1])
  }

  /**
   * Merging keeps every registered component in its position with its name
   * and bundle, and leaves it as it was when the list does not name it.
   */
  lemma {:induction false} MergeAllKeeps(existing: seq<StartupComponent>, cs: seq<StartupComponent>)
    requires DistinctNames(existing)
    ensures |existing| <= |MergeAll(existing, cs)|
    ensures forall i | 0 <= i < |existing| ::
              MergeAll(existing, cs)[i].name == existing[i].name && MergeAll(existing, cs)[i].bundle == existing[i].bundle
    ensures forall i | 0 <= i < |existing| && existing[i].name !in Names(cs) :: MergeAll(existing, cs)[i] == existing[i]
  {
    if cs != [] {
      var init, last := cs[..|cs| - 1], cs[|cs| - 1];
      assert cs == init + [last];
      NamesSnoc(init, last);
      MergeAllKeeps(existing, init);
      MergeOneShape(MergeAll(existing, init), last);
    }
  }

  /** Merging adds to each name exactly the required services the list declares for it. */
  lemma {:induction false} MergeAllServices(existing: seq<StartupComponent>, cs: seq<StartupComponent>)
    requires DistinctNames(existing)
    ensures forall n, s :: s in ServicesOf(MergeAll(existing, cs), n) <==> s in ServicesOf(existing, n) || Declares(cs, n, s)
  {
    if cs != [] {
      var init, last := cs[..|cs| - 1], cs[|cs| - 1];
      assert cs == init + [last];
      MergeAllServices(existing, init);
      MergeOneServices(MergeAll(existing, init), last);
      ServicesStep(existing, init, last, MergeAll(existing, init), MergeAll(existing, cs));
    }
  }

  /**
   * A component whose name is neither registered nor repeated in the list
   * is stored exactly as given.
   */
  lemma {:induction false} MergeAllStoresNew(existing: seq<StartupComponent>, cs: seq<StartupComponent>, i: nat)
    requires DistinctNames(existing) && i < |cs| && cs[i].name !in Names(existing)
    requires forall j | 0 <= j < |cs| && j != i :: cs[j].name != cs[i].name
    ensures cs[i] in MergeAll(existing, cs)
  {
    var init, last := cs[..|cs| - 1], cs[|cs| - 1];
    var prev := MergeAll(existing, init);
    assert MergeAll(existing, cs) == MergeOne(prev, last);
    MergeOneMembers(prev, last);
    if i == |cs| - 1 {
      assert last.name !in Names(init) by {
        forall j | 0 <= j < |init| ensures init[j].name != last.name {
          assert init[j] == cs[j];
        }
      }
      assert last.name !in Names(prev);
    } else {
      assert forall j | 0 <= j < |init| :: init[j] == cs[j];
      MergeAllStoresNew(existing, init, i);
      assert cs[i] in prev && cs[i].name != last.name;
    }
  }

  /** Proof hint: the entries of a merge, seen as members rather than positions. */
  lemma MergeOneMembers(existing: seq<StartupComponent>, c: StartupComponent)
    requires DistinctNames(existing)
    ensures c.name !in Names(existing) ==> c in MergeOne(existing, c)
    ensures forall d | d in existing && d.name != c.name :: d in MergeOne(existing, c)
  {
    var r := MergeOne(existing, c);
    MergeOneShape(existing, c);
    if c.name !in Names(existing) {
      assert r[|existing|] in r;
    }
    forall d | d in existing && d.name != c.name ensures d in r {
      var j :| 0 <= j < |existing| && existing[j] == d;
      assert r[j] in r;
    }
  }

  /**
   * addRequiredOSGiServiceCapabilityToComponent on a component list: the
   * entry called `componentName` gains `capabilityName`; an unknown name
   * changes nothing.
   */
  function Link(cs: seq<StartupComponent>, componentName: string, capabilityName: string): (r: seq<StartupComponent>)
    requires DistinctNames(cs)
    ensures DistinctNames(r) && Names(r) == Names(cs)
  {
    match IndexOf(cs, componentName)
    case None => cs
    case Some(k) =>
      var link := StartupComponent(componentName, cs[k].bundle, [capabilityName]);
      MergeIntoServices(cs, k, link);
      cs[k := Merged(cs[k], link)]
  }

  /**
   * Linking keeps every entry in place with its name and bundle, gives the
   * entry of that name exactly one more required service, and leaves the
   * others as they were.
   */
  lemma LinkShape(cs: seq<StartupComponent>, componentName: string, capabilityName: string)
    requires DistinctNames(cs)
    ensures var r := Link(cs, componentName, capabilityName);
            |r| == |cs| &&
            forall k | 0 <= k < |cs| ::
              r[k].name == cs[k].name && r[k].bundle == cs[k].bundle &&
              (cs[k].name == componentName ==>
                 forall s :: s in r[k].requiredServices <==> s in cs[k].requiredServices || s == capabilityName) &&
              (cs[k].name != componentName ==> r[k] == cs[k])
    ensures forall n, s {:trigger s in ServicesOf(Link(cs, componentName, capabilityName), n)} ::
              s in ServicesOf(Link(cs, componentName, capabilityName), n) <==>
              s in ServicesOf(cs, n) || (n == componentName && n in Names(cs) && s == capabilityName)
  {
    var found := IndexOf(cs, componentName);
    if found.Some? {
      var k := found.value;
      var link := StartupComponent(componentName, cs[k].bundle, [capabilityName]);
      MergeIntoServices(cs, k, link);
      assert forall i | 0 <= i < |cs| && i != k :: cs[i].name != componentName;
    }
  }

  /** The component list one registry call leaves behind; an obligation leaves it alone. */
  function Apply(cs: seq<StartupComponent>, call: RegistryCall): (r: seq<StartupComponent>)
    requires DistinctNames(cs)
    ensures DistinctNames(r)
  {
    match call
    case Added(added) => MergeAll(cs, added)
    case Linked(componentName, capabilityName) => Link(cs, componentName, capabilityName)
    case Removed(componentName) =>
      FiltersKeepDistinct(cs, {componentName});
      WithoutNames(cs, {componentName})
    case Expected(_) => cs
    case ProviderExpected(_) => cs
  }

  /** The component list a call log leaves behind, replayed from `cs` one call at a time. */
  function Registered(cs: seq<StartupComponent>, calls: seq<RegistryCall>): (r: seq<StartupComponent>)
    requires DistinctNames(cs)
    ensures DistinctNames(r)
    decreases |calls|
  {
    if calls == [] then cs
    else Apply(Registered(cs, calls[..|calls| - 1]), calls[|calls| - 1])
  }

  /** Replaying two logs in turn is replaying their concatenation. */
  lemma {:induction false} RegisteredAppend(cs: seq<StartupComponent>, a: seq<RegistryCall>, b: seq<RegistryCall>)
    requires DistinctNames(cs)
    ensures Registered(cs, a + b) == Registered(Registered(cs, a), b)
    decreases |b|
  {
    if b == [] {
      assert a + b == a;
    } else {
      var init := b[..|b| - 1];
      assert (a + b)[..|a + b| - 1] == a + init && (a + b)[|a + b| - 1] == b[|b| - 1];
      RegisteredAppend(cs, a, init);
    }
  }

  /** Proof hint: a log of one call. */
  lemma RegisteredOne(cs: seq<StartupComponent>, call: RegistryCall)
    requires DistinctNames(cs)
    ensures Registered(cs, [call]) == Apply(cs, call)
  {
    assert [call][..0] == [];
  }

  /** The log holds no removal. */
  predicate NoRemovals(calls: seq<RegistryCall>)
  {
    forall i | 0 <= i < |calls| :: !calls[i].Removed?
  }

  /**
   * The call gives the component called `n` the required service `s`: an
   * addition that declares it for `n`, or a link of `s` to `n` made while a
   * component of that name is among `registered`.
   */
  predicate Grants(registered: set<string>, call: RegistryCall, n: string, s: string)
  {
    match call
    case Added(added) => Declares(added, n, s)
    case Linked(componentName, capabilityName) => componentName == n && capabilityName == s && n in registered
    case _ => false
  }

  /** One call other than a removal adds to each name exactly the services it grants. */
  lemma ApplyServices(cs: seq<StartupComponent>, call: RegistryCall)
    requires DistinctNames(cs) && !call.Removed?
    ensures forall n, s {:trigger s in ServicesOf(Apply(cs, call), n)} ::
              s in ServicesOf(Apply(cs, call), n) <==> s in ServicesOf(cs, n) || Grants(Names(cs), call, n, s)
  {
    match call
    case Added(added) => MergeAllServices(cs, added);
    case Linked(componentName, capabilityName) => LinkShape(cs, componentName, capabilityName);
    case Expected(_) =>
    case ProviderExpected(_) =>
  }

  /** Replaying a log without removals registers the old names and exactly the names its additions declare. */
  lemma {:induction false} RegisteredNames(cs: seq<StartupComponent>, calls: seq<RegistryCall>)
    requires DistinctNames(cs) && NoRemovals(calls)
    ensures Names(Registered(cs, calls)) == Names(cs) + DeclaredNames(calls)
    decreases |calls|
  {
    if calls != [] {
      var k := |calls| - 1;
      var init := calls[..k];
      assert calls == init + [calls[k]];
      assert NoRemovals(init) by {
        forall i | 0 <= i < k ensures !init[i].Removed? {
          assert init[i] == calls[i];
        }
      }
      RegisteredNames(cs, init);
      DeclaredNamesAppend(init, [calls[k]]);
      assert [calls[k]][1..] == [];
    }
  }

  /**
   * Some call of the log grants `n` the service `s`, given the names
   * registered when it was made: those of `cs` and those the earlier
   * additions declare.
   */
  predicate GrantedBy(cs: seq<StartupComponent>, calls: seq<RegistryCall>, n: string, s: string)
  {
    exists i :: 0 <= i < |calls| && Grants(Names(cs) + DeclaredNames(calls[..i]), calls[i], n, s)
  }

  /** Proof hint: granting over one more call. */
  lemma GrantedBySnoc(cs: seq<StartupComponent>, calls: seq<RegistryCall>, n: string, s: string)
    requires calls != []
    ensures GrantedBy(cs, calls, n, s) <==>
            GrantedBy(cs, calls[..|calls| - 1], n, s) ||
            Grants(Names(cs) + DeclaredNames(calls[..|calls| - 1]), calls[|calls| - 1], n, s)
  {
    var k := |calls| - 1;
    var init := calls[..k];
    if GrantedBy(cs, calls, n, s) {
      var i :| 0 <= i < |calls| && Grants(Names(cs) + DeclaredNames(calls[..i]), calls[i], n, s);
      if i < k {
        assert init[..i] == calls[..i] && init[i] == calls[i];
      }
    }
    if GrantedBy(cs, init, n, s) {
      var i :| 0 <= i < k && Grants(Names(cs) + DeclaredNames(init[..i]), init[i], n, s);
      assert init[..i] == calls[..i] && init[i] == calls[i];
    }
  }

  /**
   * Replaying a log without removals: a name's required services are its
   * old ones and exactly those some call of the log grants it.
   */
  lemma {:induction false} RegisteredServices(cs: seq<StartupComponent>, calls: seq<RegistryCall>)
    requires DistinctNames(cs) && NoRemovals(calls)
    ensures forall n, s :: s in ServicesOf(Registered(cs, calls), n) <==> s in ServicesOf(cs, n) || GrantedBy(cs, calls, n, s)
    decreases |calls|
  {
    if calls != [] {
      var k := |calls| - 1;
      var init := calls[..k];
      assert NoRemovals(init) by {
        forall i | 0 <= i < k ensures !init[i].Removed? {
          assert init[i] == calls[i];
        }
      }
      RegisteredServices(cs, init);
      RegisteredNames(cs, init);
      ApplyServices(Registered(cs, init), calls[k]);
      forall n, s ensures s in ServicesOf(Registered(cs, calls), n) <==> s in ServicesOf(cs, n) || GrantedBy(cs, calls, n, s) {
        GrantedBySnoc(cs, calls, n, s);
      }
    }
  }

  /**
   * Registry state. A registered component is pending while its name is not
   * in `satisfiable`, and satisfiable once the tracker has put it there.
   */
  class StartupComponentManager {
    /** The registered components that have not been removed yet, in registration order. */
    var components: seq<StartupComponent>
    /** The names the tracker has found satisfiable. */
    var satisfiable: set<string>
    /** The service capabilities recorded as expected. */
    var expected: seq<ServiceCapability>
    /** The CapabilityProvider obligations not yet met. */
    var providers: seq<ProviderCapability>
    /** The service names the tracker has seen registered. */
    var available: set<string>
    /** The components whose RequiredCapabilityListener service the tracker has seen registered. */
    var listenersRegistered: set<string>
    /** Every mutator call the registry received, in order. */
    ghost var calls: seq<RegistryCall>

    ghost predicate Valid()
      reads this
    {
      DistinctNames(components) && satisfiable <= Names(components)
    }

    constructor ()
      ensures Valid()
      ensures components == [] && satisfiable == {} && expected == [] && providers == []
      ensures available == {} && listenersRegistered == {} && calls == []
    {
      components, satisfiable, expected, providers := [], {}, [], [];
      available, listenersRegistered, calls := {}, {}, [];
    }

    /** getPendingComponents: the registered components the tracker has not found satisfiable. */
    function PendingComponents(): (r: seq<StartupComponent>)
      reads this
      ensures forall c :: c in r <==> c in components && c.name !in satisfiable
    {
      WithoutNames(components, satisfiable)
    }

    /** getSatisfiableComponents: the registered components ready to be notified. */
    function SatisfiableComponents(): (r: seq<StartupComponent>)
      reads this
      ensures forall c :: c in r <==> c in components && c.name in satisfiable
    {
      WithNames(components, satisfiable)
    }

    /**
     * getPendingProvideCapabilityList: the expected capabilities the named
     * component requires that the tracker has not seen yet.
     */
    function PendingProvideCapabilityList(componentName: string): (r: seq<ServiceCapability>)
      reads this
      ensures forall s :: s in r ==> s in expected && s.name !in available
      ensures componentName !in Names(components) ==> r == []
      ensures Valid() ==> forall i :: 0 <= i < |components| && components[i].name == componentName ==>
                forall s :: s in r <==> s in expected && s.name in components[i].requiredServices && s.name !in available
      ensures Valid() ==> forall s :: s in r <==> s in expected && s.name in ServicesOf(components, componentName) && s.name !in available
    {
      match IndexOf(components, componentName)
      case None => []
      case Some(k) => Outstanding(expected, components[k].requiredServices, available)
    }

    /** getPendingRequiredCapabilityListeners: pending components whose listener service is not registered. */
    function PendingRequiredCapabilityListeners(): (r: seq<StartupComponent>)
      reads this
      ensures forall c :: c in r <==> c in components && c.name !in satisfiable && c.name !in listenersRegistered
    {
      WithoutNames(PendingComponents(), listenersRegistered)
    }

    /**
     * getPendingCapabilityProviderList: the provider obligations recorded by
     * AddExpectedCapabilityProvider and not yet met (ResolveProvider), in the
     * order they were recorded.
     */
    function PendingCapabilityProviderList(): (r: seq<ProviderCapability>)
      reads this
      ensures r == providers
    {
      providers
    }

    /**
     * addComponents: registers each component, merging a repeated name into
     * the existing entry. Registered components keep their position, name
     * and bundle; every name's required services grow by exactly those the
     * list declares for it.
     */
    method AddComponents(cs: seq<StartupComponent>)
      requires Valid()
      modifies this`components, this`calls
      ensures Valid()
      ensures components == MergeAll(old(components), cs)
      ensures Names(components) == old(Names(components)) + Names(cs)
      ensures |old(components)| <= |components|
      ensures forall i | 0 <= i < |old(components)| ::
                components[i].name == old(components[i].name) && components[i].bundle == old(components[i].bundle)
      ensures forall d :: d in old(components) && d.name !in Names(cs) ==> d in components
      ensures forall n, s :: s in ServicesOf(components, n) <==> s in ServicesOf(old(components), n) || Declares(cs, n, s)
      ensures satisfiable == old(satisfiable) && expected == old(expected) && providers == old(providers)
      ensures available == old(available) && listenersRegistered == old(listenersRegistered)
      ensures calls == old(calls) + [Added(cs)]
    {
      var i := 0;
      while i < |cs|
        invariant 0 <= i <= |cs|
        invariant components == MergeAll(old(components), cs[..i])
        invariant calls == old(calls)
      {
        assert cs[..i + 1][..i] == cs[..i] && cs[..i + 1][i] == cs[i];
        components := MergeOne(components, cs[i]);
        i := i + 1;
      }
      assert cs[..|cs|] == cs;
      MergeAllKeeps(old(components), cs);
      MergeAllServices(old(components), cs);
      forall d | d in old(components) && d.name !in Names(cs) ensures d in components {
        var j :| 0 <= j < |old(components)| && old(components)[j] == d;
        assert components[j] == d;
      }
      calls := calls + [Added(cs)];
    }

    /** addRequiredOSGiServiceCapabilityToComponent: a no-op when no component has that name. */
    method AddRequiredServiceToComponent(componentName: string, capabilityName: string)
      requires Valid()
      modifies this`components, this`calls
      ensures Valid()
      ensures |components| == |old(components)| && Names(components) == old(Names(components))
      ensures forall k | 0 <= k < |components| ::
                components[k].name == old(components[k].name) && components[k].bundle == old(components[k].bundle) &&
                (components[k].name == componentName ==>
                   forall s :: s in components[k].requiredServices <==> s in old(components[k].requiredServices) || s == capabilityName) &&
                (components[k].name != componentName ==> components[k] == old(components[k]))
      ensures forall n, s :: s in ServicesOf(components, n) <==>
                s in ServicesOf(old(components), n) || (n == componentName && n in old(Names(components)) && s == capabilityName)
      ensures satisfiable == old(satisfiable) && expected == old(expected) && providers == old(providers)
      ensures available == old(available) && listenersRegistered == old(listenersRegistered)
      ensures components == Link(old(components), componentName, capabilityName)
      ensures calls == old(calls) + [Linked(componentName, capabilityName)]
    {
      LinkShape(components, componentName, capabilityName);
      components := Link(components, componentName, capabilityName);
      calls := calls + [Linked(componentName, capabilityName)];
    }

    /** addExpectedRequiredCapability: records one service capability as expected. */
    method AddExpectedRequiredCapability(capability: ServiceCapability)
      requires Valid()
      modifies this`expected, this`calls
      ensures Valid()
      ensures expected == old(expected) + [capability]
      ensures components == old(components) && satisfiable == old(satisfiable) && providers == old(providers)
      ensures available == old(available) && listenersRegistered == old(listenersRegistered)
      ensures calls == old(calls) + [Expected(capability)]
    {
      expected := expected + [capability];
      calls := calls + [Expected(capability)];
    }

    /** addExpectedCapabilityProvider: records one provider obligation. */
    method AddExpectedCapabilityProvider(provider: ProviderCapability)
      requires Valid()
      modifies this`providers, this`calls
      ensures Valid()
      ensures providers == old(providers) + [provider]
      ensures components == old(components) && satisfiable == old(satisfiable) && expected == old(expected)
      ensures available == old(available) && listenersRegistered == old(listenersRegistered)
      ensures calls == old(calls) + [ProviderExpected(provider)]
    {
      providers := providers + [provider];
      calls := calls + [ProviderExpected(provider)];
    }

    /** removeSatisfiedComponent: forgets the component; removing an unknown name changes nothing. */
    method RemoveSatisfiedComponent(c: StartupComponent)
      requires Valid()
      modifies this`components, this`satisfiable, this`calls
      ensures Valid()
      ensures components == WithoutNames(old(components), {c.name})
      ensures c.name !in Names(components) && c !in SatisfiableComponents() && c !in PendingComponents()
      ensures satisfiable == old(satisfiable) - {c.name}
      ensures calls == old(calls) + [Removed(c.name)]
    {
      NamesOfFilters(components, {c.name});
      FiltersKeepDistinct(components, {c.name});
      components := WithoutNames(components, {c.name});
      satisfiable := satisfiable - {c.name};
      calls := calls + [Removed(c.name)];
    }

    /** Tracker step: the tracker has found a registered component satisfiable. */
    method MarkSatisfiable(componentName: string)
      requires Valid()
      modifies this`satisfiable
      ensures Valid()
      ensures satisfiable == if componentName in Names(components) then old(satisfiable) + {componentName} else old(satisfiable)
    {
      if componentName in Names(components) {
        satisfiable := satisfiable + {componentName};
      }
    }

    /** Tracker step: a required service has been registered. */
    method MarkCapabilityAvailable(capabilityName: string)
      requires Valid()
      modifies this`available
      ensures Valid()
      ensures available == old(available) + {capabilityName}
    {
      available := available + {capabilityName};
    }

    /** Tracker step: a component's RequiredCapabilityListener service has been registered. */
    method MarkListenerRegistered(componentName: string)
      requires Valid()
      modifies this`listenersRegistered
      ensures Valid()
      ensures listenersRegistered == old(listenersRegistered) + {componentName}
    {
      listenersRegistered := listenersRegistered + {componentName};
    }

    /** Tracker step: the CapabilityProvider for `providedName` has been registered. */
    method ResolveProvider(providedName: string)
      requires Valid()
      modifies this`providers
      ensures Valid()
      ensures forall p :: p in providers <==> p in old(providers) && p.providedCapabilityName != providedName
    {
      providers := WithoutProvider(providers, providedName);
    }
  }

  /** The capabilities of `ss` whose name is required and not yet available, in order. */
  function Outstanding(ss: seq<ServiceCapability>, required: seq<string>, available: set<string>): (r: seq<ServiceCapability>)
    ensures forall s :: s in r <==> s in ss && s.name in required && s.name !in available
  {
    if ss == [] then []
    else (if ss[0].name in required && ss[0].name !in available then [ss[0]] else [])
         + Outstanding(ss[1..], required, available)
  }

  /** The providers of `ps` for any other capability name, in order. */
  function WithoutProvider(ps: seq<ProviderCapability>, providedName: string): (r: seq<ProviderCapability>)
    ensures forall p :: p in r <==> p in ps && p.providedCapabilityName != providedName
  {
    if ps == [] then []
    else (if ps[0].providedCapabilityName == providedName then [] else [ps[0]]) + WithoutProvider(ps[1..], providedName)
  }
}
