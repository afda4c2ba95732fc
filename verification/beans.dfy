/**
 * The values the startup-order resolver passes around: bundles, manifest
 * elements, startup components and the three kinds of provided capability,
 * with the name-based filters the registry is built from.
 */
module Beans {
  import opened Outcomes

  /** The two manifest headers the resolver processes. */
  const StartupComponentHeader: string := "Startup-Component"
  const ProvideCapabilityHeader: string := "Provide-Capability"

  /** An OSGi bundle, identified by symbolic name and version. */
  datatype Bundle = Bundle(symbolicName: string, version: string)

  /** One clause of a manifest header, tagged with the header it came from and its bundle. */
  datatype ManifestElement = ManifestElement(
    headerName: string,
    value: string,
    attributes: map<string, string>,
    bundle: Bundle)

  /** A component whose startup waits for its required services. */
  datatype StartupComponent = StartupComponent(name: string, bundle: Bundle, requiredServices: seq<string>)

  /** An OSGi service the bundle promises to register, optionally on behalf of a startup component. */
  datatype ServiceCapability = ServiceCapability(name: string, bundle: Bundle, dependentComponentName: Option<string>)

  /** A CapabilityProvider service that will later say how many services of one name to expect. */
  datatype ProviderCapability = ProviderCapability(providedCapabilityName: string, bundle: Bundle)

  /** The legacy RequiredCapabilityListener declaration: a component with its full list of required services. */
  datatype ListenerCapability = ListenerCapability(componentName: string, bundle: Bundle, requiredServiceList: seq<string>)

  /** The names of a list of components. */
  function Names(cs: seq<StartupComponent>): set<string>
  {
    set i | 0 <= i < |cs| :: cs[i].name
  }

  /** No two components of the list share a name (names are the registry's keys). */
  predicate DistinctNames(cs: seq<StartupComponent>)
  {
    forall i, j | 0 <= i < j < |cs| :: cs[i].name != cs[j].name
  }

  /** The components whose name is in `keep`, in their original order. */
  function WithNames(cs: seq<StartupComponent>, keep: set<string>): (r: seq<StartupComponent>)
    ensures forall c :: c in r <==> c in cs && c.name in keep
  {
    if cs == [] then []
    else (if cs[0].name in keep then [cs[0]] else []) + WithNames(cs[1..], keep)
  }

  /** The components whose name is not in `drop`, in their original order. */
  function WithoutNames(cs: seq<StartupComponent>, drop: set<string>): (r: seq<StartupComponent>)
    ensures forall c :: c in r <==> c in cs && c.name !in drop
  {
    if cs == [] then []
    else (if cs[0].name in drop then [] else [cs[0]]) + WithoutNames(cs[1..], drop)
  }

  lemma NamesMember(cs: seq<StartupComponent>, n: string)
    ensures n in Names(cs) <==> exists c :: c in cs && c.name == n
  {
    if n in Names(cs) {
      var i :| 0 <= i < |cs| && cs[i].name == n;
      assert cs[i] in cs;
    }
  }

  /** Filtering by name keeps exactly the names asked for. */
  lemma NamesOfFilters(cs: seq<StartupComponent>, s: set<string>)
    ensures Names(WithNames(cs, s)) == Names(cs) * s
    ensures Names(WithoutNames(cs, s)) == Names(cs) - s
  {
    forall n
      ensures n in Names(WithNames(cs, s)) <==> n in Names(cs) * s
      ensures n in Names(WithoutNames(cs, s)) <==> n in Names(cs) - s
    {
      NamesMember(cs, n);
      NamesMember(WithNames(cs, s), n);
      NamesMember(WithoutNames(cs, s), n);
    }
  }

  /** Filtering a list with distinct names leaves the names distinct. */
  lemma {:induction false} FiltersKeepDistinct(cs: seq<StartupComponent>, s: set<string>)
    requires DistinctNames(cs)
    ensures DistinctNames(WithNames(cs, s)) && DistinctNames(WithoutNames(cs, s))
  {
    if cs != [] {
      var head, tail := cs[0], cs[1..];
      assert DistinctNames(tail) by {
        forall i, j | 0 <= i < j < |tail| ensures tail[i].name != tail[j].name {
          assert tail[i] == cs[i + 1] && tail[j] == cs[j + 1];
        }
      }
      assert head.name !in Names(tail) by {
        forall k | 0 <= k < |tail| ensures tail[k].name != head.name {
          assert tail[k] == cs[k + 1];
        }
      }
      FiltersKeepDistinct(tail, s);
      NamesOfFilters(tail, s);
      if head.name in s {
        DistinctCons(head, WithNames(tail, s));
      } else {
        DistinctCons(head, WithoutNames(tail, s));
      }
    }
  }

  /** A component whose name is new keeps a list's names distinct. */
  lemma DistinctCons(c: StartupComponent, cs: seq<StartupComponent>)
    requires DistinctNames(cs) && c.name !in Names(cs)
    ensures DistinctNames([c] + cs)
  {
    var all := [c] + cs;
    forall i, j | 0 <= i < j < |all| ensures all[i].name != all[j].name {
      assert all[j] == cs[j - 1];
      if i == 0 {
        assert cs[j - 1].name in Names(cs);
      } else {
        assert all[i] == cs[i - 1];
      }
    }
  }

  /** Dropping two sets of names one after the other drops their union. */
  lemma {:induction false} WithoutNamesTwice(cs: seq<StartupComponent>, a: set<string>, b: set<string>)
    ensures WithoutNames(WithoutNames(cs, a), b) == WithoutNames(cs, a + b)
  {
    if cs != [] {
      WithoutNamesTwice(cs[1..], a, b);
      var once := WithoutNames(cs, a);
      if cs[0].name !in a {
        assert once == [cs[0]] + WithoutNames(cs[1..], a);
        assert once[0] == cs[0] && once[1..] == WithoutNames(cs[1..], a);
      } else {
        assert once == WithoutNames(cs[1..], a);
      }
    }
  }

  /** Appending a component adds its name. */
  lemma NamesSnoc(cs: seq<StartupComponent>, c: StartupComponent)
    ensures Names(cs + [c]) == Names(cs) + {c.name}
  {
    var all := cs + [c];
    forall n ensures n in Names(all) <==> n in Names(cs) || n == c.name {
      if n in Names(all) {
        var j :| 0 <= j < |all| && all[j].name == n;
        if j < |cs| { assert cs[j].name == n; }
      }
      if n in Names(cs) {
        var j :| 0 <= j < |cs| && cs[j].name == n;
        assert all[j].name == n;
      }
      if n == c.name { assert all[|cs|].name == n; }
    }
  }

  /** Dropping no names keeps the list. */
  lemma DropNothing(cs: seq<StartupComponent>)
    ensures WithoutNames(cs, {}) == cs
  {
  }

  /** Keeping no names keeps nothing. */
  lemma KeepNothing(cs: seq<StartupComponent>)
    ensures WithNames(cs, {}) == []
  {
  }

  /** A list with no names is empty. */
  lemma NoNamesEmpty(cs: seq<StartupComponent>)
    ensures Names(cs) == {} <==> cs == []
  {
    if cs != [] {
      assert cs[0].name in Names(cs);
    }
  }
}
