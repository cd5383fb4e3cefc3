/**
 * The per-class registry `previewsByClassAndSelector` and the dynamic test
 * entry point that reads it. A registry key is `"{className}|{selector}"`;
 * entries are added or overwritten but never removed, so entries of other
 * classes and of earlier discovery cycles stay in place.
 */
module Dispatch {
  import opened Text
  import opened Discovery

  type Registry = map<string, DiscoveredPreviewAndIndex>

  function Key(className: string, selectorName: string): string {
    className + "|" + selectorName
  }

  /** The registry after registering `ps` for `className`, identifier by identifier in order. */
  function Register(registry: Registry, className: string, ps: seq<DiscoveredPreviewAndIndex>): Registry
    requires NonNegativeIndices(ps)
  {
    if ps == [] then registry
    else
      Register(registry, className, ps[..|ps| - 1])[Key(className, SelectorFor(ps[|ps| - 1], |ps| - 1)) := ps[|ps| - 1]]
  }

  /** Registering one more instance writes one more key. */
  lemma RegisterSnoc(registry: Registry, className: string, ps: seq<DiscoveredPreviewAndIndex>, p: DiscoveredPreviewAndIndex)
    requires NonNegativeIndices(ps) && p.index >= 0
    ensures NonNegativeIndices(ps + [p])
    ensures Register(registry, className, ps + [p]) ==
      Register(registry, className, ps)[Key(className, SelectorFor(p, |ps|)) := p]
  {
    assert (ps + [p])[..|ps|] == ps;
  }

  /**
   * `selectors` are the identifiers of `ps` and `registry` is `registry0` with
   * `ps` registered for `className`: the state `addMethods` keeps between
   * two instances.
   */
  ghost predicate Registered(ps: seq<DiscoveredPreviewAndIndex>, selectors: seq<string>, registry: Registry,
                             registry0: Registry, className: string)
  {
    InRange(ps) && selectors == Selectors(ps) && registry == Register(registry0, className, ps)
  }

  /** Registering one more in-range instance under the next counter value keeps the state consistent. */
  lemma RegisteredSnoc(ps: seq<DiscoveredPreviewAndIndex>, selectors: seq<string>, registry: Registry,
                       registry0: Registry, className: string, p: DiscoveredPreviewAndIndex)
    requires Registered(ps, selectors, registry, registry0, className)
    requires 0 <= p.index < p.preview.numberOfPreviews
    ensures Registered(ps + [p], selectors + [SelectorFor(p, |ps|)],
                       registry[Key(className, SelectorFor(p, |ps|)) := p], registry0, className)
  {
    SelectorsSnoc(ps, p);
    RegisterSnoc(registry0, className, ps, p);
  }

  /** The keys registering `ps` for `className` writes. */
  ghost function NewKeys(className: string, ps: seq<DiscoveredPreviewAndIndex>): set<string>
    requires NonNegativeIndices(ps)
  {
    set k | 0 <= k < |ps| :: Key(className, Selectors(ps)[k])
  }

  /** What the dynamic test method does: forward the stored instance, or report a failure. */
  datatype DispatchOutcome =
    | Forward(preview: DiscoveredPreviewAndIndex)
    | Unregistered(selectorName: string, className: string)

  /** The text the failure is reported with. */
  function UnregisteredMessage(selectorName: string, className: string): string {
    "No preview registered for selector " + selectorName + " in " + className
  }

  /** Exact lookup of `className|selectorName`: no fallback, no partial match. */
  function DynamicTestMethod(registry: Registry, className: string, selectorName: string): (r: DispatchOutcome)
    ensures r.Unregistered? <==> Key(className, selectorName) !in registry
    ensures r.Unregistered? ==> r == Unregistered(selectorName, className)
    ensures r.Forward? ==> r.preview == registry[Key(className, selectorName)]
  {
    var key := Key(className, selectorName);
    if key in registry then Forward(registry[key]) else Unregistered(selectorName, className)
  }

  /** Two keys of one class are equal only when their selectors are. */
  lemma KeyInjective(className: string, s1: string, s2: string)
    requires Key(className, s1) == Key(className, s2)
    ensures s1 == s2
  {
    var n := |className| + 1;
    assert s1 == Key(className, s1)[n..];
    assert s2 == Key(className, s2)[n..];
  }

  /** Keys of two different classes never meet, provided class names hold no `'|'`. */
  lemma KeysOfDistinctClassesDiffer(c1: string, s1: string, c2: string, s2: string)
    requires '|' !in c1 && '|' !in c2 && c1 != c2
    ensures Key(c1, s1) != Key(c2, s2)
  {
    var k1, k2 := Key(c1, s1), Key(c2, s2);
    if |c1| < |c2| {
      assert k1[|c1|] == '|' && k2[|c1|] == c2[|c1|] != '|';
    } else if |c2| < |c1| {
      assert k2[|c2|] == '|' && k1[|c2|] == c1[|c2|] != '|';
    } else {
      assert k1[..|c1|] == c1 && k2[..|c2|] == c2;
    }
  }

  /** Registering touches exactly the new keys; every other key keeps its value or stays absent. */
  lemma {:induction false} RegisterFrame(registry: Registry, className: string, ps: seq<DiscoveredPreviewAndIndex>, key: string)
    requires NonNegativeIndices(ps)
    requires key !in NewKeys(className, ps)
    ensures key in Register(registry, className, ps) <==> key in registry
    ensures key in registry ==> Register(registry, className, ps)[key] == registry[key]
  {
    if ps != [] {
      var init := ps[..|ps| - 1];
      assert key != Key(className, Selectors(ps)[|ps| - 1]);
      assert NewKeys(className, init) <= NewKeys(className, ps) by {
        forall k | 0 <= k < |init| ensures Selectors(init)[k] == Selectors(ps)[k] {}
      }
      RegisterFrame(registry, className, init, key);
    }
  }

  /** Round trip: every generated identifier maps back to the instance that produced it. */
  lemma {:induction false} RegisterLookup(registry: Registry, className: string, ps: seq<DiscoveredPreviewAndIndex>, k: nat)
    requires NonNegativeIndices(ps) && k < |ps|
    ensures Key(className, Selectors(ps)[k]) in Register(registry, className, ps)
    ensures Register(registry, className, ps)[Key(className, Selectors(ps)[k])] == ps[k]
  {
    var n := |ps| - 1;
    if k < n {
      var init := ps[..n];
      assert Selectors(init)[k] == Selectors(ps)[k];
      SelectorsDistinct(ps, k, n);
      if Key(className, Selectors(ps)[k]) == Key(className, Selectors(ps)[n]) {
        KeyInjective(className, Selectors(ps)[k], Selectors(ps)[n]);
      }
      RegisterLookup(registry, className, init, k);
    }
  }

  /** After registration, dispatching a generated identifier forwards exactly its instance. */
  lemma DispatchRoundTrip(registry: Registry, className: string, ps: seq<DiscoveredPreviewAndIndex>, k: nat)
    requires NonNegativeIndices(ps) && k < |ps|
    ensures DynamicTestMethod(Register(registry, className, ps), className, Selectors(ps)[k]) == Forward(ps[k])
  {
    RegisterLookup(registry, className, ps, k);
  }

  /** A selector this cycle did not generate dispatches as it did before the cycle (stale or unknown). */
  lemma DispatchOtherSelector(registry: Registry, className: string, ps: seq<DiscoveredPreviewAndIndex>, selectorName: string)
    requires NonNegativeIndices(ps)
    requires selectorName !in Selectors(ps)
    ensures DynamicTestMethod(Register(registry, className, ps), className, selectorName) ==
      DynamicTestMethod(registry, className, selectorName)
  {
    var key := Key(className, selectorName);
    if key in NewKeys(className, ps) {
      var k :| 0 <= k < |ps| && key == Key(className, Selectors(ps)[k]);
      KeyInjective(className, selectorName, Selectors(ps)[k]);
      assert false;
    }
    RegisterFrame(registry, className, ps, key);
  }

  /** Registering for one class leaves every entry of another class as it was. */
  lemma ClassIsolation(registry: Registry, className: string, ps: seq<DiscoveredPreviewAndIndex>, otherClass: string, selectorName: string)
    requires NonNegativeIndices(ps)
    requires '|' !in className && '|' !in otherClass && className != otherClass
    ensures DynamicTestMethod(Register(registry, className, ps), otherClass, selectorName) ==
      DynamicTestMethod(registry, otherClass, selectorName)
  {
    var key := Key(otherClass, selectorName);
    if key in NewKeys(className, ps) {
      var k :| 0 <= k < |ps| && key == Key(className, Selectors(ps)[k]);
      KeysOfDistinctClassesDiffer(otherClass, selectorName, className, Selectors(ps)[k]);
      assert false;
    }
    RegisterFrame(registry, className, ps, key);
  }

  /** Running the same registration twice leaves the registry as after the first run. */
  lemma RegisterIdempotent(registry: Registry, className: string, ps: seq<DiscoveredPreviewAndIndex>)
    requires NonNegativeIndices(ps)
    ensures Register(Register(registry, className, ps), className, ps) == Register(registry, className, ps)
  {
    var once := Register(registry, className, ps);
    var twice := Register(once, className, ps);
    forall key | key in twice || key in once
      ensures key in twice && key in once && twice[key] == once[key]
    {
      if key in NewKeys(className, ps) {
        var k :| 0 <= k < |ps| && key == Key(className, Selectors(ps)[k]);
        RegisterLookup(registry, className, ps, k);
        RegisterLookup(once, className, ps, k);
      } else {
        RegisterFrame(once, className, ps, key);
      }
    }
  }
}
