/**
 * The layout test subclass: it stores the preview types found by discovery,
 * maps each to a descriptor for the base class, and resolves a forwarded
 * `(descriptor, index)` back to one preview instance (first type with the
 * same type name, then an index bounds check) before the layout pass.
 */
module LayoutTest {
  import opened Wrappers
  import opened Text
  import opened Discovery
  import opened Dispatch

  /** One renderable preview of a type; its view is outside this model. */
  datatype Preview = Preview(displayName: Option<string>)

  /** A preview type as discovery finds it: its name and its previews in order. */
  datatype PreviewType = PreviewType(typeName: string, previews: seq<Preview>)

  /** The outcome of `testPreview`, or of a dynamic test that never reached it. */
  datatype TestResult =
    | Rendered(previewType: PreviewType, selected: Preview)
    | TypeNotFound(typeName: string)
    | IndexOutOfBounds(index: int, count: nat, typeName: string)
    | NotRegistered(selectorName: string, className: string)

  /** The text each failure is reported with. */
  function FailureMessage(r: TestResult): string
    requires !r.Rendered?
  {
    match r
    case TypeNotFound(typeName) => "Preview type not found: " + typeName
    case IndexOutOfBounds(index, count, typeName) =>
      "Preview index " + IntToString(index) + " out of bounds (count: " + NatToString(count) + ") for " + typeName
    case NotRegistered(selectorName, className) => UnregisteredMessage(selectorName, className)
  }

  predicate EndsWith(text: string, suffix: string) {
    |suffix| <= |text| && text[|text| - |suffix|..] == suffix
  }

  /** The "type not found" text ends with the type name that was looked up. */
  lemma TypeNotFoundMessage(typeName: string)
    ensures EndsWith(FailureMessage(TypeNotFound(typeName)), typeName)
  {
  }

  /**
   * The out-of-bounds text reads back as the forwarded index, sign included,
   * and as the count, and it ends with the type name.
   */
  lemma {:induction false} OutOfBoundsMessage(index: int, count: nat, typeName: string)
    ensures
      var m := FailureMessage(IndexOutOfBounds(index, count, typeName));
      var n := |"Preview index "|;
      var w := |IntToString(index)|;
      var c := n + w + |" out of bounds (count: "|;
      var v := |NatToString(count)|;
      && EndsWith(m, typeName)
      && c + v <= |m|
      && IsIntText(m[n..n + w]) && ParseInt(m[n..n + w]) == index
      && (index < 0 <==> m[n] == '-')
      && AllDigits(m[c..c + v]) && ParseNat(m[c..c + v]) == count
  {
    var head, digits, middle, countDigits, tail :=
      "Preview index ", IntToString(index), " out of bounds (count: ", NatToString(count), ") for " + typeName;
    var m := FailureMessage(IndexOutOfBounds(index, count, typeName));
    assert m == head + digits + middle + countDigits + tail;
    var n, w := |head|, |digits|;
    var c := n + w + |middle|;
    var v := |countDigits|;
    assert m[n..n + w] == digits;
    assert m[c..c + v] == countDigits;
    assert m[|m| - |typeName|..] == typeName;
    IntToStringRoundTrip(index);
    ParseNatToString(count);
  }

  /** The unregistered text names the selector right after its fixed opening and ends with the class name. */
  lemma UnregisteredFailureMessage(selectorName: string, className: string)
    ensures
      var m := FailureMessage(NotRegistered(selectorName, className));
      var n := |"No preview registered for selector "|;
      && EndsWith(m, className)
      && n + |selectorName| <= |m| && m[n..n + |selectorName|] == selectorName
  {
    var m := FailureMessage(NotRegistered(selectorName, className));
    var head := "No preview registered for selector ";
    assert m == head + selectorName + (" in " + className);
    assert m[|head|..|head| + |selectorName|] == selectorName;
  }

  /** The default inclusion filter: none, so every preview is a candidate. */
  function SnapshotPreviews(): (included: Option<seq<string>>)
    ensures included.None?
  {
    None
  }

  /** The default exclusion filter: none, so no preview is excluded. */
  function ExcludedSnapshotPreviews(): (excluded: Option<seq<string>>)
    ensures excluded.None?
  {
    None
  }

  /** The position of the first type named `typeName` (Swift's `first(where:)`). */
  function FirstOfType(types: seq<PreviewType>, typeName: string): (r: Option<nat>)
    ensures r.None? <==> forall t | 0 <= t < |types| :: types[t].typeName != typeName
    ensures r.Some? ==>
      r.value < |types| && types[r.value].typeName == typeName &&
      forall u | 0 <= u < r.value :: types[u].typeName != typeName
  {
    if types == [] then None
    else if types[0].typeName == typeName then Some(0)
    else match FirstOfType(types[1..], typeName)
      case None => None
      case Some(t) => Some(t + 1)
  }

  /**
   * The resolution part of `testPreview`: the first stored type with the
   * forwarded type name, then the instance at the forwarded index, which is
   * read only once it is known to be in range.
   */
  function TestPreview(types: seq<PreviewType>, preview: DiscoveredPreviewAndIndex): (r: TestResult)
    ensures (forall t | 0 <= t < |types| :: types[t].typeName != preview.preview.typeName) <==>
      r == TypeNotFound(preview.preview.typeName)
    ensures forall t | 0 <= t < |types| && types[t].typeName == preview.preview.typeName &&
                       (forall u | 0 <= u < t :: types[u].typeName != preview.preview.typeName) ::
      r == if 0 <= preview.index < |types[t].previews|
           then Rendered(types[t], types[t].previews[preview.index])
           else IndexOutOfBounds(preview.index, |types[t].previews|, types[t].typeName)
  {
    match FirstOfType(types, preview.preview.typeName)
    case None => TypeNotFound(preview.preview.typeName)
    case Some(t) =>
      var pt := types[t];
      if 0 <= preview.index < |pt.previews| then Rendered(pt, pt.previews[preview.index])
      else IndexOutOfBounds(preview.index, |pt.previews|, pt.typeName)
  }

  /** A dynamic test of the layout subclass: dispatch, then resolve what was forwarded. */
  function RunDynamicTest(registry: Registry, types: seq<PreviewType>, className: string, selectorName: string): (r: TestResult)
    ensures r.NotRegistered? <==> Key(className, selectorName) !in registry
    ensures r.NotRegistered? ==> r == NotRegistered(selectorName, className)
    ensures !r.NotRegistered? ==> r == TestPreview(types, registry[Key(className, selectorName)])
  {
    match DynamicTestMethod(registry, className, selectorName)
    case Unregistered(selectorName, className) => NotRegistered(selectorName, className)
    case Forward(preview) => TestPreview(types, preview)
  }

  /** Descriptor `t` was made from stored type `t`: same name, one instance per preview. */
  predicate Describes(discovered: seq<DiscoveredPreview>, types: seq<PreviewType>) {
    |discovered| == |types| &&
    forall t | 0 <= t < |types| ::
      discovered[t].typeName == types[t].typeName && discovered[t].numberOfPreviews == |types[t].previews|
  }

  predicate UniqueTypeNames(types: seq<PreviewType>) {
    forall t, u | 0 <= t < u < |types| :: types[t].typeName != types[u].typeName
  }

  /**
   * The layout test class's static list of preview types. The finder and the
   * conversion to descriptors are collaborators given as function values.
   */
  class PreviewLayoutTest {
    var previews: seq<PreviewType>

    constructor ()
      ensures previews == []
    {
      previews := [];
    }

    /**
     * Stores what the finder returns for the given filters and returns one
     * descriptor per stored type, in the same order.
     */
    method DiscoverPreviews(included: Option<seq<string>>, excluded: Option<seq<string>>,
                            findPreviews: (Option<seq<string>>, Option<seq<string>>) -> seq<PreviewType>,
                            from: PreviewType -> DiscoveredPreview)
      returns (discovered: seq<DiscoveredPreview>)
      modifies this`previews
      ensures previews == findPreviews(included, excluded)
      ensures |discovered| == |previews|
      ensures forall t | 0 <= t < |previews| :: discovered[t] == from(previews[t])
      ensures (forall pt :: from(pt).typeName == pt.typeName && from(pt).numberOfPreviews == |pt.previews|) ==>
        Describes(discovered, previews)
    {
      var found := findPreviews(included, excluded);
      previews := found;
      discovered := seq(|found|, t requires 0 <= t < |found| => from(found[t]));
    }
  }

  /**
   * In a consistent cycle (descriptors made from the stored types, type names
   * unique) every generated identifier runs the layout pass on exactly the
   * preview it was generated for: never a lookup failure, never an index out
   * of bounds.
   */
  lemma EndToEnd(registry: Registry, className: string, discovered: seq<DiscoveredPreview>,
                 currentDeviceName: Option<string>, types: seq<PreviewType>, k: nat)
    requires Describes(discovered, types) && UniqueTypeNames(types)
    requires k < |RetainedInstances(discovered, currentDeviceName)|
    ensures
      var ps := RetainedInstances(discovered, currentDeviceName);
      var r := RunDynamicTest(Register(registry, className, ps), types, className, Selectors(ps)[k]);
      exists t | 0 <= t < |types| :: discovered[t] == ps[k].preview &&
        r == Rendered(types[t], types[t].previews[ps[k].index])
  {
    var ps := RetainedInstances(discovered, currentDeviceName);
    DispatchRoundTrip(registry, className, ps, k);
    RetainedInstancesMembership(discovered, currentDeviceName, ps[k]);
    var t :| 0 <= t < |discovered| && discovered[t] == ps[k].preview;
    var first := FirstOfType(types, ps[k].preview.typeName);
    assert first == Some(t);
  }

  /**
   * The stored preview types are one static list shared by every layout
   * subclass, while the registry is keyed per class. Once another class has
   * registered its identifiers and its discovery has replaced the stored
   * types, an identifier of `className` is still forwarded to its own
   * instance, but that instance is resolved against the other class's types:
   * it fails as "type not found" when none of them has its type name.
   */
  lemma ResolutionAfterOtherDiscovery(registry: Registry, className: string, ps: seq<DiscoveredPreviewAndIndex>,
                                      otherClass: string, otherPs: seq<DiscoveredPreviewAndIndex>,
                                      otherTypes: seq<PreviewType>, k: nat)
    requires NonNegativeIndices(ps) && NonNegativeIndices(otherPs) && k < |ps|
    requires '|' !in className && '|' !in otherClass && className != otherClass
    ensures
      var registry2 := Register(Register(registry, className, ps), otherClass, otherPs);
      var r := RunDynamicTest(registry2, otherTypes, className, Selectors(ps)[k]);
      && r == TestPreview(otherTypes, ps[k])
      && ((forall t | 0 <= t < |otherTypes| :: otherTypes[t].typeName != ps[k].preview.typeName) ==>
            r == TypeNotFound(ps[k].preview.typeName))
  {
    DispatchRoundTrip(registry, className, ps, k);
    ClassIsolation(Register(registry, className, ps), otherClass, otherPs, className, Selectors(ps)[k]);
  }
}
