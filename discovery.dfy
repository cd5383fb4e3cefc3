/**
 * The preview descriptors handed to the base test class, and the rules by
 * which `addMethods` expands each descriptor into zero or more test
 * identifiers: the device gate, the orientation default, the display-name
 * fallback and the identifier format with its global counter.
 */
module Discovery {
  import opened Wrappers
  import opened Text

  /** One discovered preview family: a type producing `numberOfPreviews` instances. */
  datatype DiscoveredPreview = DiscoveredPreview(
    typeName: string,
    displayName: Option<string>,
    devices: seq<string>,
    orientations: seq<string>,
    numberOfPreviews: nat)

  /** One instance of a family: the descriptor and the instance's position in it. */
  datatype DiscoveredPreviewAndIndex = DiscoveredPreviewAndIndex(preview: DiscoveredPreview, index: int)

  /** Instance `j`'s device constraint; instances past the end of `devices` have none (`""`). */
  function DeviceAt(d: DiscoveredPreview, j: nat): string {
    if j < |d.devices| then d.devices[j] else ""
  }

  /** Instance `j`'s orientation; instances past the end of `orientations` are `"portrait"`. */
  function OrientationAt(d: DiscoveredPreview, j: nat): string {
    if j < |d.orientations| then d.orientations[j] else "portrait"
  }

  /** The label used in identifiers: the display name, or the type name when there is none. */
  function DisplayName(d: DiscoveredPreview): string {
    match d.displayName
    case Some(name) => name
    case None => d.typeName
  }

  /** The device gate: with no current device every instance is kept. */
  predicate Retained(d: DiscoveredPreview, j: nat, currentDeviceName: Option<string>) {
    match currentDeviceName
    case None => true
    case Some(current) => DeviceAt(d, j) == "" || DeviceAt(d, j) == current
  }

  /** The gate stated on the descriptor's own fields: which instances a current device drops. */
  lemma DeviceGate(d: DiscoveredPreview, j: nat, currentDeviceName: Option<string>)
    ensures currentDeviceName.None? ==> Retained(d, j, currentDeviceName)
    ensures currentDeviceName.Some? ==>
      (!Retained(d, j, currentDeviceName) <==>
        j < |d.devices| && d.devices[j] != "" && d.devices[j] != currentDeviceName.value)
  {
  }

  /** Every element of `ps` is an instance the expansion could have produced from it. */
  predicate InRange(ps: seq<DiscoveredPreviewAndIndex>) {
    forall k | 0 <= k < |ps| :: 0 <= ps[k].index < ps[k].preview.numberOfPreviews
  }

  /** The instances `0..<n` of `d` that pass the device gate, in index order. */
  function InstancesOf(d: DiscoveredPreview, currentDeviceName: Option<string>, n: nat): (ps: seq<DiscoveredPreviewAndIndex>)
    requires n <= d.numberOfPreviews
    ensures |ps| <= n
    ensures forall k | 0 <= k < |ps| ::
      ps[k].preview == d && 0 <= ps[k].index < n && Retained(d, ps[k].index, currentDeviceName)
  {
    if n == 0 then []
    else if Retained(d, n - 1, currentDeviceName) then
      InstancesOf(d, currentDeviceName, n - 1) + [DiscoveredPreviewAndIndex(d, n - 1)]
    else
      InstancesOf(d, currentDeviceName, n - 1)
  }

  /**
   * The instances the expansion keeps, descriptor by descriptor in discovery
   * order and within a descriptor in index order. Position `k` in this list
   * is the value the global counter had when the instance was registered.
   */
  function RetainedInstances(discovered: seq<DiscoveredPreview>, currentDeviceName: Option<string>): (ps: seq<DiscoveredPreviewAndIndex>)
    ensures InRange(ps)
  {
    if discovered == [] then []
    else
      var last := discovered[|discovered| - 1];
      RetainedInstances(discovered[..|discovered| - 1], currentDeviceName) +
      InstancesOf(last, currentDeviceName, last.numberOfPreviews)
  }

  /** Instance `j` is appended exactly when it passes the gate. */
  lemma InstancesOfStep(d: DiscoveredPreview, currentDeviceName: Option<string>, j: nat)
    requires j < d.numberOfPreviews
    ensures Retained(d, j, currentDeviceName) ==>
      InstancesOf(d, currentDeviceName, j + 1) == InstancesOf(d, currentDeviceName, j) + [DiscoveredPreviewAndIndex(d, j)]
    ensures !Retained(d, j, currentDeviceName) ==>
      InstancesOf(d, currentDeviceName, j + 1) == InstancesOf(d, currentDeviceName, j)
  {
  }

  /**
   * One step of the inner loop on a list that already ends with the first
   * `j` kept instances: appending instance `j` when it passes the gate, and
   * nothing otherwise, gives the list ending with the first `j + 1`.
   */
  lemma InstancesOfExtend(prefix: seq<DiscoveredPreviewAndIndex>, before: seq<DiscoveredPreviewAndIndex>,
                          after: seq<DiscoveredPreviewAndIndex>, d: DiscoveredPreview,
                          currentDeviceName: Option<string>, j: nat)
    requires j < d.numberOfPreviews
    requires before == prefix + InstancesOf(d, currentDeviceName, j)
    requires Retained(d, j, currentDeviceName) ==> after == before + [DiscoveredPreviewAndIndex(d, j)]
    requires !Retained(d, j, currentDeviceName) ==> after == before
    ensures after == prefix + InstancesOf(d, currentDeviceName, j + 1)
  {
    InstancesOfStep(d, currentDeviceName, j);
    if Retained(d, j, currentDeviceName) {
      assert prefix + (InstancesOf(d, currentDeviceName, j) + [DiscoveredPreviewAndIndex(d, j)]) ==
        before + [DiscoveredPreviewAndIndex(d, j)];
    }
  }

  /** Expanding one more descriptor appends its retained instances. */
  lemma RetainedInstancesSnoc(discovered: seq<DiscoveredPreview>, d: DiscoveredPreview, currentDeviceName: Option<string>)
    ensures RetainedInstances(discovered + [d], currentDeviceName) ==
      RetainedInstances(discovered, currentDeviceName) + InstancesOf(d, currentDeviceName, d.numberOfPreviews)
  {
    assert (discovered + [d])[..|discovered|] == discovered;
  }

  /** An instance is kept by its descriptor exactly when its index is in range and it passes the gate. */
  lemma {:induction false} InstancesOfMembership(d: DiscoveredPreview, currentDeviceName: Option<string>, n: nat, p: DiscoveredPreviewAndIndex)
    requires n <= d.numberOfPreviews
    ensures p in InstancesOf(d, currentDeviceName, n) <==>
      p.preview == d && 0 <= p.index < n && Retained(d, p.index, currentDeviceName)
  {
    if n > 0 {
      InstancesOfMembership(d, currentDeviceName, n - 1, p);
    }
  }

  /** Every in-range instance that passes the device gate is expanded, and nothing else is. */
  lemma {:induction false} RetainedInstancesMembership(discovered: seq<DiscoveredPreview>, currentDeviceName: Option<string>, p: DiscoveredPreviewAndIndex)
    ensures p in RetainedInstances(discovered, currentDeviceName) <==>
      p.preview in discovered && 0 <= p.index < p.preview.numberOfPreviews &&
      Retained(p.preview, p.index, currentDeviceName)
  {
    if discovered != [] {
      var init, last := discovered[..|discovered| - 1], discovered[|discovered| - 1];
      assert discovered == init + [last];
      RetainedInstancesMembership(init, currentDeviceName, p);
      InstancesOfMembership(last, currentDeviceName, last.numberOfPreviews, p);
    }
  }

  /** The number of instances the descriptors declare. */
  function TotalInstances(discovered: seq<DiscoveredPreview>): nat {
    if discovered == [] then 0
    else TotalInstances(discovered[..|discovered| - 1]) + discovered[|discovered| - 1].numberOfPreviews
  }

  lemma {:induction false} InstancesOfWithoutDevice(d: DiscoveredPreview, n: nat)
    requires n <= d.numberOfPreviews
    ensures |InstancesOf(d, None, n)| == n
  {
    if n > 0 {
      InstancesOfWithoutDevice(d, n - 1);
    }
  }

  /** Without a current device no instance is skipped. */
  lemma {:induction false} NoDeviceKeepsAll(discovered: seq<DiscoveredPreview>)
    ensures |RetainedInstances(discovered, None)| == TotalInstances(discovered)
  {
    if discovered != [] {
      var last := discovered[|discovered| - 1];
      NoDeviceKeepsAll(discovered[..|discovered| - 1]);
      InstancesOfWithoutDevice(last, last.numberOfPreviews);
    }
  }

  /** The identifier of one test: `"{orientation}-{displayName}-{j}-{i}"`. */
  function Identifier(orientation: string, displayName: string, j: nat, i: nat): string {
    orientation + "-" + displayName + "-" + NatToString(j) + "-" + NatToString(i)
  }

  /** The identifier of instance `p` registered when the counter was `i`. */
  function SelectorFor(p: DiscoveredPreviewAndIndex, i: nat): string
    requires p.index >= 0
  {
    Identifier(OrientationAt(p.preview, p.index), DisplayName(p.preview), p.index, i)
  }

  predicate NonNegativeIndices(ps: seq<DiscoveredPreviewAndIndex>) {
    forall k | 0 <= k < |ps| :: ps[k].index >= 0
  }

  /** The identifiers of the retained instances, the `k`-th numbered with counter `k`. */
  function Selectors(ps: seq<DiscoveredPreviewAndIndex>): (ids: seq<string>)
    requires NonNegativeIndices(ps)
  {
    seq(|ps|, k requires 0 <= k < |ps| => SelectorFor(ps[k], k))
  }

  /** Appending one instance appends its identifier, numbered with the old length. */
  lemma SelectorsSnoc(ps: seq<DiscoveredPreviewAndIndex>, p: DiscoveredPreviewAndIndex)
    requires NonNegativeIndices(ps) && p.index >= 0
    ensures NonNegativeIndices(ps + [p])
    ensures Selectors(ps + [p]) == Selectors(ps) + [SelectorFor(p, |ps|)]
  {
    assert forall k | 0 <= k < |ps| :: (ps + [p])[k] == ps[k];
  }

  /** The counter is the identifier's last dash-separated field. */
  lemma CounterIsLastField(p: DiscoveredPreviewAndIndex, i: nat)
    requires p.index >= 0
    ensures AfterLastDash(SelectorFor(p, i)) == NatToString(i)
  {
    var pre := OrientationAt(p.preview, p.index) + "-" + DisplayName(p.preview) + "-" + NatToString(p.index);
    DigitsHaveNoDash(NatToString(i));
    AfterLastDashOfSuffix(pre, NatToString(i));
  }

  /** The `k`-th identifier is the format applied to the `k`-th instance and ends in `-k`. */
  lemma SelectorsAt(ps: seq<DiscoveredPreviewAndIndex>, k: nat)
    requires NonNegativeIndices(ps) && k < |ps|
    ensures |Selectors(ps)| == |ps|
    ensures Selectors(ps)[k] ==
      OrientationAt(ps[k].preview, ps[k].index) + "-" + DisplayName(ps[k].preview) + "-" +
      NatToString(ps[k].index) + "-" + NatToString(k)
    ensures AfterLastDash(Selectors(ps)[k]) == NatToString(k)
  {
    CounterIsLastField(ps[k], k);
  }

  /** Identifiers generated in one cycle are pairwise distinct, whatever the descriptors hold. */
  lemma SelectorsDistinct(ps: seq<DiscoveredPreviewAndIndex>, k1: nat, k2: nat)
    requires NonNegativeIndices(ps) && k1 < |ps| && k2 < |ps| && k1 != k2
    ensures Selectors(ps)[k1] != Selectors(ps)[k2]
  {
    CounterIsLastField(ps[k1], k1);
    CounterIsLastField(ps[k2], k2);
    if NatToString(k1) == NatToString(k2) {
      NatToStringInjective(k1, k2);
    }
  }
}
