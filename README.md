# SnapshotPreviews: preview-to-test dispatch, modelled in Dafny

The snapshotting test classes turn every discovered SwiftUI preview into a
test case of its own. The base test class (`PreviewBaseTest`) asks its
subclass for the discovered preview descriptors. It expands each descriptor
into one test identifier per instance that passes the device gate, and it
records every identifier in a process-wide registry keyed by
`"{className}|{identifier}"`. When the test runner later calls one of those
identifiers, the dynamic test method looks the key up. It then either
forwards the stored `(descriptor, index)` to `testPreview` or reports that
nothing is registered. The layout test subclass (`PreviewLayoutTest`) keeps
the preview types it found. It resolves a forwarded instance back to one
preview: the first type with the same type name, then a bounds check on the
index.

Modules:

- `Wrappers` (wrappers.dfy): `Option`, for Swift optionals.
- `Text` (text.dfy): decimal rendering of integers, as string interpolation
  writes them, and the field after a string's last dash. These serve the
  uniqueness proof.
- `Discovery` (discovery.dfy): the descriptor records and the per-instance
  rules (device gate, orientation default, display-name fallback). It also
  holds `RetainedInstances`, the list of kept instances in generation order,
  and `Selectors`, the identifiers numbered by the global counter.
- `Dispatch` (dispatch.dfy): the registry as a map, `Register` (the
  insertions of one expansion, in order) and the dynamic test method. It
  proves the lookup round trip, the frame, the isolation between classes
  and idempotence.
- `BaseTest` (base_test.dfy): the class `PreviewBaseTest` holds the global
  `previews` list, the global registry and the signature-creator flag. Its
  methods are `Swizzle` (stores the signature creator), `AddMethods` (the
  nested loops) and `TestInvocations` (the class-name guard, then one
  invocation per name through `CreateInvocations`).
- `LayoutTest` (layout_test.dfy): preview types, the class
  `PreviewLayoutTest` with `DiscoverPreviews`, the resolution done by
  `testPreview`, and an end-to-end lemma from discovery to the selected
  preview.
- `Examples` (examples.dfy): worked cycles for the device gate, the
  orientation default, identifier generation and dispatch.
- `LayoutExamples` (layout_examples.dfy): two layout subclasses sharing the
  stored preview types.

The registry is not rebuilt from empty on each discovery cycle. `previews`
is reset at the start of `addMethods`, but `previewsByClassAndSelector` is
never cleared: entries are added or overwritten, never removed, so other
classes' entries and earlier cycles' entries survive. `AddMethods` states the new registry as
`Register(old registry, className, previews)`. `RegisterFrame` and
`DispatchOtherSelector` show that an identifier not generated in this cycle
dispatches exactly as it did before the cycle, stale entries included.
Lookup is exact: there is no positional fallback from an unknown selector
to an instance.

Class isolation holds for dispatch but not for resolution. The registry is
keyed per class, and `ClassIsolation` shows that one class's expansion
leaves every other class's lookups unchanged. The stored preview types of
the layout test class are a single static list shared by all layout
subclasses. Each subclass's discovery overwrites that list. So if a second
layout subclass, with other filters, runs discovery after the first, the
first class's identifiers are still forwarded to their own instances. Those
instances are then resolved against the second class's types.
`ResolutionAfterOtherDiscovery` states this: such an identifier fails as
"type not found" when none of the second class's types has its type name.
`SharedTypesAcrossClasses` works through one case. `EndToEnd` covers only
a cycle whose stored types are the ones its own descriptors were made from.

## Model

| member | source | states |
|---|---|---|
| `Text.NatToString` | Sources/SnapshottingTests/PreviewBaseTest.swift:94 | the interpolated `j` and `i` are non-empty strings of decimal digits |
| `Text.NatToStringInjective` | Sources/SnapshottingTests/PreviewBaseTest.swift:94 | two counters that render to the same text are equal, shown by reading the text back |
| `Text.IntToString` | Sources/SnapshottingTests/PreviewLayoutTest.swift:60 | the interpolated index is decimal digits after a minus sign exactly when it is negative |
| `Text.IntToStringRoundTrip` | Sources/SnapshottingTests/PreviewLayoutTest.swift:60 | reading the rendered index back, sign included, gives the index |
| `Discovery.DeviceGate` | Sources/SnapshottingTests/PreviewBaseTest.swift:86-91 | with no current device every instance is kept; with one, instance `j` is dropped exactly when `j < devices.count`, its device is non-empty and it differs from the current device; past the end the device is `""`, which is never read out of bounds |
| `Discovery.InstancesOf` | Sources/SnapshottingTests/PreviewBaseTest.swift:85-91 | every kept instance of a descriptor is that descriptor, has index in `0..<n` and passes the gate |
| `Discovery.InstancesOfStep` | Sources/SnapshottingTests/PreviewBaseTest.swift:85-107 | instance `j` is appended after the earlier ones when it passes the gate; a skipped instance leaves the list, and therefore the counter, unchanged |
| `Discovery.InstancesOfMembership` | Sources/SnapshottingTests/PreviewBaseTest.swift:85-91 | an instance is produced for a descriptor if and only if its index is in range and it passes the device gate |
| `Discovery.InstancesOfExtend` | Sources/SnapshottingTests/PreviewBaseTest.swift:85-107 | one inner-loop step on a list ending with the first `j` kept instances yields the list ending with the first `j + 1` |
| `Discovery.RetainedInstances` | Sources/SnapshottingTests/PreviewBaseTest.swift:80-98 | every entry appended to `previews` has `0 <= index < numberOfPreviews` |
| `Discovery.RetainedInstancesMembership` | Sources/SnapshottingTests/PreviewBaseTest.swift:80-98 | an instance ends up in `previews` if and only if its descriptor was discovered, its index is in range and it passes the device gate |
| `Discovery.RetainedInstancesSnoc` | Sources/SnapshottingTests/PreviewBaseTest.swift:80-109 | the descriptors are expanded in discovery order, each contributing its kept instances after those of the earlier descriptors |
| `Discovery.NoDeviceKeepsAll` | Sources/SnapshottingTests/PreviewBaseTest.swift:86 | without a current device the number of generated tests is the sum of all `numberOfPreviews` |
| `Discovery.SelectorsSnoc` | Sources/SnapshottingTests/PreviewBaseTest.swift:94-95 | appending a kept instance appends its identifier, numbered with the count of instances kept before it |
| `Discovery.CounterIsLastField` | Sources/SnapshottingTests/PreviewBaseTest.swift:94 | the counter `i` is what follows the identifier's last dash, whatever the orientation and display name hold |
| `Discovery.SelectorsAt` | Sources/SnapshottingTests/PreviewBaseTest.swift:82-94 | the `k`-th identifier is `orientation-displayName-j-k`: orientation `orientations[j]` or `"portrait"` past the end, display name falling back to the type name, and it ends in `-k` |
| `Discovery.SelectorsDistinct` | Sources/SnapshottingTests/PreviewBaseTest.swift:76-107 | all identifiers of one expansion are pairwise distinct, even when orientation, display name and `j` repeat |
| `Dispatch.DynamicTestMethod` | Sources/SnapshottingTests/PreviewBaseTest.swift:127-145 | exactly `className|selector` is looked up: absent gives the "no preview registered" failure, present forwards the stored entry unchanged |
| `Dispatch.KeyInjective` | Sources/SnapshottingTests/PreviewBaseTest.swift:99 | within one class, equal registry keys mean equal selectors |
| `Dispatch.KeysOfDistinctClassesDiffer` | Sources/SnapshottingTests/PreviewBaseTest.swift:25-26 | keys of two different classes never coincide when class names hold no `|` |
| `Dispatch.RegisterSnoc` | Sources/SnapshottingTests/PreviewBaseTest.swift:99 | registering one more instance writes its key over the registry built so far |
| `Dispatch.RegisteredSnoc` | Sources/SnapshottingTests/PreviewBaseTest.swift:95-99 | appending the identifier, the `previews` entry and the registry entry for the next counter value keeps the three in step |
| `Dispatch.RegisterFrame` | Sources/SnapshottingTests/PreviewBaseTest.swift:26-99 | the registry is never cleared: any key other than this expansion's keeps its presence and its value |
| `Dispatch.RegisterLookup` | Sources/SnapshottingTests/PreviewBaseTest.swift:94-99 | after the expansion, `registry[className|id_k]` is the `k`-th entry of `previews`, for every generated `id_k` |
| `Dispatch.DispatchRoundTrip` | Sources/SnapshottingTests/PreviewBaseTest.swift:135-144 | dispatching a generated identifier forwards exactly the `(descriptor, j)` that produced it |
| `Dispatch.DispatchOtherSelector` | Sources/SnapshottingTests/PreviewBaseTest.swift:135-140 | a selector not generated in this cycle dispatches as before the cycle: unknown ones fail, stale ones still forward their old entry |
| `Dispatch.ClassIsolation` | Sources/SnapshottingTests/PreviewBaseTest.swift:25-26 | expanding for one class leaves the dispatch of every other class unchanged |
| `Dispatch.RegisterIdempotent` | Sources/SnapshottingTests/PreviewBaseTest.swift:99 | repeating the same expansion leaves the registry as after the first run |
| `BaseTest.AddInstance` | Sources/SnapshottingTests/PreviewBaseTest.swift:86-107 | a gated-out instance changes nothing, the counter included; a kept one is appended and registered under the identifier numbered with the counter, which then advances |
| `BaseTest.AddInstancesOf` | Sources/SnapshottingTests/PreviewBaseTest.swift:85-108 | the inner loop appends exactly the kept instances of one descriptor and keeps identifiers, `previews` and registry in step |
| `BaseTest.CreateInvocations` | Sources/SnapshottingTests/PreviewBaseTest.swift:63-67 | one invocation is created per test name, each name once, in the order `addMethods` returned them |
| `BaseTest.PreviewBaseTest.constructor` | Sources/SnapshottingTests/PreviewBaseTest.swift:24-31 | both globals start empty and no signature creator is set |
| `BaseTest.PreviewBaseTest.Swizzle` | Sources/SnapshottingTests/PreviewBaseTest.swift:34-35 | the signature creator is stored |
| `BaseTest.PreviewBaseTest.AddMethods` | Sources/SnapshottingTests/PreviewBaseTest.swift:71-112 | `previews` is rebuilt from empty as the kept instances in order; the returned identifiers are those instances' identifiers, counter = position; the registry gets exactly their keys written, added or overwritten, and nothing removed |
| `BaseTest.PreviewBaseTest.TestInvocations` | Sources/SnapshottingTests/PreviewBaseTest.swift:51-68 | `EMGPreviewBaseTest` and `SnapshottingTests.` classes get no tests and no state change; otherwise `addMethods` runs, and its identifiers are handed on only when a signature creator is set |
| `LayoutTest.SnapshotPreviews` | Sources/SnapshottingTests/PreviewLayoutTest.swift:23-25 | the default inclusion filter is `nil` |
| `LayoutTest.ExcludedSnapshotPreviews` | Sources/SnapshottingTests/PreviewLayoutTest.swift:31-33 | the default exclusion filter is `nil` |
| `LayoutTest.FirstOfType` | Sources/SnapshottingTests/PreviewLayoutTest.swift:55 | `first(where:)`: none exactly when no stored type has the name; otherwise the lowest position with that name |
| `LayoutTest.TestPreview` | Sources/SnapshottingTests/PreviewLayoutTest.swift:54-63 | "type not found" exactly when no stored type has the name; otherwise the first such type is used: its instance at `index` when `0 <= index < count`, else the out-of-bounds failure, with no element read |
| `LayoutTest.TypeNotFoundMessage` | Sources/SnapshottingTests/PreviewLayoutTest.swift:56 | the "type not found" failure text ends with the type name that was looked up |
| `LayoutTest.OutOfBoundsMessage` | Sources/SnapshottingTests/PreviewLayoutTest.swift:60 | the out-of-bounds failure text reads back as the forwarded index (minus sign exactly when negative) and as the count, and ends with the type name |
| `LayoutTest.UnregisteredFailureMessage` | Sources/SnapshottingTests/PreviewBaseTest.swift:137 | the unregistered failure text names the selector right after its fixed opening and ends with the class name |
| `LayoutTest.RunDynamicTest` | Sources/SnapshottingTests/PreviewBaseTest.swift:135-143 | the test fails as unregistered exactly when `className|selector` is absent; otherwise the stored entry is forwarded to the layout class's `testPreview` |
| `LayoutTest.ResolutionAfterOtherDiscovery` | Sources/SnapshottingTests/PreviewLayoutTest.swift:35-55 | after another layout class has registered and replaced the shared stored types, this class's identifier is still forwarded to its own instance, but it is resolved against the other class's types, giving "type not found" when none has its name |
| `LayoutTest.PreviewLayoutTest.constructor` | Sources/SnapshottingTests/PreviewLayoutTest.swift:35 | the stored preview types start empty |
| `LayoutTest.PreviewLayoutTest.DiscoverPreviews` | Sources/SnapshottingTests/PreviewLayoutTest.swift:42-45 | the found types are stored, and one descriptor per stored type is returned, same length and order |
| `LayoutTest.EndToEnd` | Sources/SnapshottingTests/PreviewLayoutTest.swift:43-63 | with descriptors made from the stored types and unique type names, every generated identifier reaches the layout pass with exactly the preview it was generated for |
| `Examples.CardViewSelectors` | Sources/SnapshottingTests/PreviewBaseTest.swift:80-111 | a two-instance descriptor without metadata yields `portrait-CardView-0-0` and `portrait-CardView-1-1` |
| `Examples.CardViewDispatch` | Sources/SnapshottingTests/PreviewBaseTest.swift:135-144 | `portrait-CardView-1-1` forwards instance 1; `portrait-Unknown-0-99` is reported as unregistered |
| `Examples.DeviceGateInstances` | Sources/SnapshottingTests/PreviewBaseTest.swift:86-91 | devices `["iPhone 15", "", "iPad"]` on an iPhone 15 keep instances 0 and 1 and drop 2 |
| `Examples.DeviceGateSelectors` | Sources/SnapshottingTests/PreviewBaseTest.swift:94-107 | the kept instances are numbered 0 and 1: the skipped one takes no counter value |
| `Examples.CardInstances` | Sources/SnapshottingTests/PreviewBaseTest.swift:85 | without a current device all three instances are kept, in index order |
| `LayoutExamples.SharedTypesAcrossClasses` | Sources/SnapshottingTests/PreviewLayoutTest.swift:43-56 | class A registers CardView, then class B registers ButtonView and replaces the stored types; A's `portrait-CardView-0-0` then fails with "type not found: CardView" |
| `Examples.OrientationDefaultSelectors` | Sources/SnapshottingTests/PreviewBaseTest.swift:93-94 | orientations `["landscape"]` over three instances give landscape, portrait, portrait |

## Left out

- The Objective-C runtime plumbing is not modelled. That covers the method exchange in `swizzle`, adding a method per selector with `class_addMethod`, and the message printed when that fails. A registered identifier is simply taken to be invocable.
- `signatureCreator.perform("create:")` is a foreign, dynamically dispatched call. The model hands on the list of names it would receive, in order. The invocation objects themselves are not modelled.
- The current device name is read from the process environment, `SIMULATOR_DEVICE_NAME` first and then `SIMULATOR_MODEL_IDENTIFIER`. The model takes the result as an `Option<string>` parameter.
- `FindPreviews.findPreviews`, with its inclusion/exclusion filtering, and `DiscoveredPreview.from` are not part of this model. They are given to `DiscoverPreviews` as function values. `EndToEnd` assumes only what it needs of them: the same type name, and one instance per preview.
- The base class's default `discoverPreviews` is not modelled separately. It returns `[]`, so `AddMethods` gets an empty list. The base class's default `testPreview` only prints, and it is not modelled either.
- The rendering tail of `testPreview` is not modelled: hosting controllers, `sizeThatFits`, `ImageRenderer` and `CGFloat` sizes. `TestPreview` ends at the selected preview.
- The order in which the host framework builds each class's test list and runs the tests is not modelled. Whether a class's identifiers can run after another layout class's discovery therefore stays open. `ResolutionAfterOtherDiscovery` states what happens when they do.
- `@MainActor` isolation, `print`, the `DEBUG` log line and `XCTFail` side effects are not modelled. Each failure is a returned value that carries the data of its message.
- `Dispatch.DynamicTestMethod`: the receiver is taken to be a `PreviewBaseTest`. The branch where it is not, which returns silently, is not modelled. The method is only ever added to subclasses of that class.
- `BaseTest.PreviewBaseTest.AddMethods`: the inner loop over one descriptor's instances, and its body, run on values in `AddInstancesOf` and `AddInstance`. The two global fields are then written once per descriptor, not once per instance. The writes inside one descriptor are not observable in between, because nothing else runs during the loop.
- `Discovery.DiscoveredPreview`: `numberOfPreviews` is a `nat`. In Swift, `0..<count` traps at run time on a negative count, so that case is not modelled.
- `Dispatch.ClassIsolation` requires class names without `|`. Swift class names, as `NSStringFromClass` reports them, do not contain it. Without that requirement, keys of two classes could coincide.
- Strings are sequences of characters compared element by element. Swift's canonical-equivalence comparison of `String` values, which the dictionary keys use too, is not modelled.
