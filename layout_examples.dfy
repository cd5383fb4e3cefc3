/** A worked example of two layout subclasses sharing the stored preview types. */
module LayoutExamples {
  import opened Wrappers
  import opened Discovery
  import opened Dispatch
  import opened LayoutTest
  import opened Examples

  function ButtonView(): DiscoveredPreview {
    DiscoveredPreview("ButtonView", None, [], [], 1)
  }

  /**
   * Two layout subclasses with different filters: `AppTests.A` registers the
   * CardView cycle, then `AppTests.B` registers ButtonView and its discovery
   * replaces the shared stored types. A's first identifier is still forwarded
   * to CardView instance 0, but resolving it finds no CardView type.
   */
  lemma SharedTypesAcrossClasses()
    ensures
      var psA := RetainedInstances([CardView()], None);
      var psB := RetainedInstances([ButtonView()], None);
      var registry := Register(Register(map[], "AppTests.A", psA), "AppTests.B", psB);
      var typesB := [PreviewType("ButtonView", [Preview(None)])];
      RunDynamicTest(registry, typesB, "AppTests.A", "portrait-CardView-0-0") == TypeNotFound("CardView")
  {
    var psA := RetainedInstances([CardView()], None);
    var psB := RetainedInstances([ButtonView()], None);
    var typesB := [PreviewType("ButtonView", [Preview(None)])];
    CardViewSelectors();
    assert "ButtonView" != "CardView";
    ResolutionAfterOtherDiscovery(map[], "AppTests.A", psA, "AppTests.B", psB, typesB, 0);
  }
}
