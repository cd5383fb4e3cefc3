/** The worked examples of the dispatch core, checked against the model. */
module Examples {
  import opened Wrappers
  import opened Discovery
  import opened Dispatch

  function CardView(): DiscoveredPreview {
    DiscoveredPreview("CardView", None, [], [], 2)
  }

  /**
   * One descriptor with two instances and no metadata, no current device:
   * two identifiers, counters 0 and 1.
   */
  lemma CardViewSelectors()
    ensures RetainedInstances([CardView()], None) ==
      [DiscoveredPreviewAndIndex(CardView(), 0), DiscoveredPreviewAndIndex(CardView(), 1)]
    ensures Selectors(RetainedInstances([CardView()], None)) == ["portrait-CardView-0-0", "portrait-CardView-1-1"]
  {
    var card := CardView();
    var ps := RetainedInstances([card], None);
    InstancesOfStep(card, None, 0);
    InstancesOfStep(card, None, 1);
    RetainedInstancesSnoc([], card, None);
    assert [] + [card] == [card];
    assert ps == [DiscoveredPreviewAndIndex(card, 0), DiscoveredPreviewAndIndex(card, 1)];
    assert Text.NatToString(0) == "0" && Text.NatToString(1) == "1";
    assert SelectorFor(ps[0], 0) == "portrait-CardView-0-0";
    assert SelectorFor(ps[1], 1) == "portrait-CardView-1-1";
  }

  /**
   * After that cycle, the second identifier resolves to instance 1, and an
   * identifier with a counter that was never issued is reported as
   * unregistered.
   */
  lemma CardViewDispatch()
    ensures
      var registry := Register(map[], "AppTests", RetainedInstances([CardView()], None));
      && DynamicTestMethod(registry, "AppTests", "portrait-CardView-1-1") == Forward(DiscoveredPreviewAndIndex(CardView(), 1))
      && DynamicTestMethod(registry, "AppTests", "portrait-Unknown-0-99") == Unregistered("portrait-Unknown-0-99", "AppTests")
  {
    var ps := RetainedInstances([CardView()], None);
    CardViewSelectors();
    DispatchRoundTrip(map[], "AppTests", ps, 1);
    var unknown := "portrait-Unknown-0-99";
    assert unknown[9] == 'U';
    assert unknown != Selectors(ps)[0] && unknown != Selectors(ps)[1];
    DispatchOtherSelector(map[], "AppTests", ps, unknown);
  }

  function Row(): DiscoveredPreview {
    DiscoveredPreview("Row", Some("Row"), ["iPhone 15", "", "iPad"], [], 3)
  }

  /**
   * Device gate: on an "iPhone 15", instance 0 (same device) and instance 1
   * (no device) are kept, the iPad-only instance 2 is skipped.
   */
  lemma DeviceGateInstances()
    ensures RetainedInstances([Row()], Some("iPhone 15")) ==
      [DiscoveredPreviewAndIndex(Row(), 0), DiscoveredPreviewAndIndex(Row(), 1)]
  {
    var d, current := Row(), Some("iPhone 15");
    var kept := [DiscoveredPreviewAndIndex(d, 0), DiscoveredPreviewAndIndex(d, 1)];
    assert InstancesOf(d, current, 2) == kept by {
      assert Retained(d, 0, current) && Retained(d, 1, current);
      InstancesOfStep(d, current, 0);
      InstancesOfStep(d, current, 1);
    }
    assert InstancesOf(d, current, 3) == kept by {
      assert !Retained(d, 2, current) by {
        assert |"iPad"| != |"iPhone 15"|;
      }
      InstancesOfStep(d, current, 2);
    }
    RetainedInstancesSnoc([], d, current);
    assert [] + [d] == [d];
  }

  /** The skipped instance does not use up a counter value: the kept ones are numbered 0 and 1. */
  lemma DeviceGateSelectors()
    ensures Selectors(RetainedInstances([Row()], Some("iPhone 15"))) == ["portrait-Row-0-0", "portrait-Row-1-1"]
  {
    DeviceGateInstances();
    var ps := RetainedInstances([Row()], Some("iPhone 15"));
    assert Text.NatToString(0) == "0" && Text.NatToString(1) == "1";
    assert SelectorFor(ps[0], 0) == "portrait-Row-0-0";
    assert SelectorFor(ps[1], 1) == "portrait-Row-1-1";
  }

  function Card(): DiscoveredPreview {
    DiscoveredPreview("Card", None, [], ["landscape"], 3)
  }

  lemma CardInstances()
    ensures RetainedInstances([Card()], None) ==
      [DiscoveredPreviewAndIndex(Card(), 0), DiscoveredPreviewAndIndex(Card(), 1), DiscoveredPreviewAndIndex(Card(), 2)]
  {
    var d := Card();
    InstancesOfStep(d, None, 0);
    InstancesOfStep(d, None, 1);
    InstancesOfStep(d, None, 2);
    RetainedInstancesSnoc([], d, None);
    assert [] + [d] == [d];
  }

  /** Orientation default: instances past the end of `orientations` are portrait. */
  lemma OrientationDefaultSelectors()
    ensures Selectors(RetainedInstances([Card()], None)) ==
      ["landscape-Card-0-0", "portrait-Card-1-1", "portrait-Card-2-2"]
  {
    CardInstances();
    var ps := RetainedInstances([Card()], None);
    assert Text.NatToString(0) == "0" && Text.NatToString(1) == "1" && Text.NatToString(2) == "2";
    assert SelectorFor(ps[0], 0) == "landscape-Card-0-0";
    assert SelectorFor(ps[1], 1) == "portrait-Card-1-1";
    assert SelectorFor(ps[2], 2) == "portrait-Card-2-2";
  }
}
