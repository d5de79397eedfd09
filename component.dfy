/** One render of the sectioned list: the structures derived from `sections`
    and the two effects the component issues, the engine's `scrollToIndex`
    and the sidebar's `onSectionIndexPress`, recorded in order. */
module Component {
  import opened Wrappers
  import opened Entries
  import opened Flattener
  import opened SectionIndex
  import opened ScrollController
  import opened Viewability

  class FlashSectionList<L, T> {
    /** The flat data handed to the engine. */
    const data: seq<Entry<L, T>>
    /** The computed sticky list; the source never forwards it to the engine. */
    const stickyHeaderIndices: seq<nat>
    const sectionLabels: seq<SectionIndexData<L>>
    /** Whether the engine is mounted (the inner reference is set). */
    const engineMounted: bool
    /** Whether the caller supplied `onSectionIndexPress`. */
    const hasIndexPressCallback: bool
    /** The `scrollToIndex` calls issued so far. */
    var scrollRequests: seq<ScrollRequest>
    /** The section indices passed to `onSectionIndexPress` so far. */
    var reportedSections: seq<nat>

    /** A render: flattens the sections and runs the index scan. */
    constructor (sections: seq<Section<L, T>>, stickySectionHeadersEnabled: Option<bool>,
                 engineMounted: bool, hasIndexPressCallback: bool)
      ensures data == Flatten(sections)
      ensures sectionLabels == IndexTable(data)
      ensures stickyHeaderIndices ==
        if StickyEnabled(stickySectionHeadersEnabled) then ActualIndices(sectionLabels) else []
      ensures this.engineMounted == engineMounted && this.hasIndexPressCallback == hasIndexPressCallback
      ensures scrollRequests == [] && reportedSections == []
    {
      var flat := Flatten(sections);
      var sticky, labels := BuildIndex(flat, stickySectionHeadersEnabled);
      data := flat;
      stickyHeaderIndices, sectionLabels := sticky, labels;
      this.engineMounted, this.hasIndexPressCallback := engineMounted, hasIndexPressCallback;
      scrollRequests, reportedSections := [], [];
    }

    /** `scrollToSection`: at most one request, only for a section in range
        and a mounted engine. */
    method ScrollToSection(sectionIndex: int, animated: Option<bool>)
      modifies this`scrollRequests
      ensures scrollRequests == old(scrollRequests) +
        match ScrollTarget(sectionLabels, sectionIndex, animated)
        case Some(request) => if engineMounted then [request] else []
        case None => []
    {
      var target := ScrollTarget(sectionLabels, sectionIndex, animated);
      if target.Some? && engineMounted {
        scrollRequests := scrollRequests + [target.value];
      }
    }

    /** `onViewableItemsChanged`: reports at most one section per notification. */
    method OnViewableItemsChanged(viewableItems: seq<ViewToken<L, T>>)
      modifies this`reportedSections
      ensures reportedSections == old(reportedSections) +
        match VisibleSection(sectionLabels, viewableItems)
        case Some(j) => if hasIndexPressCallback then [j] else []
        case None => []
    {
      var section := VisibleSection(sectionLabels, viewableItems);
      if section.Some? && hasIndexPressCallback {
        reportedSections := reportedSections + [section.value];
      }
    }
  }
}
