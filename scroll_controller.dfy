/** `scrollToSection`: from a logical section index to one scroll request on
    the engine's flat index. */
module ScrollController {
  import opened Wrappers
  import opened Entries
  import opened Flattener
  import opened SectionIndex

  /** The arguments of one `scrollToIndex` call on the engine. */
  datatype ScrollRequest = ScrollRequest(index: nat, animated: bool)

  /** The request `scrollToSection(sectionIndex, animated)` issues, if any. An
      index outside the table issues none; `animated` defaults to true. */
  function ScrollTarget<L>(sectionLabels: seq<SectionIndexData<L>>, sectionIndex: int, animated: Option<bool>)
    : (r: Option<ScrollRequest>)
    ensures r.Some? <==> 0 <= sectionIndex < |sectionLabels|
    ensures r.Some? ==> r.value.index == sectionLabels[sectionIndex].actualIndex
    ensures r.Some? ==> (r.value.animated <==> animated != Some(false))
  {
    if 0 <= sectionIndex < |sectionLabels| then
      Some(ScrollRequest(sectionLabels[sectionIndex].actualIndex, animated.GetOr(true)))
    else
      None
  }

  /** Over the table built from the flat data, scrolling to section `i` targets
      exactly the header of section `i`; any other index targets nothing. */
  lemma ScrollLandsOnHeader<L, T>(sections: seq<Section<L, T>>, sectionIndex: int, animated: Option<bool>)
    ensures var r := ScrollTarget(IndexTable(Flatten(sections)), sectionIndex, animated);
      (r.Some? <==> 0 <= sectionIndex < |sections|) &&
      (r.Some? ==>
        r.value.index == HeaderPos(sections, sectionIndex) &&
        r.value.index < |Flatten(sections)| &&
        Flatten(sections)[r.value.index] == Header(sections[sectionIndex]))
  {
    IndexTableOfFlatten(sections);
    if 0 <= sectionIndex < |sections| {
      FlattenAt(sections, sectionIndex);
    }
  }
}
