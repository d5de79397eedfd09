/** `onViewableItemsChanged`: from the engine's viewable items to the section
    reported to the index sidebar. */
module Viewability {
  import opened Wrappers
  import opened Entries
  import opened Flattener
  import opened SectionIndex

  /** One viewable item as the engine reports it: its flat index and entry,
      either of which may be missing. */
  datatype ViewToken<L, T> = ViewToken(index: Option<int>, item: Option<Entry<L, T>>)

  predicate IsHeaderToken<L, T>(t: ViewToken<L, T>) {
    t.item.Some? && t.item.value.Header?
  }

  /** `k` is the position of the first header among the tokens. */
  predicate FirstHeaderAt<L, T>(tokens: seq<ViewToken<L, T>>, k: nat) {
    k < |tokens| && IsHeaderToken(tokens[k]) &&
    forall k' :: 0 <= k' < k ==> !IsHeaderToken(tokens[k'])
  }

  /** `viewableItems.find(...)`: the position of the first header token. */
  function FindHeaderToken<L, T>(tokens: seq<ViewToken<L, T>>): (r: Option<nat>)
    ensures r.Some? ==> FirstHeaderAt(tokens, r.value)
    ensures r.None? ==> forall k :: 0 <= k < |tokens| ==> !IsHeaderToken(tokens[k])
  {
    if tokens == [] then None
    else if IsHeaderToken(tokens[0]) then Some(0)
    else match FindHeaderToken(tokens[1..])
      case Some(k) => Some(k + 1)
      case None => None
  }

  /** Whether sidebar entry `j` sits at the flat index a token reports. */
  predicate LabelAt<L>(sectionLabels: seq<SectionIndexData<L>>, j: nat, index: Option<int>) {
    j < |sectionLabels| && index == Some(sectionLabels[j].actualIndex as int)
  }

  /** `sectionLabels.findIndex(...)`: the first entry at that flat index. */
  function FindLabel<L>(sectionLabels: seq<SectionIndexData<L>>, index: Option<int>): (r: Option<nat>)
    ensures r.Some? ==> LabelAt(sectionLabels, r.value, index)
    ensures r.Some? ==> forall j :: 0 <= j < r.value ==> !LabelAt(sectionLabels, j, index)
    ensures r.None? ==> forall j :: 0 <= j < |sectionLabels| ==> !LabelAt(sectionLabels, j, index)
  {
    if sectionLabels == [] then None
    else if index == Some(sectionLabels[0].actualIndex as int) then Some(0)
    else match FindLabel(sectionLabels[1..], index)
      case Some(j) =>
        assert !LabelAt(sectionLabels, 0, index);
        assert forall j' :: 0 < j' <= j ==> (LabelAt(sectionLabels, j', index) <==> LabelAt(sectionLabels[1..], j' - 1, index));
        Some(j + 1)
      case None =>
        assert forall j' :: 0 < j' < |sectionLabels| ==> (LabelAt(sectionLabels[1..], j' - 1, index) <==> LabelAt(sectionLabels, j', index));
        None
  }

  /** The section index the callback receives, if it fires: that of the entry
      matching the first header token's flat index. Without a header token, or
      when no entry matches, it does not fire. */
  function VisibleSection<L, T>(sectionLabels: seq<SectionIndexData<L>>, viewableItems: seq<ViewToken<L, T>>)
    : (r: Option<nat>)
    ensures (forall k :: 0 <= k < |viewableItems| ==> !IsHeaderToken(viewableItems[k])) ==> r.None?
    ensures r.Some? ==>
      (exists k: nat :: FirstHeaderAt(viewableItems, k) &&
         LabelAt(sectionLabels, r.value, viewableItems[k].index) &&
         forall j :: 0 <= j < r.value ==> !LabelAt(sectionLabels, j, viewableItems[k].index))
    ensures r.None? ==> forall k: nat :: FirstHeaderAt(viewableItems, k) ==>
      forall j :: 0 <= j < |sectionLabels| ==> !LabelAt(sectionLabels, j, viewableItems[k].index)
  {
    match FindHeaderToken(viewableItems)
    case None => None
    case Some(k) =>
      FirstHeaderUnique(viewableItems, k);
      FindLabel(sectionLabels, viewableItems[k].index)
  }

  lemma FirstHeaderUnique<L, T>(tokens: seq<ViewToken<L, T>>, k: nat)
    requires FirstHeaderAt(tokens, k)
    ensures forall k': nat :: FirstHeaderAt(tokens, k') ==> k' == k
  {
  }

  /** The engine reports every token with the flat index and entry it shows. */
  ghost predicate Consistent<L, T>(data: seq<Entry<L, T>>, tokens: seq<ViewToken<L, T>>) {
    forall k :: 0 <= k < |tokens| ==>
      tokens[k].index.Some? && 0 <= tokens[k].index.value < |data| &&
      tokens[k].item == Some(data[tokens[k].index.value])
  }

  /** Over the table built from the flat data, and with tokens the engine
      reports faithfully, the callback fires exactly when some visible entry
      is a header, and then with the section whose header is the first visible
      one. */
  lemma {:induction false} VisibleSectionOfFlatten<L, T>(sections: seq<Section<L, T>>, tokens: seq<ViewToken<L, T>>, k: nat)
    requires Consistent(Flatten(sections), tokens)
    requires FirstHeaderAt(tokens, k)
    ensures var r := VisibleSection(IndexTable(Flatten(sections)), tokens);
      r.Some? && r.value < |sections| &&
      tokens[k].index == Some(HeaderPos(sections, r.value) as int) &&
      tokens[k].item == Some(Header(sections[r.value]))
  {
    var data, table := Flatten(sections), IndexTable(Flatten(sections));
    var p := tokens[k].index.value;
    assert data[p].Header?;
    var j := IndexTableComplete(data, p);
    assert LabelAt(table, j, tokens[k].index);
    IndexTableOfFlatten(sections);
    FirstHeaderUnique(tokens, k);
    var r := VisibleSection(table, tokens);
    FlattenAt(sections, r.value);
  }

  /** Visible `{5: row, 6: header, 7: row}` with the header at 6 belonging to
      section 2 reports section 2; a window of rows only reports nothing. */
  lemma VisibleSectionExample<L, T>(l0: L, l1: L, l2: L, s: Section<L, T>, x: T, y: T)
    ensures var labels := [SectionIndexData(l0, 0), SectionIndexData(l1, 3), SectionIndexData(l2, 6)];
      VisibleSection(labels, [ViewToken(Some(5), Some(Row(x))), ViewToken(Some(6), Some(Header(s))),
                              ViewToken(Some(7), Some(Row(y)))]) == Some(2) &&
      VisibleSection(labels, [ViewToken(Some(4), Some(Row(x))), ViewToken(Some(5), Some(Row(y)))]) == None
  {
    var labels := [SectionIndexData(l0, 0), SectionIndexData(l1, 3), SectionIndexData(l2, 6)];
    var tokens := [ViewToken(Some(5), Some(Row(x))), ViewToken(Some(6), Some(Header(s))), ViewToken(Some(7), Some(Row(y)))];
    assert FindHeaderToken(tokens[1..]) == Some(0);
    assert FindLabel(labels[2..], Some(6)) == Some(0);
    assert FindLabel(labels[1..], Some(6)) == Some(1);
  }
}
