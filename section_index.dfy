/** The scan over the flat data that records, for every header, its sidebar
    label and flat position (`sectionLabels`), and the sticky header positions
    (`stickyHeaderIndices`). */
module SectionIndex {
  import opened Wrappers
  import opened Entries
  import opened Flattener

  /** One sidebar entry (`SectionIndexData`): the section's label and the flat
      index of its header (`actualIndex`). */
  datatype SectionIndexData<L> = SectionIndexData(indexLabel: L, actualIndex: nat)

  /** The table the scan builds over `data`, one entry per header, in flat
      order; defined on the prefix so that it follows the scan step by step. */
  function IndexTable<L, T>(data: seq<Entry<L, T>>): seq<SectionIndexData<L>>
    decreases |data|
  {
    if data == [] then []
    else
      var n := |data| - 1;
      IndexTable(data[..n]) + match data[n]
        case Header(s) => [SectionIndexData(s.indexLabel, n)]
        case Row(_) => []
  }

  /** The `actualIndex` column of a table. */
  function ActualIndices<L>(table: seq<SectionIndexData<L>>): seq<nat> {
    seq(|table|, j requires 0 <= j < |table| => table[j].actualIndex)
  }

  /** Sticky headers are on unless the flag is explicitly `false`. */
  predicate StickyEnabled(stickySectionHeadersEnabled: Option<bool>) {
    stickySectionHeadersEnabled != Some(false)
  }

  /** The `data.forEach` loop: pushes a label for every header and, when sticky
      headers are enabled, its position. */
  method BuildIndex<L, T>(data: seq<Entry<L, T>>, stickySectionHeadersEnabled: Option<bool>)
    returns (stickyHeaderIndices: seq<nat>, sectionLabels: seq<SectionIndexData<L>>)
    ensures sectionLabels == IndexTable(data)
    ensures stickyHeaderIndices ==
      if StickyEnabled(stickySectionHeadersEnabled) then ActualIndices(sectionLabels) else []
  {
    stickyHeaderIndices, sectionLabels := [], [];
    var index := 0;
    while index < |data|
      invariant 0 <= index <= |data|
      invariant sectionLabels == IndexTable(data[..index])
      invariant stickyHeaderIndices ==
        if StickyEnabled(stickySectionHeadersEnabled) then ActualIndices(sectionLabels) else []
    {
      assert data[..index + 1][..index] == data[..index];
      match data[index] {
        case Header(section) =>
          sectionLabels := sectionLabels + [SectionIndexData(section.indexLabel, index)];
          if stickySectionHeadersEnabled != Some(false) {
            stickyHeaderIndices := stickyHeaderIndices + [index];
          }
        case Row(_) =>
      }
      index := index + 1;
    }
    assert data[..index] == data;
  }

  /** Every table entry points at a header of `data` carrying that label, and
      the positions are strictly increasing. */
  lemma {:induction false} IndexTableSound<L, T>(data: seq<Entry<L, T>>)
    ensures forall j :: 0 <= j < |IndexTable(data)| ==>
      var e := IndexTable(data)[j];
      e.actualIndex < |data| && data[e.actualIndex].Header? &&
      data[e.actualIndex].section.indexLabel == e.indexLabel
    ensures forall j1, j2 :: 0 <= j1 < j2 < |IndexTable(data)| ==>
      IndexTable(data)[j1].actualIndex < IndexTable(data)[j2].actualIndex
  {
    if data != [] {
      var n := |data| - 1;
      IndexTableSound(data[..n]);
      IndexTableBelow(data[..n]);
    }
  }

  /** All positions in the table of `data` lie below `|data|`. */
  lemma {:induction false} IndexTableBelow<L, T>(data: seq<Entry<L, T>>)
    ensures forall j :: 0 <= j < |IndexTable(data)| ==> IndexTable(data)[j].actualIndex < |data|
  {
    if data != [] {
      IndexTableBelow(data[..|data| - 1]);
    }
  }

  /** Every header of `data` has an entry in the table. */
  lemma {:induction false} IndexTableComplete<L, T>(data: seq<Entry<L, T>>, p: nat) returns (j: nat)
    requires p < |data| && data[p].Header?
    ensures j < |IndexTable(data)| && IndexTable(data)[j].actualIndex == p
  {
    var n := |data| - 1;
    if p == n {
      j := |IndexTable(data[..n])|;
    } else {
      assert data[..n][p] == data[p];
      j := IndexTableComplete(data[..n], p);
    }
  }

  /** The `actualIndex` column holds exactly the header positions of `data`. */
  lemma HeaderPositionsExact<L, T>(data: seq<Entry<L, T>>, p: int)
    ensures p in ActualIndices(IndexTable(data)) <==> 0 <= p < |data| && data[p].Header?
  {
    IndexTableSound(data);
    if 0 <= p < |data| && data[p].Header? {
      var j := IndexTableComplete(data, p);
      assert ActualIndices(IndexTable(data))[j] == p;
    }
  }

  /** Appending entries that are all rows adds nothing to the table. */
  lemma {:induction false} IndexTableRows<L, T>(a: seq<Entry<L, T>>, b: seq<Entry<L, T>>)
    requires forall k :: 0 <= k < |b| ==> b[k].Row?
    ensures IndexTable(a + b) == IndexTable(a)
  {
    if b == [] {
      assert a + b == a;
    } else {
      var m := |b| - 1;
      assert (a + b)[..|a + b| - 1] == a + b[..m];
      assert (a + b)[|a + b| - 1] == b[m] && b[m].Row?;
      assert IndexTable(a + b) == IndexTable(a + b[..m]);
      IndexTableRows(a, b[..m]);
    }
  }

  /** The table built over the flat data has one entry per section, in section
      order: entry `i` is section `i`'s label at its header position. An empty
      section still gets its entry. */
  lemma {:induction false} IndexTableOfFlatten<L, T>(sections: seq<Section<L, T>>)
    ensures |IndexTable(Flatten(sections))| == |sections|
    ensures forall i :: 0 <= i < |sections| ==>
      IndexTable(Flatten(sections))[i] ==
        SectionIndexData(sections[i].indexLabel, HeaderPos(sections, i))
  {
    if sections != [] {
      var n := |sections| - 1;
      var init, last := sections[..n], sections[n];
      IndexTableOfFlatten(init);
      assert sections == init + [last];
      IndexTableStep(init, last);
      forall i | 0 <= i < n
        ensures HeaderPos(sections, i) == HeaderPos(init, i)
      {
        assert sections[..i] == init[..i];
      }
    }
  }

  /** Flattening one more section adds exactly its entry, at the end of the
      existing data. */
  lemma IndexTableStep<L, T>(init: seq<Section<L, T>>, last: Section<L, T>)
    ensures IndexTable(Flatten(init + [last])) ==
      IndexTable(Flatten(init)) + [SectionIndexData(last.indexLabel, |Flatten(init)|)]
  {
    var a := Flatten(init);
    var b := a + [Header(last)];
    assert Flatten(init + [last]) == b + RowEntries(last.rows) by {
      FlattenAppend(init, [last]);
      assert [last][1..] == [];
      assert Flatten([last]) == Block(last);
    }
    IndexTableRows(b, RowEntries(last.rows));
    assert IndexTable(b) == IndexTable(a) + [SectionIndexData(last.indexLabel, |a|)] by {
      assert b[..|a|] == a && b[|a|] == Header(last);
    }
  }

  /** With sticky headers enabled the sticky list is the header position of
      every section, in section order; with them disabled it is empty. */
  lemma StickyHeadersOfFlatten<L, T>(sections: seq<Section<L, T>>, stickySectionHeadersEnabled: Option<bool>)
    ensures var table := IndexTable(Flatten(sections));
      var sticky := if StickyEnabled(stickySectionHeadersEnabled) then ActualIndices(table) else [];
      (stickySectionHeadersEnabled == Some(false) ==> sticky == []) &&
      (stickySectionHeadersEnabled != Some(false) ==>
        |sticky| == |sections| &&
        forall i :: 0 <= i < |sections| ==>
          sticky[i] == HeaderPos(sections, i) && sticky[i] < |Flatten(sections)| &&
          Flatten(sections)[sticky[i]] == Header(sections[i]))
  {
    IndexTableOfFlatten(sections);
    forall i | 0 <= i < |sections|
      ensures HeaderPos(sections, i) < |Flatten(sections)|
      ensures Flatten(sections)[HeaderPos(sections, i)] == Header(sections[i])
    {
      FlattenAt(sections, i);
    }
  }
}
