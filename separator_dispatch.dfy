/** `renderSeparator` and its placement by `renderItem`: which separator, if
    any, is drawn next to an entry, and on which side. */
module SeparatorDispatch {
  import opened Wrappers
  import opened Entries

  datatype SeparatorKind = SectionSeparator | ItemSeparator

  /** The props a separator component is rendered with. */
  datatype SeparatorProps<L, T> =
    SeparatorProps(kind: SeparatorKind, index: nat, leadingItem: Entry<L, T>, trailingItem: Entry<L, T>)

  /** Which of the two optional separator components the caller supplied. */
  datatype SuppliedSeparators =
    SuppliedSeparators(sectionSeparator: bool, itemSeparator: bool)

  /** The separator drawn for the boundary after flat index `index`: none after
      the last entry, the section separator when `isSection`, the item separator
      otherwise, and none when the selected component is absent. */
  function RenderSeparator<L, T>(data: seq<Entry<L, T>>, index: nat, isSection: bool, supplied: SuppliedSeparators)
    : (r: Option<SeparatorProps<L, T>>)
    ensures r.Some? <==>
      index + 1 < |data| && (if isSection then supplied.sectionSeparator else supplied.itemSeparator)
    ensures r.Some? ==>
      r.value.index == index && r.value.leadingItem == data[index] && r.value.trailingItem == data[index + 1] &&
      (r.value.kind == SectionSeparator <==> isSection)
  {
    if index + 1 >= |data| then None
    else
      var present := if isSection then supplied.sectionSeparator else supplied.itemSeparator;
      if present then
        Some(SeparatorProps(if isSection then SectionSeparator else ItemSeparator, index, data[index], data[index + 1]))
      else None
  }

  /** One rendered piece of a cell: a separator, or the header or row content. */
  datatype Piece<L, T> = Sep(props: SeparatorProps<L, T>) | HeaderView(section: Section<L, T>) | RowView(item: T)

  /** The content piece of an entry. */
  function ContentOf<L, T>(e: Entry<L, T>): Piece<L, T> {
    match e
    case Header(s) => HeaderView(s)
    case Row(x) => RowView(x)
  }

  /** The separator slot as a sequence of zero or one pieces. */
  function SeparatorSlot<L, T>(sep: Option<SeparatorProps<L, T>>): seq<Piece<L, T>> {
    match sep
    case Some(p) => [Sep(p)]
    case None => []
  }

  /** The separator a boundary gets: its kind follows the entry before it. */
  function ExpectedSeparator<L, T>(data: seq<Entry<L, T>>, index: nat): SeparatorProps<L, T>
    requires index + 1 < |data|
  {
    SeparatorProps(if data[index].Header? then SectionSeparator else ItemSeparator, index, data[index], data[index + 1])
  }

  /** Whether the cell at `index` draws a separator: there is a next entry and
      the component its kind selects is supplied. */
  predicate SeparatorDrawn<L, T>(data: seq<Entry<L, T>>, index: nat, supplied: SuppliedSeparators) {
    index + 1 < |data| &&
    if data[index].Header? then supplied.sectionSeparator else supplied.itemSeparator
  }

  /** The cell `renderItem` produces for flat index `index`: the entry's content
      and at most one separator. Headers ask for the section separator and rows
      for the item separator; the separator comes before the content when
      inverted and after it otherwise. */
  function RenderItem<L, T>(data: seq<Entry<L, T>>, index: nat, inverted: bool, supplied: SuppliedSeparators)
    : (cell: seq<Piece<L, T>>)
    requires index < |data|
    ensures SeparatorDrawn(data, index, supplied) ==>
      |cell| == 2 && index + 1 < |data| &&
      (if inverted then cell[0] == Sep(ExpectedSeparator(data, index)) && cell[1] == ContentOf(data[index])
       else cell[0] == ContentOf(data[index]) && cell[1] == Sep(ExpectedSeparator(data, index)))
    ensures !SeparatorDrawn(data, index, supplied) ==> cell == [ContentOf(data[index])]
  {
    var slot := SeparatorSlot(RenderSeparator(data, index, data[index].Header?, supplied));
    if inverted then slot + [ContentOf(data[index])] else [ContentOf(data[index])] + slot
  }

  /** The cells of the first `n` entries, in flat order. */
  function RenderPrefix<L, T>(data: seq<Entry<L, T>>, n: nat, inverted: bool, supplied: SuppliedSeparators)
    : seq<Piece<L, T>>
    requires n <= |data|
  {
    if n == 0 then [] else RenderPrefix(data, n - 1, inverted, supplied) + RenderItem(data, n - 1, inverted, supplied)
  }

  /** The separator a single piece contributes. */
  function SeparatorIn<L, T>(piece: Piece<L, T>): seq<SeparatorProps<L, T>> {
    if piece.Sep? then [piece.props] else []
  }

  /** The content a single piece contributes. */
  function ContentIn<L, T>(piece: Piece<L, T>): seq<Piece<L, T>> {
    if piece.Sep? then [] else [piece]
  }

  /** The separators among some pieces, in order. */
  function Separators<L, T>(pieces: seq<Piece<L, T>>): seq<SeparatorProps<L, T>> {
    if pieces == [] then [] else SeparatorIn(pieces[0]) + Separators(pieces[1..])
  }

  /** The content pieces among some pieces, in order. */
  function Contents<L, T>(pieces: seq<Piece<L, T>>): seq<Piece<L, T>> {
    if pieces == [] then [] else ContentIn(pieces[0]) + Contents(pieces[1..])
  }

  lemma {:induction false} SeparatorsAppend<L, T>(a: seq<Piece<L, T>>, b: seq<Piece<L, T>>)
    ensures Separators(a + b) == Separators(a) + Separators(b)
  {
    if a == [] {
      assert a + b == b;
    } else {
      calc {
        Separators(a + b);
      == { assert (a + b)[0] == a[0] && (a + b)[1..] == a[1..] + b; }
        SeparatorIn(a[0]) + Separators(a[1..] + b);
      == { SeparatorsAppend(a[1..], b); }
        SeparatorIn(a[0]) + (Separators(a[1..]) + Separators(b));
      }
    }
  }

  lemma {:induction false} ContentsAppend<L, T>(a: seq<Piece<L, T>>, b: seq<Piece<L, T>>)
    ensures Contents(a + b) == Contents(a) + Contents(b)
  {
    if a == [] {
      assert a + b == b;
    } else {
      calc {
        Contents(a + b);
      == { assert (a + b)[0] == a[0] && (a + b)[1..] == a[1..] + b; }
        ContentIn(a[0]) + Contents(a[1..] + b);
      == { ContentsAppend(a[1..], b); }
        ContentIn(a[0]) + (Contents(a[1..]) + Contents(b));
      }
    }
  }

  lemma SplitAppend<L, T>(a: seq<Piece<L, T>>, b: seq<Piece<L, T>>)
    ensures Separators(a + b) == Separators(a) + Separators(b)
    ensures Contents(a + b) == Contents(a) + Contents(b)
  {
    SeparatorsAppend(a, b);
    ContentsAppend(a, b);
  }

  /** A cell splits into the entry's content and the separator of the boundary
      after it (when drawn), whatever the orientation. */
  lemma CellSplit<L, T>(data: seq<Entry<L, T>>, index: nat, inverted: bool, supplied: SuppliedSeparators)
    requires index < |data|
    ensures Contents(RenderItem(data, index, inverted, supplied)) == [ContentOf(data[index])]
    ensures Separators(RenderItem(data, index, inverted, supplied)) ==
      if SeparatorDrawn(data, index, supplied) then [ExpectedSeparator(data, index)] else []
  {
    var cell := RenderItem(data, index, inverted, supplied);
    if |cell| == 2 {
      assert cell == [cell[0]] + [cell[1]];
      SplitAppend([cell[0]], [cell[1]]);
    }
  }

  /** Over the whole list, each entry's content appears exactly once and in
      flat order, whatever the orientation. */
  lemma {:induction false} RenderedContents<L, T>(data: seq<Entry<L, T>>, n: nat, inverted: bool, supplied: SuppliedSeparators)
    requires n <= |data|
    ensures |Contents(RenderPrefix(data, n, inverted, supplied))| == n
    ensures forall i :: 0 <= i < n ==> Contents(RenderPrefix(data, n, inverted, supplied))[i] == ContentOf(data[i])
  {
    if n > 0 {
      RenderedContents(data, n - 1, inverted, supplied);
      var done := Contents(RenderPrefix(data, n - 1, inverted, supplied));
      var all := Contents(RenderPrefix(data, n, inverted, supplied));
      assert all == done + [ContentOf(data[n - 1])] by {
        ContentsStep(data, n, inverted, supplied);
      }
      forall i | 0 <= i < n
        ensures all[i] == ContentOf(data[i])
      {
        if i < n - 1 {
          assert all[i] == done[i];
        }
      }
    }
  }

  /** Rendering one more entry adds its content. */
  lemma ContentsStep<L, T>(data: seq<Entry<L, T>>, n: nat, inverted: bool, supplied: SuppliedSeparators)
    requires 0 < n <= |data|
    ensures Contents(RenderPrefix(data, n, inverted, supplied)) ==
      Contents(RenderPrefix(data, n - 1, inverted, supplied)) + [ContentOf(data[n - 1])]
  {
    var before, cell := RenderPrefix(data, n - 1, inverted, supplied), RenderItem(data, n - 1, inverted, supplied);
    assert RenderPrefix(data, n, inverted, supplied) == before + cell;
    ContentsAppend(before, cell);
    assert Contents(cell) == [ContentOf(data[n - 1])] by {
      CellSplit(data, n - 1, inverted, supplied);
    }
  }

  /** The number of boundaries among the first `n` entries that have a next entry. */
  function Boundaries(n: nat, length: nat): nat {
    if n < length then n else if length == 0 then 0 else length - 1
  }

  /** The reference list of separators: one for each of the first `m`
      boundaries, in flat order, of the kind the entry before it asks for. */
  function BoundarySeparators<L, T>(data: seq<Entry<L, T>>, m: nat): seq<SeparatorProps<L, T>>
    requires m < |data| || m == 0
  {
    if m == 0 then [] else BoundarySeparators(data, m - 1) + [ExpectedSeparator(data, m - 1)]
  }

  lemma {:induction false} BoundarySeparatorsAt<L, T>(data: seq<Entry<L, T>>, m: nat)
    requires m < |data| || m == 0
    ensures |BoundarySeparators(data, m)| == m
    ensures forall i :: 0 <= i < m ==> i + 1 < |data| && BoundarySeparators(data, m)[i] == ExpectedSeparator(data, i)
  {
    if m > 0 {
      BoundarySeparatorsAt(data, m - 1);
    }
  }

  /** With both separator components supplied, the separators over the whole
      list are exactly the reference list: every boundary between two
      consecutive entries gets one separator, of the kind the entry before it
      asks for, in flat order, and none follows the last entry, in both
      orientations. */
  lemma {:induction false} RenderedSeparators<L, T>(data: seq<Entry<L, T>>, n: nat, inverted: bool, supplied: SuppliedSeparators)
    requires n <= |data|
    requires supplied.sectionSeparator && supplied.itemSeparator
    ensures Separators(RenderPrefix(data, n, inverted, supplied)) == BoundarySeparators(data, Boundaries(n, |data|))
  {
    var all := Separators(RenderPrefix(data, n, inverted, supplied));
    assert all == BoundarySeparators(data, Boundaries(n, |data|)) by {
      if n > 0 {
        RenderedSeparators(data, n - 1, inverted, supplied);
        SeparatorsStep(data, n, inverted, supplied);
        var m := Boundaries(n - 1, |data|);
        assert m == n - 1;
        if n < |data| {
          assert Boundaries(n, |data|) == m + 1;
        } else {
          assert Boundaries(n, |data|) == m;
        }
      }
    }
  }

  /** Rendering one more entry adds the separator of its boundary, if any. */
  lemma SeparatorsStep<L, T>(data: seq<Entry<L, T>>, n: nat, inverted: bool, supplied: SuppliedSeparators)
    requires 0 < n <= |data|
    requires supplied.sectionSeparator && supplied.itemSeparator
    ensures Separators(RenderPrefix(data, n, inverted, supplied)) ==
      Separators(RenderPrefix(data, n - 1, inverted, supplied)) +
      (if n < |data| then [ExpectedSeparator(data, n - 1)] else [])
  {
    var before, cell := RenderPrefix(data, n - 1, inverted, supplied), RenderItem(data, n - 1, inverted, supplied);
    assert RenderPrefix(data, n, inverted, supplied) == before + cell;
    SeparatorsAppend(before, cell);
    assert Separators(cell) == (if n < |data| then [ExpectedSeparator(data, n - 1)] else []) by {
      CellSplit(data, n - 1, inverted, supplied);
    }
  }

  /** The four-entry list `[Header(A), Row(a1), Row(a2), Header(B)]`: the
      boundary after `Header(A)` takes the section separator, after it in a
      normal list and before its content in an inverted one; the boundary
      after `Row(a1)` takes the item separator; the last entry gets none. */
  lemma FourEntryExample<L, T>(a: Section<L, T>, b: Section<L, T>, a1: T, a2: T)
    ensures var data := [Header(a), Row(a1), Row(a2), Header(b)];
      var both := SuppliedSeparators(true, true);
      RenderItem(data, 0, false, both) ==
        [HeaderView(a), Sep(SeparatorProps(SectionSeparator, 0, Header(a), Row(a1)))] &&
      RenderItem(data, 0, true, both) ==
        [Sep(SeparatorProps(SectionSeparator, 0, Header(a), Row(a1))), HeaderView(a)] &&
      RenderItem(data, 1, false, both) ==
        [RowView(a1), Sep(SeparatorProps(ItemSeparator, 1, Row(a1), Row(a2)))] &&
      RenderItem(data, 3, false, both) == [HeaderView(b)] &&
      RenderItem(data, 3, true, both) == [HeaderView(b)]
  {
  }
}
