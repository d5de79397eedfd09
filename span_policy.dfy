/** `overrideItemLayout`: the caller's hook runs first, then the span is forced
    so that a header fills every column and a row takes one. */
module SpanPolicy {
  import opened Wrappers
  import opened Entries
  import opened SectionIndex

  /** The layout fields the engine lets an entry override. */
  datatype LayoutFields = LayoutFields(span: Option<int>, size: Option<int>)

  /** The caller's own `overrideItemLayout`, seen as what it leaves in the
      layout given the layout, the entry, its flat index and the column count. */
  type LayoutHook<!L, !T> = (LayoutFields, Entry<L, T>, int, int) -> LayoutFields

  /** The layout object the engine passes in and reads back. */
  class ItemLayout {
    var span: Option<int>
    var size: Option<int>

    constructor (span: Option<int>, size: Option<int>)
      ensures this.span == span && this.size == size
    {
      this.span := span;
      this.size := size;
    }

    function Fields(): LayoutFields
      reads this
    {
      LayoutFields(span, size)
    }
  }

  /** The layout left after the wrapper: the caller's hook decides every field
      but the span, and the span is the column count for a header and 1 for a
      row, whatever the hook set. */
  function LayoutAfter<L, T>(
    layout: LayoutFields, item: Entry<L, T>, index: int, maxColumns: int, userHook: Option<LayoutHook<L, T>>)
    : (r: LayoutFields)
    ensures r.span == Some(if item.Header? then maxColumns else 1)
    ensures userHook.None? ==> r.size == layout.size
    ensures userHook.Some? ==> r.size == userHook.value(layout, item, index, maxColumns).size
  {
    var hooked := match userHook
      case Some(hook) => hook(layout, item, index, maxColumns)
      case None => layout;
    hooked.(span := Some(if item.Header? then maxColumns else 1))
  }

  /** The wrapper as it runs: the caller's hook updates the layout in place,
      then the span is overwritten. */
  method OverrideItemLayout<L, T>(
    layout: ItemLayout, item: Entry<L, T>, index: int, maxColumns: int, userHook: Option<LayoutHook<L, T>>)
    modifies layout
    ensures layout.Fields() == LayoutAfter(old(layout.Fields()), item, index, maxColumns, userHook)
  {
    if userHook.Some? {
      var hooked := userHook.value(layout.Fields(), item, index, maxColumns);
      layout.span, layout.size := hooked.span, hooked.size;
    }
    layout.span := Some(if item.Header? then maxColumns else 1);
  }

  /** Over any flat data, an entry spans all columns exactly when its index is
      a header position (the `actualIndex` column of the label table) and one column
      otherwise, whatever the caller's hook does. */
  lemma SpanFollowsHeaderPositions<L, T>(
    data: seq<Entry<L, T>>, index: nat, layout: LayoutFields, maxColumns: int, userHook: Option<LayoutHook<L, T>>)
    requires index < |data|
    ensures LayoutAfter(layout, data[index], index, maxColumns, userHook).span ==
      Some(if index in ActualIndices(IndexTable(data)) then maxColumns else 1)
  {
    HeaderPositionsExact(data, index);
  }
}
