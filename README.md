# FlashSectionList translation layer, in Dafny

`FlashSectionList` (react-native-flash-section-list) shows a sectioned list
(for example, contacts grouped by letter) on top of FlashList. FlashList only
renders one flat sequence of items. This project models the layer between the
two:

- the flattening of `sections` into tagged entries (`sectionHeader` / `row`);
- the scan that builds the sidebar table `sectionLabels` (label and
  `actualIndex` of every header) and `stickyHeaderIndices`;
- `scrollToSection`, which turns a section index into one `scrollToIndex`
  request;
- `renderSeparator` and where `renderItem` places its result;
- the span forced by `overrideItemLayout`;
- `onViewableItemsChanged`, which reports the first visible section to
  `onSectionIndexPress`;
- `getItemType`.

Modules, leaf first:

- `Wrappers`: `Option`, used for the source's optional values.
- `Entries`: `Section(indexLabel, rows)`, `Entry = Header(section) | Row(item)`, and `ItemType`.
- `Flattener`: `Flatten`, the header position `HeaderPos`, and `Regroup`. `Regroup` is the inverse of `Flatten` and serves as the reference for what flattening keeps.
- `SectionIndex`: the `forEach` scan as the method `BuildIndex`. It is specified by the prefix-defined `IndexTable`.
- `ScrollController`, `SeparatorDispatch`, `SpanPolicy`, `Viewability`: the four consumers of the flat data.
- `Component`: the class `FlashSectionList`. Its constructor is one render. It keeps the derived structures and records the effects it issues: scroll requests and sidebar reports.

Inputs and outputs are explicit:

- The engine's scroll primitive is modelled as the `scrollRequests` log.
- The sidebar callback is modelled as the `reportedSections` log.
- Whether the engine is mounted (`innerRef.current?.`) is the flag `engineMounted`.
- Whether the caller supplied the callback (`onSectionIndexPress?.`) is the flag `hasIndexPressCallback`.
- The caller's own `overrideItemLayout` is a function parameter. It maps the layout it is given to the layout it leaves.
- The viewability feed is a sequence of tokens, each with an optional flat index and an optional entry.

A row's span is forced to 1 (index.tsx:169), even when the caller's hook set
another value.

The component computes `stickyHeaderIndices` (index.tsx:80, 90-92) but never
hands it to FlashList. The `<FlashList>` element (index.tsx:193-204) gets
`{...props}` and a fixed set of overrides. `stickyHeaderIndices` is not one of
them. So which headers stick is decided by whatever `stickyHeaderIndices` the
caller passes, and not by the computed list. The model proves what the
computed list holds (`BuildIndex`, `StickyHeadersOfFlatten`). It does not
claim that FlashList uses it.

## Model

| member | source | states |
|---|---|---|
| `Entries.ItemType` | index.tsx:199 | headers get cell type "sectionHeader" and rows "row"; the two types never coincide |
| `Flattener.Flatten` | index.tsx:74-77 | the flat data holds one entry per section plus one per row; zero sections give an empty sequence |
| `Flattener.FlattenAt` | index.tsx:74-77 | section i appears as its header at `HeaderPos(i)`, followed by exactly its rows in their original order |
| `Flattener.HeaderPosStep` | index.tsx:74-77 | header positions start at 0; each next header follows the previous header and all its rows; the last block ends at the data length, so the blocks tile the data |
| `Flattener.RegroupFlatten` | index.tsx:74-77 | regrouping the flat data gives back the input sections: nothing is dropped, reordered, merged or duplicated |
| `SectionIndex.BuildIndex` | index.tsx:80-94 | the loop builds exactly the label table of the data; the computed sticky list (never forwarded to FlashList) is that table's `actualIndex` column unless the flag is explicitly false, and empty when it is |
| `SectionIndex.IndexTableSound` | index.tsx:82-89 | every label entry points inside the data at a header with that label; `actualIndex` is strictly increasing |
| `SectionIndex.IndexTableComplete` | index.tsx:82-89 | every header of the data has a label entry at its position |
| `SectionIndex.HeaderPositionsExact` | index.tsx:82-92 | a flat index is in the `actualIndex` column exactly when the data holds a header there (both directions) |
| `SectionIndex.IndexTableOfFlatten` | index.tsx:74-89 | over flattened sections the table has one entry per section, in section order: entry i is section i's label at its header position, including for empty sections |
| `SectionIndex.StickyHeadersOfFlatten` | index.tsx:90-92 | with sticky headers on, the computed sticky list is every section's header position in order, each pointing at that section's header; with the flag false it is empty |
| `ScrollController.ScrollTarget` | index.tsx:99-106 | a request is issued exactly for an index inside the table; it targets that entry's `actualIndex`; `animated` is true unless passed as false |
| `ScrollController.ScrollLandsOnHeader` | index.tsx:99-106 | over the table of flattened sections, scrolling to section i targets the flat index of section i's header; any index outside 0..N-1 targets nothing |
| `SeparatorDispatch.RenderSeparator` | index.tsx:111-128 | a separator is drawn exactly when a next entry exists and the selected component is supplied; it is the section kind exactly when `isSection`; its leading and trailing items are the two adjacent entries |
| `SeparatorDispatch.RenderItem` | index.tsx:131-159 | a cell holds the entry's content and at most one separator; headers use the section separator and rows the item separator; the separator comes before the content when inverted and after it otherwise; without a drawn separator the cell is the content alone |
| `SeparatorDispatch.RenderedContents` | index.tsx:131-159 | over the whole list, each entry's content appears exactly once, in flat order, in either orientation |
| `SeparatorDispatch.RenderedSeparators` | index.tsx:111-159 | with both components supplied, the separators over the whole list, in either orientation, are exactly the reference list `BoundarySeparators` of the list's boundaries; none follows the last entry |
| `SeparatorDispatch.BoundarySeparatorsAt` | index.tsx:115-120 | the reference list has one separator per adjacent pair, in flat order; the separator for the boundary after entry i is of the kind entry i asks for and has entries i and i+1 as leading and trailing items |
| `SeparatorDispatch.FourEntryExample` | index.tsx:131-159 | for `[Header(A), Row(a1), Row(a2), Header(B)]`: section separator after `Header(A)` (before it when inverted), item separator after `Row(a1)`, none after `Header(B)` |
| `SpanPolicy.LayoutAfter` | index.tsx:162-170 | after the wrapper, span is `maxColumns` for a header and 1 for a row, whatever the caller's hook set; every other field is what the hook left, or unchanged without a hook |
| `SpanPolicy.OverrideItemLayout` | index.tsx:162-170 | the in-place update leaves the layout object equal to `LayoutAfter` of its old fields |
| `SpanPolicy.SpanFollowsHeaderPositions` | index.tsx:169 | an entry spans all columns exactly when its index is a header position (the `actualIndex` column of the label table), and one column otherwise, for any column count and any hook |
| `Viewability.FindHeaderToken` | index.tsx:178-180 | returns the position of the first header among the viewable items, or none when no item is a header |
| `Viewability.FindLabel` | index.tsx:182-184 | returns the first table entry whose `actualIndex` equals the reported index, or none when there is no such entry or no index was reported |
| `Viewability.VisibleSection` | index.tsx:177-188 | fires only with the entry matching the first header token's index; does not fire without a header token or without a matching entry |
| `Viewability.VisibleSectionOfFlatten` | index.tsx:177-188 | over flattened sections, with tokens that report the entry at their index, the mapper fires whenever a header is visible, with the section whose header is the first visible one |
| `Viewability.VisibleSectionExample` | index.tsx:177-188 | visible {5 row, 6 header, 7 row} with entry 2 at 6 reports 2; a window of rows reports nothing |
| `Component.FlashSectionList.constructor` | index.tsx:74-94 | a render holds the flattened sections, their label table and the computed sticky list; its effect logs start empty |
| `Component.FlashSectionList.ScrollToSection` | index.tsx:99-106 | appends exactly one request when the index is in range and the engine is mounted, and nothing otherwise |
| `Component.FlashSectionList.OnViewableItemsChanged` | index.tsx:177-188 | appends at most one section index per notification: the resolved section, when there is one and a callback was supplied |

## Left out

- React and JSX rendering are not modelled: the `View` wrappers, the `flexDirection` choices (index.tsx:136, 148-152) and what `renderSectionHeader` / `renderItem` draw (index.tsx:137-139, 154). A cell's content is modelled as the entry it shows.
- The FlashList engine is not modelled: windowing, recycling, measurement, scroll physics and the computation of viewability. Its scroll primitive and its viewability feed appear only as inputs and outputs.
- The visibility threshold `viewabilityConfig` (index.tsx:173) is not modelled; it belongs to the engine's visibility computation.
- `forwardRef`, `useImperativeHandle`, `useRef` and `useCallback` are not modelled, and neither is the way the handle copies `innerRef.current` (index.tsx:64-71, 97-98, 174-191). These are framework plumbing. A stale handle used after a later render is not modelled.
- `String(section[sectionIndexLabelsKey])` (index.tsx:85-87) is not modelled. The label is an opaque value `indexLabel` of the section, with no JavaScript string coercion.
- `renderSectionFooter` is declared but never used, so it is not modelled.
- `keyExtractor` is not modelled. The component's own logic never calls it; it reaches FlashList unchanged through `{...props}` (index.tsx:195). The same spread forwards the caller's other props.
- The caller's own `onViewableItemsChanged` and `viewabilityConfig` are replaced at index.tsx:202-203 and never called. The model has no input for them.
- Style and theme options (`dark`, `barContainerStyle`, `barStyle`, `textStyle`) are opaque and are not modelled.
- `ScrollController.ScrollTarget`: JavaScript numbers are modelled as integers. A fractional or NaN `sectionIndex` finds no label in the source and does nothing. The model has no such inputs.
- `SeparatorDispatch.RenderItem`: `props.inverted` is a plain boolean. An absent prop behaves like false, as the source's truthiness test does.
- Flattening twice with the same sections gives equal results because every model member is a function; there is no separate lemma for it.
