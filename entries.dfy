/** The data model of the sectioned list: the caller's sections and the tagged
    entries of the flat sequence handed to the list engine. */
module Entries {

  /** A section as the caller supplies it: the label (read through the caller's label key) for the index
      sidebar and its rows, in order. */
  datatype Section<L, T> = Section(indexLabel: L, rows: seq<T>)

  /** One entry of the flat sequence: the header of a section, or one row. */
  datatype Entry<L, T> = Header(section: Section<L, T>) | Row(item: T)

  /** The cell type the engine uses for recycling (`getItemType`): headers and
      rows never share a cell type, and every entry has one of the two. */
  function ItemType<L, T>(e: Entry<L, T>): (r: string)
    ensures r == "sectionHeader" <==> e.Header?
    ensures r == "row" <==> e.Row?
  {
    match e
    case Header(_) => "sectionHeader"
    case Row(_) => "row"
  }
}
