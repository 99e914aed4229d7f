/** get_whitelist: the expected names for one category, read from the
    spreadsheet. Every failure, including a category name that selects no
    column, ends in the empty list rather than an exception. */
module Whitelist {
  import opened Types

  /** The spreadsheet column a category name selects: 1 for "Events",
      2 for "Screens", none for any other string. */
  function SheetColumn(sheetElement: string): (col: Option<nat>)
    ensures col == Some(1) <==> sheetElement == "Events"
    ensures col == Some(2) <==> sheetElement == "Screens"
    ensures col.Some? ==> col.value in {1, 2}
  {
    if sheetElement == "Events" then Some(1)
    else if sheetElement == "Screens" then Some(2)
    else None
  }

  /** The whitelist for a category. An unreachable sheet is caught and
      becomes the empty list; so does an unknown category, for which the
      source reads a variable it never assigned and the resulting error is
      caught by the same handler. */
  function GetWhitelist(sheetElement: string, sheet: Sheet): (names: seq<string>)
    ensures sheet.Unreachable? ==> names == []
    ensures sheetElement != "Events" && sheetElement != "Screens" ==> names == []
    ensures sheet.Opened? && sheetElement == "Events" ==> names == sheet.col1
    ensures sheet.Opened? && sheetElement == "Screens" ==> names == sheet.col2
  {
    match sheet
    case Unreachable => []
    case Opened(col1, col2) =>
      match SheetColumn(sheetElement)
      case Some(1) => col1
      case Some(2) => col2
      case _ => []
  }

  /** A non-empty whitelist only ever comes from an opened sheet and a
      known category, and is then one of its two columns. */
  lemma NonEmptyWhitelistSource(sheetElement: string, sheet: Sheet)
    requires GetWhitelist(sheetElement, sheet) != []
    ensures sheet.Opened?
    ensures SheetColumn(sheetElement).Some?
    ensures GetWhitelist(sheetElement, sheet) ==
              if SheetColumn(sheetElement) == Some(1) then sheet.col1 else sheet.col2
  {
  }
}
