/** extract_links.py: the earlier form of the videos-workbook reader, which
  * collects only the full-game links. Its sheets, cells, markers and cell
  * reading are those of `VideoSheets`; its one table is shown to be the
  * newer script's full-game table. */
module FullGameSheets {
  import opened Wrappers
  import opened Strings
  import opened VideoSheets

  /** The body of the loop over the cells: a non-empty cell holding both
    * markers whose text yields a link stores it at the cell's round. */
  method ScanCell(links: Links, name: string, sheet: map<string, string>, cell: string) returns (r: Links)
    requires |cell| >= 1
    ensures r == StoreCell(links, name, cell, LinkReader(sheet, FullGameMarkers))
  {
    r := links;
    if cell in sheet {
      QualifiesTwo(sheet[cell], FullGameText, HyperlinkText);
    }
    if cell in sheet && sheet[cell] != "" && Contains(sheet[cell], FullGameText) && Contains(sheet[cell], HyperlinkText) {
      var link := ExtractLink(sheet[cell]);
      if link.Ok? {
        r := Stored(r, name, Round(cell), link.value);
      }
    }
  }

  /** The loop over the cells of one sheet. */
  method ScanCells(links: Links, name: string, sheet: map<string, string>, cells: seq<string>) returns (r: Links)
    requires CellsNamed(cells)
    ensures r == StoreCells(links, name, cells, LinkReader(sheet, FullGameMarkers))
  {
    r := links;
    for j := 0 to |cells|
      invariant r == StoreCells(links, name, cells[..j], LinkReader(sheet, FullGameMarkers))
    {
      assert cells[..j + 1][..j] == cells[..j];
      r := ScanCell(r, name, sheet, cells[j]);
    }
    assert cells[..|cells|] == cells;
  }

  /** `extract` on a loaded workbook: the table it writes out is the
    * full-game table of the newer script. */
  method Extract(workbook: map<string, map<string, string>>) returns (links: Links)
    ensures links == Extracted(workbook).0
  {
    var names := PotentialSheets();
    var cells := Cells();
    CellsNamedCells();
    links := map[];
    for i := 0 to |names|
      invariant links == StoreSheets(map[], workbook, names[..i], FullGameMarkers)
    {
      assert names[..i + 1][..i] == names[..i];
      if names[i] in workbook {
        links := ScanCells(links, names[i], workbook[names[i]], cells);
      }
    }
    assert names[..|names|] == names;
  }

  /** What the table holds: only listed sheets of the workbook, each present
    * iff one of its cells gives a full-game link, with the round of every
    * such cell. */
  lemma FullGameTables(workbook: map<string, map<string, string>>, name: string)
    ensures name in Extracted(workbook).0 ==> name in PotentialSheets() && name in workbook
    ensures CellsNamed(Cells())
    ensures name in PotentialSheets() && name in workbook ==>
      (name in Extracted(workbook).0 <==> AnyLink(Cells(), LinkReader(workbook[name], FullGameMarkers)))
    ensures name in PotentialSheets() && name in workbook ==>
      SheetTable(Extracted(workbook).0, name) == RoundLinks(map[], Cells(), LinkReader(workbook[name], FullGameMarkers))
  {
    CellsNamedCells();
    StoreSheetsKeys(workbook, PotentialSheets(), FullGameMarkers);
    if name in PotentialSheets() && name in workbook {
      PotentialSheetsSpec();
      StoreSheetsTable(workbook, PotentialSheets(), FullGameMarkers, name);
    }
  }
}
