/** scripts/videos/extract_links.py: the league links of the videos
  * workbook, one sheet per season, read into two tables (full games and
  * highlights) by sheet name and round number. A workbook is a map from
  * sheet name to sheet, a sheet a map from cell name to the text of its
  * value; a cell it lacks is empty. */
module VideoSheets {
  import opened Wrappers
  import opened Strings
  import VideoLinks

  const FullGameText: string := "משחק מלא"
  const HighlightsText: string := "תקציר"
  const HyperlinkText: string := "HYPERLINK"
  const FullGameMarkers: seq<string> := [FullGameText, HyperlinkText]
  const HighlightsMarkers: seq<string> := [HighlightsText, HyperlinkText]
  const OtherSheet: string := "שונות"
  const Columns: string := "EFG"
  /** Rows 3 to 49: the first two rows are headers. */
  const RowsPerColumn: nat := 47

  // ----- Sheets and cells -----

  /** The sheet of the season starting in 2018 - n: "{2018-n}{last two digits of 2019-n}". */
  function SeasonSheet(n: nat): string
    requires n <= 2018
  {
    NatToString(2018 - n) + LastTwo(NatToString(2019 - n))
  }

  /** `potential_sheets`: fifty seasons, newest first, then the sheet of
    * everything else. */
  function PotentialSheets(): (r: seq<string>)
    ensures |r| == 51
  {
    seq(50, n requires 0 <= n < 50 => SeasonSheet(n)) + [OtherSheet]
  }

  /** The year 2018 - n is written with four digits. */
  lemma YearDigits(n: nat)
    requires n < 50
    ensures |NatToString(2018 - n)| == 4 && |NatToString(2019 - n)| == 4
  {
    assert Pow10(3) == 1000 && Pow10(4) == 10000;
    NatToStringLength(2018 - n, 4);
    NatToStringLength(2019 - n, 4);
  }

  /** A season's sheet is six digits, the first four its first year; the
    * uploader reads its name as the season "YYYY/yy". */
  lemma SeasonSheetSpec(n: nat)
    requires n < 50
    ensures |SeasonSheet(n)| == 6 && AllDigits(SeasonSheet(n))
    ensures ParseInt(SeasonSheet(n)[..4]) == Some(2018 - n)
    ensures VideoLinks.SeasonText(SeasonSheet(n)) == NatToString(2018 - n) + "/" + LastTwo(NatToString(2019 - n))
  {
    YearDigits(n);
    var y := NatToString(2018 - n);
    var t := LastTwo(NatToString(2019 - n));
    assert SeasonSheet(n)[..4] == y;
    ParseIntOfString(2018 - n);
    assert forall k :: 0 <= k < 6 ==> IsDigit(SeasonSheet(n)[k]) by {
      forall k | 0 <= k < 6 ensures IsDigit(SeasonSheet(n)[k]) {
        if k < 4 { assert SeasonSheet(n)[k] == y[k]; } else { assert SeasonSheet(n)[k] == t[k - 4]; }
      }
    }
    VideoLinks.SeasonOfYears(y, t);
  }

  /** Two seasons' sheets differ, and differ from the sheet of the rest. */
  lemma SheetsDiffer(i: nat, j: nat)
    requires i < j < 51
    ensures PotentialSheets()[i] != PotentialSheets()[j]
  {
    var r := PotentialSheets();
    SeasonSheetSpec(i);
    assert r[i] == SeasonSheet(i);
    if j < 50 {
      SeasonSheetSpec(j);
      assert r[j] == SeasonSheet(j);
      assert r[i][..4] != r[j][..4];
    } else {
      assert IsDigit(r[i][0]) && !IsDigit(r[j][0]);
    }
  }

  lemma FirstSheet()
    ensures SeasonSheet(0) == "201819"
  {
    assert NatToString(2) == "2";
    assert NatToString(20) == "20";
    assert NatToString(201) == "201";
    assert NatToString(2018) == "2018";
    assert NatToString(2019) == "2019";
  }

  /** The sheets are the ones listed: "201819" first, "שונות" last, and no
    * name twice. */
  lemma PotentialSheetsSpec()
    ensures PotentialSheets()[0] == "201819" && PotentialSheets()[50] == OtherSheet
    ensures forall i, j :: 0 <= i < j < 51 ==> PotentialSheets()[i] != PotentialSheets()[j]
  {
    var r := PotentialSheets();
    FirstSheet();
    forall i, j | 0 <= i < j < 51 ensures r[i] != r[j] {
      SheetsDiffer(i, j);
    }
  }

  /** The cell of column `Columns[i / 47]` and row `3 + i % 47`. */
  function CellName(i: nat): string
    requires i < 3 * RowsPerColumn
  {
    [Columns[i / RowsPerColumn]] + NatToString(3 + i % RowsPerColumn)
  }

  /** `cells_that_may_contain_full_games_links`: E3..E49, then F3..F49,
    * then G3..G49. */
  function Cells(): (r: seq<string>)
    ensures |r| == 3 * RowsPerColumn
  {
    seq(3 * RowsPerColumn, i requires 0 <= i < 3 * RowsPerColumn => CellName(i))
  }

  /** `int(cell[1:]) - 2`: the round of a cell's row, or -3 when what
    * follows the column is not a number. */
  function Round(cell: string): int
    requires |cell| >= 1
  {
    ParseInt(cell[1..]).GetOr(-1) - 2
  }

  /** The i-th cell reads back as its column and row. */
  lemma CellNameSpec(i: nat)
    requires i < 3 * RowsPerColumn
    ensures |CellName(i)| >= 1 && CellName(i)[0] == Columns[i / RowsPerColumn]
    ensures Round(CellName(i)) == 1 + i % RowsPerColumn
  {
    var c := CellName(i);
    assert c[1..] == NatToString(3 + i % RowsPerColumn);
    ParseIntOfString(3 + i % RowsPerColumn);
  }

  /** Two positions give two different cells. */
  lemma CellNamesDiffer(i: nat, j: nat)
    requires i < j < 3 * RowsPerColumn
    ensures CellName(i) != CellName(j)
  {
    CellNameSpec(i);
    CellNameSpec(j);
    if i / RowsPerColumn != j / RowsPerColumn {
      assert Columns[i / RowsPerColumn] != Columns[j / RowsPerColumn];
    } else {
      assert i % RowsPerColumn != j % RowsPerColumn;
    }
  }

  /** The i-th cell holds round 1 + i % 47: the three columns each cover
    * rounds 1 to 47, and no cell is listed twice. */
  lemma CellsSpec()
    ensures Cells()[0] == "E3" && Cells()[3 * RowsPerColumn - 1] == "G49"
    ensures forall i :: 0 <= i < |Cells()| ==> |Cells()[i]| >= 1 && Round(Cells()[i]) == 1 + i % RowsPerColumn
    ensures forall i, j :: 0 <= i < j < |Cells()| ==> Cells()[i] != Cells()[j]
  {
    CellsEnds();
    CellsRounds();
    CellsDistinct();
  }

  lemma CellsEnds()
    ensures Cells()[0] == "E3" && Cells()[3 * RowsPerColumn - 1] == "G49"
  {
    assert NatToString(3) == "3" && NatToString(49) == "49";
  }

  lemma CellsRounds()
    ensures forall i :: 0 <= i < |Cells()| ==> |Cells()[i]| >= 1 && Round(Cells()[i]) == 1 + i % RowsPerColumn
  {
    var r := Cells();
    forall i | 0 <= i < |r| ensures |r[i]| >= 1 && Round(r[i]) == 1 + i % RowsPerColumn {
      CellNameSpec(i);
    }
  }

  lemma CellsDistinct()
    ensures forall i, j :: 0 <= i < j < |Cells()| ==> Cells()[i] != Cells()[j]
  {
    var r := Cells();
    forall i, j | 0 <= i < j < |r| ensures r[i] != r[j] {
      CellNamesDiffer(i, j);
    }
  }

  /** Every listed cell has a column letter. */
  lemma CellsNamedCells()
    ensures CellsNamed(Cells())
  {
  }

  // ----- One cell -----

  /** Python's `eval` of the formula `("url","caption")` left once "=HYPERLINK"
    * is removed, indexed at 0: the text between the opening quote and the
    * next one when a comma follows it; any other text raises. */
  function FirstArgument(s: string): (r: Result<string>)
    ensures r.Ok? ==> '"' !in r.value
  {
    if !StartsWith(s, "(\"") then Fail(PlainException)
    else
      var q := FindFrom(s, "\"", 2);
      if q < 0 || q + 1 >= |s| || s[q + 1] != ',' then Fail(PlainException)
      else
        assert forall j :: 2 <= j < q ==> s[j] != '"' by {
          forall j | 2 <= j < q ensures s[j] != '"' {
            assert !OccursAt(s, "\"", j);
            assert s[j..j + 1] == [s[j]];
          }
        }
        Ok(s[2..q])
  }

  /** `extract_link_from_cell_text`: a text without "http" is a
    * RuntimeError; otherwise the formula's first argument. */
  function ExtractLink(text: string): (r: Result<string>)
    ensures !Contains(text, "http") ==> r == Fail(RuntimeError)
    ensures Contains(text, "http") ==> r == FirstArgument(Replace(text, "=HYPERLINK", ""))
  {
    if Contains(text, "http") then FirstArgument(Replace(text, "=HYPERLINK", ""))
    else Fail(RuntimeError)
  }

  /** The formula's arguments: `("url","caption")`. */
  function Arguments(url: string, caption: string): string
  {
    "(\"" + url + ("\",\"" + caption + "\")")
  }

  /** `=HYPERLINK("url","caption")`. */
  function Hyperlink(url: string, caption: string): string
  {
    "=HYPERLINK" + Arguments(url, caption)
  }

  /** Removing "=HYPERLINK" from the formula leaves its arguments. */
  lemma RemoveHyperlink(rest: string)
    requires '=' !in rest
    ensures Replace("=HYPERLINK" + rest, "=HYPERLINK", "") == rest
  {
    var text := "=HYPERLINK" + rest;
    AbsentByFirstChar(rest, "=HYPERLINK");
    assert text[..|"=HYPERLINK"|] == "=HYPERLINK";
    assert text[|"=HYPERLINK"|..] == rest;
    ReplaceAbsent(rest, "=HYPERLINK", "");
  }

  /** The first argument of `("url","caption")` is the url. */
  lemma FirstArgumentOf(url: string, caption: string)
    requires '"' !in url
    ensures FirstArgument(Arguments(url, caption)) == Ok(url)
  {
    var rest := Arguments(url, caption);
    var q := 2 + |url|;
    assert rest[q..q + 1] == "\"";
    assert OccursAt(rest, "\"", q);
    forall j | 2 <= j < q ensures !OccursAt(rest, "\"", j) {
      assert rest[j] == url[j - 2];
      assert rest[j..j + 1] == [rest[j]];
    }
    assert FindFrom(rest, "\"", 2) == q;
    assert rest[q + 1] == ',';
    assert rest[2..q] == url;
  }

  /** The link of a HYPERLINK formula is its url. */
  lemma ExtractLinkOfHyperlink(url: string, caption: string)
    requires Contains(url, "http") && '"' !in url && '=' !in url && '=' !in caption
    ensures ExtractLink(Hyperlink(url, caption)) == Ok(url)
  {
    var rest := Arguments(url, caption);
    ContainsWithin("=HYPERLINK" + "(\"", url, "\",\"" + caption + "\")", "http");
    assert Hyperlink(url, caption) == "=HYPERLINK" + "(\"" + url + ("\",\"" + caption + "\")");
    assert forall k :: 0 <= k < |rest| ==> rest[k] != '=';
    RemoveHyperlink(rest);
    FirstArgumentOf(url, caption);
  }

  /** A cell holds a link of a kind when its value is not empty and holds
    * every marker of that kind. */
  predicate Qualifies(value: string, markers: seq<string>)
  {
    value != "" && forall k :: 0 <= k < |markers| ==> Contains(value, markers[k])
  }

  /** A kind with two markers. */
  lemma QualifiesTwo(value: string, a: string, b: string)
    ensures Qualifies(value, [a, b]) <==> value != "" && Contains(value, a) && Contains(value, b)
  {
    if value != "" && Contains(value, a) && Contains(value, b) {
      assert forall k :: 0 <= k < 2 ==> Contains(value, [a, b][k]);
    }
    if Qualifies(value, [a, b]) {
      assert Contains(value, [a, b][0]) && Contains(value, [a, b][1]);
    }
  }

  /** The link a cell gives for a kind: None when the cell is empty, lacks a
    * marker, or its text does not yield a link (the exception is logged). */
  function CellLink(sheet: map<string, string>, cell: string, markers: seq<string>): Option<string>
  {
    if cell in sheet && Qualifies(sheet[cell], markers) then
      match ExtractLink(sheet[cell])
      case Ok(link) => Some(link)
      case Fail(_) => None
    else None
  }

  // ----- The tables -----

  type Links = map<string, map<int, string>>

  /** The link each cell of a sheet gives for a kind. */
  function LinkReader(sheet: map<string, string>, markers: seq<string>): string -> Option<string>
  {
    cell => CellLink(sheet, cell, markers)
  }

  /** `links[sheet][round] = link` on a `defaultdict(dict)`. */
  function Stored(links: Links, name: string, round: int, link: string): Links
  {
    links[name := SheetTable(links, name)[round := link]]
  }

  /** The table of one sheet, empty before its first link. */
  function SheetTable(links: Links, name: string): map<int, string>
  {
    if name in links then links[name] else map[]
  }

  /** One cell of the sheet `name` stored into the table of a kind. */
  function StoreCell(links: Links, name: string, cell: string, linkOf: string -> Option<string>): Links
    requires |cell| >= 1
  {
    match linkOf(cell)
    case Some(link) => Stored(links, name, Round(cell), link)
    case None => links
  }

  predicate CellsNamed(cells: seq<string>)
  {
    forall i :: 0 <= i < |cells| ==> |cells[i]| >= 1
  }

  /** The cells in order. */
  function StoreCells(links: Links, name: string, cells: seq<string>, linkOf: string -> Option<string>): Links
    requires CellsNamed(cells)
    decreases |cells|
  {
    if cells == [] then links
    else StoreCell(StoreCells(links, name, cells[..|cells| - 1], linkOf), name, cells[|cells| - 1], linkOf)
  }

  /** The rounds the cells give, in order, over the rounds of `table`. */
  function RoundLinks(table: map<int, string>, cells: seq<string>, linkOf: string -> Option<string>): map<int, string>
    requires CellsNamed(cells)
    decreases |cells|
  {
    if cells == [] then table
    else
      var before := RoundLinks(table, cells[..|cells| - 1], linkOf);
      var cell := cells[|cells| - 1];
      match linkOf(cell)
      case Some(link) => before[Round(cell) := link]
      case None => before
  }

  /** Some cell gives a link. */
  predicate AnyLink(cells: seq<string>, linkOf: string -> Option<string>)
  {
    exists i :: 0 <= i < |cells| && linkOf(cells[i]).Some?
  }

  /** Reading a sheet changes no other sheet's table. */
  lemma {:induction false} StoreCellsOthers(links: Links, name: string, cells: seq<string>, linkOf: string -> Option<string>)
    requires CellsNamed(cells)
    ensures StoreCells(links, name, cells, linkOf) - {name} == links - {name}
    decreases |cells|
  {
    if cells != [] {
      StoreCellsOthers(links, name, cells[..|cells| - 1], linkOf);
    }
  }

  /** The sheet has a table once it had one or some cell gave a link. */
  lemma {:induction false} StoreCellsHas(links: Links, name: string, cells: seq<string>, linkOf: string -> Option<string>)
    requires CellsNamed(cells)
    ensures name in StoreCells(links, name, cells, linkOf) <==> name in links || AnyLink(cells, linkOf)
    decreases |cells|
  {
    if cells != [] {
      var init := cells[..|cells| - 1];
      StoreCellsHas(links, name, init, linkOf);
      assert forall i :: 0 <= i < |init| ==> init[i] == cells[i];
      if AnyLink(cells, linkOf) && !AnyLink(init, linkOf) {
        var i :| 0 <= i < |cells| && linkOf(cells[i]).Some?;
        assert i == |cells| - 1;
      }
      if AnyLink(init, linkOf) {
        var i :| 0 <= i < |init| && linkOf(init[i]).Some?;
        assert linkOf(cells[i]).Some?;
      }
    }
  }

  /** The sheet's table holds the rounds its cells give. */
  lemma {:induction false} StoreCellsTable(links: Links, name: string, cells: seq<string>, linkOf: string -> Option<string>)
    requires CellsNamed(cells)
    ensures SheetTable(StoreCells(links, name, cells, linkOf), name) == RoundLinks(SheetTable(links, name), cells, linkOf)
    decreases |cells|
  {
    if cells != [] {
      StoreCellsTable(links, name, cells[..|cells| - 1], linkOf);
    }
  }

  /** Cell i gives a link for round k. */
  predicate GivesRound(cells: seq<string>, linkOf: string -> Option<string>, i: int, k: int)
    requires CellsNamed(cells)
  {
    0 <= i < |cells| && linkOf(cells[i]).Some? && Round(cells[i]) == k
  }

  /** A round is in the table iff it was before or some cell gives it. */
  lemma {:induction false} RoundLinksKeys(table: map<int, string>, cells: seq<string>, linkOf: string -> Option<string>, k: int)
    requires CellsNamed(cells)
    ensures k in RoundLinks(table, cells, linkOf) <==> k in table || exists i :: GivesRound(cells, linkOf, i, k)
    decreases |cells|
  {
    if cells != [] {
      var n := |cells| - 1;
      var init := cells[..n];
      RoundLinksKeys(table, init, linkOf, k);
      assert forall i :: 0 <= i < n ==> (GivesRound(init, linkOf, i, k) <==> GivesRound(cells, linkOf, i, k));
      if GivesRound(cells, linkOf, n, k) {
        assert k in RoundLinks(table, cells, linkOf);
      } else if exists i :: GivesRound(cells, linkOf, i, k) {
        var i :| GivesRound(cells, linkOf, i, k);
        assert GivesRound(init, linkOf, i, k);
      }
    }
  }

  /** The round holds the link of the last cell that gives it: a later
    * column overwrites an earlier one. */
  lemma {:induction false} RoundLinksLast(table: map<int, string>, cells: seq<string>, linkOf: string -> Option<string>, i: int, k: int)
    requires CellsNamed(cells)
    requires GivesRound(cells, linkOf, i, k)
    requires forall j :: i < j < |cells| ==> !GivesRound(cells, linkOf, j, k)
    ensures k in RoundLinks(table, cells, linkOf)
    ensures RoundLinks(table, cells, linkOf)[k] == linkOf(cells[i]).value
    decreases |cells|
  {
    var n := |cells| - 1;
    var init := cells[..n];
    if i < n {
      assert GivesRound(init, linkOf, i, k);
      forall j | i < j < |init| ensures !GivesRound(init, linkOf, j, k) {
        assert !GivesRound(cells, linkOf, j, k);
      }
      RoundLinksLast(table, init, linkOf, i, k);
      assert !GivesRound(cells, linkOf, n, k);
    }
  }

  /** `extract`'s loop over the sheets for one kind: the sheets the workbook
    * has, in order. */
  function StoreSheets(links: Links, workbook: map<string, map<string, string>>, names: seq<string>, markers: seq<string>): Links
    decreases |names|
  {
    if names == [] then links
    else
      var before := StoreSheets(links, workbook, names[..|names| - 1], markers);
      var name := names[|names| - 1];
      if name in workbook then
        CellsNamedCells();
        StoreCells(before, name, Cells(), LinkReader(workbook[name], markers))
      else before
  }

  /** Only listed sheets that the workbook has get a table. */
  lemma {:induction false} StoreSheetsKeys(workbook: map<string, map<string, string>>, names: seq<string>, markers: seq<string>)
    ensures forall s :: s in StoreSheets(map[], workbook, names, markers) ==> s in names && s in workbook
    decreases |names|
  {
    if names != [] {
      var init := names[..|names| - 1];
      StoreSheetsKeys(workbook, init, markers);
      var name := names[|names| - 1];
      var before := StoreSheets(map[], workbook, init, markers);
      assert forall s :: s in init ==> s in names;
      if name in workbook {
        CellsNamedCells();
        var after := StoreCells(before, name, Cells(), LinkReader(workbook[name], markers));
        StoreCellsOthers(before, name, Cells(), LinkReader(workbook[name], markers));
        forall s | s in after ensures s in names && s in workbook {
          if s != name {
            assert s in after - {name};
          }
        }
      }
    }
  }

  /** No sheet is listed twice. */
  predicate Distinct(names: seq<string>)
  {
    forall i, j :: 0 <= i < j < |names| ==> names[i] != names[j]
  }

  /** A listed sheet of the workbook has a table iff one of its cells gives
    * a link, and the table holds the rounds its cells give. */
  lemma {:induction false} StoreSheetsTable(workbook: map<string, map<string, string>>, names: seq<string>, markers: seq<string>, name: string)
    requires Distinct(names) && name in names && name in workbook
    ensures CellsNamed(Cells())
    ensures name in StoreSheets(map[], workbook, names, markers) <==> AnyLink(Cells(), LinkReader(workbook[name], markers))
    ensures SheetTable(StoreSheets(map[], workbook, names, markers), name) == RoundLinks(map[], Cells(), LinkReader(workbook[name], markers))
    decreases |names|
  {
    CellsNamedCells();
    var n := |names| - 1;
    var init := names[..n];
    var last := names[n];
    var before := StoreSheets(map[], workbook, init, markers);
    assert Distinct(init);
    if last == name {
      StoreSheetsKeys(workbook, init, markers);
      assert name !in init by {
        forall i | 0 <= i < n ensures init[i] != name {
          assert names[i] != names[n];
        }
      }
      assert name !in before;
      StoreCellsHas(before, name, Cells(), LinkReader(workbook[name], markers));
      StoreCellsTable(before, name, Cells(), LinkReader(workbook[name], markers));
    } else {
      assert name in init by {
        var i :| 0 <= i < |names| && names[i] == name;
        assert init[i] == name;
      }
      StoreSheetsTable(workbook, init, markers, name);
      if last in workbook {
        var after := StoreCells(before, last, Cells(), LinkReader(workbook[last], markers));
        StoreCellsOthers(before, last, Cells(), LinkReader(workbook[last], markers));
        assert name in after <==> name in after - {last};
        assert name in before <==> name in before - {last};
        if name in after {
          assert after[name] == (after - {last})[name];
          assert before[name] == (before - {last})[name];
        }
      }
    }
  }

  /** The two tables `extract` writes out. */
  function Extracted(workbook: map<string, map<string, string>>): (Links, Links)
  {
    (StoreSheets(map[], workbook, PotentialSheets(), FullGameMarkers),
     StoreSheets(map[], workbook, PotentialSheets(), HighlightsMarkers))
  }

  /** The body of the loop over the cells: a full-game link, then a
    * highlights link, each stored when the cell holds its markers and its
    * text yields a link. */
  method ScanCell(full: Links, highlights: Links, name: string, sheet: map<string, string>, cell: string)
    returns (full': Links, highlights': Links)
    requires |cell| >= 1
    ensures full' == StoreCell(full, name, cell, LinkReader(sheet, FullGameMarkers))
    ensures highlights' == StoreCell(highlights, name, cell, LinkReader(sheet, HighlightsMarkers))
  {
    full' := ScanMarker(full, name, sheet, cell, FullGameText);
    highlights' := ScanMarker(highlights, name, sheet, cell, HighlightsText);
  }

  /** One of the two checks of a cell: a non-empty cell holding `text` and
    * the hyperlink marker whose text yields a link stores it at the cell's
    * round. */
  method ScanMarker(links: Links, name: string, sheet: map<string, string>, cell: string, text: string)
    returns (r: Links)
    requires |cell| >= 1
    ensures r == StoreCell(links, name, cell, LinkReader(sheet, [text, HyperlinkText]))
  {
    r := links;
    if cell in sheet {
      QualifiesTwo(sheet[cell], text, HyperlinkText);
    }
    if cell in sheet && sheet[cell] != "" && Contains(sheet[cell], text) && Contains(sheet[cell], HyperlinkText) {
      var link := ExtractLink(sheet[cell]);
      if link.Ok? {
        r := Stored(r, name, Round(cell), link.value);
      }
    }
  }

  /** The loop over the cells of one sheet, both kinds at once. */
  method ScanCells(full: Links, highlights: Links, name: string, sheet: map<string, string>, cells: seq<string>)
    returns (full': Links, highlights': Links)
    requires CellsNamed(cells)
    ensures full' == StoreCells(full, name, cells, LinkReader(sheet, FullGameMarkers))
    ensures highlights' == StoreCells(highlights, name, cells, LinkReader(sheet, HighlightsMarkers))
  {
    full', highlights' := full, highlights;
    for j := 0 to |cells|
      invariant full' == StoreCells(full, name, cells[..j], LinkReader(sheet, FullGameMarkers))
      invariant highlights' == StoreCells(highlights, name, cells[..j], LinkReader(sheet, HighlightsMarkers))
    {
      assert cells[..j + 1][..j] == cells[..j];
      full', highlights' := ScanCell(full', highlights', name, sheet, cells[j]);
    }
    assert cells[..|cells|] == cells;
  }

  /** `extract` on a loaded workbook: the full-game and highlights tables. */
  method Extract(workbook: map<string, map<string, string>>) returns (full: Links, highlights: Links)
    ensures (full, highlights) == Extracted(workbook)
  {
    var names := PotentialSheets();
    var cells := Cells();
    CellsNamedCells();
    full, highlights := map[], map[];
    for i := 0 to |names|
      invariant full == StoreSheets(map[], workbook, names[..i], FullGameMarkers)
      invariant highlights == StoreSheets(map[], workbook, names[..i], HighlightsMarkers)
    {
      assert names[..i + 1][..i] == names[..i];
      if names[i] in workbook {
        full, highlights := ScanCells(full, highlights, names[i], workbook[names[i]], cells);
      }
    }
    assert names[..|names|] == names;
  }
}
