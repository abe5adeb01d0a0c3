/** update_euroleague_table_basketball.py: the Euroleague standings of the
  * livescore feed turned into the text of the wiki's table template, one
  * "^"-separated row per team, with the points computed from the record. */
module EuroleagueTable {
  import opened Wrappers
  import opened Strings
  import opened Collections

  /** The Hebrew names of the clubs, by the feed's name. */
  const HebrewNames: map<string, string> := map[
    "Maccabi Tel Aviv" := "מכבי תל אביב",
    "Zalgiris Kaunas" := "ז'לגיריס קובנה",
    "Crvena Zvezda Beograd" := "הכוכב האדום בלגרד",
    "Hapoel Tel Aviv" := "הפועל תל אביב",
    "Olympiacos B.C." := "אולימפיאקוס",
    "Monaco" := "מונקו",
    "Real Madrid" := "ריאל מדריד",
    "Valencia" := "ולנסיה",
    "Panathinaikos" := "פנאתינייקוס",
    "Barcelona" := "ברצלונה",
    "FC Bayern Munchen" := "באיירן מינכן",
    "Paris Basketball" := "פריז בסקטבול",
    "Olimpia Milano" := "ארמאני מילאנו",
    "Fenerbahçe" := "פנרבחצ'ה",
    "Virtus Bologna" := "וירטוס בולוניה",
    "BC Dubai" := "דובאי",
    "Anadolu Efes" := "אנאדולו אפס",
    "Saski Baskonia" := "בסקוניה",
    "Partizan" := "פרטיזן בלגרד",
    "ASVEL Lyon-Villeurbanne" := "ליון-וילרבן"]

  /** One team of the feed's table: "Tnm", and the texts of "pld", "winn",
    * "lstn", "gf" and "ga". */
  datatype FeedRow = FeedRow(team: string, played: string, wins: string, losses: string, scored: string, conceded: string)

  /** Two points a win, one a loss. */
  function Points(wins: int, losses: int): int
  {
    wins * 2 + losses * 1
  }

  /** One row of the template: the Hebrew name (or the feed's name when the
    * table has none), the played, won and lost games, the points scored and
    * conceded, and the computed points; wins or losses that `int()` cannot
    * read are a ValueError. */
  function TableRow(names: map<string, string>, row: FeedRow): (r: Result<string>)
    ensures r.Fail? <==> ParseInt(row.wins).None? || ParseInt(row.losses).None?
    ensures r.Fail? ==> r.error == ValueError
    ensures r.Ok? ==> r.value == Join(RowFields(names, row, Points(ParseInt(row.wins).value, ParseInt(row.losses).value)), "^")
  {
    var wins := ParseInt(row.wins);
    if wins.None? then Fail(ValueError)
    else
      var losses := ParseInt(row.losses);
      if losses.None? then Fail(ValueError)
      else Ok(Join(RowFields(names, row, Points(wins.value, losses.value)), "^"))
  }

  /** The seven fields of a row, given its points. */
  function RowFields(names: map<string, string>, row: FeedRow, points: int): (fs: seq<string>)
    ensures |fs| == 7 && fs[0] == Corrected(row.team, names) && fs[6] == IntToString(points)
  {
    [Corrected(row.team, names), row.played, row.wins, row.losses, row.scored, row.conceded, IntToString(points)]
  }

  lemma NoCaretInDigits(s: string)
    requires AllDigits(s)
    ensures '^' !in s
  {
    assert forall i :: 0 <= i < |s| ==> s[i] != '^';
  }

  /** A row with w wins and l losses is the join of its fields with the
    * points 2w + l. */
  lemma TableRowJoins(names: map<string, string>, row: FeedRow, w: nat, l: nat)
    requires row.wins == NatToString(w) && row.losses == NatToString(l)
    ensures TableRow(names, row) == Ok(Join(RowFields(names, row, 2 * w + l), "^"))
  {
    ParseIntOfString(w);
    ParseIntOfString(l);
    assert Points(w, l) == 2 * w + l;
  }

  /** The fields of a row split back out of their join. */
  lemma RowFieldsSplit(names: map<string, string>, row: FeedRow, points: int)
    requires '^' !in Corrected(row.team, names) && '^' !in row.played && '^' !in row.wins && '^' !in row.losses
    requires '^' !in row.scored && '^' !in row.conceded
    ensures Split(Join(RowFields(names, row, points), "^"), "^") == RowFields(names, row, points)
  {
    var fs := RowFields(names, row, points);
    var t := NatToString(if points < 0 then -points else points);
    NatToStringRoundTrip(if points < 0 then -points else points);
    NoCaretInDigits(t);
    assert fs[6] == t || fs[6] == "-" + t;
    NoCaretInFields(fs);
    SplitJoin(fs, '^');
  }

  /** A row with w wins and l losses splits back into its fields, the last
    * of which reads as 2w + l. */
  lemma TableRowSpec(names: map<string, string>, row: FeedRow, w: nat, l: nat)
    requires row.wins == NatToString(w) && row.losses == NatToString(l)
    requires '^' !in Corrected(row.team, names) && '^' !in row.played && '^' !in row.scored && '^' !in row.conceded
    ensures TableRow(names, row).Ok?
    ensures Split(TableRow(names, row).value, "^") == RowFields(names, row, 2 * w + l)
    ensures ParseInt(Split(TableRow(names, row).value, "^")[6]) == Some(2 * w + l)
  {
    TableRowJoins(names, row, w, l);
    NatToStringRoundTrip(w);
    NatToStringRoundTrip(l);
    NoCaretInDigits(row.wins);
    NoCaretInDigits(row.losses);
    RowFieldsSplit(names, row, 2 * w + l);
    ParseIntOfString(2 * w + l);
  }

  lemma NoCaretInFields(fs: seq<string>)
    requires |fs| == 7
    requires '^' !in fs[0] && '^' !in fs[1] && '^' !in fs[2] && '^' !in fs[3]
    requires '^' !in fs[4] && '^' !in fs[5] && '^' !in fs[6]
    ensures forall k :: 0 <= k < |fs| ==> '^' !in fs[k]
  {
  }

  /** A team the table knows is written in Hebrew, any other as the feed
    * names it. */
  lemma TeamNameSpec(names: map<string, string>, row: FeedRow, points: int)
    ensures row.team in names ==> RowFields(names, row, points)[0] == names[row.team]
    ensures row.team !in names ==> RowFields(names, row, points)[0] == row.team
  {
  }

  /** The row of the template of each team of the feed. */
  function RowReader(names: map<string, string>): FeedRow -> Result<string>
  {
    row => TableRow(names, row)
  }

  /** The template's text for the tables of every address in turn: each
    * team's row, in the feed's order, joined by ",\n". */
  function TableData(names: map<string, string>, tables: seq<seq<FeedRow>>): Result<string>
  {
    match MapAll(Flatten(tables), RowReader(names))
    case Fail(e) => Fail(e)
    case Ok(rows) => Ok(Join(rows, ",\n"))
  }

  /** `fetch_table_data`, given the table of each address. */
  method FetchTableData(tables: seq<seq<FeedRow>>) returns (r: Result<string>)
    ensures r == TableData(HebrewNames, tables)
  {
    var stats: seq<string> := [];
    for i := 0 to |tables|
      invariant MapAll(Flatten(tables[..i]), RowReader(HebrewNames)) == Ok(stats)
    {
      assert tables[..i + 1][..i] == tables[..i];
      assert Flatten(tables[..i + 1]) == Flatten(tables[..i]) + tables[i];
      var more := AppendRows(HebrewNames, Flatten(tables[..i]), tables[i], stats);
      if more.Fail? {
        FailedLater(HebrewNames, tables, i, [], Flatten(tables[..i + 1]));
        return Fail(more.error);
      }
      stats := more.value;
    }
    assert tables[..|tables|] == tables;
    return Ok(Join(stats, ",\n"));
  }

  /** The inner loop of `fetch_table_data`: the rows of one address appended
    * to the rows before them. */
  method AppendRows(names: map<string, string>, done: seq<FeedRow>, table: seq<FeedRow>, stats: seq<string>) returns (r: Result<seq<string>>)
    requires MapAll(done, RowReader(names)) == Ok(stats)
    ensures r == MapAll(done + table, RowReader(names))
  {
    var rows := stats;
    assert done + table[..0] == done;
    for j := 0 to |table|
      invariant MapAll(done + table[..j], RowReader(names)) == Ok(rows)
    {
      MapAllStep(done, table, j, RowReader(names), rows);
      var row := TableRow(names, table[j]);
      assert RowReader(names)(table[j]) == row;
      if row.Fail? {
        return Fail(row.error);
      }
      rows := rows + [row.value];
    }
    assert table[..|table|] == table;
    return Ok(rows);
  }

  /** A row that fails fails the whole text. */
  lemma FailedLater(names: map<string, string>, tables: seq<seq<FeedRow>>, i: nat, rest: seq<FeedRow>, done: seq<FeedRow>)
    requires i < |tables| && MapAll(done, RowReader(names)).Fail?
    requires done + rest == Flatten(tables[..i + 1])
    ensures TableData(names, tables) == Fail(MapAll(done, RowReader(names)).error)
  {
    var later := Flatten(tables[i + 1..]);
    FlattenSplit(tables, i + 1);
    MapAllFailed(done, rest + later, RowReader(names));
    assert done + (rest + later) == Flatten(tables);
  }
}
