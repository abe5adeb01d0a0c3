/** update_league_table_basketball.py: the Israeli league standings of the
  * livescore feed turned into the text of the wiki's table template, one
  * "^"-separated row per team, with the points as the feed gives them. */
module LeagueTableBasketball {
  import opened Wrappers
  import opened Strings
  import opened Collections

  /** The Hebrew names of the clubs, by the feed's name. */
  const HebrewNames: map<string, string> := map[
    "Maccabi Tel Aviv" := "מכבי תל אביב",
    "Hapoel Tel Aviv" := "הפועל תל אביב",
    "Hapoel Gilboa/Galil" := "הפועל העמק",
    "Maccabi Raanana" := "מכבי עירוני רעננה",
    "Maccabi Ironi Ramat Gan" := "מכבי עירוני רמת גן",
    "Hapoel Holon" := "הפועל חולון",
    "Hapoel Galil Elyon" := "הפועל גליל עליון",
    "Hapoel Jerusalem" := "הפועל ירושלים",
    "Maccabi Rishon LeZion" := "מכבי ראשון לציון",
    "Hapoel Beer Sheva" := "הפועל באר שבע",
    "Elitzur Netanya" := "אליצור עירוני נתניה",
    "Ironi Nes Ziona" := "עירוני נס ציונה",
    "Bnei Herzliya" := "בני הרצליה",
    "Ironi Kiryat Ata" := "עירוני קרית אתא"]

  /** One team of the feed's table: "Tnm", the numbers "pld", "gf" and "ga",
    * and the texts "winn", "lstn" and "ptsn". */
  datatype FeedRow = FeedRow(team: string, played: nat, wins: string, losses: string, scored: nat, conceded: nat, points: string)

  /** The seven fields of a row: the Hebrew name (or the feed's name when
    * the table has none), the played, won and lost games, the points scored
    * and conceded, and the feed's own points. */
  function RowFields(names: map<string, string>, row: FeedRow): (fs: seq<string>)
    ensures |fs| == 7
  {
    [Corrected(row.team, names), NatToString(row.played), row.wins, row.losses,
     NatToString(row.scored), NatToString(row.conceded), row.points]
  }

  /** One row of the template. */
  function TableRow(names: map<string, string>, row: FeedRow): string
  {
    Join(RowFields(names, row), "^")
  }

  lemma NoCaretInDigits(s: string)
    requires AllDigits(s)
    ensures '^' !in s
  {
    assert forall i :: 0 <= i < |s| ==> s[i] != '^';
  }

  lemma NoCaretInFields(fs: seq<string>)
    requires |fs| == 7
    requires '^' !in fs[0] && '^' !in fs[1] && '^' !in fs[2] && '^' !in fs[3]
    requires '^' !in fs[4] && '^' !in fs[5] && '^' !in fs[6]
    ensures forall k :: 0 <= k < |fs| ==> '^' !in fs[k]
  {
  }

  /** A row splits back into its fields. */
  lemma TableRowSplits(names: map<string, string>, row: FeedRow)
    requires '^' !in Corrected(row.team, names) && '^' !in row.wins && '^' !in row.losses && '^' !in row.points
    ensures Split(TableRow(names, row), "^") == RowFields(names, row)
  {
    var fs := RowFields(names, row);
    NatToStringRoundTrip(row.played);
    NatToStringRoundTrip(row.scored);
    NatToStringRoundTrip(row.conceded);
    NoCaretInDigits(fs[1]);
    NoCaretInDigits(fs[4]);
    NoCaretInDigits(fs[5]);
    NoCaretInFields(fs);
    SplitJoin(fs, '^');
  }

  /** A row splits back into its fields: the numbers read back, and the
    * last field is the feed's points text unchanged, not a computed value. */
  lemma TableRowSpec(names: map<string, string>, row: FeedRow)
    requires '^' !in Corrected(row.team, names) && '^' !in row.wins && '^' !in row.losses && '^' !in row.points
    ensures Split(TableRow(names, row), "^") == RowFields(names, row)
    ensures ParseInt(Split(TableRow(names, row), "^")[1]) == Some(row.played)
    ensures ParseInt(Split(TableRow(names, row), "^")[4]) == Some(row.scored)
    ensures ParseInt(Split(TableRow(names, row), "^")[5]) == Some(row.conceded)
    ensures Split(TableRow(names, row), "^")[6] == row.points
  {
    TableRowSplits(names, row);
    ParseIntOfString(row.played);
    ParseIntOfString(row.scored);
    ParseIntOfString(row.conceded);
  }

  /** A team the table knows is written in Hebrew, any other as the feed
    * names it. */
  lemma TeamNameSpec(names: map<string, string>, row: FeedRow)
    ensures row.team in names ==> RowFields(names, row)[0] == names[row.team]
    ensures row.team !in names ==> RowFields(names, row)[0] == row.team
  {
  }

  /** The row of the template of each team of the feed. */
  function RowWriter(names: map<string, string>): FeedRow -> string
  {
    row => TableRow(names, row)
  }

  /** The template's text for the tables of every address in turn: each
    * team's row, in the feed's order, joined by ",\n". */
  function TableData(names: map<string, string>, tables: seq<seq<FeedRow>>): string
  {
    Join(Serialised(Flatten(tables), RowWriter(names)), ",\n")
  }

  /** The text has one row per team of every table, the k-th row that of
    * the k-th team in the order the addresses and their tables list them. */
  lemma TableDataSpec(names: map<string, string>, tables: seq<seq<FeedRow>>)
    ensures exists rows: seq<string> ::
      && |rows| == |Flatten(tables)|
      && (forall k :: 0 <= k < |rows| ==> rows[k] == TableRow(names, Flatten(tables)[k]))
      && TableData(names, tables) == Join(rows, ",\n")
  {
    var rows := Serialised(Flatten(tables), RowWriter(names));
    assert forall k :: 0 <= k < |rows| ==> rows[k] == TableRow(names, Flatten(tables)[k]);
  }

  /** `fetch_league_table_data`, given the table of each address. */
  method FetchLeagueTableData(tables: seq<seq<FeedRow>>) returns (r: string)
    ensures r == TableData(HebrewNames, tables)
  {
    var stats: seq<string> := [];
    for i := 0 to |tables|
      invariant stats == Serialised(Flatten(tables[..i]), RowWriter(HebrewNames))
    {
      assert tables[..i + 1][..i] == tables[..i];
      assert Flatten(tables[..i + 1]) == Flatten(tables[..i]) + tables[i];
      stats := AppendRows(HebrewNames, Flatten(tables[..i]), tables[i], stats);
    }
    assert tables[..|tables|] == tables;
    return Join(stats, ",\n");
  }

  /** The inner loop of `fetch_league_table_data`: the rows of one address
    * appended to the rows before them. */
  method AppendRows(names: map<string, string>, done: seq<FeedRow>, table: seq<FeedRow>, stats: seq<string>) returns (r: seq<string>)
    requires stats == Serialised(done, RowWriter(names))
    ensures r == Serialised(done + table, RowWriter(names))
  {
    r := stats;
    assert done + table[..0] == done;
    for j := 0 to |table|
      invariant r == Serialised(done + table[..j], RowWriter(names))
    {
      SnocSplit(done, table, j);
      SerialisedSnoc(done + table[..j], table[j], RowWriter(names));
      r := r + [TableRow(names, table[j])];
    }
    assert table[..|table|] == table;
  }
}
