/** update_league_table_volleyball.py: the league table of the IVA site
  * turned into the text of the wiki's volleyball table template, one
  * "^"-separated record per team. */
module VolleyballLeagueTable {
  import opened Wrappers
  import opened Strings
  import opened Collections

  /** One row of the site's table, by column: "קבוצה" ("N. team"), "מש'",
    * "נצ'", "הפ'", "נקודות" and "מערכות" (both "against-for"), "נק'". */
  datatype RawRecord = RawRecord(team: string, games: nat, wins: nat, losses: nat, gamePoints: string, sets: string, points: nat)

  /** `VolleyballTableTeamRecord`. */
  datatype TeamRecord = TeamRecord(
    name: string,
    games: nat,
    wins: nat,
    losses: nat,
    pointsFor: string,
    pointsAgainst: string,
    setsFor: string,
    setsAgainst: string,
    points: nat)

  /** The fields in the order the template reads them. */
  function Fields(r: TeamRecord): (fs: seq<string>)
    ensures |fs| == 9
  {
    [r.name, NatToString(r.games), NatToString(r.wins), NatToString(r.losses),
     r.pointsFor, r.pointsAgainst, r.setsFor, r.setsAgainst, NatToString(r.points)]
  }

  /** `adapt_to_mediawiki_code`. */
  function Render(r: TeamRecord): string
  {
    Join(Fields(r), "^")
  }

  lemma NoCaretInDigits(s: string)
    requires AllDigits(s)
    ensures '^' !in s
  {
    assert forall i :: 0 <= i < |s| ==> s[i] != '^';
  }

  /** A record renders as its nine fields, which split back out of the text
    * when none of its texts holds a "^". */
  lemma RenderRoundTrip(r: TeamRecord)
    requires '^' !in r.name && '^' !in r.pointsFor && '^' !in r.pointsAgainst
    requires '^' !in r.setsFor && '^' !in r.setsAgainst
    ensures Split(Render(r), "^") == Fields(r)
    ensures Split(Render(r), "^")[0] == r.name && Split(Render(r), "^")[8] == NatToString(r.points)
  {
    var fs := Fields(r);
    NoCaretInDigits(NatToString(r.games));
    NoCaretInDigits(NatToString(r.wins));
    NoCaretInDigits(NatToString(r.losses));
    NoCaretInDigits(NatToString(r.points));
    SplitJoin(fs, '^');
  }

  /** `s.partition(".")[2]`: what follows the first ".", or "" without one. */
  function AfterFirstDot(s: string): (r: string)
    ensures !Contains(s, ".") ==> r == ""
    ensures Contains(s, ".") ==> s == s[..Find(s, ".")] + "." + r
  {
    var i := Find(s, ".");
    if i < 0 then ""
    else
      assert s[i..i + 1] == ".";
      assert s == s[..i] + s[i..i + 1] + s[i + 1..];
      s[i + 1..]
  }

  /** After a dot-free position number, the rest is the team's text. */
  lemma AfterFirstDotSpec(position: string, rest: string)
    requires '.' !in position
    ensures AfterFirstDot(position + "." + rest) == rest
  {
    var s := position + "." + rest;
    assert OccursAt(s, ".", |position|);
    forall j | j < |position|
      ensures !OccursAt(s, ".", j)
    {
      if 0 <= j {
        assert s[j..j + 1][0] == position[j];
      }
    }
    assert Find(s, ".") == |position|;
    assert s[|position| + 1..] == rest;
  }

  /** An "against-for" cell: two fields around one "-", else a ValueError
    * (the unpacking fails). */
  function AgainstFor(cell: string): (r: Result<(string, string)>)
    ensures r.Fail? ==> r.error == ValueError
    ensures r.Ok? <==> |Split(cell, "-")| == 2
  {
    var parts := Split(cell, "-");
    if |parts| != 2 then Fail(ValueError) else Ok((parts[0], parts[1]))
  }

  /** "a-b" is a against and b for. */
  lemma AgainstForSpec(against: string, gained: string)
    requires '-' !in against && '-' !in gained
    ensures AgainstFor(against + "-" + gained) == Ok((against, gained))
  {
    JoinCons(against, [gained], "-");
    SplitJoin([against, gained], '-');
  }

  /** `parse_team_record`: the team's name is what follows the position
    * number, stripped; the game points and the sets are read against-for. */
  function ParseTeamRecord(raw: RawRecord): (r: Result<TeamRecord>)
    ensures r.Ok? <==> AgainstFor(raw.gamePoints).Ok? && AgainstFor(raw.sets).Ok?
    ensures r.Fail? ==> r.error == ValueError
    ensures r.Ok? ==> r.value.name == Trim(AfterFirstDot(raw.team))
    ensures r.Ok? ==> (r.value.pointsAgainst, r.value.pointsFor) == AgainstFor(raw.gamePoints).value
    ensures r.Ok? ==> (r.value.setsAgainst, r.value.setsFor) == AgainstFor(raw.sets).value
    ensures r.Ok? ==> r.value.games == raw.games && r.value.wins == raw.wins && r.value.losses == raw.losses
    ensures r.Ok? ==> r.value.points == raw.points
  {
    var name := Trim(AfterFirstDot(raw.team));
    match AgainstFor(raw.gamePoints)
    case Fail(e) => Fail(e)
    case Ok(gp) =>
      match AgainstFor(raw.sets)
      case Fail(e) => Fail(e)
      case Ok(st) => Ok(TeamRecord(name, raw.games, raw.wins, raw.losses, gp.1, gp.0, st.1, st.0, raw.points))
  }

  /** A row written "N. team", "a-b", "c-d" reads as the team with b points
    * and d sets for, a points and c sets against. */
  lemma ParseTeamRecordRoundTrip(position: string, team: string, games: nat, wins: nat, losses: nat, a: string, b: string, c: string, d: string, points: nat)
    requires '.' !in position && Stripped(team)
    requires '-' !in a && '-' !in b && '-' !in c && '-' !in d
    ensures ParseTeamRecord(RawRecord(position + ". " + team, games, wins, losses, a + "-" + b, c + "-" + d, points))
      == Ok(TeamRecord(team, games, wins, losses, b, a, d, c, points))
  {
    assert position + ". " + team == position + "." + (" " + team);
    AfterFirstDotSpec(position, " " + team);
    TrimPadded(team);
    AgainstForSpec(a, b);
    AgainstForSpec(c, d);
  }

  /** The records with their team names corrected from the table. */
  function Renamed(records: seq<TeamRecord>, table: map<string, string>): (r: seq<TeamRecord>)
    ensures |r| == |records|
    ensures forall i :: 0 <= i < |records| ==> r[i] == records[i].(name := Corrected(records[i].name, table))
  {
    seq(|records|, i requires 0 <= i < |records| => records[i].(name := Corrected(records[i].name, table)))
  }

  /** The loop that rewrites each record's name in place: only names the
    * table knows change, and nothing else in any record does. */
  method RenameTeams(records: array<TeamRecord>, table: map<string, string>)
    modifies records
    ensures records[..] == Renamed(old(records[..]), table)
  {
    for i := 0 to records.Length
      invariant forall k :: i <= k < records.Length ==> records[k] == old(records[k])
      invariant forall k :: 0 <= k < i ==> records[k] == old(records[k]).(name := Corrected(old(records[k]).name, table))
    {
      records[i] := records[i].(name := Corrected(records[i].name, table));
    }
  }

  /** The loop that parses every row of the table in order. */
  method ParseRecords(rows: seq<RawRecord>) returns (r: Result<seq<TeamRecord>>)
    ensures r == MapAll(rows, ParseTeamRecord)
  {
    var parsed: seq<TeamRecord> := [];
    for i := 0 to |rows|
      invariant MapAll(rows[..i], ParseTeamRecord) == Ok(parsed)
    {
      assert rows[..i + 1][..i] == rows[..i];
      var record := ParseTeamRecord(rows[i]);
      if record.Fail? {
        MapAllStops(rows, ParseTeamRecord, i);
        return Fail(record.error);
      }
      parsed := parsed + [record.value];
    }
    assert rows[..|rows|] == rows;
    return Ok(parsed);
  }

  /** The template's table text: the renamed records rendered and joined by
    * ",\n" in the table's order. */
  function LeagueData(rows: seq<RawRecord>, table: map<string, string>): Result<string>
  {
    match MapAll(rows, ParseTeamRecord)
    case Fail(e) => Fail(e)
    case Ok(records) => Ok(Join(Serialised(Renamed(records, table), Render), ",\n"))
  }

  /** The text is built iff every row parses; it then holds one rendered
    * line per row, the i-th line the i-th row renamed. */
  lemma LeagueDataSpec(rows: seq<RawRecord>, table: map<string, string>)
    ensures LeagueData(rows, table).Ok? <==> forall i :: 0 <= i < |rows| ==> ParseTeamRecord(rows[i]).Ok?
    ensures LeagueData(rows, table).Ok? ==> exists lines: seq<string> ::
      && |lines| == |rows|
      && (forall i :: 0 <= i < |rows| ==> lines[i] == Render(ParseTeamRecord(rows[i]).value.(name := Corrected(ParseTeamRecord(rows[i]).value.name, table))))
      && LeagueData(rows, table).value == Join(lines, ",\n")
  {
    MapAllSpec(rows, ParseTeamRecord);
    if LeagueData(rows, table).Ok? {
      var records := MapAll(rows, ParseTeamRecord).value;
      var lines := Serialised(Renamed(records, table), Render);
      LinesOfRows(rows, table, records, lines);
    }
  }

  /** The i-th rendered line is the i-th parsed row, renamed. */
  lemma LinesOfRows(rows: seq<RawRecord>, table: map<string, string>, records: seq<TeamRecord>, lines: seq<string>)
    requires |records| == |rows| && forall i :: 0 <= i < |rows| ==> ParseTeamRecord(rows[i]).Ok? && records[i] == ParseTeamRecord(rows[i]).value
    requires lines == Serialised(Renamed(records, table), Render)
    ensures |lines| == |rows|
    ensures forall i :: 0 <= i < |rows| ==> lines[i] == Render(ParseTeamRecord(rows[i]).value.(name := Corrected(ParseTeamRecord(rows[i]).value.name, table)))
  {
  }

  /** `fetch_league_data_from_iva` on the tables of the page: the first table
    * is read, and no table is an IndexError. */
  method FetchLeagueData(tables: seq<seq<RawRecord>>, table: map<string, string>) returns (r: Result<string>)
    ensures |tables| == 0 ==> r == Fail(IndexError)
    ensures |tables| > 0 ==> r == LeagueData(tables[0], table)
  {
    if |tables| == 0 {
      return Fail(IndexError);
    }
    var parsed := ParseRecords(tables[0]);
    if parsed.Fail? {
      return Fail(parsed.error);
    }
    var records := new TeamRecord[|parsed.value|](i requires 0 <= i < |parsed.value| => parsed.value[i]);
    assert records[..] == parsed.value;
    RenameTeams(records, table);
    return Ok(Join(Serialised(records[..], Render), ",\n"));
  }
}
