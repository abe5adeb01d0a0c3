/** volleyball_game.py: the record of a volleyball game that the calendar
  * script reads from the IVA site and then corrects in place. */
module VolleyballGames {
  import opened Wrappers
  import opened Dates

  /** The club's name as the game pages write it. */
  const MaccabiName: string := "מכבי תל אביב"

  /** The fields of a game at one moment. The results are kept as the
    * texts the IVA table holds. */
  datatype Game = Game(
    date: DateTime,
    fixture: string,
    opponent: string,
    homeGame: bool,
    competition: string,
    season: string,
    stadium: Option<string>,
    maccabiResult: Option<string>,
    opponentResult: Option<string>)

  /** `VolleyballGame`, a mutable record. */
  class VolleyballGame {
    var date: DateTime
    var fixture: string
    var opponent: string
    var homeGame: bool
    var competition: string
    var season: string
    var stadium: Option<string>
    var maccabiResult: Option<string>
    var opponentResult: Option<string>

    /** A game without stadium and results: those default to None. */
    constructor(date: DateTime, fixture: string, opponent: string, homeGame: bool, competition: string, season: string)
      ensures Value() == Game(date, fixture, opponent, homeGame, competition, season, None, None, None)
    {
      this.date, this.fixture, this.opponent, this.homeGame := date, fixture, opponent, homeGame;
      this.competition, this.season := competition, season;
      this.stadium, this.maccabiResult, this.opponentResult := None, None, None;
    }

    /** A game with every field given. */
    constructor FromValue(g: Game)
      ensures Value() == g
    {
      date, fixture, opponent, homeGame := g.date, g.fixture, g.opponent, g.homeGame;
      competition, season := g.competition, g.season;
      stadium, maccabiResult, opponentResult := g.stadium, g.maccabiResult, g.opponentResult;
    }

    /** The current fields. */
    function Value(): Game
      reads this
    {
      Game(date, fixture, opponent, homeGame, competition, season, stadium, maccabiResult, opponentResult)
    }

    /** `home_team`: the club at home, the opponent away. */
    function HomeTeam(): (t: string)
      reads this
      ensures homeGame ==> t == MaccabiName
      ensures !homeGame ==> t == opponent
    {
      if homeGame then MaccabiName else opponent
    }

    /** `away_team`: the opponent at home, the club away. */
    function AwayTeam(): (t: string)
      reads this
      ensures homeGame ==> t == opponent
      ensures !homeGame ==> t == MaccabiName
    {
      if homeGame then opponent else MaccabiName
    }
  }

  /** The two sides of a game are the club and the opponent, one each. */
  lemma Sides(g: VolleyballGame)
    ensures [g.HomeTeam(), g.AwayTeam()] == if g.homeGame then [MaccabiName, g.opponent] else [g.opponent, MaccabiName]
    ensures multiset{g.HomeTeam(), g.AwayTeam()} == multiset{MaccabiName, g.opponent}
  {
  }
}
