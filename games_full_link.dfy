/** games_full_link.py: the earlier form of the video-links script, which
  * adds only full-game links. Its lookup of the game is the same as the one
  * of `VideoLinks`; its page rewrite is written out again here and shown to
  * be that of `VideoLinks` for the full-game parameter. */
module FullGameLink {
  import opened Wrappers
  import opened Strings
  import GamesBot
  import VideoLinks

  const BroadcastField: string := "גוף שידור="
  const FullGameField: string := "משחק מלא="

  /** `test(page_name, full_game_link)` on the page's text (None when the
    * page does not exist): a missing page, or a page that already has a
    * full-game link, is a RuntimeError; otherwise every broadcaster field is
    * followed by the link, and the text is saved (Some) only when it holds a
    * link. */
  function Test(page: Option<string>, link: string): (r: Result<Option<string>>)
    ensures r.Fail? <==> page.None? || Contains(page.value, FullGameField)
    ensures r.Fail? ==> r.error == RuntimeError
  {
    match page
    case None => Fail(RuntimeError)
    case Some(text) =>
      if Contains(text, FullGameField) then Fail(RuntimeError)
      else
        var rewritten := Replace(text, BroadcastField, BroadcastField + " " + "|" + " " + FullGameField + link);
        if Contains(rewritten, "http") then Ok(Some(rewritten)) else Ok(None)
  }

  /** The rewrite is the general one for the full-game parameter. */
  lemma TestIsAddParam(page: Option<string>, link: string)
    ensures Test(page, link) == VideoLinks.AddParam(page, VideoLinks.FullGameParam, link)
  {
    assert VideoLinks.FullGameParam + "=" == FullGameField;
    assert BroadcastField + " " + "|" + " " + FullGameField + link == VideoLinks.WithParam(VideoLinks.FullGameParam, link);
  }

  /** `generate_page_name_from_game` as written: it reads a prefix this
    * module never defines, so every call raises NameError. */
  function PageNameAsWritten<T, S>(g: GamesBot.FootballGame<T, S>): (r: Result<string>)
    ensures r == Fail(NameError)
  {
    Fail(NameError)
  }

  /** The wiki after `test` on the named page: the saved text, if any. */
  function Written(wiki: map<string, string>, name: string, link: string): map<string, string>
  {
    var page := if name in wiki then Some(wiki[name]) else None;
    match Test(page, link)
    case Ok(Some(text)) => wiki[name := text]
    case _ => wiki
  }

  /** One entry of `main` as written: the NameError of the page name is
    * caught and printed, so nothing is written. */
  function EntryAsWritten<T, S>(wiki: map<string, string>, games: seq<GamesBot.FootballGame<T, S>>, e: VideoLinks.LinkEntry): map<string, string>
  {
    match VideoLinks.FindGame(games, e.season, e.fixture)
    case Fail(_) => wiki
    case Ok(g) =>
      match PageNameAsWritten(g)
      case Fail(_) => wiki
      case Ok(name) => Written(wiki, name, e.link)
  }

  /** `main` as written: the loop over the links file never changes a page. */
  method UploadAsWritten<T, S>(wiki: map<string, string>, games: seq<GamesBot.FootballGame<T, S>>, entries: seq<VideoLinks.LinkEntry>)
    returns (r: map<string, string>)
    ensures r == wiki
  {
    r := wiki;
    for i := 0 to |entries|
      invariant r == wiki
    {
      r := EntryAsWritten(r, games, entries[i]);
    }
  }

  /** One entry with the page named as the football bots name it. */
  function Entry<T, S>(wiki: map<string, string>, games: seq<GamesBot.FootballGame<T, S>>, e: VideoLinks.LinkEntry): map<string, string>
    requires VideoLinks.AllWellFormed(games)
  {
    match VideoLinks.FindGame(games, e.season, e.fixture)
    case Fail(_) => wiki
    case Ok(g) =>
      assert GamesBot.WellFormed(g) by { VideoLinks.FindGameSpec(games, e.season, e.fixture); }
      Written(wiki, GamesBot.PageName(g), e.link)
  }

  /** With the page name defined, an entry does what the newer script does
    * for a full-game link. */
  lemma EntryIsUploaded<T, S>(wiki: map<string, string>, games: seq<GamesBot.FootballGame<T, S>>, e: VideoLinks.LinkEntry)
    requires VideoLinks.AllWellFormed(games)
    ensures Entry(wiki, games, e) == VideoLinks.Uploaded(wiki, games, e, VideoLinks.FullGameParam)
  {
    var found := VideoLinks.FindGame(games, e.season, e.fixture);
    if found.Ok? {
      VideoLinks.FindGameSpec(games, e.season, e.fixture);
      var name := GamesBot.PageName(found.value);
      var page := if name in wiki then Some(wiki[name]) else None;
      TestIsAddParam(page, e.link);
    }
  }

  /** `main` with the page name defined: the newer script's full-game pass. */
  method UploadFullGames<T, S>(wiki: map<string, string>, games: seq<GamesBot.FootballGame<T, S>>, entries: seq<VideoLinks.LinkEntry>)
    returns (r: map<string, string>)
    requires VideoLinks.AllWellFormed(games)
    ensures r == VideoLinks.UploadedAll(wiki, games, entries, VideoLinks.FullGameParam)
  {
    r := wiki;
    for i := 0 to |entries|
      invariant r == VideoLinks.UploadedAll(wiki, games, entries[..i], VideoLinks.FullGameParam)
    {
      assert entries[..i + 1][..i] == entries[..i];
      EntryIsUploaded(r, games, entries[i]);
      r := Entry(r, games, entries[i]);
    }
    assert entries[..|entries|] == entries;
  }
}
