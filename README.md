# Maccabipedia bots, modelled in Dafny

Maccabipedia is a MediaWiki site about the Maccabi Tel Aviv sports clubs. Its
maintainers run a set of Python bots against it. The bots create and fix game pages,
player and coach profiles, league tables, newspaper-scan uploads and season
redirects, and they keep a Google calendar of games in step with the site.
This project models the deterministic logic beneath those bots. It then proves the
properties the code promises about that logic.

What the model covers:

- **Templates.** A wiki template is a name plus an ordered list of `(name, value)`
  parameters, modelled in `WikiTemplate`. Its `has`/`get`/`add`/`add(before=)`/`remove`
  follow the parser library's rules: names are compared stripped, `get` returns the
  last match, `remove` drops every match, and a missing anchor or name raises
  `ValueError`. `add(before=anchor)` inserts at `params.index(get(anchor))`, and that
  lookup compares parameters by their text `name=value`. The new parameter therefore
  goes before the first parameter that reads exactly like the last one named `anchor`. A page is its wikitext, and the wiki is a map from titles to texts.
  Several scripts call `filter_templates(name)[0]` with the name passed
  positionally, where the parser expects its `recursive` flag. That call returns the
  page's first template, whatever its name. The model follows it as written at
  add_publish_date_for_papers.py:50, coachesbot.py:75 and :109,
  fix_basketball_players_template.py:25 and league_tables_files_to_game_pages.py:72.
  The same call at gamesbot.py:178 is recorded under "## Findings" with both
  lookups; `GamesBot.HandleExistingPage` is given the template it edits.
- **Football game pages** (`GamesBot`, `PlayerEvents`, `SortPlayersEvents`,
  `PrettifyGamesPages`, `ReplaceCustomFieldName`, `WallaGameReview`,
  `LeagueTablesToGamePages`). This covers the page name, the template arguments,
  bench events and the stable minute sort, the merge into an existing page, the
  six-group partition of player events and the in-place template normalisers.
- **Basketball** (`BasketballGames`, `TeamsNamesChanger`, `MergeResults`,
  `BasketballGamesBot`, `ScriptsBasketballGamesBot`, `BasketballPlayerProfile`,
  `SeasonRedirects`, `LeagueTableBasketball`, `EuroleagueTable`). This covers
  raw-record conversion, team renames by year range, the merge of result files, the
  argument dictionaries of both game bots, profile clean-up, season redirects and
  table rows.
- **Volleyball** (`VolleyballGames`, `VolleyballFolders`, `IvaUpload`,
  `VolleyballSets`, `VolleyballPlayersEvents`, `VolleyballLeagueTable`). This covers
  game records from folder names and association rows, set parameters, players
  events and the league table.
- **Newspaper scans** (`Paths`, `PaperStems`, `SportsNewsPaperNames`,
  `LamerhavPaperNames`, `UploadGamesPapers`, `PaperPublishDate`). File names are
  parsed and rewritten step by step, and files are renamed or moved between folders
  in a directory modelled as a class.
- **Calendars** (`FootballCalendar`, `VolleyballCalendar`, `MaccabiTlvSite`). Events
  are matched by key and the sync emits upload, update and delete actions.
  Overrides, result labels and the club site's lookup tables are included.
- **Video links** (`VideoSheets`, `FullGameSheets`, `VideoLinks`, `FullGameLink`).
  This covers spreadsheet enumeration and cell classification, plus the text rewrite
  that adds a full-game link to a page.
- **Support modules** (`Strings`, `Dates`, `Collections`, `StableSort`, `Wrappers`).
  These give Python's string operations, `strptime`/`strftime` on integer date
  tuples, exactly-one lookups, Python's stable sort, and results whose errors name
  the Python exception raised.

Two kinds of code take an imperative form. Code that edits state in place becomes
methods, proved against specification functions: template edits, renames, the
upload loops and the counters. Pure computations become functions and lemmas.
Some source lines evidently do not do what their authors meant. For each, the model
keeps the code as written beside a corrected version; see "## Findings".

## Model

| member | source | states |
|---|---|---|
| WikiTemplate.FirstTemplateAsWritten | gamesbot.py:178 | `filter_templates(name)[0]` as written: the name lands in the `recursive` argument, so the first template of the page is taken whatever its name, and IndexError when the page has none |
| WikiTemplate.FirstTemplateNamed | gamesbot.py:178 | the evidently intended lookup: the first template whose stripped name is the given one, IndexError iff there is none |
| WikiTemplate.FirstTemplateAsWrittenPicksOther | gamesbot.py:178 | on a page whose first template is a player template and whose second is the games template, the code as written edits the player template while the intended lookup picks the games template |
| WikiTemplate.GetParam | reorganize_volleyball_sets_params.py:59 | `template.get(name)` finds a parameter with that name exactly when the template has one, and raises ValueError otherwise |
| WikiTemplate.ValueOfGet | gamesbot.py:193 | the value read through `get(name).value` is the one the model's value lookup gives, and `get` succeeds exactly when `has` holds |
| WikiTemplate.AddedHasValue | gamesbot.py:199 | after `add(name, value)` the template has the name with exactly that value, and which other names it has does not change |
| WikiTemplate.AddedOthers | gamesbot.py:199 | `add` of one name leaves the presence and value of every other name unchanged |
| WikiTemplate.AddedSame | gamesbot.py:193-199 | adding a name with the value it already holds leaves the parameters as they were |
| WikiTemplate.IndexOfText | replace_custom_field_name.py:83 | `params.index(p)`: the first parameter whose text `name=value` equals that of `p`, -1 iff there is none |
| WikiTemplate.AnchorIndex | replace_custom_field_name.py:83 | where `add(before=anchor)` inserts: -1 iff no parameter is named `anchor`; otherwise no later than the last such parameter, reading exactly like it, and the first one that does |
| WikiTemplate.AnchorIndexUnique | replace_custom_field_name.py:83 | when no other parameter reads like the anchor `get` finds, the insertion point is that anchor |
| WikiTemplate.AddedBeforeDuplicateAnchor | replace_custom_field_name.py:83 | with two identical copies of the anchor, the new parameter goes before the first copy, not the one `get` finds |
| WikiTemplate.AddedBeforeShape | replace_custom_field_name.py:83 | adding a new name before an anchor succeeds exactly when the anchor is present; the new parameter goes at the insertion point `AnchorIndex` states, and the rest keep their order |
| WikiTemplate.RemovedMembers | replace_custom_field_name.py:74 | removing a name keeps exactly the parameters with another name |
| WikiTemplate.RemovedLacks | replace_custom_field_name.py:74 | after removing a name the template no longer has it, and every other name's presence is unchanged |
| WikiTemplate.RenderContainsValue | add_main_walla_sport_game_review.py:100 | the template's wikitext contains each parameter's value, so a substring test on the template sees it |
| WikiTemplate.KeyInRender | add_publish_date_for_papers.py:52 | the template's wikitext contains each parameter's name |
| WikiTemplate.FirstNamed | prettify_games_pages.py:59 | the first template whose stripped name matches, or none |
| WikiTemplate.Template.constructor | gamesbot.py:75 | a new template has the given name and parameters |
| WikiTemplate.Template.Add | gamesbot.py:219 | `add` updates the template's parameters as the add function states and keeps its name |
| WikiTemplate.Template.AddBefore | replace_custom_field_name.py:83 | `add(..., before=anchor)` sets the value of an existing name in place, or inserts the new parameter at `AnchorIndex`, or raises ValueError and changes nothing when the anchor is missing |
| WikiTemplate.Template.Remove | replace_custom_field_name.py:74 | `remove` succeeds exactly when the name is present, then drops it, and otherwise raises ValueError without a change |
| WikiTemplate.Template.SetValue | prettify_games_pages.py:73 | assigning a parameter's value changes that parameter's value only |
| WikiTemplate.Template.SetName | prettify_games_pages.py:84 | assigning a parameter's name changes that parameter's name only |
| WikiTemplate.Template.Rename | prettify_games_pages.py:68 | assigning the template's name changes the name only |
| PlayerEvents.NewPlayerEvent | maccabistats_player_event.py:17-21 | name, types and side are kept; the minute is the whole minutes of the seconds part (below 1440); a falsy shirt number becomes the "no number" sentinel and any other is kept |
| PlayerEvents.MinuteIgnoresDays | maccabistats_player_event.py:19 | two durations with the same seconds component give the same event, so whole days are ignored |
| SortPlayersEvents.SelectMembers | sort_players_events.py:77-88 | a filtered list holds exactly the input events whose type is in the group and whose side matches |
| SortPlayersEvents.SelectAppend | sort_players_events.py:77-88 | filtering distributes over concatenation, so input order is kept |
| SortPlayersEvents.Unsorted | sort_players_events.py:76-88 | six lists, in the returned order (Maccabi squad, opponent squad, Maccabi cards and subs, opponent cards and subs, Maccabi goals, opponent goals), each the filter of its group and side |
| SortPlayersEvents.SelectedCountIsMemberships | sort_players_events.py:90-93 | the summed list lengths equal the number of (event, group) memberships |
| SortPlayersEvents.PartitionPassesCheck | sort_players_events.py:90-94 | when every event type lies in exactly one group, no RuntimeError is raised |
| SortPlayersEvents.CheckFindsUngroupedEvents | sort_players_events.py:90-94 | for disjoint groups the count check passes if and only if every event lies in exactly one group |
| SortPlayersEvents.DisjointSum | sort_players_events.py:90-93 | for disjoint groups the counted total never exceeds the input and equals it exactly when each event is grouped once |
| SortPlayersEvents.UnsortedPermutes | sort_players_events.py:77-94 | when each event is grouped once, the six filtered lists together are a permutation of the input |
| SortPlayersEvents.GroupingPermutes | sort_players_events.py:66-106 | after a passing count check, the six sorted lists together are a permutation of the input |
| SortPlayersEvents.GroupContents | sort_players_events.py:77-102 | each returned list holds exactly its group's events, is sorted by the ordering, and keeps the input order among equal events (stable sort) |
| SortPlayersEvents.NonEmpty | sort_players_events.py:133-134 | skipping empty groups leaves only non-empty groups |
| SortPlayersEvents.NonEmptyConcat | sort_players_events.py:133-134 | skipping empty groups loses no event |
| SortPlayersEvents.GroupTexts | sort_players_events.py:133 | one text per group |
| SortPlayersEvents.PiecesCommaFree | sort_players_events.py:130-134 | when no serialised event holds a comma, no piece of the joined text does either |
| SortPlayersEvents.GroupsTextRoundTrip | sort_players_events.py:125-134 | splitting the joined groups on "," gives back one piece per event, in order, each the event's text (the last of a group followed by the newline of the group separator) |
| SortPlayersEvents.ParseAll | sort_players_events.py:127 | parsing succeeds iff every raw event parses, giving one event per raw text in order; otherwise the first failing parse's error propagates |
| SortPlayersEvents.NewEventsValueShape | sort_players_events.py:122-135 | a blank field is left untouched; otherwise the new value starts and ends with a newline around the grouped text, and its events are a permutation of the parsed ones, one per comma-separated piece |
| SortPlayersEvents.FirstIndexOf | sort_players_events.py:121 | the index of the first parameter whose stripped name matches, -1 iff there is none |
| SortPlayersEvents.SortPlayerEventsInGamesPage | sort_players_events.py:109-137 | a missing players-events parameter raises IndexError; a parse or count failure leaves the template unchanged; a blank field leaves it unchanged; otherwise only that parameter's value is replaced by the new value |
| GamesBot.EventsOf | gamesbot.py:106-110 | one template event per recorded event of the player |
| GamesBot.PlayedEventsCount | gamesbot.py:106-123 | the played events number exactly the recorded events of the team, all on the given side |
| GamesBot.BenchedEventsShape | gamesbot.py:113-129 | one benched event, at minute 0 with no sub type and on the given side, for each player without a line-up event, in player order |
| GamesBot.EventsForTemplate | gamesbot.py:106-131 | the events handed to the serialiser are the played and benched events of both teams, a permutation of them sorted by minute, with events of the same minute kept in order |
| GamesBot.PlayersEventsTextShape | gamesbot.py:134 | the text is the comma-joined serialisation with only trailing whitespace removed |
| GamesBot.DayOfWeekNumber | gamesbot.py:150 | (weekday + 2) mod 8: Monday to Saturday give 2 to 7, Sunday gives 0, and 1 never occurs |
| GamesBot.Blanked | gamesbot.py:153-162 | a sentinel value becomes empty and every other value passes unchanged |
| GamesBot.ArgumentNamesFacts | gamesbot.py:23-40 | the eighteen argument names are pairwise different and carry no surrounding whitespace |
| GamesBot.TemplateArgumentsFacts | gamesbot.py:146-167 | eighteen distinct arguments in insertion order; day of week by the mod-8 rule; "בית" iff Maccabi is home; broadcast and costume empty; the players-events text last |
| GamesBot.MergedResult | gamesbot.py:187-199 | when every argument exists in the template, the merge succeeds; with diffs shown each argument ends with the new value, without them nothing changes, and other parameters are untouched |
| GamesBot.MergedKeeps | gamesbot.py:187-199 | the merge of present, distinct arguments never fails, leaves the template as it was when diffs are not shown, and never touches a parameter that is not an argument |
| GamesBot.MergedValues | gamesbot.py:187-199 | with diffs shown, every argument ends with its new value, later arguments not undoing earlier ones |
| GamesBot.AddedAllAppends | gamesbot.py:214-221 | adding distinct new arguments to a template appends them in order |
| GamesBot.MergeArguments | gamesbot.py:192-199 | the template's new parameters and the error are those of the merge over the old parameters |
| GamesBot.HandleExistingPage | gamesbot.py:170-201 | just-events mode sets only the players-events parameter; otherwise the template is merged argument by argument |
| GamesBot.HandleNewPage | gamesbot.py:208-221 | a fresh football-games template holding the arguments added in order |
| GamesBot.GamesWithExistingPages | gamesbot.py:245-261 | the loop returns the games of the dated titles in order, raising RuntimeError for a date with several games and IndexError for one with none |
| GamesBot.PageNameLeadsToGame | gamesbot.py:84-88 | the generated page name carries the game's dd-mm-yyyy date, which the existing-page scan turns back into the game when it is the only one that day |
| BasketballGames.NewPlayerSummary | basketball/basketball_game.py:8-27 | a summary built from the required fields keeps each of them and leaves every optional statistic at its None default |
| BasketballGames.FromRawAsWrittenAlwaysFails | basketball/basketball_game.py:65-80 | `from_raw` as written never yields a game: a bad date raises ValueError and any other record fails validation because the required `has_overtime` is not supplied |
| BasketballGames.FromRawSides | basketball/basketball_game.py:66-80 | with the overtime flag supplied: ValueError iff the dd-mm-yyyy date does not parse; otherwise a game is home unless marked "חוץ", Maccabi and the opponent take home and away places accordingly, each score follows its team, the fixture is empty |
| BasketballGames.FromRawReadsFormattedDate | basketball/basketball_game.py:76 | a date written as dd-mm-yyyy is read back as that date at midnight |
| TeamsNamesChanger.FirstCovering | src/maccabipediabot/basketball/teams_names_changer.py:42-44 | the first entry in insertion order whose inclusive year range contains the year, -1 iff none does |
| TeamsNamesChanger.NameForYearSpec | src/maccabipediabot/basketball/teams_names_changer.py:34-48 | the changed name is the better name of the first entry covering the game's year |
| TeamsNamesChanger.NameForYearAsWrittenError | src/maccabipediabot/basketball/teams_names_changer.py:46-48 | the code as written agrees with the intended lookup on every covered year, but where no range covers the year it raises UnboundLocalError or AttributeError instead of the documented ValueError |
| TeamsNamesChanger.LatestIndex | src/maccabipediabot/basketball/teams_names_changer.py:55 | `max` by start year: an entry with the largest start year, the first of them |
| TeamsNamesChanger.CurrentNameOf | src/maccabipediabot/basketball/teams_names_changer.py:50-55 | the old name when there are no better names, else the better name with the latest start year |
| TeamsNamesChanger.TeamNameChanger.constructor | src/maccabipediabot/basketball/teams_names_changer.py:15-21 | a changer holds its old name and no better names |
| TeamsNamesChanger.TeamNameChanger.AddBetterName | src/maccabipediabot/basketball/teams_names_changer.py:23-32 | appends one entry with the given range and returns the same changer, so calls chain |
| TeamsNamesChanger.TeamNameChanger.ChangeName | src/maccabipediabot/basketball/teams_names_changer.py:34-48 | returns the first-match name for the game's year; when no range covers it, the code as written fails while building the ValueError message, with UnboundLocalError on an empty changer and AttributeError otherwise |
| TeamsNamesChanger.BuildRamatAmidar | src/maccabipediabot/basketball/teams_names_changer.py:98-99 | the chained construction gives the two Ramat Amidar entries, 1957-2005 and 2005-2100 |
| TeamsNamesChanger.RenamesTableEntries | src/maccabipediabot/basketball/teams_names_changer.py:58-103 | an old name is a key iff some single-name changer has it, and its entry is one all-time range holding the better name of the last such changer |
| TeamsNamesChanger.RenamesTableKeys | src/maccabipediabot/basketball/teams_names_changer.py:58-103 | an old name is a key of the table iff some single-name changer renames it |
| TeamsNamesChanger.RenamesTableLast | src/maccabipediabot/basketball/teams_names_changer.py:58-103 | a key's entry is the all-time range of the better name of the last changer for that old name |
| TeamsNamesChanger.RamatAmidarByYear | src/maccabipediabot/basketball/teams_names_changer.py:98-103 | Ramat Amidar keeps its old name for 1957-2005 (2005 by first match), takes the new name for 2006-2100, raises outside them, and its current name is the new one |
| MergeResults.FixTeamNamesSpec | basketball/merge_all_results_files.py:17-30 | each side's name is replaced by its changer's choice when it is a table key and kept otherwise, no other field changes, and the fix fails iff a side's lookup fails, with the UnboundLocalError or AttributeError that `change_name` as written raises |
| MergeResults.FixAllFailure | basketball/merge_all_results_files.py:57-58 | the first game whose fix raises stops the whole run with that error |
| MergeResults.OnDate | basketball/merge_all_results_files.py:56-59 | the games of one date, each on that date |
| MergeResults.ByDateSpec | basketball/merge_all_results_files.py:56-59 | a date is a key iff some game is on it, and its bucket is that date's games in input order |
| MergeResults.FlaggedSpec | basketball/merge_all_results_files.py:61-68 | a date is reported iff exactly two games fall on it and their home or away scores differ |
| MergeResults.MergeResultsFiles | basketball/merge_all_results_files.py:53-68 | the loop fixes and buckets every game and reports the mismatching dates, as the reference definition does |
| PrettifyGamesPages.NameWithNewline | prettify_games_pages.py:66-68 | the template name ends with a newline afterwards, one added only when missing |
| PrettifyGamesPages.AsWrittenEmptiesTwoNewlines | prettify_games_pages.py:70-81 | with the loop's order of edits, a value of two newlines comes out empty, so the next parameter is pulled onto the same line |
| PrettifyGamesPages.AsWrittenSecondPassDiffers | prettify_games_pages.py:76-84 | a players-events name carrying a newline is treated as an ordinary parameter on the first pass and as players events on the second, so the page is edited again |
| PrettifyGamesPages.PrettifiedValueAgrees | prettify_games_pages.py:70-81 | the intended value rule agrees with the code for every value that is not empty or all newlines |
| PrettifyGamesPages.PrettifiedValueSpec | prettify_games_pages.py:70-81 | every value ends with a newline; the players-events value starts with one; any other value starts with one only when it is exactly "\n" |
| PrettifyGamesPages.PrettifiedValueIdempotent | prettify_games_pages.py:70-84 | prettifying a prettified value again (under the stripped name) changes nothing |
| PrettifyGamesPages.Prettified | prettify_games_pages.py:70-84 | each parameter, in place and in order, gets its newline-stripped name and prettified value |
| PrettifyGamesPages.PrettifiedIdempotent | prettify_games_pages.py:66-84 | the whole pass (template name and every parameter) is idempotent |
| PrettifyGamesPages.PrettifyTemplate | prettify_games_pages.py:66-84 | with the corrected rule of "## Findings" (leading newlines handled before the trailing one, players events matched by the stripped name), the loop leaves the template name newline-terminated and every parameter prettified, count and order kept |
| PrettifyGamesPages.PrettifyGamePage | prettify_games_pages.py:54-86 | with the corrected rule of "## Findings", only the first games template of the page is edited, a page without one is left alone, and no other template changes |
| ReplaceCustomFieldName.SwappedAsWrittenRaises | replace_custom_field_name.py:81-83 | as written, a template with the misspelt video name but no video summary and no kit field raises ValueError |
| ReplaceCustomFieldName.VideoTemplateFacts | replace_custom_field_name.py:81-83 | facts about the two-parameter template of the counterexample |
| ReplaceCustomFieldName.SwappedAsWrittenMisplaces | replace_custom_field_name.py:81-83 | as written, a template holding the video summary gets the new field before the players events instead of before the video summary |
| ReplaceCustomFieldName.SwappedPlacesBeforeVideo | replace_custom_field_name.py:81-83 | the intended swap places the new field just before the video summary |
| ReplaceCustomFieldName.SwappedSpec | replace_custom_field_name.py:72-83 | afterwards the old field is gone and the new one present; an existing new field is left as is, otherwise it is added empty; ValueError iff neither anchor exists |
| ReplaceCustomFieldName.AddedBeforeKeeps | replace_custom_field_name.py:83 | adding before an existing anchor succeeds, gives the new field an empty value and changes the presence of no other field |
| ReplaceCustomFieldName.SwappedIdempotent | replace_custom_field_name.py:72-83 | a second swap changes nothing |
| ReplaceCustomFieldName.ReplaceCustomField | replace_custom_field_name.py:58-85 | with the corrected probe of "## Findings" (the correctly spelt video field), only the page's first games template is swapped; a page without one is untouched; no other template changes |
| ReplaceCustomFieldName.SwapInTemplate | replace_custom_field_name.py:72-83 | with the corrected probe of "## Findings", the template's parameters become the swapped ones, or ValueError when no anchor exists |
| WallaGameReview.NextReviewFromSpec | add_main_walla_sport_game_review.py:75-83 | the next review name is the smallest-numbered "כתבה{i}" from 1 to 99 that the template lacks; RuntimeError iff all 99 are present |
| WallaGameReview.NextReviewFails | add_main_walla_sport_game_review.py:75-83 | searching from a number on fails, with RuntimeError, exactly when every review name from that number to 99 is taken |
| WallaGameReview.NextReviewFound | add_main_walla_sport_game_review.py:75-83 | a name found from a number on is a free review name whose lower-numbered names from that number are all taken |
| WallaGameReview.FindNextReviewParam | add_main_walla_sport_game_review.py:75-83 | the loop returns the first free review name, or RuntimeError |
| WallaGameReview.ReviewLinkContains | add_main_walla_sport_game_review.py:107 | the review link text contains the review URL, so the review is found on a second run |
| WallaGameReview.WithReviewSpec | add_main_walla_sport_game_review.py:99-110 | an empty review, or one already in the template text, changes nothing; otherwise the link is added under the first free review name just before the kit field (or the players events when there is no kit field), RuntimeError when no name is free, ValueError when neither anchor exists |
| WallaGameReview.WithReviewOnce | add_main_walla_sport_game_review.py:99-108 | adding the same review twice adds it once |
| WallaGameReview.WithHourSpec | add_main_walla_sport_game_review.py:112-128 | RuntimeError unless exactly one parameter is named the game hour; an empty or "0" hour is replaced by the new hour and a newline, any other hour is kept; nothing else changes |
| WallaGameReview.ReviewAndHourAgain | add_main_walla_sport_game_review.py:99-131 | empty information changes nothing, and a review-only edit repeated changes nothing more |
| WallaGameReview.AddHourAndGameReview | add_main_walla_sport_game_review.py:90-133 | only the page's first games template is edited, by the review step then the hour step; a page without one is left alone; no other template changes |
| WallaGameReview.EditGameTemplate | add_main_walla_sport_game_review.py:99-131 | the template's parameters become those of the review-then-hour edit, or its error is raised |
| WallaGameReview.HandledSpec | add_main_walla_sport_game_review.py:226-237 | the pages edited are, fixture by fixture, those of the single game played in that fixture; the run completes iff every fixture names exactly one game and otherwise stops at the first that does not |
| WallaGameReview.AddOneSeason | add_main_walla_sport_game_review.py:220-237 | the loop picks the same games, and stops at the same fixture, as the reference definition |
| WallaGameReview.HandledStops | add_main_walla_sport_game_review.py:229-231 | once a fixture stops the run, later fixtures change nothing |
| VolleyballSets.IsHomeCases | reorganize_volleyball_sets_params.py:80 | with `find` returning -1 for a missing text: a title without the Maccabi name counts as a home game exactly when it contains "נגד", and a title without "נגד" is never a home game |
| VolleyballSets.Scores | reorganize_volleyball_sets_params.py:64 | splitting the stripped, quote-free value on ":" always gives at least one piece |
| VolleyballSets.DerivedNames | reorganize_volleyball_sets_params.py:60-69 | the Maccabi and opponent parameter names derived from a set name differ from each other and from the set name, and need no stripping |
| VolleyballSets.SplitSetSpec | reorganize_volleyball_sets_params.py:55-69 | a missing set parameter changes nothing; a blank one adds both new parameters empty; RuntimeError iff a non-blank value has fewer than two scores; otherwise the Maccabi and opponent parameters get the scores indexed by the home flag; every other parameter is unchanged |
| VolleyballSets.SplitSetIdempotent | reorganize_volleyball_sets_params.py:55-69 | splitting a set a second time changes nothing |
| VolleyballSets.SplitAllKeeps | reorganize_volleyball_sets_params.py:82-87 | the six splits leave every parameter that none of them writes unchanged |
| VolleyballSets.SetNamesPlain | reorganize_volleyball_sets_params.py:82-87 | the six set names need no stripping and are 6 to 9 letters long |
| VolleyballSets.ReorganizeSetsParams | reorganize_volleyball_sets_params.py:72-89 | only the page's first volleyball games template is edited, by the six splits in order with the home flag from the title; a page without one is left alone |
| VolleyballSets.SplitSets | reorganize_volleyball_sets_params.py:82-87 | the template's parameters become those of the six splits in order, or the first RuntimeError |
| VolleyballSets.SplitSetParam | reorganize_volleyball_sets_params.py:55-69 | the template's parameters become those of one split, or RuntimeError |
| VolleyballPlayersEvents.CollectedSpec | src/maccabipediabot/volleyball_players_events.py:72-128 | the row loop raises ValueError iff some line splits into other than two parts; otherwise every entry line's name is a key, and each key holds the value of the last line naming it |
| VolleyballPlayersEvents.ExtractRows | src/maccabipediabot/volleyball_players_events.py:72-128 | the loop over a list's lines fills the same dictionary as the reference definition, and an empty one when the parameter is missing |
| VolleyballPlayersEvents.CollectedStops | src/maccabipediabot/volleyball_players_events.py:87 | once a line fails to unpack, the whole extraction fails with ValueError |
| VolleyballPlayersEvents.PlayersData | src/maccabipediabot/volleyball_players_events.py:131-135 | one record per name of the enumeration order |
| VolleyballPlayersEvents.PlayersDataSpec | src/maccabipediabot/volleyball_players_events.py:131-135 | one record per name found in either list, no name twice; a record has a shirt number iff its name is in the squad list and a score iff it is in the summary, each the listed value |
| VolleyballPlayersEvents.NamesDiffer | src/maccabipediabot/volleyball_players_events.py:74-161 | the squad, summary and players parameter names are pairwise different |
| VolleyballPlayersEvents.PlayersEventsEditSpec | src/maccabipediabot/volleyball_players_events.py:138-161 | without a squad list nothing changes; otherwise the squad list is removed and the players parameter holds the "\n,"-joined "name::number::score" records; every other parameter is unchanged |
| VolleyballPlayersEvents.PlayersEventsEditOnce | src/maccabipediabot/volleyball_players_events.py:153-157 | a second run finds no squad list and changes nothing |
| VolleyballPlayersEvents.BuildPlayersEvents | src/maccabipediabot/volleyball_players_events.py:138-161 | only the page's first volleyball games template is edited, a failing extraction leaves it unchanged, and no other template changes |
| VolleyballPlayersEvents.EditTemplate | src/maccabipediabot/volleyball_players_events.py:150-161 | the template's parameters become those of the edit, or its error is raised with the template unchanged |
| BasketballPlayerProfile.NamesFacts | fix_basketball_players_template.py:27-42 | the six field names the clean-up touches are pairwise different and need no stripping |
| BasketballPlayerProfile.DottedDateSpec | fix_basketball_players_template.py:37-40 | a rewritten date is the stripped value with every dash turned into a dot and no dash left, and rewriting again changes nothing |
| BasketballPlayerProfile.DroppedSpec | fix_basketball_players_template.py:27-34 | a dropped field is absent afterwards and every other field is as it was |
| BasketballPlayerProfile.WithoutCareerSpec | fix_basketball_players_template.py:27-34 | the seasons, titles and citizenship fields are gone and nothing else changes |
| BasketballPlayerProfile.WithDottedDateSpec | fix_basketball_players_template.py:36-40 | a present date field gets its dotted value, an absent one stays absent, other fields are untouched |
| BasketballPlayerProfile.WithDatesSpec | fix_basketball_players_template.py:36-40 | birth and death dates, where present, are dotted; nothing else changes |
| BasketballPlayerProfile.WithHeightSpec | fix_basketball_players_template.py:42-49 | IndexError iff the height is present and blank; otherwise a present height becomes its first word when that differs from the stripped value and holds a '.', and other fields are untouched |
| BasketballPlayerProfile.FixedProfileSpec | fix_basketball_players_template.py:27-49 | the whole clean-up: career fields gone, dates dotted, height cut, every other field unchanged, and IndexError exactly for a blank height |
| BasketballPlayerProfile.WordsOfWord | fix_basketball_players_template.py:44 | a single whitespace-free word splits to itself |
| BasketballPlayerProfile.NewHeightIdempotent | fix_basketball_players_template.py:43-49 | cutting a height twice gives the same value as cutting it once |
| BasketballPlayerProfile.FixedProfileIdempotent | fix_basketball_players_template.py:27-49 | running the clean-up on a cleaned template changes nothing |
| BasketballPlayerProfile.FixPlayerPage | fix_basketball_players_template.py:20-51 | a page without the profile marker is skipped; otherwise IndexError when the page holds no template, else only the page's first template is cleaned, whatever its name, as the positional `filter_templates` argument at :25 selects it |
| BasketballPlayerProfile.FixTemplate | fix_basketball_players_template.py:27-49 | the template's parameters become the cleaned ones, or IndexError on a blank height |
| BasketballPlayerProfile.DropCareer | fix_basketball_players_template.py:27-34 | the template loses exactly the three career fields |
| BasketballPlayerProfile.DotDates | fix_basketball_players_template.py:36-40 | the template's dates are rewritten with dots |
| BasketballPlayerProfile.CutHeight | fix_basketball_players_template.py:42-49 | the template's height is cut, or IndexError on a blank height |
| LeagueTablesToGamePages.WordAfterFromSpec | league_tables_files_to_game_pages.py:41-47 | the result is the word after the first whitespace-separated occurrence of the target, cut at its first '.'; IndexError when the target is the last word; RuntimeError iff the target is not a word of the text |
| LeagueTablesToGamePages.WordAfterFromNone | league_tables_files_to_game_pages.py:41-47 | the search from a word on raises RuntimeError iff the target is none of the remaining words |
| LeagueTablesToGamePages.WordAfterFromFirst | league_tables_files_to_game_pages.py:41-47 | when the first remaining occurrence of the target is at a given word, the result is the next word cut at its first '.', or IndexError when there is no next word |
| LeagueTablesToGamePages.GetWordAfter | league_tables_files_to_game_pages.py:41-47 | the loop over the words returns what the reference definition gives |
| LeagueTablesToGamePages.ReplacedHead | league_tables_files_to_game_pages.py:36 | the spelling fix keeps a name's first character |
| LeagueTablesToGamePages.ReplacedStartsTav | league_tables_files_to_game_pages.py:36 | a fixed name starts with "תר" only if the original did |
| LeagueTablesToGamePages.ReplacedStartsYod | league_tables_files_to_game_pages.py:36 | a fixed name starts with "יתר" only if the original did |
| LeagueTablesToGamePages.QuotedInFront | league_tables_files_to_game_pages.py:36 | putting the quoted spelling before a text without "ביתר" creates no "ביתר" |
| LeagueTablesToGamePages.CharInFront | league_tables_files_to_game_pages.py:36 | a character in front of a fixed text creates no "ביתר" unless the original started one there |
| LeagueTablesToGamePages.BeitarGone | league_tables_files_to_game_pages.py:36 | no "ביתר" is left in a fixed page name |
| LeagueTablesToGamePages.BeitarFixedIdempotent | league_tables_files_to_game_pages.py:36 | fixing the spelling twice equals fixing it once |
| LeagueTablesToGamePages.GamePageOfFileSpec | league_tables_files_to_game_pages.py:50-62 | when exactly one game of the file's season was played in its fixture, the page found is that game's page |
| LeagueTablesToGamePages.WithLeagueTableSpec | league_tables_files_to_game_pages.py:74-93 | a non-blank table argument is never overwritten; a written one holds the file's title; ValueError only when the name is in the text without being a parameter; no other parameter changes |
| LeagueTablesToGamePages.MakeSureLeagueTableOnPage | league_tables_files_to_game_pages.py:65-93 | a missing game page raises RuntimeError; a page holding no template raises IndexError; otherwise only the page's first template, whatever its name (the positional `filter_templates` argument at :72), gets the add-if-blank rule |
| LeagueTablesToGamePages.AddLeagueTable | league_tables_files_to_game_pages.py:74-84 | the template's parameters become those of the add-if-blank rule, or its ValueError |
| PaperPublishDate.RunEnd | add_publish_date_for_papers.py:31 | the end of the longest run of digits and dots from a position, as the greedy `[\d.]*` takes it |
| PaperPublishDate.FindGroup | add_publish_date_for_papers.py:31 | `re.search` for a bracketed run of digits and dots: the leftmost position where one starts, -1 iff there is none |
| PaperPublishDate.PublishDateOf | add_publish_date_for_papers.py:30-41 | a found publish date is always ten characters, dd-mm-yyyy |
| PaperPublishDate.NoGroupNoDate | add_publish_date_for_papers.py:31-33 | a title without a bracketed run of digits and dots has no publish date |
| PaperPublishDate.PublishDateReadsBack | add_publish_date_for_papers.py:35-37 | a found publish date comes from the first bracketed group, which parses as dd.mm.yyyy, and reads back as the same date |
| PaperPublishDate.FirstGroupDecides | add_publish_date_for_papers.py:31-41 | only the first bracketed group counts: when it does not parse, the title has no date even if a later group would |
| PaperPublishDate.PublishDateRoundTrip | add_publish_date_for_papers.py:30-41 | a title carrying "(dd.mm.yyyy)" after a bracket-free prefix yields exactly that date as dd-mm-yyyy |
| PaperPublishDate.WithPublishDateSpec | add_publish_date_for_papers.py:52-56 | a template whose text already mentions the publish-date name is left alone; otherwise the parameter is added with the date; no other parameter changes; a second run changes nothing |
| PaperPublishDate.HandleMaarivPaperPage | add_publish_date_for_papers.py:44-61 | a title without a date leaves the page alone; a page holding no template raises IndexError; otherwise only the page's first template, whatever its name (the positional `filter_templates` argument at :50), gets the publish date, and the page is saved iff the name was not already in its text |
| Paths.LastDot | papers/try_fix_papers_names.py:26-27 | the index of the last '.' before the bound, or -1, and no '.' lies after it: where pathlib splits a name into stem and suffix |
| Paths.StemAndSuffix | papers/try_fix_papers_names.py:27 | a name's stem followed by its suffix is the name again |
| Paths.SuffixProper | papers/try_fix_papers_names.py:27 | a suffix is empty or a proper one (a '.' followed by dot-free text) |
| Paths.NameParts | papers/try_fix_papers_names.py:27 | a non-empty stem joined to a proper suffix splits back into that same stem and suffix |
| Paths.Directory.constructor | papers/try_fix_papers_names.py:60 | a folder starts out holding exactly the given names |
| Paths.Directory.Rename | papers/try_fix_papers_names.py:14 | Path.rename: FileNotFoundError when the source is missing, FileExistsError when another file has the target, otherwise the source is replaced by the target and nothing else changes |
| PaperStems.ChainTaken | papers/try_fix_papers_names.py:26-27 | a rewrite that applies renames the file to the new stem and suffix, or stops the chain when that name is taken |
| PaperStems.ChainSkipped | papers/try_fix_papers_names.py:22-23 | a rewrite that does not apply leaves the file where it is and goes on with the next one |
| PaperStems.ChainSpec | papers/try_fix_papers_names.py:19-53 | a chain never lands on another file's name; a chain that completes among other files ends where it would in an empty folder, and in an empty folder every chain completes |
| PaperStems.RewriteKeepsPrefix | papers/try_fix_papers_names.py:29-47 | every rewrite after the name move keeps a stem that starts with the paper's name starting with it |
| PaperStems.ChainStems | papers/try_fix_papers_names.py:19-53 | in an empty folder the chain ends at the composed stem rewrites plus the original suffix, and that stem still starts with the paper's name |
| PaperStems.NameFirstSpec | papers/try_fix_papers_names.py:22-26 | the name move is skipped exactly when the stem already starts with the paper's name, and otherwise its result starts with the name |
| PaperStems.SpaceAfterBracketSpec | scripts/papers/try_fix_papers_names.py:49-51 | after the bracket-space rewrite every ')' is followed by a space |
| PaperStems.SpacedEverywhere | scripts/papers/try_fix_papers_names.py:50 | replacing ')' by ') ' leaves no ')' without a space after it |
| PaperStems.NoSpaceAfterEndBracketSpec | scripts/papers/try_fix_papers_names.py:54-56 | the end-bracket rewrite, when it applies, leaves the stem ending in ')' |
| PaperStems.UnspacedEnd | scripts/papers/try_fix_papers_names.py:55 | a stem ending in ') ' ends in ')' once every ') ' becomes ')' |
| PaperStems.NumberLastSpec | papers/try_fix_papers_names.py:49-53 | the page-number move applies exactly when the previous stem holds " עיתון N", and its result ends with " עיתוןN" |
| SportsNewsPaperNames.RenameFile | papers/try_fix_papers_names.py:9-16 | equal paths return at once with the folder unchanged; otherwise the rename's error, or the new path with the file moved |
| SportsNewsPaperNames.HandlePaperImageFile | papers/try_fix_papers_names.py:19-53 | the file ends where the rename chain leaves it among the other files, and FileExistsError is raised exactly when the chain stops on a taken name |
| SportsNewsPaperNames.SpacingRenames | papers/try_fix_papers_names.py:29-35 | the double-space and bracket renames and all later ones follow the chain from that step on |
| SportsNewsPaperNames.WordingRenames | papers/try_fix_papers_names.py:37-43 | the "נגד" and "מכבי" renames and all later ones follow the chain from that step on |
| SportsNewsPaperNames.NumberRenames | papers/try_fix_papers_names.py:45-53 | the makaf and page-number renames follow the chain from that step on |
| SportsNewsPaperNames.NextRename | papers/try_fix_papers_names.py:30-31 | one rename either fails with FileExistsError, leaving the folder as it was, or moves the file to a name no other file has, and the chain continues from there |
| SportsNewsPaperNames.Handled | papers/try_fix_papers_names.py:60-83 | handling one file never removes any other file of the folder |
| SportsNewsPaperNames.FixFolder | papers/try_fix_papers_names.py:56-83 | the main loop leaves the folder and the outcome the fold of Handled over the listed files gives |
| SportsNewsPaperNames.HandledKeepsCount | papers/try_fix_papers_names.py:78-83 | handling one file keeps the number of files in the folder |
| SportsNewsPaperNames.FixedKeepsCount | papers/try_fix_papers_names.py:60-83 | the whole run keeps the number of files in the folder |
| SportsNewsPaperNames.FixedKeepsOthers | papers/try_fix_papers_names.py:60-76 | a file that is not listed, or that the checks skip, is still in the folder after the run |
| SportsNewsPaperNames.StepsKeepPaperName | papers/try_fix_papers_names.py:29-53 | none of the rewrites after the name move can break the paper's name at the start of the stem |
| SportsNewsPaperNames.PaperNameLetters | papers/try_fix_papers_names.py:6 | the paper's name holds no bracket, dash, "מ" or "נ", and each of its spaces is followed by "ה" |
| SportsNewsPaperNames.FinalName | papers/try_fix_papers_names.py:19-53 | a file handled without error ends at the composed stem with its own suffix, and that stem starts with the paper's name |
| SportsNewsPaperNames.NamedFinalName | papers/try_fix_papers_names.py:22-27 | a file whose stem does not start with the paper's name ends, alone in its folder, at a stem that does |
| SportsNewsPaperNames.RetryAfterMove | papers/try_fix_papers_names.py:80-83 | when a chain moved the file before stopping on a taken name, the retry renames the old path and fails with FileNotFoundError |
| LamerhavPaperNames.FromNext | scripts/papers/try_fix_papers_names.py:21-68 | the steps from k on are step k followed by the steps from k+1 on |
| LamerhavPaperNames.RenameFile | scripts/papers/try_fix_papers_names.py:11-18 | a path renamed to itself returns at once; otherwise the rename's error, or the new path with the file moved |
| LamerhavPaperNames.NextRename | scripts/papers/try_fix_papers_names.py:25-26 | one rename either fails with FileExistsError, leaving the folder as it was, or moves the file to a name no other file has, and the chain continues from there |
| LamerhavPaperNames.HandlePaperImageFile | scripts/papers/try_fix_papers_names.py:21-77 | the file ends where the chain leaves it among the other files; the new path is returned, or FileExistsError when the chain stops on a taken name |
| LamerhavPaperNames.SpacingRenames | scripts/papers/try_fix_papers_names.py:40-46 | the second double-space rename and all later ones follow the chain from that step on |
| LamerhavPaperNames.BracketRenames | scripts/papers/try_fix_papers_names.py:48-56 | the two conditional bracket renames and all later ones follow the chain from that step on |
| LamerhavPaperNames.EndBracketRename | scripts/papers/try_fix_papers_names.py:53-55 | the rename that drops the space after a final bracket, and every later one, leave the folder where the rest of the chain puts the file, or FileExistsError when the chain hits a taken name |
| LamerhavPaperNames.AgainstRename | scripts/papers/try_fix_papers_names.py:58-60 | the "נגד" rename and all later ones follow the chain from that step on |
| LamerhavPaperNames.MaccabiRename | scripts/papers/try_fix_papers_names.py:62-64 | the "מכבי" rename and all later ones follow the chain from that step on |
| LamerhavPaperNames.MakafRename | scripts/papers/try_fix_papers_names.py:66-68 | the makaf rename and all later ones follow the chain from that step on |
| LamerhavPaperNames.NumberRenames | scripts/papers/try_fix_papers_names.py:70-75 | the page-number loop for 1 to 9 follows the chain of its nine steps |
| LamerhavPaperNames.NumberRename | scripts/papers/try_fix_papers_names.py:72-75 | one page-number rename fails leaving the folder as it was, or moves the file to a free name, and the loop continues from the next number |
| LamerhavPaperNames.Renamed | scripts/papers/try_fix_papers_names.py:11-18 | a rename keeps every other file and, when it succeeds, the target is in the folder and was free or was the source itself |
| LamerhavPaperNames.Tidied | scripts/papers/try_fix_papers_names.py:107-122 | a file with its suffix settled is skipped, renamed through the chain, or retried under the " עיתון2" name, and no other file is removed |
| LamerhavPaperNames.Handled | scripts/papers/try_fix_papers_names.py:98-122 | handling one file, its ".jpg" renames included, never removes any other file of the folder |
| LamerhavPaperNames.HandleListed | scripts/papers/try_fix_papers_names.py:89-122 | one pass of the main loop leaves the folder and outcome Handled describes |
| LamerhavPaperNames.FixFolder | scripts/papers/try_fix_papers_names.py:85-122 | the main loop leaves the folder and the outcome the fold of Handled over the listed files gives |
| LamerhavPaperNames.RenamedKeepsCount | scripts/papers/try_fix_papers_names.py:16 | a rename keeps the number of files in the folder |
| LamerhavPaperNames.TidiedKeepsCount | scripts/papers/try_fix_papers_names.py:107-122 | the bracket check, the rename chain and the retry keep the number of files in the folder |
| LamerhavPaperNames.HandledKeepsCount | scripts/papers/try_fix_papers_names.py:107-122 | handling one file keeps the number of files in the folder |
| LamerhavPaperNames.FixedKeepsCount | scripts/papers/try_fix_papers_names.py:88-122 | the whole run keeps the number of files in the folder |
| LamerhavPaperNames.FixedKeepsOthers | scripts/papers/try_fix_papers_names.py:88-122 | a file that is not listed is still in the folder after the run |
| LamerhavPaperNames.JpgName | scripts/papers/try_fix_papers_names.py:98-105 | a name without ".jpeg" ends in ".jpg" after the suffix fixes, and a doubled ".jpg" loses exactly one occurrence |
| LamerhavPaperNames.PaperNameLetters | scripts/papers/try_fix_papers_names.py:6 | the paper's name holds no space, bracket, dash or "נ", and its "מ" is followed by "ר" |
| LamerhavPaperNames.NumberStepsKeep | scripts/papers/try_fix_papers_names.py:70-75 | no page-number rename can break the paper's name at the start of the stem |
| LamerhavPaperNames.LaterStepsKeep | scripts/papers/try_fix_papers_names.py:33-75 | no rewrite from the name move on can break the paper's name at the start of the stem |
| LamerhavPaperNames.FinalName | scripts/papers/try_fix_papers_names.py:21-77 | a file handled without error ends at the composed stem with its own suffix, and that stem starts with the paper's name |
| LamerhavPaperNames.LaterSteps | scripts/papers/try_fix_papers_names.py:33-75 | alone in its folder, a file ends at the composed stem from the name move on, and that stem starts with the paper's name |
| LamerhavPaperNames.FirstTwoSteps | scripts/papers/try_fix_papers_names.py:24-31 | the first two renames take the stem to its single-spaced form without "עיתון למרחב", keeping the suffix |
| UploadGamesPapers.CastDateFromSpec | upload_games_papers_bot.py:81-93 | trying the formats from the k-th on fails, with ValueError, exactly when none of them parses, and otherwise gives the first format's parse, a real calendar date |
| UploadGamesPapers.TryCastDate | upload_games_papers_bot.py:85-93 | the loop over the four formats returns what the format-by-format specification gives |
| UploadGamesPapers.CastDashed | upload_games_papers_bot.py:85-91 | a date written day-month-year with dashes is read back as that same date |
| UploadGamesPapers.CastDotted | upload_games_papers_bot.py:85-91 | a date written day-month-year with dots is read back as that same date |
| UploadGamesPapers.FormattedShape | upload_games_papers_bot.py:97-98 | a formatted date has the two-digit, two-digit, four-digit shape the file-name patterns search for |
| UploadGamesPapers.GameDateOf | upload_games_papers_bot.py:104-107 | a game date read from a file name is a real calendar date |
| UploadGamesPapers.PublishDateOf | upload_games_papers_bot.py:116-118 | a publish date read from a file name is a real calendar date |
| UploadGamesPapers.CastPublishDate | upload_games_papers_bot.py:117-118 | a publish date that casts is present and a real calendar date |
| UploadGamesPapers.ParsePaperFileName | upload_games_papers_bot.py:96-122 | parsed details carry real dates and a non-blank paper name |
| UploadGamesPapers.ParsePaperFileNameErrors | upload_games_papers_bot.py:100-114 | more than two dashed dates raise RuntimeError, none raise TypeError, a blank override name fails, the override name wins, and the game date is the first dashed date |
| UploadGamesPapers.NoDashedDateAfter | upload_games_papers_bot.py:97 | no dashed date starts after a date when the rest holds no dash |
| UploadGamesPapers.PatternShift | upload_games_papers_bot.py:97-98 | a date pattern sits at a position of the tail exactly when it sits at the shifted position of the whole text |
| UploadGamesPapers.NoDottedBefore | upload_games_papers_bot.py:98 | a digit-free prefix and a dashed date hold no dotted date that starts before the rest |
| UploadGamesPapers.FirstDottedInRest | upload_games_papers_bot.py:98 | the first dotted date of the whole name is the first dotted date of the part after the game date |
| UploadGamesPapers.DashedFound | upload_games_papers_bot.py:97 | the dashed-date search finds exactly the one game date after a digit-free prefix |
| UploadGamesPapers.NameBeforeDate | upload_games_papers_bot.py:112 | splitting on the game date gives the digit-free prefix first |
| UploadGamesPapers.PaperFileNameRoundTrip | upload_games_papers_bot.py:96-122 | a name written as prefix, game date and rest parses to the cleaned prefix, that game date and the rest's publish date |
| UploadGamesPapers.RoundTripGame | upload_games_papers_bot.py:104-112 | the game date and the paper name are read back from such a name |
| UploadGamesPapers.RoundTripPublish | upload_games_papers_bot.py:116-118 | the publish date of such a name is the one of its rest |
| UploadGamesPapers.PublishPart | upload_games_papers_bot.py:98 | the publish date comes from the part after the game date |
| UploadGamesPapers.GamePart | upload_games_papers_bot.py:97-107 | the game date is the cast of the dashed date, found right after the prefix |
| UploadGamesPapers.NamePart | upload_games_papers_bot.py:111-112 | the paper name is the prefix with underscores made spaces and trimmed |
| UploadGamesPapers.PaperFileNameExample | upload_games_papers_bot.py:207 | a name shaped like the documented example parses to its paper name, game date and publish date |
| UploadGamesPapers.TemplateNamesDiffer | upload_games_papers_bot.py:26-28 | the three parameter names are trimmed and distinct, so adding one never overwrites another |
| UploadGamesPapers.PaperTemplateSpec | upload_games_papers_bot.py:44-63 | RuntimeError exactly when the publish date is over a week from the game or the day does not have exactly one game; otherwise the template holds the name, the publish date when given, the game's page name, and nothing else |
| UploadGamesPapers.FinalName | upload_games_papers_bot.py:158-160 | the file's page name starts with the override paper name and a space |
| UploadGamesPapers.FinalNameOnce | upload_games_papers_bot.py:158-160 | prefixing twice is prefixing once, and a name is kept exactly when it already starts with the override name |
| UploadGamesPapers.HandlePaperNeverOverwrites | upload_games_papers_bot.py:152-177 | an upload never lands on an existing page and is named with the override; an existing page raises the duplicate error; no override raises the plain exception |
| UploadGamesPapers.MovedSpec | upload_games_papers_bot.py:139-150 | each handled file goes to exactly one of passed, duplicate or failed, and no existing wiki page changes |
| UploadGamesPapers.UploadedPartition | upload_games_papers_bot.py:131-150 | the input files are split, as a multiset, among passed, duplicate and failed, and no existing wiki page changes |
| UploadGamesPapers.UploadedFolders | upload_games_papers_bot.py:131-150 | the input files end up, as a multiset, split among passed, duplicate and failed |
| UploadGamesPapers.UploadedKeepsPages | upload_games_papers_bot.py:131-150 | no page already on the wiki is changed by the upload run |
| UploadGamesPapers.MovedPrefixed | upload_games_papers_bot.py:139-150 | moving a file commutes with the folders' earlier contents |
| UploadGamesPapers.UploadedStep | upload_games_papers_bot.py:135-150 | handling one more input file extends the run by that file's outcome |
| UploadGamesPapers.PaperFolders.constructor | upload_games_papers_bot.py:127-129 | a new bot has the given input files, empty output folders and the given wiki |
| UploadGamesPapers.PaperFolders.UploadPapers | upload_games_papers_bot.py:131-150 | the input folder is emptied and each output folder gains what the run over the input files gives |
| UploadGamesPapers.PaperFolders.HandleNext | upload_games_papers_bot.py:136-150 | handling the next input file removes it from the input and extends the run by one file |
| UploadGamesPapers.PaperFolders.MoveFile | upload_games_papers_bot.py:142-150 | the file leaves the input and goes to the folder its outcome names |
| FootballCalendar.SharedValue | maccabipedia_calendar/main.py:40 | looking a key up in an event's shared properties succeeds exactly when the event has them and they hold the key (otherwise KeyError) |
| FootballCalendar.FirstMatch | maccabipedia_calendar/main.py:37-46 | the position of the first listed event with the same key, or the list's length: no earlier event matches and the one found does |
| FootballCalendar.Search | maccabipedia_calendar/main.py:27-46 | an event without extended properties is never found |
| FootballCalendar.SearchSpec | maccabipedia_calendar/main.py:27-46 | for keyed events the search gives nothing when no event matches, otherwise the first match when it has an id and the searched event when it does not |
| FootballCalendar.SyncActionSpec | maccabipedia_calendar/main.py:52-59 | an unmatched site game is uploaded; a matched one with an id is updated exactly when summary, description, start or location differ; a match without an id gives nothing |
| FootballCalendar.SyncedSpec | maccabipedia_calendar/main.py:49-59 | over keyed events the sync raises nothing, emits at most one action per game, and uploads every game the calendar lacks |
| FootballCalendar.SyncedStops | maccabipedia_calendar/main.py:52-59 | once a game raises, the later games emit nothing |
| FootballCalendar.SyncFutureGames | maccabipedia_calendar/main.py:49-59 | the loop emits the actions, and stops with the error, that the game-by-game specification gives |
| FootballCalendar.DeleteActionSpec | maccabipedia_calendar/main.py:69-74 | a calendar event is deleted exactly when no site game has its key |
| FootballCalendar.DeletedStops | maccabipedia_calendar/main.py:69-74 | once an event raises, the later events emit nothing |
| FootballCalendar.DeleteUnnecessaryEvents | maccabipedia_calendar/main.py:62-74 | the loop emits the deletions, and stops with the error, that the event-by-event specification gives |
| FootballCalendar.DeletedSpec | maccabipedia_calendar/main.py:62-74 | over keyed events nothing raises, and an event is deleted if and only if no site game has its key |
| FootballCalendar.DeletedComplete | maccabipedia_calendar/main.py:62-74 | every calendar event missing from the site is deleted |
| FootballCalendar.DeletedSound | maccabipedia_calendar/main.py:62-74 | every deletion is of a calendar event missing from the site |
| FootballCalendar.LastGameUpdateSpec | maccabipedia_calendar/main.py:77-89 | the last game updates the calendar's event exactly when their keys match, the event's result is empty and it has an id, and the update replaces that event by the site game |
| FootballCalendar.FirstSeasonLabel | maccabipedia_calendar/main.py:108-111 | the first season link is logged as season 12/13 |
| FootballCalendar.SeasonLabelDigits | maccabipedia_calendar/main.py:111 | a season number is logged as number less 62, a slash, and the last two digits of number less 61 |
| FootballCalendar.SeasonsLinks | maccabipedia_calendar/main.py:103-116 | the links are those of consecutive seasons from number 74, each of whose pages holds the last-game marker, stopping at the first page that does not |
| VolleyballCalendar.FilterOverrides | maccabipedia_calendar/main_volleyball.py:41 | exactly the keys that do not start with '_' are kept, with their values |
| VolleyballCalendar.LoadGameOverrides | maccabipedia_calendar/main_volleyball.py:26-46 | a missing or unreadable file gives no overrides, a read one gives its entries without the '_' keys |
| VolleyballCalendar.ParseClock | maccabipedia_calendar/main_volleyball.py:66 | a parsed clock time has hour below 24 and minute below 60 |
| VolleyballCalendar.ParseOverrideDate | maccabipedia_calendar/main_volleyball.py:66 | a parsed override date is a real date and time; it reads one space between date and time and unpadded digits, stricter than `strptime` (see "## Left out") |
| VolleyballCalendar.DigitsNoChar | maccabipedia_calendar/main_volleyball.py:66 | an all-digit text holds no separator, so the format's separators split it unambiguously |
| VolleyballCalendar.ClockRoundTrip | maccabipedia_calendar/main_volleyball.py:66 | a zero-padded "HH:MM" reads back as that hour and minute |
| VolleyballCalendar.OverrideDateRoundTrip | maccabipedia_calendar/main_volleyball.py:66 | a date and time written "%Y-%m-%d %H:%M" reads back as itself |
| VolleyballCalendar.Overridden | maccabipedia_calendar/main_volleyball.py:60-81 | an override keeps the game's key, side and season, and replaces the date when it parses and the stadium and results when given |
| VolleyballCalendar.AppliedIdempotent | maccabipedia_calendar/main_volleyball.py:49-83 | applying the overrides twice is applying them once |
| VolleyballCalendar.ApplyOverride | maccabipedia_calendar/main_volleyball.py:57-81 | the game object is updated in place to its overridden value |
| VolleyballCalendar.ApplyOverrides | maccabipedia_calendar/main_volleyball.py:49-83 | the same list is returned, every game in it is updated to its overridden value, and with no overrides nothing changes |
| VolleyballCalendar.FormatResult | maccabipedia_calendar/main_volleyball.py:144-151 | a game without results is "not yet played", and one with only one result raises TypeError on the comparison |
| VolleyballCalendar.FormatResultSpec | maccabipedia_calendar/main_volleyball.py:148-151 | with both results, a win when Maccabi's text compares greater and a loss otherwise, a tie included; for one-digit results the text order is the numeric order |
| VolleyballCalendar.SummaryAsWritten | maccabipedia_calendar/main_volleyball.py:172 | building the summary from the absent home_away attribute always fails |
| VolleyballCalendar.SummaryAlwaysFails | maccabipedia_calendar/main_volleyball.py:172 | that failure is AttributeError, for every game |
| VolleyballCalendar.Summary | maccabipedia_calendar/main_volleyball.py:172 | the corrected summary is exactly the volleyball mark, the opponent, " - " and the home or away word |
| VolleyballCalendar.SearchById | maccabipedia_calendar/main_volleyball.py:86-106 | the search by maccabipedia id gives nothing when no event matches, otherwise the first match when it has an id and the searched event when it does not |
| VolleyballCalendar.SyncFutureGames | maccabipedia_calendar/main_volleyball.py:108-118 | the loop emits the actions, and stops with the error, that the event-by-event specification gives |
| VolleyballCalendar.IvaDeleteAction | maccabipedia_calendar/main_volleyball.py:130-135 | an event not marked as coming from the IVA site is never deleted |
| VolleyballCalendar.IvaDeletedStops | maccabipedia_calendar/main_volleyball.py:129-141 | once an event raises, the later events emit nothing |
| VolleyballCalendar.DeleteUnnecessaryEvents | maccabipedia_calendar/main_volleyball.py:121-141 | the loop emits the deletions, and stops with the error, that the event-by-event specification gives |
| VolleyballCalendar.IvaDeletedSpec | maccabipedia_calendar/main_volleyball.py:121-141 | over keyed events nothing raises, and an event is deleted if and only if it is IVA-sourced and no site event has its id |
| VolleyballCalendar.IvaDeletedComplete | maccabipedia_calendar/main_volleyball.py:121-141 | every IVA-sourced event missing from the site is deleted |
| VolleyballCalendar.IvaDeletedSound | maccabipedia_calendar/main_volleyball.py:121-141 | every deletion is of an IVA-sourced event missing from the site |
| MaccabiTlvSite.GetChannel | calendar/maccabi_tlv_site.py:16-20 | a known channel logo gives its channel line, any other source the empty text |
| MaccabiTlvSite.GetMonth | calendar/maccabi_tlv_site.py:23-37 | a month abbreviation that is known gives a month number from 1 to 12 |
| MaccabiTlvSite.MonthsSpec | calendar/maccabi_tlv_site.py:23-37 | the twelve abbreviations give the months 1 to 12 in order, and the only abbreviations known are those, so the table is a bijection |
| MaccabiTlvSite.MonthNumbers | calendar/maccabi_tlv_site.py:24-37 | the i-th abbreviation gives month i+1 |
| MaccabiTlvSite.MonthNamed | calendar/maccabi_tlv_site.py:24-37 | a known abbreviation is the one listed at its month's place |
| MaccabiTlvSite.GetStadium | calendar/maccabi_tlv_site.py:40-59 | a known short stadium name gives its full name, any other the empty text |
| MaccabiTlvSite.GetCompetition | calendar/maccabi_tlv_site.py:62-67 | the sponsor names of the premier league give the league's own name, any other name is kept |
| MaccabiTlvSite.FormatDatetime | calendar/maccabi_tlv_site.py:70-91 | a parsed date and time is a real one, and a missing time means 20:00 |
| MaccabiTlvSite.Clock | calendar/maccabi_tlv_site.py:83-89 | an empty time text is 20:00; otherwise a time read is the pair of numbers `int()` reads from the parts before and after the first ':' |
| MaccabiTlvSite.NewDateTime | calendar/maccabi_tlv_site.py:91 | `datetime(...)` succeeds exactly for a known month and a real date and time, and gives them; a year that fits a C int with an unknown month is a TypeError; a failure with every argument fitting a C int is a ValueError |
| MaccabiTlvSite.ClockReadsRawText | calendar/maccabi_tlv_site.py:86-89 | a time text with a space after the minutes reads as that time |
| MaccabiTlvSite.FormatDatetimeReadsRawText | calendar/maccabi_tlv_site.py:79-91 | a raw date text ending in a newline reads as that date, at 20:00 when there is no time |
| MaccabiTlvSite.SiteDateParts | calendar/maccabi_tlv_site.py:79-82 | a date as the site writes it splits on spaces into day, month abbreviation and year |
| MaccabiTlvSite.FormatDatetimeRoundTrip | calendar/maccabi_tlv_site.py:70-91 | a date and time written as the site writes them read back as themselves, and with no time as 20:00 that day |
| MaccabiTlvSite.GameSchedule | calendar/maccabi_tlv_site.py:140-148 | the start is the parsed date and first word of the location line, the end is two hours later, and the stadium is the full name of the second word |
| MaccabiTlvSite.Summary | calendar/maccabi_tlv_site.py:151-154 | the summary is exactly the opponent followed by " - home" or " - away", in Hebrew |
| MaccabiTlvSite.Fixture | calendar/maccabi_tlv_site.py:156-158 | the fixture is the competition's name, followed by a comma and the round when one is given |
| MaccabiTlvSite.GetResult | calendar/maccabi_tlv_site.py:94-105 | a game with either score missing has no result line |
| MaccabiTlvSite.GetResultSpec | calendar/maccabi_tlv_site.py:110-115 | the result is a win, tie or loss by the text order of the scores, a tie exactly when the texts are equal |
| MaccabiTlvSite.GetResultMislabels | calendar/maccabi_tlv_site.py:110 | a 10-2 win is labelled a loss and a 2-10 loss a win, because the scores are compared as text |
| MaccabiTlvSite.GetResultByValue | calendar/maccabi_tlv_site.py:94-115 | with the scores compared as numbers, a game with either score missing still has no result line |
| MaccabiTlvSite.GetResultByValueSpec | calendar/maccabi_tlv_site.py:110-115 | with the scores compared as numbers, a win, tie or loss exactly as Maccabi's score is greater, equal or smaller |
| MaccabiTlvSite.GetResultByValueFixes | calendar/maccabi_tlv_site.py:110-111 | the 10-2 game is labelled a win |
| MaccabiTlvSite.ScheduledEventsSpec | calendar/maccabi_tlv_site.py:218-228 | every game with a final date that is not a youth game gives its event, and every event comes from such a game |
| MaccabiTlvSite.FetchGames | calendar/maccabi_tlv_site.py:201-235 | the last-game mode gives the first game's event, or AttributeError on an empty page; the other mode gives the events of the scheduled games |
| VolleyballFolders.HomeTeam | gamesbot_volleyball.py:67-72 | Maccabi is the home team of a home game, the opponent of an away game |
| VolleyballFolders.AwayTeam | gamesbot_volleyball.py:74-79 | the opponent is the away team of a home game, Maccabi of an away game |
| VolleyballFolders.NoSpaceIn | gamesbot_volleyball.py:86 | the digits of a year hold none of the characters the season clean-up removes or replaces |
| VolleyballFolders.SeasonNameSpec | gamesbot_volleyball.py:86 | a season folder "עונת X-Y" becomes the season "X/Y" |
| VolleyballFolders.SeasonWordRemoved | gamesbot_volleyball.py:86 | removing the season word leaves the rest of the folder name |
| VolleyballFolders.DashesToSlashes | gamesbot_volleyball.py:86 | the one dash between two years becomes a slash |
| VolleyballFolders.TrimAll | gamesbot_volleyball.py:90 | each part is trimmed in place, none added or dropped |
| VolleyballFolders.BuildGameFromFolder | gamesbot_volleyball.py:82-104 | a built game takes its season from the first folder, its competition from the second, and fixture, opponent, date and side from the trimmed dash-parts of the third, home when there is no side or it is home or neutral, and a missing side only for a trophy; a non-trophy without a side raises RuntimeError |
| VolleyballFolders.DateTextChars | gamesbot_volleyball.py:90-91 | a dotted date holds no dash and has no surrounding whitespace, so it survives the split and the trim |
| VolleyballFolders.SplitFour | gamesbot_volleyball.py:90 | four dash-free parts joined by dashes split back into the same four parts |
| VolleyballFolders.TrimFour | gamesbot_volleyball.py:90 | trimming already stripped parts keeps them |
| VolleyballFolders.DetailsPieces | gamesbot_volleyball.py:90 | a game folder written from a game splits and trims into its fixture, opponent, dotted date and side word |
| VolleyballFolders.FolderRoundTrip | gamesbot_volleyball.py:82-104 | the folders written from a game are read back as that same game |
| VolleyballFolders.BuildFromPieces | gamesbot_volleyball.py:90-104 | four parts with a parsed date give the game of those parts, home exactly when the side word is home or neutral |
| VolleyballFolders.DateReadsBack | gamesbot_volleyball.py:91 | a dotted date reads back as itself |
| VolleyballFolders.FolderGamesSpec | gamesbot_volleyball.py:107-121 | every folder that builds gives its game, every game comes from a folder that builds, and there are no more games than folders |
| VolleyballFolders.FolderGamesCover | gamesbot_volleyball.py:107-121 | there are no more games than folders, and every folder that builds contributes its game |
| VolleyballFolders.FolderGamesFrom | gamesbot_volleyball.py:107-121 | every game read comes from some folder that builds into it |
| VolleyballFolders.GetVolleyballGames | gamesbot_volleyball.py:107-121 | the loop collects the games of the folders that build, in order, skipping the failures |
| VolleyballFolders.PageName | gamesbot_volleyball.py:124-132 | the page name starts with the volleyball prefix and a colon and ends with the competition |
| VolleyballFolders.PageNameSpec | gamesbot_volleyball.py:124-132 | the page name holds the game's date right after the prefix, and the home team against the away team |
| VolleyballFolders.DashedDate | gamesbot_volleyball.py:126-127 | a date written with dashes is ten characters and reads back as itself |
| VolleyballFolders.PageNameParts | gamesbot_volleyball.py:125 | the date sits right after the prefix, and the teams' text is inside the name |
| VolleyballGames.VolleyballGame.constructor | volleyball_game.py:6-16 | a new game has the given fields and no stadium or results |
| VolleyballGames.VolleyballGame.FromValue | volleyball_game.py:6-16 | a game built from a value holds exactly that value |
| VolleyballGames.VolleyballGame.HomeTeam | volleyball_game.py:18-23 | Maccabi is the home team of a home game, the opponent of an away game |
| VolleyballGames.VolleyballGame.AwayTeam | volleyball_game.py:25-30 | the opponent is the away team of a home game, Maccabi of an away game |
| VolleyballGames.Sides | volleyball_game.py:18-30 | the two sides are Maccabi and the opponent, in home-then-away order |
| IvaUpload.RowDate | upload_volleyball_games_from_iva_site.py:24-25 | fewer than four words raise IndexError; otherwise the date is the first word and the clock the fourth, and a parsed date is a real one |
| IvaUpload.NoWhitespaceInDigits | upload_volleyball_games_from_iva_site.py:24 | digits hold no whitespace, so a number is one word |
| IvaUpload.DateWords | upload_volleyball_games_from_iva_site.py:24-25 | a written date and a written clock each are one word |
| IvaUpload.RowDateRoundTrip | upload_volleyball_games_from_iva_site.py:24-25 | a date cell written as date, two words and clock reads back as that date and time |
| IvaUpload.RowResults | upload_volleyball_games_from_iva_site.py:31-35 | a missing result or one without a dash means no results, and the only failure is ValueError |
| IvaUpload.RowResultsSpec | upload_volleyball_games_from_iva_site.py:32-33 | "a-b" gives Maccabi b and the opponent a at home, and Maccabi a and the opponent b away |
| IvaUpload.RowCompetition | upload_volleyball_games_from_iva_site.py:37-44 | the frame names the league or the trophy, or RuntimeError; the league wins when both appear, and the fixture is the frame without that name |
| IvaUpload.GameFromRowSpec | upload_volleyball_games_from_iva_site.py:23-56 | a row builds exactly when its date, result and frame do, with home meaning the host is Maccabi, the other side as opponent, the current season and the row's hall; a bad date's error and an unknown frame's RuntimeError come through |
| IvaUpload.GameFromRowAsWritten | upload_volleyball_games_from_iva_site.py:47-56 | passing stadium and results to the six-field game class never builds a game |
| IvaUpload.AsWrittenNeverBuilds | upload_volleyball_games_from_iva_site.py:47-56 | every row that would build raises TypeError instead, and every other row fails as it would anyway |
| IvaUpload.RowRoundTrip | upload_volleyball_games_from_iva_site.py:23-56 | a home league row written from a game's date, guest, hall, result and fixture builds that game |
| IvaUpload.CorrectedHall | upload_volleyball_games_from_iva_site.py:70 | a hall is present exactly when it was, and then it is its corrected name |
| IvaUpload.CorrectTeamName | upload_volleyball_games_from_iva_site.py:59-66 | the game's opponent becomes its corrected name and nothing else changes |
| IvaUpload.CorrectStadiumName | upload_volleyball_games_from_iva_site.py:69-76 | the game's stadium becomes its corrected name and nothing else changes |
| IvaUpload.CorrectNamings | upload_volleyball_games_from_iva_site.py:79-81 | the game becomes its corrected value: opponent and stadium corrected |
| IvaUpload.Built | upload_volleyball_games_from_iva_site.py:104-105 | with the corrected builder of "## Findings" (the game class given only its own fields), each row gives its own build outcome, in order |
| IvaUpload.CollectedSpec | upload_volleyball_games_from_iva_site.py:104-109 | with the corrected builder of "## Findings", the rows are collected exactly when every row builds, and then each game is its row's game corrected |
| IvaUpload.CollectedStops | upload_volleyball_games_from_iva_site.py:104-107 | the first row that fails ends the run with its error |
| IvaUpload.ReadRow | upload_volleyball_games_from_iva_site.py:105-106 | with the corrected builder of "## Findings", a row that builds gives a new game object holding its corrected value, and a failure is passed on |
| IvaUpload.Values | upload_volleyball_games_from_iva_site.py:98-107 | the values of the records, one for one |
| IvaUpload.ValuesAppend | upload_volleyball_games_from_iva_site.py:107 | appending a record appends its value |
| IvaUpload.ReadRows | upload_volleyball_games_from_iva_site.py:104-109 | with the corrected builder of "## Findings", the loop returns game objects holding what the collection specification gives, or its error |
| IvaUpload.ExtractGamesMetadata | upload_volleyball_games_from_iva_site.py:84-109 | more than one table raises RuntimeError, none IndexError, and one table gives the collected games of its selected rows, built with the corrected builder of "## Findings" |
| IvaUpload.SelectedHaveResults | upload_volleyball_games_from_iva_site.py:99-102 | without future games exactly the rows that have a result are read |
| VolleyballLeagueTable.Fields | update_league_table_volleyball.py:36-40 | a team record is written as its nine fields |
| VolleyballLeagueTable.NoCaretInDigits | update_league_table_volleyball.py:37 | a number's digits hold no '^', so the field separator stays unambiguous |
| VolleyballLeagueTable.RenderRoundTrip | update_league_table_volleyball.py:36-40 | a record whose texts hold no '^' splits back on '^' into its nine fields, the name first and the points last |
| VolleyballLeagueTable.AfterFirstDot | update_league_table_volleyball.py:44 | the text after the first dot, or nothing when there is no dot |
| VolleyballLeagueTable.AfterFirstDotSpec | update_league_table_volleyball.py:44 | a position without a dot, a dot and a team give back the team part |
| VolleyballLeagueTable.AgainstFor | update_league_table_volleyball.py:48-49 | a score cell unpacks exactly when it splits on '-' into two parts, and ValueError otherwise |
| VolleyballLeagueTable.AgainstForSpec | update_league_table_volleyball.py:48-49 | "against-for" gives those two parts, against first |
| VolleyballLeagueTable.ParseTeamRecord | update_league_table_volleyball.py:43-54 | a row parses exactly when both score cells unpack; the name is the trimmed text after the first dot, the score cells give against then for, and the counts are copied |
| VolleyballLeagueTable.ParseTeamRecordRoundTrip | update_league_table_volleyball.py:43-54 | a row written as position, dot and team, with "a-b" and "c-d" cells, parses to the team with for b, against a, sets for d and against c |
| VolleyballLeagueTable.Renamed | update_league_table_volleyball.py:67-68 | each record's name is corrected through the table and nothing else changes |
| VolleyballLeagueTable.RenameTeams | update_league_table_volleyball.py:67-68 | the loop corrects every record's name in place |
| VolleyballLeagueTable.ParseRecords | update_league_table_volleyball.py:63-65 | the loop parses the rows in order and stops at the first failure with its error |
| VolleyballLeagueTable.LeagueDataSpec | update_league_table_volleyball.py:57-75 | the table text exists exactly when every row parses, and is then the renamed records' lines joined by ",\n" |
| VolleyballLeagueTable.FetchLeagueData | update_league_table_volleyball.py:57-75 | no table raises IndexError; otherwise the first table gives the league text |
| EuroleagueTable.TableRow | update_euroleague_table_basketball.py:52-68 | a row fails with ValueError exactly when wins or losses is not a number, and otherwise is its seven fields joined by '^' with the computed points |
| EuroleagueTable.RowFields | update_euroleague_table_basketball.py:57-67 | seven fields, the team's corrected name first and the points last |
| EuroleagueTable.NoCaretInDigits | update_euroleague_table_basketball.py:57 | a number's digits hold no '^' |
| EuroleagueTable.TableRowSpec | update_euroleague_table_basketball.py:53-67 | with numeric wins w and losses l the row is written, splits back on '^' into its fields, and its points read back as 2w+l |
| EuroleagueTable.NoCaretInFields | update_euroleague_table_basketball.py:57-67 | seven fields without '^' hold no '^' anywhere |
| EuroleagueTable.TeamNameSpec | update_euroleague_table_basketball.py:59 | a known team gets its Hebrew name, any other keeps its own |
| EuroleagueTable.FetchTableData | update_euroleague_table_basketball.py:46-72 | the loops give the table text the row-by-row specification gives, or its first error |
| EuroleagueTable.AppendRows | update_euroleague_table_basketball.py:52-68 | the inner loop extends the rows read so far by those of the next table, or stops at the first failure |
| EuroleagueTable.FailedLater | update_euroleague_table_basketball.py:49-68 | once a row fails, the whole fetch fails with that error |
| LeagueTableBasketball.RowFields | update_league_table_basketball.py:48-58 | a row is written as seven fields |
| LeagueTableBasketball.NoCaretInDigits | update_league_table_basketball.py:51 | a number's digits hold no '^' |
| LeagueTableBasketball.NoCaretInFields | update_league_table_basketball.py:48-58 | seven fields without '^' hold no '^' anywhere |
| LeagueTableBasketball.TableRowSpec | update_league_table_basketball.py:48-58 | a row whose texts hold no '^' splits back into its fields, the games, scored and conceded read back as numbers and the points text is kept |
| LeagueTableBasketball.TeamNameSpec | update_league_table_basketball.py:50 | a known team gets its Hebrew name, any other keeps its own |
| LeagueTableBasketball.TableDataSpec | update_league_table_basketball.py:40-63 | the table text is the rows of all tables, in order, each written as a line, joined by ",\n" |
| LeagueTableBasketball.FetchLeagueTableData | update_league_table_basketball.py:40-63 | the loops give the table text the specification gives |
| LeagueTableBasketball.AppendRows | update_league_table_basketball.py:46-59 | the inner loop extends the rows written so far by those of the next table |
| VideoLinks.SeasonText | scripts/videos/games_full_link.py:45 | the season text is one character longer than the sheet name |
| VideoLinks.SeasonTextSpec | scripts/videos/games_full_link.py:45 | the season text is the sheet name with one '/' put in at the cut, and nothing else changed |
| VideoLinks.SeasonOfYears | scripts/videos/games_full_link.py:45 | a four-character first year followed by the second part gives "first/second" |
| VideoLinks.FindGameSpec | scripts/videos/games_full_link.py:44-55 | the game found is a listed game of that round and season; no candidate or two candidates raise RuntimeError, and exactly one candidate is returned |
| VideoLinks.AddParam | scripts/videos/games_full_link.py:68-88 | a missing page or one that already has the parameter raises RuntimeError; a page that is saved holds a link |
| VideoLinks.AddParamWithoutBroadcast | scripts/videos/games_full_link.py:82-88 | a page without the broadcast field is left as it is, and saved only when it already holds a link |
| VideoLinks.BroadcastInsert | scripts/videos/games_full_link.py:83 | the one broadcast field is followed by the new parameter and the rest of the page is kept |
| VideoLinks.AddParamOnce | scripts/videos/games_full_link.py:68-88 | the parameter is inserted after the broadcast field, and adding it a second time raises RuntimeError |
| VideoLinks.UploadedSpec | scripts/videos/games_full_link.py:101-109 | one entry changes at most one page, and only by giving it the parameter |
| VideoLinks.ReplacedHasParam | scripts/videos/games_full_link.py:83 | a replacement that changes the page puts the parameter in it |
| VideoLinks.ReplacedFromField | scripts/videos/games_full_link.py:83 | text that starts with the broadcast field starts with the new field after the replacement |
| VideoLinks.WithParamHasParam | scripts/videos/games_full_link.py:76 | the inserted text holds "name=" |
| VideoLinks.UploadedAllSpec | scripts/videos/games_full_link.py:100-109 | a run over all entries changes only pages that then hold the parameter, and every error is caught |
| VideoLinks.UploadLinks | scripts/videos/games_full_link.py:101-109 | the loop over the entries leaves the wiki the specification gives |
| VideoLinks.UploadVideoLinks | scripts/videos/games_full_link.py:91-127 | full-game links are added first, then highlight links to the wiki the first run left |
| FullGameLink.Test | games_full_link.py:60-82 | a missing page or one that already has a full-game link raises RuntimeError |
| FullGameLink.TestIsAddParam | games_full_link.py:60-82 | the older script's page edit is the general parameter edit for the full-game parameter |
| FullGameLink.PageNameAsWritten | games_full_link.py:32 | the page name refers to a prefix the module never defines, so it raises NameError for every game |
| FullGameLink.UploadAsWritten | games_full_link.py:85-101 | as written every entry fails on the page name and is caught, so the wiki is left unchanged |
| FullGameLink.EntryIsUploaded | games_full_link.py:93-101 | with the prefix defined, one entry edits the wiki exactly as the general uploader does for the full-game parameter |
| FullGameLink.UploadFullGames | games_full_link.py:85-101 | with the prefix defined, the loop leaves the wiki the general uploader gives for the full-game parameter |
| VideoSheets.PotentialSheets | scripts/videos/extract_links.py:23-28 | fifty season sheets and the miscellaneous one |
| VideoSheets.YearDigits | scripts/videos/extract_links.py:25 | both years of each listed season have four digits |
| VideoSheets.SeasonSheetSpec | scripts/videos/extract_links.py:25 | the n-th sheet is six digits, starts with year 2018-n, and reads as the season "(2018-n)/(last two digits of 2019-n)" |
| VideoSheets.SheetsDiffer | scripts/videos/extract_links.py:23-28 | no sheet name is listed twice |
| VideoSheets.FirstSheet | scripts/videos/extract_links.py:24-25 | the first sheet is "201819" |
| VideoSheets.PotentialSheetsSpec | scripts/videos/extract_links.py:23-28 | the sheets run from "201819" to the miscellaneous one, all distinct |
| VideoSheets.Cells | scripts/videos/extract_links.py:31-35 | three columns of rows 3 to 49 |
| VideoSheets.CellNameSpec | scripts/videos/extract_links.py:35 | the i-th cell is in the column of its block, and its round is its row less two |
| VideoSheets.CellNamesDiffer | scripts/videos/extract_links.py:35 | no cell is listed twice |
| VideoSheets.CellsSpec | scripts/videos/extract_links.py:31-35 | the cells run from E3 to G49, all distinct, each giving a round from 1 to 47 |
| VideoSheets.CellsNamedCells | scripts/videos/extract_links.py:31-35 | every listed cell has a column letter and a row number |
| VideoSheets.FirstArgument | scripts/videos/extract_links.py:42 | the first argument of a hyperlink formula holds no quote |
| VideoSheets.ExtractLink | scripts/videos/extract_links.py:38-44 | text without "http" raises RuntimeError; otherwise the link is the first argument of the formula without its "=HYPERLINK" |
| VideoSheets.RemoveHyperlink | scripts/videos/extract_links.py:42 | removing "=HYPERLINK" from a formula leaves its argument list |
| VideoSheets.FirstArgumentOf | scripts/videos/extract_links.py:42 | the argument list of a link and a caption gives back the link |
| VideoSheets.ExtractLinkOfHyperlink | scripts/videos/extract_links.py:38-44 | the formula for a link and a caption gives back the link |
| VideoSheets.QualifiesTwo | scripts/videos/extract_links.py:64-67 | a cell qualifies exactly when it is non-empty and holds both marker texts |
| VideoSheets.StoreCellsOthers | scripts/videos/extract_links.py:61-90 | scanning one sheet's cells changes no other sheet's links |
| VideoSheets.StoreCellsHas | scripts/videos/extract_links.py:61-90 | a sheet has links after the scan exactly when it had some or one of its cells gives a link |
| VideoSheets.StoreCellsTable | scripts/videos/extract_links.py:61-90 | a sheet's links after the scan are its links before with each linked cell's round set |
| VideoSheets.RoundLinksKeys | scripts/videos/extract_links.py:71 | a round has a link exactly when it had one or a cell of that round gives one |
| VideoSheets.RoundLinksLast | scripts/videos/extract_links.py:71 | when several cells give the same round the last one wins |
| VideoSheets.StoreSheetsKeys | scripts/videos/extract_links.py:56-57 | only listed sheets that the workbook has get links |
| VideoSheets.StoreSheetsTable | scripts/videos/extract_links.py:56-90 | a listed sheet of the workbook has links exactly when one of its cells gives one, and its links are the rounds its cells give |
| VideoSheets.ScanCell | scripts/videos/extract_links.py:64-90 | one cell sets its round's full-game and highlight links when it gives them, and nothing else |
| VideoSheets.ScanMarker | scripts/videos/extract_links.py:62-72 | one check of a non-empty cell: when it holds the kind's text and the hyperlink marker and a link can be read from it, the link is stored at the cell's round; otherwise the table is unchanged |
| VideoSheets.ScanCells | scripts/videos/extract_links.py:61-90 | the loop over a sheet's cells stores what the cell-by-cell specification gives |
| VideoSheets.Extract | scripts/videos/extract_links.py:47-90 | the loops produce the full-game and highlight tables of the whole workbook |
| FullGameSheets.ScanCell | extract_links.py:54-63 | one cell sets its round's full-game link when it gives one, and nothing else |
| FullGameSheets.ScanCells | extract_links.py:53-63 | the loop over a sheet's cells stores what the cell-by-cell specification gives |
| FullGameSheets.Extract | extract_links.py:42-63 | the older script produces the same full-game table as the newer one |
| FullGameSheets.FullGameTables | extract_links.py:42-63 | only listed sheets that the workbook has get links, such a sheet has links exactly when one of its cells gives one, and its links are the rounds its cells give |
| BasketballGamesBot.PageNameSpec | gamesbot_basketball.py:77-85 | the page title is the basketball prefix and a colon, then a ten-character day-first date that parses back to the game's date, then the home team, "נגד", the away team, a dash and the competition |
| BasketballGamesBot.DateLength | gamesbot_basketball.py:79-80 | the day-month-year date of a year from 1000 on is exactly ten characters |
| BasketballGamesBot.NumberTextSpec | gamesbot_basketball.py:102-117 | a missing period score becomes the empty value and a present one renders as text that parses back to the score |
| BasketballGamesBot.HourTextSpec | gamesbot_basketball.py:96 | the hour value is empty exactly when the hour is midnight, and otherwise parses back to the hour |
| BasketballGamesBot.PlayersTextSpec | gamesbot_basketball.py:88-89 | the players text is a prefix of the comma-newline join of the players' renderings, only whitespace is cut off, and it never ends in whitespace |
| BasketballGamesBot.PlayersTextWhole | gamesbot_basketball.py:88-89 | when the last player's rendering ends in a non-space character nothing is cut from the join |
| BasketballGamesBot.PeriodTexts | gamesbot_basketball.py:102-117 | one side's periods give eight values, four quarters then four overtimes |
| BasketballGamesBot.Values | gamesbot_basketball.py:92-131 | a game gives the thirty-four argument values the dictionary holds |
| BasketballGamesBot.Dictionary | gamesbot_basketball.py:92-131 | pairing names with values keeps one entry per argument |
| BasketballGamesBot.Arguments | gamesbot_basketball.py:92-131 | the corrected argument dictionary has the thirty-four entries of the template |
| BasketballGamesBot.ArgumentsAsWritten | gamesbot_basketball.py:61-62 | the dictionary under the constants as written also has thirty-four entries |
| BasketballGamesBot.ArgumentNamesFacts | gamesbot_basketball.py:28-62 | the intended argument names are thirty-four distinct names with no surrounding whitespace |
| BasketballGamesBot.ArgumentNamesAsWrittenFacts | gamesbot_basketball.py:61-62 | the names as written are still distinct and stripped, but the third and fourth opponent overtime slots carry each other's names and every other slot is unchanged |
| BasketballGamesBot.DictionaryFacts | gamesbot_basketball.py:92-131 | a dictionary over distinct stripped names has distinct stripped keys |
| BasketballGamesBot.NewTemplateValue | gamesbot_basketball.py:173-174 | adding distinct stripped arguments one by one to an empty template puts each one in its own position with its own value |
| BasketballGamesBot.DictionaryTemplate | gamesbot_basketball.py:168-176 | the new template holds the thirty-four names in dictionary order and looking up each name gives its value |
| BasketballGamesBot.HandleNewPage | gamesbot_basketball.py:168-176 | the new template has the basketball template name and holds exactly the arguments added in order |
| BasketballGamesBot.NewPageNames | gamesbot_basketball.py:168-176 | the new page's template holds the intended names in order, each with the game's value |
| BasketballGamesBot.HourValueSpec | gamesbot_basketball.py:96 | the hour value is the hour text, empty exactly at midnight |
| BasketballGamesBot.OvertimeValuesSpec | gamesbot_basketball.py:116-125 | the third and fourth opponent overtime values are the game's scores for those overtimes and the overtime flag is yes or no as the game says |
| BasketballGamesBot.ValuesListsSpec | gamesbot_basketball.py:123-128 | the assistant referees and the game links are joined with a comma and a space, and both players values are the players texts |
| BasketballGamesBot.NewPageSpec | gamesbot_basketball.py:92-176 | on a new page the hour is empty exactly at midnight, the overtime flag, lists and players texts are as the game says, and each opponent overtime name holds its own overtime's score |
| BasketballGamesBot.NewPageAsWrittenSwapsOvertimes | gamesbot_basketball.py:61-62 | under the names as written the third opponent overtime argument holds the fourth overtime's score and the fourth holds the third's |
| BasketballGamesBot.PrettifySkipsBasketballPage | gamesbot_basketball.py:204-205 | a page holding only the basketball template has no games template, so prettifying it leaves it alone |
| BasketballGamesBot.Handled | gamesbot_basketball.py:179-205 | handling fails with a name error exactly when the page exists and overwriting is on; an existing page is otherwise left as it is, and a new page is written only when saving |
| BasketballGamesBot.SaveNewPage | gamesbot_basketball.py:176 | the saved page text is the rendering of the new template, and the template is unchanged |
| BasketballGamesBot.HandleGame | gamesbot_basketball.py:179-205 | handling one game gives the outcome the handling function states for its page, with the corrected argument names of "## Findings" (opponent third and fourth overtime not swapped) |
| BasketballGamesBot.UploadedStep | gamesbot_basketball.py:208-210 | uploading one more game applies the no-overwrite handling to the wiki left by the earlier games |
| BasketballGamesBot.UploadedKeeps | gamesbot_basketball.py:208-210 | uploading never changes a page that already exists, and without saving changes nothing |
| BasketballGamesBot.UploadedTitles | gamesbot_basketball.py:208-210 | after uploading with saving, a title exists exactly when it existed before or some game has that title |
| BasketballGamesBot.UploadedFirstWins | gamesbot_basketball.py:208-210 | a new title gets the text of the first game with that title |
| BasketballGamesBot.UploadGames | gamesbot_basketball.py:208-210 | the upload loop leaves the wiki the uploading function states, with pages built from the corrected argument names of "## Findings" |
| ScriptsBasketballGamesBot.NamesFacts | scripts/gamesbot_basketball.py:28-74 | the forty-six argument names are distinct and stripped, and the overtime flag, the two articles and the two players names are the last five in dictionary order |
| ScriptsBasketballGamesBot.AddedNames | scripts/gamesbot_basketball.py:154-164 | the names added after the base dictionary sit at positions 41 to 45 of the name list |
| ScriptsBasketballGamesBot.KeyIndex | scripts/gamesbot_basketball.py:154-164 | the position of a key in the dictionary is its first occurrence, or none when the key is absent |
| ScriptsBasketballGamesBot.LookupFirst | scripts/gamesbot_basketball.py:154-164 | looking up a key gives the value at its first occurrence |
| ScriptsBasketballGamesBot.LookupAfter | scripts/gamesbot_basketball.py:154-164 | entries before a key's first occurrence do not affect its lookup |
| ScriptsBasketballGamesBot.AssignSpec | scripts/gamesbot_basketball.py:154-164 | assigning a key makes its lookup the new value and leaves every other key's lookup alone; a new key is appended at the end and an existing key keeps its place |
| ScriptsBasketballGamesBot.FormatUrl | scripts/gamesbot_basketball.py:104-106 | an article link is a bracketed external link that starts with the game's address |
| ScriptsBasketballGamesBot.BaseValues | scripts/gamesbot_basketball.py:108-152 | a game gives one value per base dictionary entry |
| ScriptsBasketballGamesBot.Base | scripts/gamesbot_basketball.py:108-152 | the base dictionary has one entry per base name |
| ScriptsBasketballGamesBot.BaseSpec | scripts/gamesbot_basketball.py:111-151 | the hour value is the hour text, empty exactly at midnight, and the video, broadcast and summary values are empty |
| ScriptsBasketballGamesBot.BaseKeys | scripts/gamesbot_basketball.py:108-152 | the base dictionary's keys are the first forty-one names in order |
| ScriptsBasketballGamesBot.Articles | scripts/gamesbot_basketball.py:157-160 | at most the first two game links become articles, each formatted as a link |
| ScriptsBasketballGamesBot.BuildArguments | scripts/gamesbot_basketball.py:108-166 | building the dictionary step by step gives the arguments function's result |
| ScriptsBasketballGamesBot.OvertimeStage | scripts/gamesbot_basketball.py:154-155 | setting the overtime flag appends it when the game went to overtime and otherwise changes nothing, keeping keys distinct and in name order |
| ScriptsBasketballGamesBot.ArticlesStage | scripts/gamesbot_basketball.py:157-160 | setting the articles appends one entry per article, keeping keys distinct and in name order |
| ScriptsBasketballGamesBot.PlayersStage | scripts/gamesbot_basketball.py:162-164 | setting the players texts appends the Maccabi then the opponent players entry, last |
| ScriptsBasketballGamesBot.ExtendedAppends | scripts/gamesbot_basketball.py:154-164 | the three stages together only append to the base, and the result has distinct stripped keys |
| ScriptsBasketballGamesBot.FlagLookup | scripts/gamesbot_basketball.py:154-155 | the overtime flag is present with the value yes exactly when the game went to overtime |
| ScriptsBasketballGamesBot.ArticleLookups | scripts/gamesbot_basketball.py:157-160 | the first article is present exactly when there is a link, the second exactly when there are two |
| ScriptsBasketballGamesBot.AddedNamesDiffer | scripts/gamesbot_basketball.py:50-54 | the five added names differ from each other |
| ScriptsBasketballGamesBot.KeyedLacksAdded | scripts/gamesbot_basketball.py:108-152 | the base dictionary holds none of the added names |
| ScriptsBasketballGamesBot.ExtendedLookups | scripts/gamesbot_basketball.py:154-160 | after the stages the overtime flag and article lookups are as the game says |
| ScriptsBasketballGamesBot.ArgumentsAppend | scripts/gamesbot_basketball.py:108-166 | the arguments are the base dictionary extended by the overtime, article and players stages |
| ScriptsBasketballGamesBot.ExtendedShape | scripts/gamesbot_basketball.py:154-164 | the extended dictionary starts with the base, grows by the flag and the articles, and ends with the two players entries |
| ScriptsBasketballGamesBot.ArgumentsLayout | scripts/gamesbot_basketball.py:108-166 | a game's dictionary is the base, then an optional flag, up to two articles and the two players texts, with distinct stripped keys |
| ScriptsBasketballGamesBot.ArgumentsLookups | scripts/gamesbot_basketball.py:154-160 | a game's dictionary has the overtime flag exactly for overtime games and one article per link up to two |
| ScriptsBasketballGamesBot.TemplateLookup | scripts/gamesbot_basketball.py:208-209 | after adding distinct stripped arguments to a new template, a name is present exactly when the dictionary has it, with the same value |
| ScriptsBasketballGamesBot.TemplateParams | scripts/gamesbot_basketball.py:208-209 | the new template holds the arguments in dictionary order |
| ScriptsBasketballGamesBot.NewPageParams | scripts/gamesbot_basketball.py:203-211 | the new page's template starts with the base arguments and ends with the two players texts |
| ScriptsBasketballGamesBot.NewPageSpec | scripts/gamesbot_basketball.py:203-211 | the new page has the overtime flag exactly for overtime games and an article per link up to two, each the formatted link |
| ScriptsBasketballGamesBot.HandleGame | scripts/gamesbot_basketball.py:214-241 | handling a game skips or fails on an existing page, and writes a new page only when saving, as the basketball handling function states |
| ScriptsBasketballGamesBot.UploadGames | scripts/gamesbot_basketball.py:244-246 | the upload loop handles the games in order without overwriting |
| ScriptsBasketballGamesBot.Slice | scripts/gamesbot_basketball.py:252 | a Python slice has the clamped length and the elements from its start |
| ScriptsBasketballGamesBot.Selected | scripts/gamesbot_basketball.py:252 | at most ten games are uploaded, all from the list, and with at least 105 games exactly games five to nine and one hundred to one hundred and four |
| SeasonRedirects.ZFillTwo | create_basketball_season_redirects.py:30 | zero-padding to two keeps a longer text's length and lengthens a shorter one to two |
| SeasonRedirects.LastTwoDigits | create_basketball_season_redirects.py:30 | the last two characters of a number's decimal text are its tens and units digits, or its one digit below ten |
| SeasonRedirects.SeasonNameDigits | create_basketball_season_redirects.py:23-31 | a season name is the year, a slash and the two last digits of the next year, zero-padded |
| SeasonRedirects.LastTwoValue | create_basketball_season_redirects.py:30 | the tens and units digits make up the number modulo one hundred |
| SeasonRedirects.TwoDigitsValue | create_basketball_season_redirects.py:30 | the padded two-digit suffix reads back as the number modulo one hundred |
| SeasonRedirects.SeasonNameSuffix | create_basketball_season_redirects.py:23-31 | a season name is the year's text, a slash and two digits whose value is the next year modulo one hundred, so 1999 gives 1999/00 |
| SeasonRedirects.SeasonNameInjective | create_basketball_season_redirects.py:23-31 | different years give different season names |
| SeasonRedirects.RedirectText | create_basketball_season_redirects.py:48 | the redirect text is the redirect keyword and the target in a wiki link, with the target intact |
| SeasonRedirects.ShortNameInjective | create_basketball_season_redirects.py:71 | different years give different redirect page titles |
| SeasonRedirects.CreateRedirect | create_basketball_season_redirects.py:34-56 | an existing page and a dry run leave the wiki unchanged; otherwise only the short title is added, holding the redirect to the full title |
| SeasonRedirects.Seasons | create_basketball_season_redirects.py:69-72 | the configured range gives one title pair per year |
| SeasonRedirects.RunStep | create_basketball_season_redirects.py:69-82 | the loop after one more season is one more step on the state the earlier seasons left |
| SeasonRedirects.CreateAllSeasonRedirects | create_basketball_season_redirects.py:59-84 | the loop's wiki and counters are those of running every configured season in order |
| SeasonRedirects.RedirectLoop | create_basketball_season_redirects.py:59-84 | the loop over the seasons ends with the wiki and the created and skipped counters of running them one after another |
| SeasonRedirects.RunCounts | create_basketball_season_redirects.py:74-82 | every season is counted as created or skipped, except those whose handling raised |
| SeasonRedirects.RunKeeps | create_basketball_season_redirects.py:59-84 | the run never changes an existing page, and a dry run changes nothing |
| SeasonRedirects.RunTitles | create_basketball_season_redirects.py:59-84 | a title that is no season's short title exists after the run exactly when it existed before |
| SeasonRedirects.RunSkipped | create_basketball_season_redirects.py:75-77 | with distinct titles the skipped count is the number of seasons whose page already existed and did not raise |
| SeasonRedirects.RunCreates | create_basketball_season_redirects.py:78-80 | without a dry run, every missing season title that does not raise ends up holding the redirect to its full title |
| SeasonRedirects.SeasonsDistinct | create_basketball_season_redirects.py:69-72 | the configured seasons have distinct short titles |
| SeasonRedirects.ConfiguredSeasons | create_basketball_season_redirects.py:17-18 | the configured range covers seventy-two seasons, from 1953/54 to 2024/25 |
| CoachesBot.CodePoints | coachesbot.py:29 | a name compares as the sequence of its characters' code points |
| CoachesBot.DropSmallest | coachesbot.py:29 | dropping the first of a sorted permutation keeps the rest sorted and removes exactly the smallest name |
| CoachesBot.CoachesToAddSpec | coachesbot.py:165 | the coaches to add are the available coaches sorted by code point with the first one dropped, a permutation of all but the smallest |
| CoachesBot.ArgumentsSpec | coachesbot.py:53-65 | a coach's arguments are exactly the full name and the coach role, distinct and stripped |
| CoachesBot.NewProfileSpec | coachesbot.py:91-104 | a new coach page's profile holds the full name then the coach role |
| CoachesBot.MentionsPlayer | coachesbot.py:111 | a profile mentions a Maccabi player exactly when some parameter's text contains the marker |
| CoachesBot.ProbablyBotCreatedSpec | coachesbot.py:107-118 | a profile the bot would create counts as bot-created unless the name contains the player marker, and a profile without exactly two parameters never does |
| CoachesBot.RoleNotPlayer | coachesbot.py:111 | the coach role parameter never contains the player marker |
| CoachesBot.MergeCoach | coachesbot.py:68-88 | updating an existing profile fails with a value error exactly when the name or role is missing; with diffs shown both end up as the coach's, and otherwise nothing changes |
| CoachesBot.HandleNewPage | coachesbot.py:91-104 | the new template has the profile name and holds the coach's arguments added in order |
| CoachesBot.CreateOrUpdatePlayerPage | coachesbot.py:121-143 | a new page gets a fresh profile and is saved when saving; an existing page raises IndexError when it holds no template; otherwise the page's first template, whatever its name (the positional `filter_templates` argument at coachesbot.py:75 and :109), decides: a page not bot-created is not saved, and otherwise only that template is merged and the page is saved when the merge succeeds |
| CoachesBot.Existing | coachesbot.py:146-154 | the existing coaches are the category titles that are coach names |
| CoachesBot.ExistingCoaches | coachesbot.py:146-154 | the loop over the category's pages collects the existing coaches in category order |
| Dates.Weekday | gamesbot.py:150 | the weekday of a valid date is one of seven values |
| Dates.NextDayOrdinal | gamesbot.py:150 | the day after a date is a valid date one day later in the proleptic calendar, and its weekday is the next one |
| Dates.NextDayCounts | gamesbot.py:150 | the day after a valid date before 31/12/9999 is a valid date whose day count is one more |
| Dates.AddHours | calendar/maccabi_tlv_site.py:148 | adding fewer than twenty-four hours lands on the same day or the next, keeps the minute, and advances the time by exactly that many hours |
| Dates.AddHoursChecked | calendar/maccabi_tlv_site.py:148 | adding hours fails exactly when it would run past the last representable day, and otherwise advances the time by exactly that many hours |
| Dates.ParseDate | add_publish_date_for_papers.py:37 | a date parsed from day, month and four-digit year fields is a valid calendar date |
| Dates.FormatParseRoundTrip | add_publish_date_for_papers.py:37 | parsing a formatted date of a year from 1000 on gives the date back, for either field order and any non-digit separator |
| Dates.FindDatePattern | gamesbot.py:249 | the search for a two-two-four digit date pattern finds its first occurrence from the start position, or reports none |
| Dates.FindAllDatePatterns | upload_games_papers_bot.py:97-98 | every reported position holds a date pattern, and the first one is the first match |
| Dates.FormattedDateFound | upload_games_papers_bot.py:97 | a formatted date placed after text without digits is the first date pattern found, at the end of that text |
| StableSort.InsertByPermutes | coachesbot.py:29 | inserting an element adds exactly that element |
| StableSort.InsertByStable | coachesbot.py:29 | inserting an element after its equals keeps the order among equal keys |
| StableSort.InsertBySorted | coachesbot.py:29 | inserting into a sorted list keeps it sorted |
| StableSort.SortBySorted | gamesbot.py:131 | sorting by a key gives a list ordered by that key |
| StableSort.SortByPermutes | gamesbot.py:131 | sorting by a key gives a permutation of its input |
| StableSort.SortByStable | gamesbot.py:131 | sorting is stable: elements with equal keys keep their input order |
| Strings.Find | add_main_walla_sport_game_review.py:100 | the search finds the first occurrence of a substring, or reports that there is none |
| Strings.Count | scripts/papers/try_fix_papers_names.py:103 | a substring's count is zero exactly when the text does not contain it |
| Strings.ReplaceAbsent | gamesbot.py:254 | replacing a pattern that does not occur leaves the text unchanged |
| Strings.ReplaceChar | fix_basketball_players_template.py:37 | replacing one character by another keeps the length and changes exactly the positions holding that character |
| Strings.Split | sort_players_events.py:125 | splitting gives at least one part, and at least two when the separator occurs |
| Strings.JoinSplit | sort_players_events.py:125 | joining the parts of a split with the same separator gives the text back |
| Strings.SplitJoin | sort_players_events.py:125 | splitting a join of parts without the separator character gives the parts back |
| Strings.LStripSpec | prettify_games_pages.py:81 | left-stripping removes exactly the longest prefix of the given characters |
| Strings.RStripSpec | gamesbot.py:134 | right-stripping removes exactly the longest suffix of the given characters |
| Strings.StripIdempotent | prettify_games_pages.py:84 | stripping twice is the same as stripping once |
| Strings.Words | league_tables_files_to_game_pages.py:42 | splitting on whitespace (every character `str.isspace` accepts) gives non-empty words without whitespace |
| Strings.WordsJoin | league_tables_files_to_game_pages.py:42 | splitting a space-joined list of words on whitespace gives the words back |
| Strings.NatToString | gamesbot.py:150 | the decimal text of a number is a non-empty run of digits |
| Strings.NatToStringRoundTrip | gamesbot.py:150 | the decimal text of a number reads back as that number |
| Strings.ZeroPad | create_basketball_season_redirects.py:30 | a zero-padded number is a run of digits at least as long as the width |
| Strings.ZeroPadValue | create_basketball_season_redirects.py:30 | zero-padding does not change the number the digits stand for |
| Strings.ParseInt | calendar/maccabi_tlv_site.py:80-82 | `int()` strips whitespace first; a run of digits then reads as the number it denotes, a negative number needs a leading '-', anything accepted is digits after an optional sign, and a text starting with any other character is a ValueError |
| Strings.ParseIntDigits | add_main_walla_sport_game_review.py:200 | a run of digits reads as the number it denotes |
| Strings.ParseIntOfString | add_main_walla_sport_game_review.py:200 | reading back a number's decimal text gives the number |
| Strings.ParseIntPadded | calendar/maccabi_tlv_site.py:80-82 | whitespace on either side of a number's decimal text does not change the number read |
| Strings.ParseIntAround | calendar/maccabi_tlv_site.py:80-82 | whitespace around a stripped text does not change what `int()` reads from it |
| Strings.ParseIntSigned | update_euroleague_table_basketball.py:53-54 | a '-' or '+' before a number's decimal text reads as its negation or as the number itself |
| Strings.ParseIntOfIntString | update_euroleague_table_basketball.py:53-54 | reading back the decimal text of any integer, negative ones included, gives the integer |

## Left out

- Wiki, file-system and calendar I/O are not modelled. This covers pywikibot page reads, `exists`, `save`, `showDiff`, `move`, `purge`, category generators and login; JSON, Excel (openpyxl) and pandas loading; HTTP fetching (`requests`, `pd.read_html`, BeautifulSoup, PyQuery); and the Google Calendar client. Pages are a map from title to text or a sequence of templates, inputs are given values, and calendar calls are emitted actions.
- Logging and the `SHOULD_SAVE`, `SHOULD_SHOW_DIFF`, `DRY_RUN` and `JUST_EVENTS` switches: the switches are parameters, and logging has no effect on the model.
- Wikitext parsing and rendering by mwparserfromhell is not modelled. A template is a name plus ordered parameters, `str(template)` is `{{name|k=v|...}}`, and `x in template` is a substring test on that text. The library's spacing conventions and its collapsing of duplicate parameters on `add` are not modelled.
- `datetime` is modelled on integer tuples. `%Y` is read as exactly four digits and `%d`/`%m` as one or two. Years below 1000, which glibc `strftime` does not pad, are excluded from the round-trip lemmas. Time zones are not modelled, and the weekday is computed only where a module uses it.
- VolleyballCalendar.ParseOverrideDate: reads "%Y-%m-%d %H:%M" with exactly one space between date and time and the day and month as one or two ASCII digits. CPython's `strptime` also accepts any run of whitespace there (two spaces, a tab) and a day or month written as a space and one digit ("2025-01- 5 20:30"). For those texts the model gives None and `Overridden` keeps the IVA date, where the program applies the override. The same stricter reading holds for `Dates.ParseDate` and so for `BasketballGames.ParseRawDate`, which reads "%d-%m-%Y" through it and rejects " 5-03-2021".
- BasketballGamesBot.Game: the game record holds every attribute the two page builders read. The basketball game class (basketball/basketball_game.py:29-63) does not declare `opponent_name`, `is_home_game`, `stadium`, `arena`, `maccabi_points`, `opponent_points` or the four `first_half_*`/`second_half_*` points, and `PlayerSummary` has no `__maccabipedia__`. As written, gamesbot_basketball.py:99 and scripts/gamesbot_basketball.py:116 therefore raise AttributeError for every game whose page does not exist yet. `HandleGame`, `UploadGames` and the `ScriptsBasketballGamesBot` builders write the pages the code would write for a record carrying those fields.
- The PlayerEvent comparison order, its `__maccabipedia__` serialiser, its parser and the three event-group sets are parameters, because the source does not define them. The ordering is a key compared as a tuple.
- `eval` of a spreadsheet cell is modelled only for the `("url", "caption")` tuple shape the sheets hold.
- The `tldextract` domain of a game link is the `domainOf` parameter of `ScriptsBasketballGamesBot.FormatUrl`.
- `maccabistats` game objects and their `played_before`/`played_after` queries are given records and a lookup parameter. The football squad, coach and referee lists come from that library.
- Python integers in scores and counters are modelled as `nat`. Negative values cannot arise from the sources the bots read. Text read with `int()` gives an `int` and keeps its sign.
- Strings.ParseInt: `int()` also accepts underscores between digits and decimal digits outside ASCII (Arabic-Indic, for instance); neither is modelled, and such texts read as a ValueError here.
- Strings.IsDigit: a digit is an ASCII digit. The regular expressions behind `Dates.FindDatePattern` and `PaperPublishDate.RunEnd` use `\d`, which on Python strings also matches other Unicode decimal digits; those are not matched here.
- WikiTemplate.ParamText: every parameter is named, so its text is `name=value`. Positional parameters, whose text is the value alone, are not modelled.
- `get_all_games` in basketball/merge_all_results_files.py is not modelled, because line 40 of that file does not parse. The merge starts from a given list of games.
- pydantic models mutated in place (`_fix_team_names`, `_correct_team_name`, `apply_overrides`) are modelled as value updates that return the new record. The list that holds them is an array or a sequence.
- `handle_existing_page` in both basketball game bots is modelled only as the `NameError` it raises: it reads `football_games_template_name` and `PLAYERS_EVENTS`, which neither file defines.
- `SeasonRedirects.CreateAllSeasonRedirects`: an exception raised while creating a redirect is modelled as a set of failing titles given as a parameter, because which titles fail depends on the wiki server.
- The coaches bot's `main` loop over the category listing is not modelled, because each step is a page read or save. The per-coach step `create_or_update_player_page`, the coach list and the existing-page filter are modelled.
- `show_papers_names` in the paper scripts only prints and is not modelled.
- The calendar `main`, `entry_point`, `delete_all_events` and `add_history_games` functions only chain calendar API calls, so they are not modelled. The season links `add_history_games` iterates over are modelled.
- The template-page save steps of the league-table scripts are not modelled: `update_table_status`, and writing the table into its template page. The row formatting and aggregation are modelled.
- `fill_page_content` and `create_or_update_volleyball_game_pages` in gamesbot_volleyball.py only build pywikibot pages and are not modelled. The game records and page names they use are modelled.
- `VolleyballCalendar.FormatResult` compares the two results as text, as the code does. The lemma beside it shows that this is the numeric order only for one-digit set counts.
- `UploadGamesPapers` reads the paper-name override from an environment variable, which is a parameter here.
- A `defaultdict` or `dict` is modelled as a sequence of pairs in insertion order, because the bots iterate over it in that order.
- PrettifyTemplate: runs the corrected per-value rule of "## Findings". As written, prettify_games_pages.py:70-84 adds the trailing newline before stripping the leading ones, so a value of "\n\n" becomes "" rather than "\n". It also tests the raw name, so a second pass can change the page again. `PrettifyGamesPages.PrettifiedValueAsWritten` and its two lemmas state that behaviour.
- PrettifyGamePage: edits the page's games template with the corrected rule of PrettifyTemplate, not the loop as written.
- ReplaceCustomField: swaps with the corrected probe, the correctly spelt video field. As written, replace_custom_field_name.py:81 probes the misspelt `תקציר וידו`; `ReplaceCustomFieldName.SwappedAsWrittenRaises` and `SwappedAsWrittenMisplaces` show what that does.
- SwapInTemplate: uses the same corrected probe as ReplaceCustomField.
- Built: builds each row with the corrected `IvaUpload.GameFromRow`. As written (upload_volleyball_games_from_iva_site.py:47-56), every row that gets past the checks raises TypeError, as `IvaUpload.AsWrittenNeverBuilds` shows.
- CollectedSpec: collects over the corrected builder. As written, a table with a row that passes the checks yields TypeError instead of games.
- ReadRow: builds with the corrected builder, not the TypeError the code as written raises.
- ReadRows: loops over the corrected builder, not the code as written.
- ExtractGamesMetadata: returns games from the corrected builder. As written, a table with any buildable selected row raises TypeError.
- HandleGame: `BasketballGamesBot.HandleGame` builds pages from the corrected `Arguments`. As written (gamesbot_basketball.py:61-62), the opponent's third and fourth overtime points go under each other's names, as `BasketballGamesBot.NewPageAsWrittenSwapsOvertimes` shows.
- UploadGames: `BasketballGamesBot.UploadGames` writes pages from the corrected `Arguments`, as HandleGame does.
- Paths.Directory.Rename: gives `Path.rename` its Windows behaviour, FileExistsError when the target exists, which is what the `except FileExistsError` handlers of both paper-name scripts expect. scripts/papers/try_fix_papers_names.py:7-8 names a Windows folder. papers/try_fix_papers_names.py:57-58 names a POSIX-style folder, and there `rename` would silently replace an existing target. The handler at :80 would then never run, and a file could be lost, so `SportsNewsPaperNames.HandledKeepsCount` and `FixedKeepsCount` hold only under the Windows behaviour.

## Findings

| source | as written | input that shows it | evidently intended | confidence | as-written member | corrected member |
|---|---|---|---|---|---|---|
| gamesbot.py:178 | `filter_templates(name)[0]` passes the template name as the positional `recursive` argument, so no name filter applies and the first template of the page is taken | a page whose first template is a player template and whose second is the games template | the first template with that name, as `filter_templates(matches=...)` selects elsewhere in the repository | high, not executed | WikiTemplate.FirstTemplateAsWrittenPicksOther | WikiTemplate.FirstTemplateNamed |
| basketball/basketball_game.py:65-80 | `from_raw` never supplies `has_overtime`, a field declared without a default, so every call fails validation | any raw record | a game whose overtime flag is read from the record | high, not executed | BasketballGames.FromRawAsWrittenAlwaysFails | BasketballGames.FromRawSides |
| src/maccabipediabot/basketball/teams_names_changer.py:46-48 | when no range covers the year, building the ValueError message reads `game.date` and an unbound loop variable, so an UnboundLocalError (a NameError) or an AttributeError escapes instead | a changer with no entries, asked for any year | a ValueError naming the year | high, not executed | TeamsNamesChanger.NameForYearAsWrittenError | TeamsNamesChanger.NameForYearSpec |
| prettify_games_pages.py:70-84 | each parameter is handled in one pass, and the edits come in an order that breaks two cases. A trailing newline is added before leading newlines are stripped, so a value of two newlines ends up empty. The players-events name is compared before its newlines are stripped, so a second pass edits that value again | a value of two newlines; a players-events parameter whose name ends in a newline | every value ends in a newline, and a second pass changes nothing | medium, not executed | PrettifyGamesPages.AsWrittenSecondPassDiffers | PrettifyGamesPages.PrettifiedValueIdempotent |
| replace_custom_field_name.py:81 | the test looks for the misspelt video field but the insertion anchor is the correctly spelt one, so a template with only the misspelt field raises ValueError | a template holding the misspelt video field and not the correct one | insert before the video field the template actually has | medium, not executed | ReplaceCustomFieldName.SwappedAsWrittenRaises | ReplaceCustomFieldName.SwappedPlacesBeforeVideo |
| calendar/maccabi_tlv_site.py:110 | the two scores are compared as text | Maccabi 10, opponent 2 | a numeric comparison | high, not executed | MaccabiTlvSite.GetResultMislabels | MaccabiTlvSite.GetResultByValueFixes |
| maccabipedia_calendar/main_volleyball.py:172 | the event summary reads `game.home_away`, which the volleyball game record does not have, so every event fails with AttributeError | any game | the summary built from the game's home flag | high, not executed | VolleyballCalendar.SummaryAlwaysFails | VolleyballCalendar.Summary |
| upload_volleyball_games_from_iva_site.py:47-56 | the game is built with the six-field class imported from gamesbot_volleyball but passed stadium and result arguments, so construction fails with TypeError | any row | the game class of volleyball_game.py, which has those fields | high, not executed | IvaUpload.AsWrittenNeverBuilds | IvaUpload.GameFromRowSpec |
| games_full_link.py:32 | the page name uses `football_games_prefix`, which the file never defines, so every upload fails with NameError | any game | the football game-page prefix | high, not executed | FullGameLink.UploadAsWritten | FullGameLink.EntryIsUploaded |
| gamesbot_basketball.py:61-62 | the constants for the opponent's third and fourth overtime points hold each other's names | a game with a third overtime | each overtime's points under its own name | high, not executed | BasketballGamesBot.NewPageAsWrittenSwapsOvertimes | BasketballGamesBot.NewPageSpec |
