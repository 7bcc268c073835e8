# Tournament scoring and standings, modelled in Dafny

This project models the scoring and standings core of an esports tournament
manager. It is a React application whose pages keep their state in the
browser's local storage. What the model covers:

- **Game table and scoring.** The game table and default position table of
  `src/data/games.ts` (module `Games`). The scoring rule is kills times the
  kill weight plus the position bonus.
- **Scoring editor** of `GameConfig.tsx` (`GameConfigEditing`). Setters are
  clamped at zero; the last position can be added or removed; the
  configuration is saved.
- **Team registration** of `TeamRegistration.tsx` (`TeamRegistration`), with
  its validity check.
- **Team-name list** of `TeamNames.tsx` (`TeamNames`).
- **Tournament form** of `TournamentConfig.tsx` (`TournamentConfig`). Count
  fields are normalised as they are typed; "na" is turned into "0" on save.
- **Per-game result entry** of `MatchInput.tsx` (`MatchInput`).
- **One-match score sheet** of `ScoreCalculator.tsx` (`ScoreCalculator`).
  This is the open match's rows, the save checks, and the list of finished
  matches.
- **Match ledger** of `MatchCalculator.tsx` (`MatchCalculator`). A cell can
  be unset. The page edits cells, recomputes points, adds, renames and
  deletes matches, renames a team, and exports ranked rows. The team rename
  is modelled twice: as written, and as evidently intended (see Findings).
- **Two standings pages.** `Results.tsx` (`Results`) ranks by points, then
  by kills. `FinalResult.tsx` (`FinalResult`) ranks by points only, over a
  plain object whose `Object.values` order is modelled.
- **Tournament archive** of `TournamentHistory.tsx` (`TournamentHistory`).

Shared pieces:

- `Common`: options, results, index filters, sums.
- `JsText`: JavaScript's `trim`, `parseInt` and `toString` on naturals.
- `Sorting`: the stable `Array.prototype.sort` with the pages' comparators,
  modelled as an insertion sort on a lexicographic key. `StableSort` proves
  that it is stable.
- `Standings`: the per-team accumulation that both standings pages perform.
  The table it builds is proved against an independent reference, `Tally`.
  `Tally` counts the entries bearing a name and sums their kills and points.

Pages whose handlers update state in place are classes with `modifies`
clauses. Pages that only compute are functions with lemmas. The loops of the
source are methods proved against those functions:

- the `forEach` passes of the two standings pages;
- the per-match rename pass of the match calculator.

Storage reads, `crypto.randomUUID`, `Date.now` and the answers to
confirmation dialogs become parameters. For example, `Clear(confirmed)` and
the three `DeleteMatch` handlers take the dialog's answer, and
`SaveToHistory(history, id, date)` takes the id, the date and the stored
history.

## Model

| member | source | states |
|---|---|---|
| Games.FindGame | src/pages/MatchInput.tsx:14 | the lookup finds a game exactly when one has that id, and returns that game |
| Games.GameIdsDistinct | src/data/games.ts:3-32 | the four game ids are pairwise distinct, so the lookup is unambiguous |
| Games.DefaultTableKeys | src/data/games.ts:34-45 | the default position table covers exactly positions 1 to 10 |
| Games.DefaultTableMonotone | src/data/games.ts:34-45 | default bonuses are non-negative and never grow with a worse finish |
| Games.DefaultGameConfig | src/data/games.ts:47-50 | the default configuration is one point per kill plus the default table |
| Common.RemoveAt | src/pages/TeamRegistration.tsx:90-92 | the index filter drops exactly the element at that index, keeps the others in order, and changes nothing for an index outside the list |
| Common.Max0 | src/pages/GameConfig.tsx:47 | `Math.max(0, x)` is at least x and at least 0, and is one of the two |
| JsText.TrimEmptyIffBlank | src/pages/TournamentConfig.tsx:24-27 | a string trims to "" exactly when every character is ECMAScript white space |
| JsText.TrimIdempotent | src/pages/MatchCalculator.tsx:255 | a trimmed string starts and ends with a non-space, so trimming twice equals trimming once |
| JsText.ParseIntOfNatToString | src/pages/TournamentConfig.tsx:51-53 | `parseInt` reads back the decimal text `toString` writes for every natural |
| JsText.NatToStringInjective | src/pages/TournamentConfig.tsx:53 | two naturals print alike only when equal |
| Sorting.SortDescSorted | src/pages/Results.tsx:86-93 | the sort returns a permutation of its input in which no element is ranked ahead of an earlier one |
| Sorting.SortDescAllTied | src/pages/FinalResult.tsx:72 | with every key equal the stable sort leaves the list unchanged |
| Sorting.SortDescMembers | src/pages/Results.tsx:86-93 | sorting keeps exactly the elements of the input |
| StableSort.SortDescStable | src/pages/FinalResult.tsx:72 | the sort is stable: for any key, the elements with that key come out in the order they went in |
| Standings.LookupSpec | src/pages/Results.tsx:70-75 | reading a team's totals gives its stored record, which is unique when names are distinct, or the zero record when it has none |
| Standings.StoreSpec | src/pages/Results.tsx:77-82 | storing a record replaces the one with its name, keeps every other record and keeps names distinct |
| Standings.UpsertSpec | src/pages/Results.tsx:70-82 | recording one entry adds it to that team's totals (created at zero) and leaves every other team's record alone |
| Standings.TallyStep | src/pages/Results.tsx:77-82 | one more entry changes only its own team's reference totals, by exactly that entry |
| Standings.AggregateSpec | src/pages/Results.tsx:65-84 | the table has distinct names, and a record is in it exactly when its name occurs and it equals that name's reference count and sums |
| Standings.AggregateSize | src/pages/Results.tsx:66-86 | the table holds one record per distinct team name |
| Standings.AggregateCountsPositive | src/pages/Results.tsx:81 | every record counts at least one match |
| Standings.AggregatePermutation | src/pages/Results.tsx:68-84 | reordering the entries yields the same records |
| Standings.Average | src/pages/Results.tsx:139 | the average is defined exactly when the count is positive, and then times the count gives the total |
| MatchCalculator.PointsForTeamIsScoringRule | src/pages/MatchCalculator.tsx:79-84 | with a configuration and both cells set, the points for a non-negative position are the scoring rule; an unset cell or no configuration scores 0; a negative position adds no bonus |
| MatchCalculator.SeedMatchSpec | src/pages/MatchCalculator.tsx:312-321 | a new match lists the teams in order, all unset at 0 points, and is consistent under any configuration |
| MatchCalculator.RecomputeAllSpec | src/pages/MatchCalculator.tsx:51-57 | after recomputation every entry's points follow from its cells, and nothing but points changes |
| MatchCalculator.RecomputeAllFixesConsistent | src/pages/MatchCalculator.tsx:109-117 | a consistent ledger is kept as it is, so recomputing is idempotent |
| MatchCalculator.ScoreEditSpec | src/pages/MatchCalculator.tsx:86-97 | a cell edit changes only that cell and the points; the cell is unset exactly for "" and otherwise non-negative; the points agree with the cells except for a negative kill count |
| MatchCalculator.ScoreEditNegativeKills | src/pages/MatchCalculator.tsx:92-95 | kills "-3" for the winner under the defaults store 0 kills but 12 points, where the stored cells give 15 |
| MatchCalculator.MatchRowsSpec | src/pages/MatchCalculator.tsx:193-203 | the exported rows are the entries rearranged, in non-increasing points, ranked 1, 2, ..., with unset kills as 0 and an unset or zero position as the dash |
| MatchCalculator.RowSplitsTotal | src/pages/MatchCalculator.tsx:200-202 | for a consistent entry with both cells set, kill points plus place points equal the total |
| MatchCalculator.RenameAllSpec | src/pages/MatchCalculator.tsx:262-271 | the evidently intended rename: afterwards the old name occurs nowhere (unless it is the new one); other names, kills, positions and points are unchanged; consistency is kept |
| MatchCalculator.RenameBack | src/pages/MatchCalculator.tsx:262-285 | renaming to an unused name and back restores the ledger and the roster |
| MatchCalculator.RenameNamesSpec | src/pages/MatchCalculator.tsx:279-285 | the roster rename replaces exactly the old name |
| MatchCalculator.RenameThroughVsRenameAll | src/pages/MatchCalculator.tsx:262-271 | the rename as written agrees with the intended one exactly when no match after the edited one holds the old name |
| MatchCalculator.RenameAsWrittenMissesLaterMatches | src/pages/MatchCalculator.tsx:262-285 | on two copies of a match holding "A", renaming the first entry to "B" leaves the second match and the roster saying "A" |
| MatchCalculator.AddMatch | src/pages/MatchCalculator.tsx:298-328 | refused without listed teams, then for a blank number; otherwise the ledger gains exactly one seeded match at the end |
| MatchCalculator.RenameMatch | src/pages/MatchCalculator.tsx:229-243 | refused for a blank number; otherwise only that match's type and number change |
| MatchCalculator.DeleteMatch | src/pages/MatchCalculator.tsx:124-143 | the ledger never becomes empty: the match is removed, or an emptied ledger gets the initial final back |
| MatchCalculator.MatchCalculatorPage.constructor | src/pages/MatchCalculator.tsx:39-77 | mounting recomputes the saved ledger, or seeds one final from the roster, and every entry is consistent |
| MatchCalculator.MatchCalculatorPage.ScoreChange | src/pages/MatchCalculator.tsx:86-107 | only the edited entry of the edited match changes |
| MatchCalculator.MatchCalculatorPage.Save | src/pages/MatchCalculator.tsx:109-122 | the ledger is recomputed and fully consistent |
| MatchCalculator.MatchCalculatorPage.DeleteMatchAt | src/pages/MatchCalculator.tsx:124-144 | once confirmed, the ledger becomes the delete's result; a refusal changes nothing |
| MatchCalculator.MatchCalculatorPage.SaveRename | src/pages/MatchCalculator.tsx:229-246 | the rename is accepted exactly when the number is not blank; a refusal changes nothing |
| MatchCalculator.MatchCalculatorPage.TeamNameSave | src/pages/MatchCalculator.tsx:252-288 | the evidently intended handler: the match-by-match loop renames the chosen entry's name, read once, to the trimmed name in every match and in the roster; a blank name changes nothing |
| MatchCalculator.MatchCalculatorPage.TeamNameSaveAsWritten | src/pages/MatchCalculator.tsx:252-288 | the handler as written: the loop re-reads the chosen entry for every match, so only the matches up to the edited one are renamed, and the roster is left as it was; a blank name changes nothing |
| MatchCalculator.MatchCalculatorPage.AddTeam | src/pages/MatchCalculator.tsx:290-296 | the trimmed name joins the dialog's list unless it is blank |
| MatchCalculator.MatchCalculatorPage.RemoveListedTeam | src/pages/MatchCalculator.tsx:634 | the listed team at that index leaves the dialog's list |
| MatchCalculator.MatchCalculatorPage.AddMatchFromDialog | src/pages/MatchCalculator.tsx:298-336 | on success the match is appended, the roster becomes the dialog's list and the configuration is reloaded; a refusal changes nothing |
| MatchInput.FindResult | src/pages/MatchInput.tsx:45 | the search fails exactly when no saved row has the id, and otherwise returns the first row with it |
| MatchInput.SeedResultsSpec | src/pages/MatchInput.tsx:41-63 | one row per team in team order: the first saved row with its id, or a zero row |
| MatchInput.Load | src/pages/MatchInput.tsx:32-63 | mounting sends the user to registration exactly when no team is registered |
| MatchInput.KillsChangeSpec | src/pages/MatchInput.tsx:94-109 | the edit touches only that team's rows, stores `max(0, kills)`, rescores them, and keeps the rows scored and the kills non-negative |
| MatchInput.PositionChangeSpec | src/pages/MatchInput.tsx:111-126 | the same for the position |
| MatchInput.CalculateAllSpec | src/pages/MatchInput.tsx:128-148 | recomputing scores every row, changes nothing but points, and is idempotent |
| ScoreCalculator.CalculateScore | src/pages/ScoreCalculator.tsx:73-86 | without a configuration the score is 0; otherwise it is the scoring rule for a non-negative position, and kill points alone for a negative one |
| ScoreCalculator.ClampPosition | src/pages/ScoreCalculator.tsx:110 | the place is non-negative, at most the maximum, and kept when already in range |
| ScoreCalculator.SaveCheckSpec | src/pages/ScoreCalculator.tsx:166-186 | a match passes exactly when every team has a place, the places are distinct and none exceeds the maximum; the duplicate error comes exactly for a complete match with a repeated place |
| ScoreCalculator.EditThenSnapshot | src/pages/ScoreCalculator.tsx:221-230 | loading a finished match for editing and saving it again gives back that match, when its points are current |
| ScoreCalculator.SnapshotThenEdit | src/pages/ScoreCalculator.tsx:188-197 | the rows read back from a match just taken from up-to-date rows are those rows |
| ScoreCalculator.ScoreCalculatorPage.constructor | src/pages/ScoreCalculator.tsx:23-64 | mounting loads the saved matches; with no configuration it loads no rows; otherwise the stored open match or zero rows |
| ScoreCalculator.ScoreCalculatorPage.UpdateTeamPoints | src/pages/ScoreCalculator.tsx:88-99 | one row gets the update and a recomputed total; the others stay |
| ScoreCalculator.ScoreCalculatorPage.KillsChange | src/pages/ScoreCalculator.tsx:101-105 | stores `max(0, kills)` with `NaN` as 0, so kill counts stay non-negative |
| ScoreCalculator.ScoreCalculatorPage.PositionChange | src/pages/ScoreCalculator.tsx:107-123 | no-op without a configured maximum or for a taken place; otherwise the clamped place is stored; places stay distinct |
| ScoreCalculator.ScoreCalculatorPage.AddMatch | src/pages/ScoreCalculator.tsx:131-164 | refused while a team has no place; otherwise the open match is appended, the next name follows the count, and rows reset to zero |
| ScoreCalculator.ScoreCalculatorPage.Save | src/pages/ScoreCalculator.tsx:166-210 | gives the list it stores exactly when the checks pass, else the reason why not |
| ScoreCalculator.ScoreCalculatorPage.DeleteMatch | src/pages/ScoreCalculator.tsx:212-219 | once confirmed, the finished match at that index is dropped; a refusal changes nothing |
| ScoreCalculator.ScoreCalculatorPage.EditMatch | src/pages/ScoreCalculator.tsx:221-230 | a finished match becomes the open one |
| Results.SplitPartition | src/pages/Results.tsx:46-47 | the semifinal and final lists hold every saved match exactly once, each under its own type |
| Results.CalculateOverallResults | src/pages/Results.tsx:65-96 | the nested passes and the sort compute the overall table |
| Results.OverallResultsSpec | src/pages/Results.tsx:65-96 | one record per team name that occurs, with that team's match count and the sums of its kills and points; ordered by points, then kills; empty for no matches |
| Results.OverallResultsOrderFree | src/pages/Results.tsx:68-84 | the records do not depend on the order of the saved matches |
| Results.OverallStandingRows | src/pages/Results.tsx:133-140 | the exported rows follow the table, ranked 1, 2, ..., and every average is defined |
| Results.KindIndexFromSpec | src/pages/Results.tsx:184 | the ordinal search finds a match of that type preceded by exactly that many of its type, and finds none exactly when the ordinal is out of range |
| Results.DeleteByKindSpec | src/pages/Results.tsx:182-187 | the delete removes exactly the i-th match of that type, keeps all the others in order, and changes nothing for an ordinal out of range |
| Results.DeleteByKindKeepsOtherKind | src/pages/Results.tsx:182-187 | the matches of the other type are untouched |
| Results.ResultsPage.constructor | src/pages/Results.tsx:32-63 | mounting shows the configured title or "Tournament", the two typed lists and the overall table |
| Results.ResultsPage.LoadResults | src/pages/Results.tsx:36-63 | the same on a reload |
| Results.ResultsPage.DeleteMatch | src/pages/Results.tsx:178-199 | once confirmed, the stored list loses that match and the page reloads from it; a refusal changes nothing |
| Results.ResultsPage.SaveToHistory | src/pages/Results.tsx:210-230 | the history gains one snapshot of the shown lists and table; earlier snapshots are kept |
| FinalResult.SplitPartition | src/pages/FinalResult.tsx:40-41 | the two typed lists hold each match once, each under its own type |
| FinalResult.ObjectValuesPermutation | src/pages/FinalResult.tsx:67 | the enumeration of the totals object lists each record once |
| FinalResult.ObjectValuesOrder | src/pages/FinalResult.tsx:67 | records keyed by an array index come first, by ascending index; the others follow in insertion order |
| FinalResult.ObjectValuesPlain | src/pages/FinalResult.tsx:67 | when no team name is an array index, the enumeration is the insertion order |
| FinalResult.CalculateResults | src/pages/FinalResult.tsx:35-76 | the nested passes, the averages and the sort compute the final table |
| FinalResult.FinalResultsSpec | src/pages/FinalResult.tsx:47-72 | one row per team name that occurs, with its match count, kills (unset as 0) and points, and a defined average; ordered by non-increasing points |
| FinalResult.TiesKeepEnumerationOrder | src/pages/FinalResult.tsx:67-72 | for every points value, the teams on that many points appear in the final table in enumeration order, whatever their kills |
| FinalResult.KillsDoNotBreakTies | src/pages/FinalResult.tsx:72 | two teams on equal points keep their order here, but the results page's comparator swaps them when the second has more kills |
| FinalResult.MatchRowsSpec | src/pages/FinalResult.tsx:99-107 | the per-match rows are the entries rearranged, in non-increasing points, ranked 1, 2, ..., unset kills as 0, unset or zero position as the dash |
| FinalResult.FinalResultPage.constructor | src/pages/FinalResult.tsx:34-79 | mounting shows the two typed lists and the final table |
| FinalResult.FinalResultPage.SaveToHistory | src/pages/FinalResult.tsx:135-154 | the history gains one snapshot of the table under the configured name or "Tournament"; earlier snapshots are kept |
| GameConfigEditing.MaxOf | src/pages/GameConfig.tsx:31 | the maximum is an element of the list and no element exceeds it |
| GameConfigEditing.LoadedMaxPositionsSpec | src/pages/GameConfig.tsx:22-34 | a stored table covering positions 1 to n loads as n positions |
| GameConfigEditing.SettersSpec | src/pages/GameConfig.tsx:44-59 | each setter clamps at zero, changes only its own entry, and keeps every number non-negative |
| GameConfigEditing.CoversPreserved | src/pages/GameConfig.tsx:61-82 | adding or removing the last position keeps the table covering exactly the shown positions, and so does editing one of them |
| GameConfigEditing.RemoveUndoesAdd | src/pages/GameConfig.tsx:61-82 | removing the position just added restores the table |
| GameConfigEditing.GameConfigEditor.constructor | src/pages/GameConfig.tsx:22-34 | mounting takes the stored configuration and its largest position |
| GameConfigEditing.GameConfigEditor.KillPointsChange | src/pages/GameConfig.tsx:44-49 | the kill weight becomes the clamped value |
| GameConfigEditing.GameConfigEditor.PositionPointsChange | src/pages/GameConfig.tsx:51-59 | that position's bonus becomes the clamped value |
| GameConfigEditing.GameConfigEditor.AddPositionRow | src/pages/GameConfig.tsx:61-70 | one more position, worth 0 |
| GameConfigEditing.GameConfigEditor.RemovePositionRow | src/pages/GameConfig.tsx:72-82 | the last position goes, but never the only one |
| GameConfigEditing.GameConfigEditor.SaveConfig | src/pages/GameConfig.tsx:84-98 | the saved configuration carries the scoring, the position count, the game id and the game name |
| TournamentConfig.Initial | src/pages/TournamentConfig.tsx:14-21 | the form starts from the stored configuration, or from an empty name, "0" semifinals and "1" final |
| TournamentConfig.InputChangeSpec | src/pages/TournamentConfig.tsx:46-56 | an edit stores "NA" for any case of "na", keeps "", stores the clamped number's text (which parses back to it), or ignores the input |
| TournamentConfig.InputChangeIdempotent | src/pages/TournamentConfig.tsx:46-56 | the defaults are normalised, an edit keeps a field normalised, and typing the stored text again changes nothing |
| TournamentConfig.ConfigInputChange | src/pages/TournamentConfig.tsx:46-56 | an edit changes only its own count field |
| TournamentConfig.SaveSpec | src/pages/TournamentConfig.tsx:23-44 | a blank name is refused first, then a form with no matches; a stored form keeps the name and other texts, never holds "na", and configures at least one kind of match |
| TeamNames.InitialNamesSpec | src/pages/TeamNames.tsx:10-23 | mounting fails only for a negative count; otherwise there is one name per field, either the stored names or empty ones; an absent or zero count means 10 |
| TeamNames.AllNamedSpec | src/pages/TeamNames.tsx:45-51 | saving is possible exactly when no name is blank, so a cleared non-empty list cannot be saved |
| TeamNames.TeamNamesPage.constructor | src/pages/TeamNames.tsx:10-23 | as many fields as the configured count |
| TeamNames.TeamNamesPage.ChangeName | src/pages/TeamNames.tsx:25-30 | only the field at that index changes |
| TeamNames.TeamNamesPage.Clear | src/pages/TeamNames.tsx:53-58 | once confirmed every name is empty and the count stays; otherwise nothing changes |
| TeamNames.TeamNamesPage.Save | src/pages/TeamNames.tsx:45-51 | the page proceeds exactly when no name is blank |
| TeamRegistration.BlankTeam | src/pages/TeamRegistration.tsx:71-88 | a new team has an empty name in a team game and "Solo Player" otherwise, and one empty member |
| TeamRegistration.InitialTeams | src/pages/TeamRegistration.tsx:20-47 | the stored teams when there are any, otherwise one blank team; never empty |
| TeamRegistration.SaveTeamsSpec | src/pages/TeamRegistration.tsx:94-130 | saving succeeds exactly when no team of a team game is unnamed and every member has all six fields; the names follow the teams, and every row starts at zero |
| TeamRegistration.BlankTeamInvalid | src/pages/TeamRegistration.tsx:71-102 | a freshly added team never passes the check |
| TeamRegistration.RemoveUndoesAdd | src/pages/TeamRegistration.tsx:71-92 | removing the team added last restores the list |
| TeamRegistration.TeamRegistrationPage.constructor | src/pages/TeamRegistration.tsx:20-47 | mounting for a known game loads its teams or one blank team |
| TeamRegistration.TeamRegistrationPage.TeamChange | src/pages/TeamRegistration.tsx:63-69 | only the team at that index is replaced |
| TeamRegistration.TeamRegistrationPage.AddTeam | src/pages/TeamRegistration.tsx:71-88 | one blank team joins at the end |
| TeamRegistration.TeamRegistrationPage.RemoveTeam | src/pages/TeamRegistration.tsx:90-92 | the team at that index goes and the rest keep their order |
| TeamRegistration.TeamRegistrationPage.Save | src/pages/TeamRegistration.tsx:94-130 | the names and zero rows are handed on exactly when the teams are valid |
| TournamentHistory.TitleOr | src/pages/FinalResult.tsx:143 | the title is the configured name when it is non-empty, and is never empty |
| TournamentHistory.Push | src/pages/FinalResult.tsx:147 | the history keeps every snapshot and gains the new one at the end |
| TournamentHistory.Load | src/pages/TournamentHistory.tsx:23-26 | the page lists the stored snapshots newest first |
| TournamentHistory.Delete | src/pages/TournamentHistory.tsx:28-34 | every snapshot with that id goes; every other one stays, as often as it occurred |
| TournamentHistory.DeleteConcat | src/pages/TournamentHistory.tsx:30 | the survivors keep their relative order: deleting from two lists placed one after the other is deleting from each |
| TournamentHistory.SaveEdit | src/pages/TournamentHistory.tsx:41-52 | the snapshots with that id take the new name and date; nothing else changes |
| TournamentHistory.TopThree | src/pages/TournamentHistory.tsx:154 | the podium is the first three standings, or all of them when there are fewer |
| TournamentHistory.DeleteWritesBackDisplayOrder | src/pages/TournamentHistory.tsx:23-34 | a delete stores the newest-first list, so the next visit shows the survivors oldest first |
| TournamentHistory.EditWritesBackDisplayOrder | src/pages/TournamentHistory.tsx:23-52 | an edit flips the stored order in the same way |
| TournamentHistory.DeleteUndoesPush | src/pages/TournamentHistory.tsx:28-34 | deleting the snapshot just archived, whose id is new, gives back the list as shown before |

## Left out

- Local storage, navigation, `alert` and `window.confirm` are not modelled. Stored values and dialog answers are parameters. `Date.now`, `toLocaleDateString` and `crypto.randomUUID` are parameters too.
- Spreadsheet and text downloads are not modelled: `xlsx` workbooks, file names, and the `team_names.txt` download of `TeamNames.tsx`. The row contents are modelled: the per-match rows of both ledger pages and the overall standings rows of `Results.tsx`. Four sheets are not modelled: the flat semifinal and final sheets of `Results.tsx`, the overall sheet of `FinalResult.tsx`, and the summary sheet at `MatchCalculator.tsx:173-184`. They copy fields unchanged.
- FinalResult.FinalResultsSpec: the average is the exact quotient. The rounding by `Number(x.toFixed(2))` is not modelled, because it is floating point.
- Results.OverallStandingRows: the average is the exact quotient, not the `toFixed(2)` text.
- `calculatePoints`, `getGameConfig`, `getTeams`, `getMatchResults`, `saveMatchResults` and `saveGameConfig` are storage utilities outside this model. `MatchInput` takes the points rule as the parameter `rule`. The others become inputs and outputs.
- JavaScript's dynamic values are not modelled: `Number()` on arbitrary values, `NaN` stored in numeric fields, and configuration objects that lack fields. A stored cell is `number | ''` (an `Option`). A number that `parseInt` cannot read is `None`.
- MatchCalculator.MatchCalculatorPage.ScoreChange: the in-place `match.teams[teamIndex] = team` also writes into the previous state's shared team array. The model updates by value, so that aliasing is not captured.
- MatchCalculator.MatchCalculatorPage.TeamNameSaveAsWritten: the source assigns `match.teams` on match objects that the previous ledger still shares. The model captures the effect on the name it re-reads, which is why later matches keep the old name. It does not otherwise model that sharing.
- RenameAllSpec: states the evidently intended rename. The source as written renames only up to the edited match and leaves the roster unchanged; that behaviour is `TeamNameSaveAsWritten` (see Findings).
- TournamentHistory.Delete: models the confirmed branch of `window.confirm` at `TournamentHistory.tsx:29`. A refusal leaves the list as it is.
- ScoreCalculator.ScoreCalculatorPage.Save, ScoreCalculator.ScoreCalculatorPage.DeleteMatch, ScoreCalculator.ScoreCalculatorPage.EditMatch, Results.ResultsPage.SaveToHistory: rendering is not modelled, and the render reorders state in place.
  - `ScoreCalculator.tsx:310` sorts the `teams` of every previous match in `allMatches` by points during render. So once the page has rendered, Save (`ScoreCalculator.tsx:200`) and DeleteMatch (`ScoreCalculator.tsx:214-216`) store those matches with their entries in points order, and EditMatch reads the rows in that order.
  - `Results.tsx:381` does the same to the semifinal matches in `semifinalResults`, so SaveToHistory archives them in points order. The final matches are archived as stored.
  - The model keeps every list in its stored entry order. Not captured: the stored and archived entry order, the row order that EditMatch loads, and, because the overall table orders tied teams by first appearance, the tie order of `Results.OverallResultsSpec` and `ResultsPage.LoadResults` on the next load of such a list.
  - `Results.tsx:252-253` is the same sort inside `renderMatchSection`, which the page never calls. `Results.ResultsPage.DeleteMatch` re-reads storage, so the render sort does not reach what it stores.
- `match.teams.sort(...)` in the single-match download of `MatchCalculator.tsx:152` and in `FinalResult.tsx:100,117` sorts the stored array in place. The model sorts a copy, so the reordered ledger left behind is not captured.
- React's batching of state updates and its stale closures are not modelled. Every handler acts on the current state; `addPosition` reads `maxPositions` from its closure, and the model uses the current count.
- Handlers that the page only calls with a valid index have that index as a precondition: `ChangeName`, `TeamChange`, `ScoreChange`, `UpdateTeamPoints`, `KillsChange`, `PositionChange`, `SaveRename` and `TeamNameSave`.
- `handleClearResults` of `Results.tsx` is not modelled, because it only removes storage keys and resets the three lists to empty.
- The `editingTeamName === null` early return of `handleTeamNameSave` is not modelled, because the page keeps no edit state. A call always carries a chosen entry.
- TeamNames.InitialNames: a non-integer `maxPositions` would throw `RangeError` from `Array(n)`. Counts are integers here, so only the negative case is modelled.
- GameConfigEditing.LoadedMaxPositions: the keys of the position table arrive as an integer list. `Object.keys(...).map(Number)` on a non-numeric key giving `NaN` is not modelled.
- Team names that clash with `Object.prototype` are not modelled in `FinalResult.tsx`: `"__proto__"`, `"constructor"`, `"toString"`, `"valueOf"`, `"hasOwnProperty"` and the other inherited property names. For such a name `!teamScores[name]` at line 51 is false, so the source never creates a record and the team is missing from `Object.values`; the model lists it like any other team. Names are plain keys; array-index keys are ordered first, as `Object.values` does.
- Double-precision numbers are not modelled. Integers are unbounded, so `parseInt` of more than about 16 digits keeps every digit where JavaScript rounds. `NatToString` prints every digit where `Number.prototype.toString` writes values of 1e21 and above in exponent form, for example "1e+21" at `TournamentConfig.tsx:53`.
- `exportTeamsToCSV` and the team form component of `TeamRegistration.tsx` are not part of this model.
- `src/pages/Games.tsx`, `src/pages/TeamNameInput.tsx` and `src/App.tsx` are not part of this model, because they are navigation and layout.
- The configuration load of `TeamRegistration.tsx:49-53` is not modelled, because the loaded value is never read by the handlers.

## Findings

| source | as written | input that shows it | evidently intended | confidence | as-written member | corrected member |
|---|---|---|---|---|---|---|
| src/pages/MatchCalculator.tsx:262-285 | the name to replace is read again from the edited entry for every match and for the roster; once the edited match has been renamed, that read gives the new name, so later matches and the roster keep the old name | a ledger of two matches, each with one entry "A", and the roster ["A"]; rename entry 0 of match 0 to "B": match 1 still says "A" and the roster stays ["A"] | every entry with the old name, in every match, and the roster, take the new name | not executed | MatchCalculator.RenameAsWrittenMissesLaterMatches, MatchCalculator.MatchCalculatorPage.TeamNameSaveAsWritten | MatchCalculator.RenameAllSpec, MatchCalculator.MatchCalculatorPage.TeamNameSave |
