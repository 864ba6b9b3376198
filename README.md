# Entertainment Hub recommendation core, in Dafny

This project models the core of a small recommendation site.

- **The front end.** It has a main page that switches between a landing page and three wizard pages (movies, anime, books). Each wizard collects up to five favourite titles and some optional details, then shows recommendations.
- **The back end.** It is a Flask service. Its `/recommend` endpoint validates the request, ranks every unrated catalogue item by the trained model's predicted rating, applies genre, mood and era filters and falls back to the top five. Its `/search` endpoint matches titles. `precision_at_k` scores the trained models.

Modules:

- `Text`: JavaScript's `trim`, lower-casing, substring search, and the `'|'` join and split behind the genre filter.
- `Wizard`: the three wizard pages.
  - They share their handlers line for line, so one generic model covers all three.
  - A wizard's state is the value `State`, and each handler is an `Event` applied by `Apply`.
  - The class `Wizard` holds the eight component fields. Each of its methods is proved to produce exactly the state `Apply` describes.
  - "Get recommendations" is split into `Begin` (loading starts) and `Complete(outcome)` (the answer arrives).
- `AnimeApp`, `BookApp`, `MovieApp`: the one handler that differs between the copies.
  - The anime page posts a payload and applies the back end's answer.
  - The book and movie pages run a timer stub that shows five fixed records.
- `MainPage`: the `currentPage` state, its two handlers, and the page-to-view selection.
- `Ranking`: Python's stable `sort(key=..., reverse=True)`, as a function and as an in-place insertion sort on an array proved equal to it. It also has prefix (`[:n]`, `head(n)`) and order-preserving filtering.
- `Recommend`: the `/recommend` endpoint.
  - The trained SVD model is a function `predict` from item id to rating.
  - A data frame is a sequence of rows.
  - An uncaught pandas exception is the answer `ServerError` (HTTP 500).
- `Search`: the `/search` endpoint.
- `Precision`: `precision_at_k`, with its grouping, sorting and averaging loops.

Behaviour modelled as the code has it:

- **Start over.** It restores every field except `isLoading` (src/AnimeRecommendationApp.js:128-141 sets seven of the eight). The model proves the state equals the initial state whenever no request is in flight.
- **Removal.** It uses JavaScript's `splice(index, 1)` on a copy, including negative and out-of-range indices. The max flag stays in step with a full list only while removals hit an entry.
- **Book requests.** The book frame keeps only `item_id, title, author, genres, avg_rating` (backend/app.py:133). A valid book request therefore always ends in a 500: the genre filter, the era filter and the final projection all read `genre` or `year`.
- **Empty candidate list.** When every catalogue item is a favourite, the merge of an empty prediction list raises, giving a 500.
- **Favourites sent as titles.** The front end sends titles as favourites (strings), and the catalogues hold numeric ids. Such favourites exclude nothing from the candidates.
- **Missing cells.** The movie frame drops only rows without an id or an average rating (backend/app.py:26), so a title or year can be missing. `jsonify` writes such a cell as `NaN`, which the browser's JSON parser rejects, so the anime page treats that 200 answer as a failure.
- **Anime form options.** The anime page's era and length options never select an era range or a mood key.

## Model

| member | source | states |
|---|---|---|
| Text.Trim | src/AnimeRecommendationApp.js:25-35 | the trimmed text is no longer than the input and starts and ends with a non-space |
| Text.TrimIsInfix | src/AnimeRecommendationApp.js:25-35 | trimming removes only whitespace, from both ends |
| Text.TrimEmptyIff | src/AnimeRecommendationApp.js:25-28 | input is rejected as blank exactly when it is all whitespace |
| Text.TrimIdempotent | src/MovieRecommendationApp.js:35 | a stored title is its own trim |
| Text.Lower | backend/app.py:185-186 | lower-casing keeps the length and maps each character |
| Text.Join | backend/app.py:325 | definition of `'|'.join(filters)`; its properties are in Text.SplitJoin and Recommend.PatternAlternatives |
| Text.MatchesPattern | backend/app.py:326 | definition of `str.contains(pattern)`: some `'|'` alternative occurs in the cell; its properties are in Recommend.PatternAlternatives and Recommend.FilteredRows |
| Text.SplitJoin | backend/app.py:324-326 | splitting `'|'.join(filters)` at `'|'` gives the filters back when none holds a `'|'` |
| Text.Split | backend/app.py:325-326 | a pattern has at least one alternative, and none holds the separator |
| Wizard.Details.Set | src/BookRecommendationApp.js:60-63 | editing a detail changes that key and no other |
| Wizard.SpliceStart | src/AnimeRecommendationApp.js:47 | where `splice` starts, negative indices counted from the end |
| Wizard.RemoveAt | src/AnimeRecommendationApp.js:45-50 | `splice(index, 1)`: an in-range index deletes exactly that entry and keeps the others in order; out of range changes nothing; nothing new appears |
| Wizard.AddPending | src/AnimeRecommendationApp.js:24-42 | definition of handleAddAnime's three branches; its properties are in Wizard.AddPreservesInv, Wizard.AddBlankIsRejected, Wizard.AddToFullIsRejected and Wizard.AddAppendsTrimmed |
| Wizard.Apply | src/AnimeRecommendationApp.js:24-141 | definition of every handler as a state transition; its properties are in Wizard.ApplyPreservesInv, Wizard.ApplyPreservesSynced and the per-handler lemmas from Wizard.KeyPressIsAdd to Wizard.StartOverResets |
| Wizard.InitialIsValid | src/AnimeRecommendationApp.js:7-21 | the initial state satisfies the invariant and has the max flag in step |
| Wizard.AddPreservesInv | src/AnimeRecommendationApp.js:24-42 | the add handler keeps the invariant |
| Wizard.ApplyPreservesInv | src/AnimeRecommendationApp.js:24-141 | every handler keeps: at most 5 titles, each non-empty and trimmed, max flag only on a full list |
| Wizard.RunPreservesInv | src/AnimeRecommendationApp.js:24-141 | every sequence of handlers keeps the invariant |
| Wizard.ReachableStatesAreValid | src/MovieRecommendationApp.js:24-42 | from a fresh page the list never exceeds 5 titles, and each title is non-empty and trimmed |
| Wizard.ApplyPreservesSynced | src/AnimeRecommendationApp.js:39-50 | the max flag holds exactly when the list is full, kept by each handler whose removal hits an entry |
| Wizard.RunPreservesSynced | src/AnimeRecommendationApp.js:39-50 | the same for a sequence of handlers |
| Wizard.AddBlankIsRejected | src/AnimeRecommendationApp.js:24-28 | blank input only sets the error flag; list, input and max flag unchanged |
| Wizard.AddToFullIsRejected | src/AnimeRecommendationApp.js:30-33 | adding to a full list only sets the max flag; the list is unchanged |
| Wizard.AddAppendsTrimmed | src/AnimeRecommendationApp.js:35-41 | a successful add appends the trimmed text, clears input and error, sets the max flag iff the list becomes full, nothing else changes |
| Wizard.KeyPressIsAdd | src/AnimeRecommendationApp.js:53-57 | Enter acts as the add button, any other key does nothing |
| Wizard.InputReplacesText | src/MovieRecommendationApp.js:145-148 | typing replaces the input text and clears the error flag, nothing else |
| Wizard.RemoveDeletesEntry | src/BookRecommendationApp.js:45-50 | removing a valid index deletes exactly that entry, keeps the others in order, clears the max flag, nothing else changes |
| Wizard.RemoveThenAddRefills | src/MovieRecommendationApp.js:45-50 | after removing from a full list, the next non-blank add succeeds and the list is full again |
| Wizard.EditDetailChangesOneKey | src/BookRecommendationApp.js:60-63 | editing a detail overwrites that key only, any string accepted |
| Wizard.ContinueGuarded | src/AnimeRecommendationApp.js:66-72 | continue goes to step 2 iff the list is non-empty; otherwise it only sets the error flag |
| Wizard.BackOnlyResetsStep | src/AnimeRecommendationApp.js:332 | back sets step 1 and touches nothing else |
| Wizard.BeginOnlySetsLoading | src/BookRecommendationApp.js:76 | starting a request changes only the loading flag |
| Wizard.CompleteOutcomes | src/AnimeRecommendationApp.js:99-107 | success shows the data on step 3; failure leaves step and results; loading ends either way |
| Wizard.StartOverResets | src/AnimeRecommendationApp.js:128-141 | start over restores every field except loading, is idempotent, and gives the initial state when no request is in flight |
| Wizard.Wizard.constructor | src/AnimeRecommendationApp.js:7-21 | a new page is in the initial state |
| Wizard.Wizard.ChangeInput | src/AnimeRecommendationApp.js:178-181 | the input's onChange, as Apply describes, keeping the invariant |
| Wizard.Wizard.AddTitle | src/AnimeRecommendationApp.js:24-42 | the add handler, as Apply describes, keeping the invariant |
| Wizard.Wizard.HandleKeyPress | src/AnimeRecommendationApp.js:53-57 | the key handler, as Apply describes |
| Wizard.Wizard.RemoveTitle | src/AnimeRecommendationApp.js:45-50 | the remove handler, as Apply describes, keeping the invariant |
| Wizard.Wizard.ChangeDetail | src/AnimeRecommendationApp.js:60-63 | the details onChange, as Apply describes |
| Wizard.Wizard.ContinueToDetails | src/AnimeRecommendationApp.js:66-72 | the continue handler, as Apply describes |
| Wizard.Wizard.GoBack | src/BookRecommendationApp.js:295 | the back button, as Apply describes |
| Wizard.Wizard.BeginRequest | src/AnimeRecommendationApp.js:76 | loading starts, as Apply describes |
| Wizard.Wizard.CompleteRequest | src/AnimeRecommendationApp.js:99-107 | the answer is applied, as Apply describes |
| Wizard.Wizard.HandleStartOver | src/MovieRecommendationApp.js:95-108 | start over, as Apply describes; the result is valid with the flag in step |
| AnimeApp.PayloadOf | src/AnimeRecommendationApp.js:84-92 | the POST body: type 'anime', the titles as favourites in order, genre, mood and era of the details |
| AnimeApp.OutcomeOf | src/AnimeRecommendationApp.js:95-104 | a 200 answer is a success carrying its records exactly when every record has a title and a year (a missing one is written as `NaN`, which `response.json()` rejects); anything else is a failure |
| AnimeApp.MissingCellIsNotShown | src/AnimeRecommendationApp.js:99-106 | one instance of AnimeApp.ResponseIsShown, the general statement: a 200 answer with a missing title is a failure, so the page keeps its step and results and loading ends |
| AnimeApp.PayloadIgnoresOtherFields | src/AnimeRecommendationApp.js:84-92 | the payload depends on titles, genre, mood and era only (no name) |
| AnimeApp.PayloadPassesValidation | src/AnimeRecommendationApp.js:84-92 | a valid page's request passes the back end's checks iff at least one title is listed |
| AnimeApp.FormChoicesSelectNoFilter | src/AnimeRecommendationApp.js:299-325 | no era or length option of the form selects an era range or a mood key |
| AnimeApp.TitlesExcludeNoItem | src/AnimeRecommendationApp.js:86 | title strings sent as favourites exclude no numeric catalogue id |
| AnimeApp.ResponseIsShown | src/AnimeRecommendationApp.js:76-107 | begin then complete: the records of a parsable 200 answer on step 3, otherwise step and results unchanged; loading false |
| AnimeApp.SubmitRequest | src/AnimeRecommendationApp.js:76-92 | loading starts and the payload is built from the state before |
| AnimeApp.ReceiveResponse | src/AnimeRecommendationApp.js:94-107 | the answer is applied as Complete(OutcomeOf(answer)) |
| BookApp.AfterStub | src/BookRecommendationApp.js:79-91 | the timer shows the five fixed books, clears loading, sets step 3, changes nothing else |
| BookApp.StubIgnoresEntries | src/BookRecommendationApp.js:80-88 | the result is the same five books, ids 1 to 5 in order, whatever was entered |
| BookApp.GetRecommendations | src/BookRecommendationApp.js:75-76 | loading starts |
| BookApp.TimerFires | src/BookRecommendationApp.js:79-91 | the timer's callback leaves the state AfterStub describes |
| MovieApp.AfterStub | src/MovieRecommendationApp.js:79-91 | the timer shows the five fixed movies, clears loading, sets step 3, changes nothing else |
| MovieApp.StubIgnoresEntries | src/MovieRecommendationApp.js:80-88 | the result is the same five movies, ids 1 to 5 in order, whatever was entered |
| MovieApp.GetRecommendations | src/MovieRecommendationApp.js:75-76 | loading starts |
| MovieApp.TimerFires | src/MovieRecommendationApp.js:79-91 | the timer's callback leaves the state AfterStub describes |
| MainPage.ViewOf | src/MainPage.js:42-92 | 'movies', 'anime', 'books' show their wizard, anything else the landing page with the three cards; every view gets the logo handler |
| MainPage.NextPage | src/MainPage.js:32-40 | a section click with a non-empty page moves there, an empty one changes nothing; the logo goes to 'main' |
| MainPage.CardsOpenTheirWizards | src/MainPage.js:11-30 | three sections, pages 'movies', 'anime', 'books' in that order; each card's click leaves the landing page |
| MainPage.LogoAlwaysGoesHome | src/MainPage.js:38-66 | from any view the logo leads to 'main' and the landing page; a second click changes nothing |
| MainPage.Page.constructor | src/MainPage.js:9 | the page starts at 'main' |
| MainPage.Page.HandleSectionClick | src/MainPage.js:32-36 | currentPage becomes NextPage of a section click |
| MainPage.Page.HandleLogoClick | src/MainPage.js:38-40 | currentPage becomes 'main', showing the landing page |
| Ranking.Take | backend/app.py:238 | `[:n]`: length min(n, len) and a prefix |
| Ranking.Filter | backend/app.py:326 | a mask keeps only present elements satisfying the condition, and drops none of them |
| Ranking.FilterCounts | backend/app.py:326 | each satisfying element is kept as often as it occurs, any other not at all |
| Ranking.FilterAppend | backend/app.py:326-334 | the mask of a + b is the mask of a followed by that of b, so the kept rows keep their order |
| Ranking.FilterSingleton | backend/app.py:326 | a single row is kept iff it satisfies the condition |
| Ranking.FilterMembers | backend/app.py:326 | an element is kept iff it is present and satisfies the condition |
| Ranking.FilterKeepsOrder | backend/app.py:326-334 | filtering keeps a descending sequence descending |
| Ranking.TakeKeepsOrder | backend/app.py:238 | a prefix of a descending sequence is descending |
| Ranking.FilterAll | backend/app.py:326-334 | a condition every element meets keeps the sequence as it is |
| Ranking.Insert | backend/app.py:237 | definition of one stable insertion step; its properties are in Ranking.InsertPermutes, Ranking.InsertSorted, Ranking.InsertStable, Ranking.InsertAsSplice and Ranking.InsertAt |
| Ranking.SortDesc | backend/app.py:237 | definition of `sort(key=..., reverse=True)` as repeated insertion; its properties are in Ranking.SortDescProperties, Ranking.SortDescStable and Ranking.SortInPlace |
| Ranking.InsertPermutes | backend/app.py:237 | one insertion step adds exactly the inserted element |
| Ranking.InsertSorted | backend/app.py:237 | inserting into a descending sequence keeps it descending |
| Ranking.InsertStable | backend/app.py:237 | an inserted element goes after every element of its key |
| Ranking.SortDescStable | backend/app.py:237 | the sort is stable: the elements of one key keep their input order |
| Ranking.SortDescProperties | backend/app.py:237 | sorting gives a permutation ordered largest key first |
| Ranking.InsertAsSplice | backend/app.py:237 | inserting places the element at one position and keeps the others in order |
| Ranking.InsertAt | backend/app.py:237 | one insertion step in place equals the insert function, rest of the array unchanged |
| Ranking.SortInPlace | backend/app.py:237 | the in-place sort leaves exactly SortDesc of the old contents |
| Recommend.TableFor | backend/app.py:223-312 | definition of the if/elif choice of catalogue; its properties are in Recommend.TableForKnownTypes |
| Recommend.TableForKnownTypes | backend/app.py:223-312 | exactly the four types select a catalogue; only books lacks genre and year |
| Recommend.ValidationError | backend/app.py:216-219 | empty list gives the first message; more than 5 the second; otherwise an unknown lowered type the third; none iff all pass |
| Recommend.DistinctIds | backend/app.py:229 | the catalogue's ids, each once |
| Recommend.Candidates | backend/app.py:228-230 | definition of `list(all_items - rated_items)`; its properties are in Recommend.CandidatesAreUnratedItems, Recommend.CandidatesNonEmpty and Recommend.StringFavoritesExcludeNothing |
| Recommend.CandidatesAreUnratedItems | backend/app.py:228-230 | the candidates are exactly the catalogue ids that are not favourites, each once |
| Recommend.PredictionsOf | backend/app.py:232-235 | one prediction per candidate, in order, rated by the model |
| Recommend.TopPredictions | backend/app.py:237-238 | definition of the sort and `[:10]`; its properties are in Recommend.TopPredictionsAreBest and Recommend.RankCandidates |
| Recommend.TopPredictionsAreBest | backend/app.py:237-238 | at most 10, descending, each a rated candidate, and no candidate left out rates above one kept |
| Recommend.RankCandidates | backend/app.py:232-238 | the loop, the in-place sort and the slice give TopPredictions |
| Recommend.Hits | backend/app.py:240 | definition of the catalogue rows with a prediction's id, in catalogue order; its properties are in Recommend.MatchRowsCells |
| Recommend.MatchRows | backend/app.py:240 | a prediction's merged rows are at least one, each with its id and rating |
| Recommend.MatchRowsCells | backend/app.py:240 | one row per catalogue row with the prediction's id, in catalogue order, with its title, genre and year, so the count is that of those rows; with no such catalogue row exactly one row with empty cells; every row carries catalogue or empty cells |
| Recommend.Merge | backend/app.py:240 | at least as many rows as predictions, each row belonging to a prediction with its id and rating |
| Recommend.MergeRows | backend/app.py:240 | no prediction is lost, and every row carries the cells of the catalogue row with its id, or empty cells when there is none |
| Recommend.MergeSingle | backend/app.py:240 | one prediction merges to its matching rows |
| Recommend.MergeSnoc | backend/app.py:240 | appending a prediction appends its rows |
| Recommend.MergeAppend | backend/app.py:239-240 | the left merge keeps the left order: rows of a, then rows of b |
| Recommend.MergeKeepsOrder | backend/app.py:239-240 | merging a descending list gives descending rows |
| Recommend.GenreSelected | backend/app.py:319 | definition of `genre and genre != 'Select a genre'`; its properties are in Recommend.GenreFilters |
| Recommend.MoodMapped | backend/app.py:321 | definition of `mood and mood in mood_to_genre`; its properties are in Recommend.GenreFilters and AnimeApp.FormChoicesSelectNoFilter |
| Recommend.GenreFilters | backend/app.py:318-322 | the selected genre (not empty or 'Select a genre') first, then the mapped mood's genre; none empty |
| Recommend.GenreMatches | backend/app.py:326 | definition of the genre mask, with `na=False` for a missing cell; its properties are in Recommend.FilteredRows |
| Recommend.EraRange | backend/app.py:328-334 | definition of the era's year range, if any; its properties are in Recommend.FilteredRows and AnimeApp.FormChoicesSelectNoFilter |
| Recommend.PatternAlternatives | backend/app.py:324-326 | the combined pattern's alternatives are exactly the filters |
| Recommend.Filtered | backend/app.py:318-334 | definition of the genre mask then the era mask; its properties are in Recommend.FilteredRows |
| Recommend.FilteredRows | backend/app.py:324-334 | a row survives iff it matches the genre pattern (if any) and the era range (if any); no filter leaves the rows alone; order kept |
| Recommend.FinalRows | backend/app.py:336-339 | definition of the fallback and `head(5)`; its properties are in Recommend.FinalRowsProperties |
| Recommend.FinalRowsProperties | backend/app.py:336-339 | 1 to 5 rows, descending, each from a top prediction and carrying catalogue or empty cells; the filtered rows when some survive, else the merged top five |
| Recommend.PostProcess | backend/app.py:311-340 | definition of the part after the top list: a 500 for an empty list or a frame without genre and year, else the projected final rows; its properties are in Recommend.PostProcessOk and Recommend.ServerErrorCases |
| Recommend.RecommendSpec | backend/app.py:210-340 | definition of the endpoint as a function; its properties are in Recommend.RejectedRequests, Recommend.ServerErrorCases, Recommend.RecommendOkProperties and Recommend.RowsOfCandidates |
| Recommend.Recommend | backend/app.py:210-340 | the endpoint computes RecommendSpec |
| Recommend.RejectedRequests | backend/app.py:216-219 | 400 exactly when a check fails, with that check's message |
| Recommend.ServerErrorCases | backend/app.py:311-339 | a valid request fails iff it is for books or every item is a favourite; otherwise it has records |
| Recommend.RowsOfCandidates | backend/app.py:228-339 | the answer rows: 1 to 5, descending, never a favourite, always a catalogue item whose title, genre and year they carry, rated by the model |
| Recommend.CandidatesNonEmpty | backend/app.py:228-230 | an item that is not a favourite is a candidate |
| Recommend.OkRequestIsValid | backend/app.py:216-312 | a step toward Recommend.RecommendOkProperties: records answer only a valid, non-book request with candidates |
| Recommend.OkAnswerIsRows | backend/app.py:336-340 | a step toward Recommend.RecommendOkProperties and Recommend.RowsOfCandidates: one unfolding of RecommendSpec, so the records are the projection of FinalRows to title, year and rating |
| Recommend.PostProcessOk | backend/app.py:339-340 | a step toward Recommend.OkAnswerIsRows: one unfolding of PostProcess, so records, when there are any, project FinalRows, whose properties are in Recommend.FinalRowsProperties |
| Recommend.RecommendOkProperties | backend/app.py:210-340 | an answer with records has 1 to 5, descending by predicted rating, none a favourite, each with the title and year of the catalogue item of its id |
| Recommend.StringFavoritesExcludeNothing | backend/app.py:228-230 | string favourites against numeric ids exclude nothing |
| Search.TitleMatches | backend/app.py:192 | definition of `title.str.lower().str.contains(query, na=False)`; its properties are in Search.Search and Search.SearchFindsFirstMatches |
| Search.Matches | backend/app.py:191-201 | definition of the matching catalogue rows in catalogue order; its properties are in Search.SearchFindsFirstMatches |
| Search.Search | backend/app.py:184-206 | empty query gives no rows; unknown type the error; otherwise at most 10 catalogue rows whose title matches |
| Search.SearchFindsFirstMatches | backend/app.py:191-206 | the hits are exactly the first ten matches in catalogue order, repeated rows included; with fewer than 10, every match is a hit |
| Precision.Users | backend/app.py:171-173 | the users of the test set, each once |
| Precision.EarlierUserOccursBefore | backend/app.py:171-173 | wherever a later user occurs, each earlier one has occurred before |
| Precision.UsersInFirstOccurrenceOrder | backend/app.py:171-173 | the users are in first-occurrence order, the key order of the grouping dictionary |
| Precision.RatingsOf | backend/app.py:171-173 | definition of `user_est_true[uid]`, a user's pairs in order; its properties are in Precision.AbsentUserHasNoRatings and Precision.GroupByUser |
| Precision.AbsentUserHasNoRatings | backend/app.py:171-173 | a user who never occurs has no pairs |
| Precision.Relevant | backend/app.py:178 | the count of relevant pairs is at most the number of pairs |
| Precision.SliceTo | backend/app.py:177 | `[:k]` for any k: a prefix, negative k drops from the end |
| Precision.UserPrecision | backend/app.py:175-179 | definition of one user's precision; its properties are in Precision.UserPrecisionBounds, Precision.PerfectUserPrecision and Precision.ScoreUser |
| Precision.UserPrecisionBounds | backend/app.py:175-179 | a user's precision lies in [0, 1] |
| Precision.PerfectUserPrecision | backend/app.py:175-179 | all relevant and at least k pairs gives precision 1 |
| Precision.TotalPrecision | backend/app.py:180 | definition of the sum over users in key order; its properties are in Precision.TotalPrecisionBounds, Precision.ZeroPrecisionTotal and Precision.SumScores |
| Precision.TotalPrecisionBounds | backend/app.py:180 | the sum over n users lies in [0, n] |
| Precision.ZeroPrecisionTotal | backend/app.py:176-180 | with k <= 0 every user scores 0, so the sum is 0 |
| Precision.MeanPrecision | backend/app.py:180 | definition of the mean, 0 with no users; its properties are in Precision.MeanPrecisionBounds and Precision.PrecisionAtK |
| Precision.MeanPrecisionBounds | backend/app.py:180 | the metric lies in [0, 1], and is 0 with no predictions or k <= 0 |
| Precision.GroupByUser | backend/app.py:171-173 | the grouping loop: one key per user in first-occurrence order, each user's pairs in order |
| Precision.ScoreUser | backend/app.py:176-179 | sort in place, `[:k]`, count: the user's precision |
| Precision.ScoreUsers | backend/app.py:174-179 | the precisions dictionary holds each user's precision |
| Precision.SumScores | backend/app.py:180 | the sum of the dictionary's values |
| Precision.PrecisionAtK | backend/app.py:170-180 | the method computes MeanPrecision |

## Left out

- JSX rendering, CSS classes, icons, the footer, the step indicator, and the `disabled` state of the add controls: markup, not state.
- src/Navbar.js and src/BookNavbar.js: presentational components, not part of this model.
- The real `fetch` of the anime page, and its `handleSearch` (src/AnimeRecommendationApp.js:111-125): network I/O whose search results are only logged. The back end's answer is an input (`AnimeApp.ReceiveResponse`), and a network error is the same `Failure` as an error status.
- The 1500 ms `setTimeout` of the book and movie stubs, and a second click while the timer is pending: timing and concurrency. Both are replaced by the two calls `GetRecommendations` and `TimerFires`.
- Data loading, synthetic interactions, SVD training, RMSE and MAE, and Flask and CORS plumbing (backend/app.py:1-11, 22-168): I/O, randomness and library numerics. The model's predictions are the parameter `predict` of each catalogue. Two pieces of that range are modelled: the mood table (lines 14-20) is `Recommend.MoodToGenre`, and the book frame's columns (line 133) are the `hasGenreYear` flag of `Recommend.TableFor`.
- The sort by average rating and `head(10000)` of each catalogue (backend/app.py:29-30, 134): a catalogue is taken as given.
- The module-level calls to `precision_at_k` before its definition (backend/app.py:63): an import-time failure of the script, outside the function modelled.
- The global `concat` of the new user's interactions (backend/app.py:226,248,270,292): it never reaches the already-trained model.
- Floating point: ratings, estimates and precisions are reals.
- The regular-expression meaning of `str.contains`. A pattern is read as `'|'`-separated literal alternatives, so other metacharacters in a genre or query are taken literally.
- Unicode case mapping of `str.lower`: only ASCII letters are lowered.
- Recommend.TopPredictionsAreBest: among candidates with equal ratings, the order is that of the catalogue, because Python's set iteration order is not modelled. The stable sort then keeps ties in that order.
- The columns of the anime frame come from its CSV file. That frame is taken to have `genre` and `year` like the movie frame.
- Search.Search: a hit is the whole catalogue row; the projection to id, title and year (author for books) is not modelled.
- Request bodies that are not JSON objects, a `favorites` value that is not a list, and non-string `type` or preference values: the JSON decoding layer is not modelled.
- Wizard.Wizard.RemoveTitle: the copy-then-`splice` is a value update of a `seq` field, so array aliasing is not modelled.
