# EmmBook recommender core in Dafny

EmmBook is a book site: users browse and search the OpenLibrary catalogue,
mark favourites, and get recommendations built from those favourites. The
deterministic logic lives in the browser scripts. This project models it:

- the record normalisers that turn OpenLibrary search documents into one
  book shape: both `formatBookForRecommendation` variants, both
  `formatBookData` variants, `extractAuthors` and its override, and the
  safe-field fallbacks of the card renderers;
- the preference analysis: `normalizeSubject`, `extractDecade`, the Map
  counters of `analyzeUserPreferences`, `getTopEntries`, and
  `calculateBookScore`;
- the merge of `findRecommendedBooks`, with its favourite exclusion, one
  entry per id, replacement only on a strictly higher score, descending
  sort and truncation;
- the `_recEngine` recommendation cache, with its time-to-live, the
  update script's wrapper, and the invalidations on a favourite change;
- the reason-grouped round-robin shuffle of the enhanced script;
- the favourite helpers: the collection search with its OpenLibrary stub,
  the sentinel fill of `extractBookData`/`toggleFavorite`, the cover-id
  extraction from image URLs, and the request each toggle makes;
- the three form validators of `utils.js`.

JavaScript values are the datatype `JsValues.Js`. Truthiness, `||`, `?.`,
`String()`, `join`, `slice`, `trim`, `toLowerCase`, `replace` with a string
pattern, `parseInt` and `isNaN` are written out. A TypeError a script would
throw is `None` of an `Option`. Fetched data, `Date.now()` and
`Math.random()` are parameters or nondeterministic choices. Scores are
`real`, which is exact for the weights 0.4, 0.35, 0.25, 0.3, 0.2 and 0.1.
The imperative parts take imperative form:

- `_recEngine` and `window` are classes whose methods assign the cache
  fields;
- `shuffle` is a Fisher-Yates loop over an array;
- the counters, the score accumulator, the merge passes and the
  interleave are loops.

Each loop is proved against a function that specifies it.

## Model

Paths are relative to the repository root; `js/` stands for
`src/main/resources/static/js/` in the text, but each table cell gives the full path.

| member | source | states |
|---|---|---|
| RecFormat.MapNames | src/main/resources/static/js/recommendation.js:419 | `authors.map(a => a.name)` throws exactly when some entry is null or undefined; otherwise it gives each entry's `name`, one per entry |
| RecFormat.FormatForRecommendation | src/main/resources/static/js/recommendation.js:405-439 | title, subjects, publication year and cover URL are never falsy. Its clause that `authors` is `authorNames` joined with ', ' only restates the formatter's join; which names are chosen is stated by PageAuthorPrecedence |
| RecFormat.EngineFormatForRecommendation | src/main/resources/static/js/recommendations-engine.js:414-456 | the same guarantees for the engine formatter; the cover URL is truthy whenever the default cover is non-empty |
| RecFormat.PageAuthorPrecedence | src/main/resources/static/js/recommendation.js:412-423 | the author precedence. A non-empty `author_name` array is used as is. Otherwise a non-empty `authors` array is used as is when its first entry is a string, or mapped to `.name` when that entry has a name; when it has neither, the list stays the single 'Autor desconocido'. Otherwise a string `authors` is used, and finally the single 'Autor desconocido' |
| RecFormat.PageStringAuthorsThrow | src/main/resources/static/js/recommendation.js:413-431 | a non-empty string `author_name`, or a non-empty string `authors`, makes the page formatter throw, because a string has no `join`; an empty string `authors` gives one empty name |
| RecFormat.EngineEmptyAuthorName | src/main/resources/static/js/recommendations-engine.js:427-438 | in the engine any array `author_name` wins, so an empty one leaves no author name and an empty `authors` |
| RecFormat.VariantsDisagreeOnEmptyAuthorName | src/main/resources/static/js/recommendation.js:413-415 | for an empty `author_name` array the page formatter falls back to 'Autor desconocido' while the engine gives no name |
| RecFormat.RecIdFromKey | src/main/resources/static/js/recommendation.js:426 | a key '/works/X' gives id 'X' in both formatters |
| RecFormat.RecIdWithoutKey | src/main/resources/static/js/recommendations-engine.js:441-443 | with no key both formatters take `id`, then `cover_edition_key` |
| RecFormat.VariantsDisagreeOnBareWorksKey | src/main/resources/static/js/recommendation.js:426 | for the key '/works/' the page's `||` chain skips the empty remainder while the engine keeps '' |
| RecFormat.RecCoverPrecedence | src/main/resources/static/js/recommendation.js:406-409 | the cover id is the first truthy of `cover_i`, `cover_id`, `covers[0]`, and otherwise `coverId` itself, whatever it holds; the URL is the covers-service URL of that id exactly when there is one, else the record's own `coverUrl`, else the default |
| RecFormat.ApiShapedFormats | src/main/resources/static/js/recommendation.js:405-439 | a well-formed search document never makes either formatter throw |
| RecFormat.FormatAllOrNothing | src/main/resources/static/js/recommendation.js:323-331 | `docs.map(format)` inside a try whose catch returns []: every document formatted in order, or nothing once one throws |
| RecFormat.EngineAuthorSearchNamesAuthor | src/main/resources/static/js/recommendations-engine.js:236-242 | every candidate of the engine's author search has exactly the searched author as `authorNames` |
| RecFormat.EngineSubjectSearchSetsSubject | src/main/resources/static/js/recommendations-engine.js:263-268 | every candidate of the engine's subject search has exactly the searched subject as `subjects` |
| RecFormat.SubjectMappingsShape | src/main/resources/static/js/recommendations-engine.js:506-517 | every table entry maps to three terms, and the engine's table extends the page's unchanged |
| RecFormat.SubjectSearchTermsShape | src/main/resources/static/js/recommendation.js:462-472 | the terms are the subject, followed by the three mapped terms exactly when its lower-cased form is a table key, and by nothing otherwise; they throw only for an inherited Object.prototype name |
| RecFormat.SubjectSearchTermsAgree | src/main/resources/static/js/recommendations-engine.js:502-521 | where the page's table has an entry, both getSubjectSearchTerms give the same terms |
| RecFormat.GeneralRecommendations | src/main/resources/static/js/recommendation.js:374-400 | getGeneralRecommendations returns at most `limit` books, each from a successful search of one of the popular terms, gathered in term order until `limit` is reached |
| JsText.TrimSpec | src/main/resources/static/js/recommendation.js:448 | `trim()` returns a contiguous piece of its input, with no whitespace at either end, dropping only whitespace |
| JsText.ToLowerCase | src/main/resources/static/js/recommendation.js:445 | no ASCII capital survives `toLowerCase()` |
| JsText.ParseIntOfNumeral | src/main/resources/static/js/recommendation.js:452 | `parseInt(String(n))` is `n` for every integer |
| JsText.ParseIntUntrimmed | src/main/resources/static/js/recommendation.js:452 | parseInt reads an optional '-' and then the digits |
| Subjects.StripNonWord | src/main/resources/static/js/recommendation.js:446 | `replace(/[^\w\s]/g, '')` keeps only ASCII word characters and whitespace, and adds no capital |
| Subjects.NormalizeSubjectShape | src/main/resources/static/js/recommendation.js:444-449 | a normalised subject holds only lower-case ASCII letters, digits, '_' and single inner spaces, with no space at either end |
| Subjects.NormalizeSubjectIdempotent | src/main/resources/static/js/recommendations-engine.js:467-472 | normalising a normalised subject changes nothing |
| Subjects.ExtractDecadeSpec | src/main/resources/static/js/recommendation.js:451-454 | the decade is null exactly when parseInt gives NaN; otherwise it is the multiple of ten `d` with `d <= year < d + 10` |
| Subjects.ExtractDecadeOfYear | src/main/resources/static/js/recommendations-engine.js:479-483 | a year given as a number or as its decimal string yields its own decade |
| StableSort.SortDescSorted | src/main/resources/static/js/recommendation.js:458 | the descending sort orders by non-increasing key |
| StableSort.SortDescStable | src/main/resources/static/js/recommendation.js:458 | the sort is stable: elements with equal keys keep their input order |
| StableSort.SortDesc | src/main/resources/static/js/recommendation.js:458 | the sort is a permutation of its input |
| Frequency.TallyOfSpec | src/main/resources/static/js/recommendations-engine.js:116-121 | counting with `map.set(k, (map.get(k) \|\| 0) + 1)` keeps one entry per distinct key, in order of first appearance, with each key's number of occurrences |
| Frequency.IncrementCount | src/main/resources/static/js/recommendations-engine.js:118-119 | one `set` adds exactly one to its key and changes no other count |
| Frequency.TopEntriesSpec | src/main/resources/static/js/recommendation.js:456-460 | getTopEntries returns min(limit, size) entries, all from the map, with non-increasing counts; no entry left out counts more than one kept |
| Frequency.TopEntriesTies | src/main/resources/static/js/recommendations-engine.js:491-495 | among entries of equal count, the kept ones are the first in insertion order |
| Frequency.TopEntriesDistinct | src/main/resources/static/js/recommendations-engine.js:491-495 | the kept entries have distinct keys |
| Preferences.CountAuthorNames | src/main/resources/static/js/recommendations-engine.js:99-121 | only references with an `author` link whose fetch gave a truthy name are counted, each adding one |
| Preferences.CountSubjects | src/main/resources/static/js/recommendations-engine.js:125-133 | only non-empty string subjects are counted, under their normalised key |
| Preferences.CountDecade | src/main/resources/static/js/recommendations-engine.js:136-142 | a truthy date adds one to its decade unless that decade is NaN or 0 |
| Preferences.CountLanguages | src/main/resources/static/js/recommendations-engine.js:145-150 | every language entry adds one |
| Preferences.AnalyzeUserPreferences | src/main/resources/static/js/recommendations-engine.js:73-161 | the profile of the fetched details: the four counters cut to 5, 8, 3 and 2 entries, and the number of details fetched |
| Preferences.TotalAnalyzedCountsFetched | src/main/resources/static/js/recommendations-engine.js:83-94 | `totalAnalyzed` is the number of favourites whose detail fetch succeeded |
| Preferences.ProfileCaps | src/main/resources/static/js/recommendations-engine.js:154-158 | the profile keeps 5 authors, 8 subjects, 3 decades and 2 languages, or fewer when fewer distinct keys were seen |
| Preferences.TopAuthorCounts | src/main/resources/static/js/recommendations-engine.js:114-121 | each kept author carries its number of resolved names, at least one |
| Preferences.ProfileKeys | src/main/resources/static/js/recommendations-engine.js:125-142 | kept subjects are normalised keys, and kept decades are non-zero multiples of ten |
| Scoring.FindCount | src/main/resources/static/js/recommendation.js:480 | `find` gives a count exactly when some entry has the key, and that entry is in the list |
| Scoring.AddAuthorPoints | src/main/resources/static/js/recommendation.js:478-483 | the author loop adds 0.3 times the count of each author found among the top authors |
| Scoring.AddSubjectPoints | src/main/resources/static/js/recommendation.js:486-492 | the subject loop throws exactly on a subject that is not a string; otherwise it adds 0.2 times the count of each normalised subject found |
| Scoring.CalculateBookScore | src/main/resources/static/js/recommendation.js:474-502 | the accumulated score equals the author, subject and decade points of the specification |
| Scoring.BookScoreThrows | src/main/resources/static/js/recommendations-engine.js:391-397 | calculateBookScore throws exactly when `subjects` is truthy and is not an array of strings |
| Scoring.BookScoreNonNegative | src/main/resources/static/js/recommendation.js:474-502 | every score is non-negative |
| Scoring.AuthorPointsAppend | src/main/resources/static/js/recommendations-engine.js:383-388 | the author points are a sum over the authors |
| Scoring.OneAuthorPoints | src/main/resources/static/js/recommendations-engine.js:385-386 | one author adds 0.3 times its count when it is a key of the top authors, and nothing otherwise |
| Scoring.DistinctFind | src/main/resources/static/js/recommendations-engine.js:385 | in a profile list with distinct keys, `find` gives the count of the one entry for the key |
| Merge.IndexOfId | src/main/resources/static/js/recommendation.js:276 | `has`/`get` find the entry for an id exactly when one exists |
| Merge.OfferBook | src/main/resources/static/js/recommendation.js:273-280 | one `forEach` step: a favourite is skipped, a throwing score ends the passes, any other candidate is offered to the Map |
| Merge.MergeBooks | src/main/resources/static/js/recommendation.js:272-280 | the `forEach` over one search's books equals the merge of its offers |
| Merge.MergeQueries | src/main/resources/static/js/recommendations-engine.js:174-216 | the three passes over all searches equal the merge of all offers, stopping at the first exception |
| Merge.FindRecommendedBooks | src/main/resources/static/js/recommendation.js:265-317 | the returned list is the sorted, truncated Map of the merge |
| Merge.UpsertSpec | src/main/resources/static/js/recommendation.js:276-278 | the value for the candidate's id becomes the candidate exactly when there was none or the old score was strictly lower; other ids keep their values and places, and a new id is added last |
| Merge.UpsertMonotone | src/main/resources/static/js/recommendations-engine.js:181-183 | an upsert never lowers the score kept for an id |
| Merge.MergeValid | src/main/resources/static/js/recommendation.js:274 | the Map's ids stay distinct and never include a favourite |
| Merge.EntriesFromOffers | src/main/resources/static/js/recommendation.js:275-277 | every entry is a non-favourite candidate with its score plus bonus and its pass's reason |
| Merge.MergeFailsIff | src/main/resources/static/js/recommendation.js:309-311 | the passes end early exactly when some non-favourite candidate makes the score throw |
| Merge.EntriesDominate | src/main/resources/static/js/recommendations-engine.js:181-183 | without an exception, the entry for each candidate's id scores at least as much as that candidate |
| Merge.RecommendedSpec | src/main/resources/static/js/recommendation.js:313-316 | the result is the best `limit` entries of the Map: exactly min(limit, size) of them (a negative limit counts from the end, as `slice` does), sorted by score descending, with no entry left out scoring more than one kept; distinct ids, no favourite, each from the Map, and all of the Map when the limit allows |
| Merge.RecommendedTies | src/main/resources/static/js/recommendation.js:313-316 | among entries of equal score, the kept ones are the first inserted into the Map |
| Merge.TopSlice | src/main/resources/static/js/recommendation.js:313-316 | the sorted slice of any entry list has the length `slice` gives, is sorted, keeps only entries of the list, and none left out outscores one kept |
| Shuffle.GroupByReason | src/main/resources/static/js/recommendations-enhanced.js:144-150 | the grouping loop builds the groups keyed by `reason \|\| 'general'`, in order of first appearance, and throws exactly when some key is a name inherited from Object.prototype (the plain object's inherited value has no `push`) |
| Shuffle.CapitalisedReasonsGroup | src/main/resources/static/js/recommendations-enhanced.js:144-149 | keys that start with a capital letter, like every reason the recommendation scripts write, or the default 'general', never make the grouping throw |
| Shuffle.GroupsPermutation | src/main/resources/static/js/recommendations-enhanced.js:142-150 | grouping loses and adds no item |
| Shuffle.ShuffleArray | src/main/resources/static/js/recommendations-enhanced.js:176-183 | Fisher-Yates on a copy returns a permutation of its argument, which it leaves unchanged |
| Shuffle.Round | src/main/resources/static/js/recommendations-enhanced.js:163-169 | one round shifts the first item of every non-empty group into the result, and reports whether all were empty |
| Shuffle.Interleave | src/main/resources/static/js/recommendations-enhanced.js:158-170 | the while loop produces the round-robin interleave of the groups |
| Shuffle.TailsSmaller | src/main/resources/static/js/recommendations-enhanced.js:162-170 | each non-final round removes at least one item, so the loop terminates |
| Shuffle.RoundRobinPermutation | src/main/resources/static/js/recommendations-enhanced.js:157-170 | the interleave takes every item of every group exactly once |
| Shuffle.RoundRobinRounds | src/main/resources/static/js/recommendations-enhanced.js:162-170 | the interleave is round 0, then round 1, and so on, where round j is the j-th item of every group longer than j, in group order |
| Shuffle.ShuffleRecommendations | src/main/resources/static/js/recommendations-enhanced.js:138-173 | null or a list of at most one item is returned as is; otherwise it throws exactly when the grouping does, and else the result is a permutation of the input and the interleave of the shuffled groups |
| RecCache.RecEngine.constructor | src/main/resources/static/js/recommendation.js:19-24 | `_recEngine` starts with all three fields null |
| RecCache.RecEngine.Generate | src/main/resources/static/js/recommendation.js:72-103 | a hit returns the first `limit` cached items and changes nothing; on a miss only the personalised path writes the cache and its time stamp, and the profile is stored once computed |
| RecCache.Window.ForceRefresh | src/main/resources/static/js/recommendation.js:561-566 | all three fields are nulled, so the next call is a miss |
| RecCache.Window.ClearCache | src/main/resources/static/js/recommendations-update.js:86-89 | the cache and time stamp are nulled and the profile is kept, so the next call is a miss |
| RecCache.Window.OnToggleFavorite | src/main/resources/static/js/recommendations-update.js:17-28 | `_recEngine` is created when absent and all three fields are nulled |
| RecCache.Window.WrappedGenerate | src/main/resources/static/js/recommendations-update.js:50-79 | a 2-minute hit returns the cached prefix and changes nothing. On a miss, the page's generateRecommendations runs, with all its writes to `_recEngine` (the profile once analysed). Whatever it returns, the general list included, is then cached with the wrapper's own time stamp, and is served for the next two minutes |
| RecCache.Window.PageGenerate | src/main/resources/static/js/recommendation.js:73-102 | the page's function on `window._recEngine`: without it, the TypeError is caught and the general list returned; otherwise it is RecEngine.Generate with the 2-minute lifetime |
| BookFormat.MapOpt | src/main/resources/static/js/book.js:116-118 | `map` over a callback that may throw: it succeeds exactly when every entry succeeds, giving each result in order |
| BookFormat.FormatBookData | src/main/resources/static/js/book.js:107-138 | book.js formats exactly when the key and the author chain do not throw; title, year and subjects are never falsy; the cover id is non-null exactly when the URL is not the default |
| BookFormat.OldFormatBookData | src/main/resources/static/js/books.js:116-128 | the same defaults for books.js, plus a null id when there is no key |
| BookFormat.BookJsAuthorPrecedence | src/main/resources/static/js/book.js:112-121 | book.js authors: a non-empty `author_name` array joined; else a non-empty `authors` array with strings kept and objects replaced by name or sentinel, a null entry throwing; else `author`, else the sentinel. A source whose `length` is falsy (missing, `[]`, `''`) is passed over, and one with a truthy `length` that is not an array (a non-empty string) throws |
| BookFormat.WorkIdFromKey | src/main/resources/static/js/book.js:109 | a key '/works/X' gives id 'X' in both book.js and books.js |
| BookFormat.WorkIdWithoutKey | src/main/resources/static/js/books.js:118 | without a key book.js takes `id` or '', while books.js gives null |
| BookFormat.CoverPrecedence | src/main/resources/static/js/book.js:124-127 | book.js takes the first truthy of `cover_id`, `cover_i`, `covers[0]`, else null; books.js reads only `cover_id` and `cover_i`; the URL is the covers URL exactly for a non-null id |
| BookFormat.FieldDefaults | src/main/resources/static/js/book.js:129-137 | title, publication year and subjects fall back through their sources to their sentinels |
| BookFormat.OldFormatIgnoresAuthorName | src/main/resources/static/js/books.js:120 | books.js ignores `author_name`, and a missing `authors` gives 'Autor desconocido' |
| BookFormat.ExtractAuthorsPrecedence | src/main/resources/static/js/authors.js:24-60 | extractAuthors tries, in order: a non-empty `author_name` array joined; any `authors` array, which throws exactly on a null entry and otherwise joins strings and names; a non-empty string `author`; a non-empty string `authors`; `by_statement`; the sentinel |
| BookFormat.StoredAuthorsString | src/main/resources/static/js/authors.js:49-51 | a stored author string survives extractAuthors, while book.js throws on it |
| BookFormat.EmptyAuthorsArray | src/main/resources/static/js/authors.js:34-41 | an empty `authors` array gives '' in extractAuthors, while book.js moves on to `author` |
| BookFormat.WithExtractedAuthors | src/main/resources/static/js/authors.js:9-20 | the override replaces `authors` by extractAuthors and nothing else |
| BookFormat.OverrideKeepsFields | src/main/resources/static/js/authors.js:11-14 | every other field stays as either formatter made it |
| BookFormat.OverrideAgreesOnAuthorName | src/main/resources/static/js/authors.js:29-31 | with a non-empty `author_name` array the override changes nothing in book.js's result |
| BookFormat.SafeBook | src/main/resources/static/js/authors.js:171-177 | `safeBook` always has a truthy title and authors; its id and cover id are truthy exactly when one of their two sources is |
| BookFormat.SafeBookFallbacks | src/main/resources/static/js/authors.js:171-177 | each safe field takes its first truthy source, then the sentinel, and a complete book passes through unchanged |
| BookFormat.SafeBookOfFormatted | src/main/resources/static/js/authors.js:171-177 | a book formatted by book.js passes through `safeBook` with its fields kept |
| Validators.ValidateRequired | src/main/resources/static/js/utils.js:44-46 | null exactly for a truthy value, otherwise the message naming the field |
| Validators.ValidateEmail | src/main/resources/static/js/utils.js:53-56 | null exactly when the address matches the pattern, otherwise the one fixed message |
| Validators.EmailPatternIff | src/main/resources/static/js/utils.js:54 | the pattern accepts exactly the strings with no whitespace, exactly one '@' that is not first, and a '.' after it with a character on each side |
| Validators.AcceptedEmails | src/main/resources/static/js/utils.js:54 | 'a@b.c' and 'x.y@b.c.d' are accepted |
| Validators.RejectedEmails | src/main/resources/static/js/utils.js:54 | two '@', a leading '@', no dot after the '@', a final dot and an inner space are rejected |
| Validators.Utf16Length | src/main/resources/static/js/utils.js:64 | `length` counts UTF-16 code units: between one and two per character |
| Validators.ValidatePassword | src/main/resources/static/js/utils.js:63-65 | null exactly when the length is at least 6, otherwise the one fixed message |
| Validators.PasswordLength | src/main/resources/static/js/utils.js:63-65 | six characters always pass and fewer than three always fail; three characters outside the Basic Multilingual Plane pass |
| Favorites.RunFrom | src/main/resources/static/js/favorite.js:212 | a greedy character-class run: the maximal run of the class at the position |
| Favorites.FirstRunMatch | src/main/resources/static/js/favorite.js:212 | `match` finds the leftmost position where the literal is followed by a non-empty run, and none before it |
| Favorites.RunCapture | src/main/resources/static/js/favorite.js:212-216 | a capture group is a non-empty run of its class |
| Favorites.FirstCoversMatch | src/main/resources/static/js/favorites-update.js:214 | the pattern `/covers/<segment>/<run>` has no match exactly when there is no position where it applies |
| Favorites.CoverIdFromUrlRoundTrip | src/main/resources/static/js/favorite.js:212-213 | the '/id/' digits of the medium cover URL of a digit string are that string |
| Favorites.CoverIdFromNumber | src/main/resources/static/js/favorite.js:212-213 | a numeric cover id comes back as its decimal string |
| Favorites.CoverUrlNotRecognised | src/main/resources/static/js/favorites-update.js:210-216 | extractCoverIdFromSrc returns null on every covers-service URL (see Findings) |
| Favorites.FirstText | src/main/resources/static/js/favorite.js:163-168 | the first selector, in order, whose trimmed text is non-empty gives that text, and none gives nothing |
| Favorites.ExtractBookTitle | src/main/resources/static/js/favorite.js:157-171 | the title is the first non-empty trimmed selector text, else `dataset.bookTitle`, else the sentinel, so it is never falsy |
| Favorites.ExtractCoverIdFromElement | src/main/resources/static/js/favorite.js:204-220 | the cover id is null or truthy |
| Favorites.CoverIdPrecedence | src/main/resources/static/js/favorites-update.js:147-170 | `dataset.bookCoverId` first, then the '/id/' digits of the image, then the '/olid/' run, then null, each case stated |
| Favorites.CoverIdFromCardImage | src/main/resources/static/js/favorite.js:209-213 | a card without a dataset id, whose image is a medium cover URL, gives that cover's id |
| Favorites.FindIn | src/main/resources/static/js/favorite.js:235 | `find` gives the first element matching on `id` (or `bookId`), undefined when none does, and throws on a null element met first |
| Favorites.MatchIsObject | src/main/resources/static/js/favorite.js:235 | a matching element is an object |
| Favorites.FindBookInCollections | src/main/resources/static/js/favorite.js:225-241 | a non-null result matches the id and comes from an array collection |
| Favorites.FirstCollectionWins | src/main/resources/static/js/favorite.js:233-238 | the collections are searched in order, skipping non-arrays, and the first holding the book decides |
| Favorites.NoCollectionHolds | src/main/resources/static/js/favorite.js:240 | with no collection holding the book, the result is null |
| Favorites.UpdateFindBookInCollections | src/main/resources/static/js/favorites-update.js:175-207 | the update version matches on `id` only; a non-null result other than the stub is what the collections hold |
| Favorites.OlWorkNumber | src/main/resources/static/js/favorites-update.js:194-197 | an id 'OL' + m + 'W' with no 'W' in m gets the stub exactly when m is not NaN |
| Favorites.StubIds | src/main/resources/static/js/favorites-update.js:194-204 | 'OL123W' and even 'OLW' get the stub; 'OLXW' does not |
| Favorites.Fill | src/main/resources/static/js/favorite.js:115-123 | a field is replaced only while it holds its sentinel, and only by a truthy value |
| Favorites.ExtractBookData | src/main/resources/static/js/favorite.js:92-128 | the card's data when it has no sentinel left; otherwise that data completed from the collection search, or the search's TypeError |
| Favorites.CompletedKeepsCard | src/main/resources/static/js/favorite.js:109-125 | the fill never overwrites a value the card gave, and a filled field is the found book's truthy value |
| Favorites.ExtractBookAuthors | src/main/resources/static/js/favorite.js:176-199 | the authors are always a string, blank only when the first `.book-info` paragraph is blank |
| Favorites.AuthorsPrecedence | src/main/resources/static/js/favorite.js:176-199 | the first author selector with non-blank text; else the first `.book-info` paragraph, trimmed, even when blank; else a non-empty `data-book-author`; else 'Autor desconocido' |
| Favorites.CardTitleTruthy | src/main/resources/static/js/favorite.js:170 | a card's title is never falsy |
| Favorites.ToggleFavorite | src/main/resources/static/js/favorite.js:24-49 | a favourite is removed by a DELETE with no body; otherwise a POST carries the extracted title, cover id and authors |
| Favorites.UpdateToggleFavorite | src/main/resources/static/js/favorites-update.js:5-58 | DELETE exactly when `isFavorite`; only a POST carries a body, with the completed title and cover and no authors; the collection search runs before the method matters, so it can throw for a DELETE too |
| Favorites.StubFillsNothing | src/main/resources/static/js/favorites-update.js:198-202 | the stub's null title and cover fill nothing |
| Favorites.RenderFields | src/main/resources/static/js/favorite.js:313-318 | a rendered card always has a truthy title, authors and cover URL |
| Favorites.RenderedCoverRoundTrip | src/main/resources/static/js/favorite.js:317-318 | a favourite stored with a numeric cover id and no URL is shown with the image whose '/id/' digits give that id back |

## Left out

- Network and async: every `fetch`, `Promise.all`, `await` and
  `response.ok` check. Their results are inputs to the model: search
  results, work details with their resolved author names, the favourites'
  ids, and how the page's `generateRecommendations` ended (an `Outcome`).
- WrappedGenerate: the wrapper's catch, which calls the original a second
  time, is not modelled. The page's `generateRecommendations` runs
  everything inside its own try, and its fallback `getGeneralRecommendations`
  catches per search term, so the original never throws to the wrapper.
  The Dafny call between the two is a plain call: no other script runs
  between the wrapper's cache check and the original's.
- PageGenerate and WrappedGenerate: with no `_recEngine`, the page's
  function throws on its first read and answers from its catch. The only
  `Outcome` that describes that run is Failed, which their requires state.
- The recommendation page's `analyzeUserPreferences` calls
  `getBooksDetails` and `getAuthorNames`, which no script defines. Its
  counting is the engine's, which is the one modelled.
- `searchBooksBySubject` of the recommendation page names an undefined
  `OPENLIBRALLibrary_API`, so it always returns []. The model takes the
  search results as inputs and does not encode this.
- The engine's author search throws on a document without `key`
  (`book.key.replace` on undefined). `AuthorSearchKey` models the throw,
  but which searches reach the merge is an input.
- Randomness: `Math.random()` in `shuffle` is a nondeterministic choice of
  the swap index. The random `score` of the general recommendations is
  dropped by the formatter, as in the code.
- Time: `Date.now()` is a parameter. `setTimeout`, debouncing and the
  `favoritesChanged` event plumbing are not modelled.
- The DOM: `findBookElement`, `querySelector` and `dataset` become a card
  value (`Favorites.CardDom`). The selector lookups are inputs, and the
  card's image `src` is a string. HTML rendering, Swiper, notifications,
  console logging and localStorage are not modelled.
- Which definition of a global wins is decided by script load order, and
  that is not modelled. This covers `toggleFavorite`, `findBookInCollections`,
  `extractBookTitle` and `extractCoverIdFromElement` of favorite.js and
  favorites-update.js, and favorite.js:460, which installs
  `extractCoverIdFromElement` under the name `extractCoverIdFromSrc`. Each
  definition is modelled on its own.
- Object identity: `===` on arrays and objects compares references. The
  model compares values, and treats an array or object author as never
  found.
- `Object.keys` order: the model keeps groups in order of first
  appearance, but JavaScript lists integer-like keys first, in ascending
  order. For a reason such as '1' the real group order differs.
- `toLowerCase` is modelled for ASCII and for the two non-ASCII characters
  whose lower-case forms contain ASCII letters (U+0130, U+212A). Other
  characters are kept as they are; `normalizeSubject` strips them anyway.
- `isNaN` of a string follows the StringNumericLiteral grammar, `Infinity`
  included. `parseInt` reads decimal and `0x` numerals only.
- Numbers are integers, because the modelled code only ever reads integer
  ids, counts and years. Floating point is not modelled: scores are exact
  `real`s.
- The Java backend and the other UI scripts hold no logic that this model
  covers.
- Scoring.BookScore: an `authorNames` that is not an array would make
  `forEach` throw; every formatter produces an array, so the model's
  `RecBook` always holds a sequence.

## Findings

| source | as written | input that shows it | evidently intended | confidence | as-written member | corrected member |
|---|---|---|---|---|---|---|
| src/main/resources/static/js/favorites-update.js:210-216 | `extractCoverIdFromSrc` matches `/covers/<segment>/<id>`, but cover URLs have the form `https://covers.openlibrary.org/b/id/<id>-M.jpg`, with no `/covers/` in them | `https://covers.openlibrary.org/b/id/12345-M.jpg` gives null | the cover id `12345`, as the comment above the pattern says | not executed | Favorites.CoverUrlNotRecognised | Favorites.CoverIdFromUrlRoundTrip |
