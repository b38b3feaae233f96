# LearnFlow flashcards: a Dafny model

LearnFlow is a single-page flashcard and paraphrase trainer. Its whole logic lives in one component,
`src/App.jsx`, and this project models that component's state and handlers. They are:

- the Leitner box schedule (boxes 1 to 5, review intervals of 0, 1, 3, 7 and 14 days) with the
  study queue of due cards, which is sorted by box and then shuffled by Fisher–Yates;
- the deck itself: adding, editing, deleting and rating cards, and resetting progress;
- loading from the remote store, where the fetched records are merged with the cached ones and the
  remote copy wins on every shared id;
- CSV, TSV and Quizlet export and import, including the quote-aware CSV field scanner;
- the paraphrase list, with its add, delete and draft-editing workflow;
- the test mode: unit selection, a sample of at most 10 questions, multiple-choice options, grading
  that ignores case and surrounding blanks, and the rounded percentage score.

The modules follow the program's concerns:

| file | module | what it holds |
|---|---|---|
| `text.dfy` | `Text` | `trim`, `toLowerCase`, `split` and `join` on strings, with their laws |
| `cards.dfy` | `Cards` | the card and paraphrase records, the box schedule, statistics, record construction |
| `queue.dfy` | `StudyQueue` | the due filter, the stable sort by box, the Fisher–Yates shuffle |
| `sync.dfy` | `Sync` | fetched rows as local records, and the id-keyed merge with the cache |
| `quiz.dfy` | `Quiz` | the unit filter, the question sample, options, grading, the score, unit toggling and sorting |
| `transfer.dfy` | `Transfer` | export text, the CSV scanner, row parsing and the import pipeline, with round trips |
| `app.dfy` | `Flashcards` | the test-session transitions, and the class `App` holding the component's state |

`Flashcards.App` is the component. Its fields are:

- `cards`, `paraphrases`, `studyQueue` and `currentCardIndex`;
- `test`, one record for the test-session state (cards, cursor, answers, completion, type, options
  and selected units);
- `editing`, one record for the paraphrase being edited.

Each handler is a method whose `ensures` gives the whole new state in terms of pure functions. Those
functions carry the lemmas. `App.Valid()` is the invariant every handler keeps:

- the queue cursor is inside the non-empty queue;
- the test cursor is inside the test cards;
- every answer is keyed by the id of a test card;
- every box lies in 1..5.

Nondeterminism and the outside world come in as parameters:

- `draw: nat -> nat` is `Math.floor(Math.random() * (i + 1))`, one draw per step of the shuffle.
  `ValidDraw` requires `draw(i) <= i`.
- `shuffled`, `othersShuffled` and `options` are the results of `sort(() => Math.random() - 0.5)`.
  They are constrained only to be permutations, or, for the options, to
  `[correctAnswer, ...wrongAnswers]` in some order.
- `now` is `Date.now()`.
- A store call is an `Option`: `None` means the call threw, and `Some(v)` is what it returned.

## Model

| member | source | states |
|---|---|---|
| Text.Trim | src/App.jsx:196-203 | the result of `trim()` has no white space at either end |
| Text.TrimCut | src/App.jsx:196-203 | what `trim()` removes is white space before and after the result, and nothing inside it |
| Text.TrimBlank | src/App.jsx:196 | `!s.trim()` holds exactly when every character of `s` is white space |
| Text.TrimIdempotent | src/App.jsx:637-640 | trimming a trimmed value changes nothing |
| Text.TrimDropsTrailing | src/App.jsx:427 | trailing blanks after a trimmed text disappear under `trim()` |
| Text.LowerTrimCommute | src/App.jsx:739 | lower-casing and trimming commute, so the order in the grading comparison does not matter |
| Text.Split | src/App.jsx:427 | `split` gives at least one piece, and no piece holds the separator |
| Text.JoinSplit | src/App.jsx:427 | joining the pieces of a split with the same separator gives back the text |
| Text.SplitJoin | src/App.jsx:427 | splitting a join of separator-free pieces gives back the pieces |
| Cards.UnitOf | src/App.jsx:693 | `card.unit \|\| 'General'` is never empty, and is the card's own unit when that is set |
| Cards.Interval | src/App.jsx:282-291 | the delay is never negative, and is 0 exactly for box 1 and for a box outside 1..5 |
| Cards.IntervalTable | src/App.jsx:283-289 | the delays are 0, 1, 3, 7 and 14 days for boxes 1 to 5 |
| Cards.IntervalIncreases | src/App.jsx:283-289 | a higher box waits strictly longer |
| Cards.Rate | src/App.jsx:303-316 | the rating of one card; Cards.RateTransition, Cards.RateKeepsContent and Cards.RateDueness state what it does |
| Cards.IsDue | src/App.jsx:181 | `!card.nextReview \|\| card.nextReview <= now`; Cards.RateDueness and Cards.ResetIsDue relate it to rating and reset |
| Cards.RateTransition | src/App.jsx:303-316 | a correct answer moves the card up one box, capped at 5, and a wrong one sends it to box 1; the review count grows by one, and the last and next review times are set |
| Cards.RateKeepsContent | src/App.jsx:303-316 | rating changes only the schedule fields |
| Cards.RateKeepsWellFormed | src/App.jsx:306-310 | a box in 1..5 stays in 1..5 |
| Cards.RateDueness | src/App.jsx:180-181 | a wrongly answered card is due at once; a correctly answered one is due exactly once its box's interval has passed, so never at once |
| Cards.RateLaterForHigherBox | src/App.jsx:311-313 | the card that lands in the higher box is reviewed later |
| Cards.FreshIsWellFormed | src/App.jsx:219-222 | a new card (box 1, no reviews) is well formed |
| Cards.Reset | src/App.jsx:344-350 | a reset card is new again and keeps everything else |
| Cards.ResetIsDue | src/App.jsx:180-181 | a reset card is due at every time |
| Cards.StatsOf | src/App.jsx:169-175 | the total is the number of cards |
| Cards.StatsPartition | src/App.jsx:171-174 | with boxes in 1..5, mastered, learning and new add up to the total |
| Cards.StatsOfFresh | src/App.jsx:169-175 | a deck of new cards counts as all new |
| Cards.NewCardDraft | src/App.jsx:198-204 | front, back, example and translation are the trimmed inputs; the unit is the trimmed unit, or `General` when that is blank |
| Cards.SavedToCard | src/App.jsx:209-224 | the stored id; front and back from the row unless missing or empty (`\|\|`); example, translation and unit from the row unless missing (`??`), so a stored empty string wins; the card starts new with creation time `now` |
| Cards.LocalCard | src/App.jsx:225-237 | the fallback card has the draft's content, the given id and the creation time |
| Cards.StoredCard | src/App.jsx:208-237 | a failed save gives the local card with id `now`; a successful one is exactly the card built from the returned row |
| Cards.CleanVariations | src/App.jsx:638-640 | `map(v => v.trim()).filter(v => v)`, never longer than its input; Cards.CleanVariationsClean and Cards.CleanVariationsKeeps state what it keeps |
| Cards.CleanVariationsClean | src/App.jsx:638-640 | the cleaned variations are non-empty and trimmed |
| Cards.CleanVariationsKeeps | src/App.jsx:638-640 | a value survives the cleaning exactly when it is the non-empty trim of some variation |
| Cards.FilterThenTrim | src/App.jsx:550-555 | `addParaphrase`'s filter-then-trim order; Cards.FilterThenTrimIsClean shows it equals Cards.CleanVariations |
| Cards.FilterThenTrimIsClean | src/App.jsx:550-555 | filtering blanks and then trimming gives the same list as trimming and then dropping empties |
| Cards.StoredParaphrase | src/App.jsx:560-578 | a failed save gives a local paraphrase with id and time `now`; a successful one takes the stored id, the stored original unless empty, the stored variations when they are an array, and the stored creation time when present, else `now` |
| StudyQueue.DueEntries | src/App.jsx:179-181 | the cards tagged with their deck position, then filtered to the due ones; StudyQueue.DueEntriesMembers and StudyQueue.DueEntriesDistinct state it |
| StudyQueue.DueEntriesMembers | src/App.jsx:179-181 | an entry is in the due list exactly when its card is, at that position, and is unscheduled or due |
| StudyQueue.DueEntriesDistinct | src/App.jsx:179-181 | due entries come in increasing deck order, with no repeats |
| StudyQueue.SortByBox | src/App.jsx:182 | the stable insertion sort by box, keeping the length; StudyQueue.SortByBoxSpec states it |
| StudyQueue.SortByBoxSpec | src/App.jsx:182 | the stable sort by box is sorted and is a permutation |
| StudyQueue.SwapPermutes | src/App.jsx:188 | the destructuring swap permutes the queue |
| StudyQueue.FisherYates | src/App.jsx:185-189 | the swaps from the last position down to 1 with the drawn partners; StudyQueue.FisherYatesPermutes and StudyQueue.Shuffle state it |
| StudyQueue.FisherYatesPermutes | src/App.jsx:185-189 | the shuffle keeps the length and is a permutation |
| StudyQueue.Shuffle | src/App.jsx:184-190 | the in-loop shuffle computes the Fisher–Yates result, a permutation of its input |
| StudyQueue.QueueIsDuePermutation | src/App.jsx:177-193 | the queue is a permutation of the due entries |
| StudyQueue.QueueMembers | src/App.jsx:177-193 | a card is queued exactly when it is due |
| StudyQueue.QueueOf | src/App.jsx:177-193 | `buildStudyQueue`'s queue: due filter, sort by box, shuffle; StudyQueue.QueueIsDuePermutation and StudyQueue.QueueMembers state what it holds |
| StudyQueue.BuildQueue | src/App.jsx:177-193 | building the queue gives a permutation of the due entries |
| Sync.LocalOnly | src/App.jsx:106-107 | the cached records whose id the store lacks, never more than the cache; Sync.LocalOnlyMembers and Sync.LocalOnlyConcat state it |
| Sync.LocalOnlyMembers | src/App.jsx:106-107 | a record survives the filter exactly when its id is not remote |
| Sync.LocalOnlyConcat | src/App.jsx:107 | the filter distributes over concatenation, so it keeps the cache order |
| Sync.Merge | src/App.jsx:104-108 | `[...remote, ...localOnly]`; Sync.MergeMembers, Sync.MergeShape and Sync.MergeDistinct state what it holds |
| Sync.MergeMembers | src/App.jsx:104-108 | a record is in the merge exactly when it is remote, or cached under an id no remote record has |
| Sync.MergeShape | src/App.jsx:108 | the remote records come first and unchanged |
| Sync.MergeSelf | src/App.jsx:104-108 | merging a list with itself gives the list |
| Sync.MergeEmptyCache | src/App.jsx:102-108 | an empty or missing cache leaves the remote list unchanged |
| Sync.MergeDisjoint | src/App.jsx:104-108 | with no shared ids the merge is plain concatenation |
| Sync.MergeDistinct | src/App.jsx:104-108 | two lists with unique ids merge into one with unique ids |
| Sync.FromFetched | src/App.jsx:88-99 | a fetched row becomes a new card: a missing id becomes `now + index`; each text is the row's, or empty when missing or empty; the unit is the row's, or `General` when missing or empty; created is `now + index` |
| Sync.FetchedCards | src/App.jsx:87 | one card per fetched row |
| Sync.FetchedCardsFresh | src/App.jsx:88-99 | every fetched card starts new, with a unit and creation time `now + index` |
| Sync.FromFetchedParaphrase | src/App.jsx:121-126 | id from the row; original from the row, or empty; variations when they are an array, else none; the converted creation time when present, else `now` |
| Sync.FetchedParaphrases | src/App.jsx:120-126 | one paraphrase per fetched row, with the row's id, its original or empty, and its creation time or `now` |
| Sync.LoadedCards | src/App.jsx:84-116 | the deck changes exactly when the fetch succeeded with rows, and then starts with the fetched cards |
| Sync.LoadedParaphrases | src/App.jsx:119-144 | the same rule for paraphrases |
| Sync.LoadedCardsKeepsCache | src/App.jsx:102-111 | a cached card survives the load exactly when it was fetched or no fetched card has its id |
| Quiz.InUnits | src/App.jsx:693 | the cards whose unit, or `General`, is selected, never more than the deck; Quiz.InUnitsMembers states it |
| Quiz.InUnitsMembers | src/App.jsx:693 | a card passes the unit filter exactly when its unit is selected |
| Quiz.Candidates | src/App.jsx:690-699 | the test pool; Quiz.CandidatesMembers states which cards it holds |
| Quiz.CandidatesMembers | src/App.jsx:690-699 | with nothing selected every card is a candidate, otherwise those of the selected units |
| Quiz.Sample | src/App.jsx:705 | the sample has `min(10, n)` questions |
| Quiz.SampleSpec | src/App.jsx:704-705 | a sample from a shuffle of the candidates has `min(10, n)` distinct draws, all of them candidates |
| Quiz.Others | src/App.jsx:719 | the cards with another id, never more than the deck; Quiz.OthersMembers and Quiz.OthersCount state which |
| Quiz.OthersMembers | src/App.jsx:719 | the other cards are exactly those with another id |
| Quiz.OthersCount | src/App.jsx:719 | with unique ids, exactly one card is left out |
| Quiz.WrongAnswers | src/App.jsx:720-724 | at most 3 distractors are taken |
| Quiz.OptionsSpec | src/App.jsx:717-730 | the correct answer is among the options; there are `1 + min(3, others)` of them; each is the correct answer or the back of another card |
| Quiz.IsCorrectAnswer | src/App.jsx:739 | the comparison of lower-cased trimmed answer and back; Quiz.GradeExamples and Quiz.GradeReflexiveSymmetric state its behaviour |
| Quiz.Grade | src/App.jsx:736-741 | the answer records what was given and the expected back, and is correct exactly when both agree after lower-casing and trimming |
| Quiz.GradeExamples | src/App.jsx:739 | `Paris ` matches `paris`, and `Pariss` does not match `Paris` |
| Quiz.GradeReflexiveSymmetric | src/App.jsx:739 | every answer matches itself, and the comparison is symmetric |
| Quiz.CorrectKeys | src/App.jsx:756 | the ids of the answers marked correct, one per answer since answers are keyed by id; Quiz.TestScore and Quiz.ScoreBounded count them |
| Quiz.TestScore | src/App.jsx:755-759 | the total is the number of test cards, and the correct count is the number of correct answers; a non-empty test's percentage is the rounded percentage of the two, and an empty test has none |
| Quiz.RoundedPercent | src/App.jsx:758 | `Math.round(correct / total * 100)` on integers; Quiz.RoundedPercentNearest and Quiz.RoundedPercentBounds state it |
| Quiz.RoundedPercentNearest | src/App.jsx:758 | `Math.round(c / t * 100)` is the nearest integer, with halves rounded up |
| Quiz.RoundedPercentBounds | src/App.jsx:758 | the percentage lies in 0..100 |
| Quiz.ScoreBounded | src/App.jsx:755-759 | when answers are keyed by test-card ids, correct ≤ total and the percentage lies in 0..100 |
| Quiz.WithoutMembers | src/App.jsx:776 | removing a unit keeps every other unit |
| Quiz.ToggleUnit | src/App.jsx:774-780 | remove the unit when selected, else append it; Quiz.ToggleFlips and Quiz.ToggleTwice state it |
| Quiz.ToggleFlips | src/App.jsx:774-780 | toggling flips the membership of that unit only |
| Quiz.ToggleTwice | src/App.jsx:774-780 | toggling a unit on and then off restores the selection |
| Quiz.LessTransitive | src/App.jsx:771 | the default sort order is transitive |
| Quiz.LessTotal | src/App.jsx:771 | the default sort order is total on distinct strings |
| Quiz.SortUnits | src/App.jsx:770-771 | insertion into a strictly sorted list without duplicates; Quiz.SortUnitsSpec states it |
| Quiz.SortUnitsSpec | src/App.jsx:770-771 | the sorted list is strictly ordered and holds exactly the input's units |
| Quiz.UniqueUnits | src/App.jsx:769-772 | the sorted distinct units; Quiz.UniqueUnitsSpec and Quiz.StrictlySortedUnique state it |
| Quiz.UniqueUnitsSpec | src/App.jsx:769-772 | the unit list is strictly sorted and holds exactly the cards' units |
| Quiz.StrictlySortedUnique | src/App.jsx:769-772 | that list is unique: two strictly sorted lists with the same members are equal |
| Transfer.CsvFields | src/App.jsx:436-456 | the field list the scanner gives for one line; Transfer.CsvFieldsTrimmed, Transfer.ParseCsvLine and Transfer.CsvLineRoundTrip state it |
| Transfer.Scan | src/App.jsx:435-455 | the scanner always adds at least the final field |
| Transfer.CsvFieldsTrimmed | src/App.jsx:449-455 | a CSV line gives at least one field, all of them trimmed |
| Transfer.ParseCsvLine | src/App.jsx:435-456 | the character loop computes the field list of the recursive scanner |
| Transfer.DoubleQuotes | src/App.jsx:373 | `replace(/"/g, '""')`, which adds no newline; Transfer.CsvLineRoundTrip shows the scanner undoes it |
| Transfer.EscapeCsv | src/App.jsx:373-374 | an escaped field is wrapped in double quotes |
| Transfer.CsvLine | src/App.jsx:374 | the escaped fields joined by commas; Transfer.CsvLineRoundTrip and Transfer.CsvLineNoNewline state it |
| Transfer.CsvLineRoundTrip | src/App.jsx:373-374 | scanning an exported CSV line gives back the trimmed fields, whatever quotes and commas they hold |
| Transfer.CsvLineNoNewline | src/App.jsx:373-375 | a line made of fields without newlines has no newline |
| Transfer.RowFields | src/App.jsx:436-456 | a row gives at least one field, all of them trimmed |
| Transfer.IsHeader | src/App.jsx:428-469 | the header test: the lower-cased first line contains `front` or `term` for CSV, `front` for TSV, and a Quizlet text has no header; Transfer.HeaderIsHeader shows the exported CSV header passes it |
| Transfer.RowDraft | src/App.jsx:432-465 | a row gives a card exactly when it is not blank and has at least two fields; the card has unit `General` and trimmed front and back |
| Transfer.DataLines | src/App.jsx:427-429 | the lines of the trimmed text, without the first one when it is a header (the same steps at App.jsx:468-470); Transfer.CsvDataLines states it for an exported CSV document |
| Transfer.ParseRows | src/App.jsx:431-465 | at most one card per line |
| Transfer.ImportDrafts | src/App.jsx:407-490 | blank text, or text without a usable row, imports nothing |
| Transfer.ImportedClean | src/App.jsx:457-464 | every imported draft has unit `General` and a trimmed front and back |
| Transfer.ImportLines | src/App.jsx:431-465 | the `forEach` over lines computes the row-by-row parse |
| Transfer.TrimAllTrimmed | src/App.jsx:477-482 | trimming every field leaves no field untrimmed |
| Transfer.ExportText | src/App.jsx:356-393 | there is nothing to export exactly when the deck is empty |
| Transfer.CardLine | src/App.jsx:371-389 | the line written for one card in each format; Transfer.CsvCardRoundTrip, Transfer.TsvCardRoundTrip and Transfer.QuizletCardRoundTrip state how it reads back |
| Transfer.Header | src/App.jsx:369-386 | the CSV or TSV header line, and nothing for Quizlet; Transfer.HeaderIsHeader and Transfer.CsvDocument state it |
| Transfer.Body | src/App.jsx:370-389 | one card line and a newline per card, in order; Transfer.CsvBodyJoin and Transfer.ExportCards state it |
| Transfer.ExportCards | src/App.jsx:365-392 | the export loop builds the header plus one line per card |
| Transfer.CsvCardRoundTrip | src/App.jsx:373-374 | an exported CSV line imports back as the card's trimmed front, back, example and translation |
| Transfer.TsvCardRoundTrip | src/App.jsx:381-382 | when no field holds a tab, an exported TSV line imports back as the card's trimmed front, back, translation and example, unless all four are blank, when the line is skipped |
| Transfer.QuizletCardRoundTrip | src/App.jsx:388-389 | when neither front nor back holds a tab, a Quizlet line imports back as the trimmed front and back with empty translation and example, unless both are blank, when the line is skipped |
| Transfer.ReadBacks | src/App.jsx:457-464 | one read-back draft per card |
| Transfer.CsvBodyJoin | src/App.jsx:370-376 | the CSV body is the card lines joined by newlines, with a final newline |
| Transfer.ParseCsvRows | src/App.jsx:431-465 | parsing the exported lines gives every card's read-back, in order |
| Transfer.HeaderIsHeader | src/App.jsx:428-429 | the exported CSV header is recognised as a header on import |
| Transfer.CsvDocument | src/App.jsx:369-376 | the CSV document is the header and card lines joined by newlines |
| Transfer.CsvDataLines | src/App.jsx:426-431 | on import, the lines of an exported document after the header are exactly the card lines |
| Transfer.CsvExportImport | src/App.jsx:355-490 | importing an exported CSV document, whose fields hold no newline, reads back every card in order |
| Transfer.TsvTrailingBlanksLost | src/App.jsx:468-474 | a TSV export of the one card with front `a` and blank back, translation and example imports nothing: the whole-text trim takes the last line's tabs |
| Flashcards.FindIndex | src/App.jsx:301 | `findIndex` gives the first position with the id, or -1 when there is none |
| Flashcards.RemoveAt | src/App.jsx:320 | removing one queue position keeps the others, in order |
| Flashcards.RemoveAtMultiset | src/App.jsx:320 | removal takes exactly that one entry out |
| Flashcards.EditCards | src/App.jsx:261-263 | only cards with the id change, and only in their four texts, which are trimmed |
| Flashcards.ResetAll | src/App.jsx:344-350 | every card is new again and keeps its content |
| Flashcards.EditParaphrases | src/App.jsx:644-652 | only the paraphrase with the id changes, and only in its original and variations |
| Flashcards.BulkStored | src/App.jsx:494-509 | the mapping throws exactly when a returned row past the parsed cards needs its parsed card; otherwise it gives one new card per returned row, built from that row and the parsed card at the same index, under creation time `now + index` |
| Flashcards.LocalImported | src/App.jsx:520-533 | the fallback gives one local card per draft, with id and time `now + index` |
| Flashcards.ImportedCards | src/App.jsx:492-540 | imported cards are new; a successful bulk insert gives exactly the cards built from the returned rows, and the local fallback is used when the store is unavailable or the mapping throws |
| Flashcards.WellFormedConcat | src/App.jsx:229-241 | appending well-formed cards keeps the deck well formed |
| Flashcards.LoadedWellFormed | src/App.jsx:104-111 | the merged deck is well formed when the cache is |
| Flashcards.RatedWellFormed | src/App.jsx:303-316 | rating one card keeps the deck well formed |
| Flashcards.RemovedWellFormed | src/App.jsx:247 | deleting keeps the deck well formed |
| Flashcards.StartedTest | src/App.jsx:684-715 | the session `startTest` produces; Flashcards.StartedTestSpec, Flashcards.StartedOptionsSpec and Flashcards.StartedTestValid state it |
| Flashcards.StartedTestSpec | src/App.jsx:684-715 | without candidates nothing changes; otherwise `min(10, n)` candidate cards, a fresh answer sheet, and a cursor at 0 |
| Flashcards.StartedOptionsSpec | src/App.jsx:710-713 | a multiple-choice test starts with options for its first question that hold that card's back |
| Flashcards.StartedTestValid | src/App.jsx:684-715 | starting a test keeps the session well formed |
| Flashcards.Answered | src/App.jsx:732-753 | the session `answerTestQuestion` produces; Flashcards.AnsweredSpec and Flashcards.AnsweredValid state it |
| Flashcards.AnsweredSpec | src/App.jsx:732-753 | the answer is graded and stored under the card's id, other answers are kept, and the cursor advances or the test completes |
| Flashcards.AnsweredValid | src/App.jsx:732-753 | answering keeps the session well formed |
| Flashcards.App.CurrentStats | src/App.jsx:169-175 | the counts of the current deck partition it |
| Flashcards.App.CurrentScore | src/App.jsx:755-759 | the correct count is that of the correct answers, correct ≤ total, and a non-empty test's percentage is the rounded percentage, in 0..100 |
| Flashcards.App.constructor | src/App.jsx:49-71 | the cached lists or empty ones, the queue built from them, and no test and no edit under way |
| Flashcards.App.RebuildQueue | src/App.jsx:177-193 | the queue is rebuilt from the deck, and the cursor goes to 0 when the queue is not empty |
| Flashcards.App.LoadFromDatabase | src/App.jsx:74-153 | the deck and paraphrases become the loaded lists when the fetch gave rows, and the queue is rebuilt, and the cursor goes to 0 when the new queue is not empty |
| Flashcards.App.AddCard | src/App.jsx:195-243 | a blank front or back changes nothing; otherwise the stored or local card is appended and the queue is rebuilt, and the cursor goes to 0 when the new queue is not empty |
| Flashcards.App.DeleteCard | src/App.jsx:246-258 | exactly the cards with the id go, and the queue is rebuilt, and the cursor goes to 0 when the new queue is not empty |
| Flashcards.App.UpdateCard | src/App.jsx:260-279 | the card with the id gets the trimmed texts, and nothing else changes |
| Flashcards.App.RateCard | src/App.jsx:293-327 | the current card is rated in the deck, its entry leaves the queue, and the cursor stays in range |
| Flashcards.App.ReshuffleQueue | src/App.jsx:332-340 | the queue is permuted and the cursor goes to 0 |
| Flashcards.App.ResetProgress | src/App.jsx:343-353 | every card is new again, the statistics read all new, and the queue is rebuilt, and the cursor goes to 0 when the new queue is not empty |
| Flashcards.App.ImportCards | src/App.jsx:406-543 | without an importable row nothing changes; otherwise the imported cards are appended and the queue is rebuilt, and the cursor goes to 0 when the new queue is not empty |
| Flashcards.App.AddParaphrase | src/App.jsx:547-582 | a blank original or no usable variation changes nothing; otherwise the paraphrase with its cleaned variations is appended |
| Flashcards.App.DeleteParaphrase | src/App.jsx:584-594 | exactly the paraphrases with the id go |
| Flashcards.App.StartEditingParaphrase | src/App.jsx:596-602 | the draft is a copy of the paraphrase |
| Flashcards.App.CancelEditingParaphrase | src/App.jsx:604-607 | the draft is cleared |
| Flashcards.App.SetDraftOriginal | src/App.jsx:609-614 | only the draft's original changes |
| Flashcards.App.SetDraftVariation | src/App.jsx:616-625 | only that one variation of the draft changes |
| Flashcards.App.AddDraftVariation | src/App.jsx:627-632 | the draft gets one more empty variation |
| Flashcards.App.SaveEditingParaphrase | src/App.jsx:634-668 | with no draft, a blank original or no usable variation nothing changes; otherwise the paraphrase gets the cleaned texts and the draft is cleared |
| Flashcards.App.StartTest | src/App.jsx:684-715 | the session becomes the started test over the current candidates |
| Flashcards.App.AnswerTestQuestion | src/App.jsx:732-753 | the session becomes the answered one |
| Flashcards.App.ResetTest | src/App.jsx:761-767 | the session is cleared; the test type and the unit selection are kept |
| Flashcards.App.ToggleUnitSelection | src/App.jsx:774-780 | that one unit's selection flips, and nothing else changes |

## Left out

- The remote store wrappers in `src/lib/supabase.js` are not part of this model. Each call is a
  parameter: `None` for a call that threw, `Some(v)` for what it returned.
- `localStorage`, JSON parsing and serialisation, and the JSON import and export format are left
  out. The model works on values, not on their serialised text.
- The download and the DOM, `alert`, the error banner (`dbError`), the loading flag, and React's
  render batching are left out. They change no modelled state.
- Randomness is a parameter. The model proves permutation, not a uniform distribution.
- Floating point is left out. The percentage is computed on integers: `RoundedPercent` is
  `Math.round` of the exact ratio.
- The progress values (`progress` at App.jsx:783 and the test progress bar at App.jsx:1240) are
  display-only and are left out.
- Case folding covers ASCII letters only.
- The default `sort()` order is modelled as code-point order, not as UTF-16 code-unit order.
- A cached value holding JSON `null`, and a card without a box, are left out. App.constructor and
  App.LoadFromDatabase require the cache to hold boxes in 1..5, which is what the program itself
  writes.
- App.SaveEditingParaphrase: the remote update (`updateParaphraseInDb`) is not exported by the store
  module, so the call always fails and only the local list changes. The model changes only the local
  list.
- Transfer.TsvCardRoundTrip and Transfer.QuizletCardRoundTrip are proved line by line only. A
  whole TSV or Quizlet document does not always round-trip:
  - import trims the whole text first (App.jsx:468), which strips the trailing tabs of the
    last line. A last card whose later fields are all blank (back, translation and example for TSV,
    the back for Quizlet) then has one field and is dropped, as Transfer.TsvTrailingBlanksLost
    shows for a one-card deck;
  - for Quizlet the same trim strips a blank front of the first card;
  - import skips a line that is entirely blank (App.jsx:473).
- Transfer.CsvExportImport requires that no field holds a newline. Export writes such a field
  as it is, and import splits on every newline, so that card does not come back.
- Study-queue entries keep the copy of the card they were built from. After `updateCard` the queue
  still shows the old texts, as in the program.
- App.SetDraftVariation requires the index to be a variation on screen. The program only calls it
  for those.
- Every handler reads the clock once in the model, through one `now` parameter. The program reads
  `Date.now()` several times in one handler:
  - rateCard twice, for the next and the last review time;
  - addParaphrase's fallback twice, for the id and the creation time;
  - `buildStudyQueue` again, after the reads of addCard, importCards and the load;
  - the load once per paraphrase that lacks a creation time.
- The form state for a new card and a new paraphrase (`setNewCard`, `updateParaphraseVariation`,
  `addMoreVariation`) is left out. AddCard and AddParaphrase take the form's values as parameters.
- View toggles (the current tab, the flipped state of a card, the import dialog) are left out.
- The multiple-choice rule of at least 4 cards is only the button's `disabled={cards.length < 4}`,
  which counts the whole deck and not the unit-filtered candidates. App.StartTest, like `startTest`,
  accepts multiple choice on any deck, so a filtered test can show fewer than 4 options.
