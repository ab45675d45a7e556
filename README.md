# csapp-visual: a Dafny model of the application logic

csapp-visual is a Next.js teaching site for *Computer Systems: A Programmer's
Perspective*. Most of it is rendering. Under the JSX sit several small pieces of
sequential logic, and this project models them and proves what they promise:

- **Chapter progress** (`Progress`, `Chapters`). The catalog holds 12 chapters in
  three parts. There is next/previous navigation. A progress tracker keeps a map
  `chapterId → {progress, isUnlocked, isCompleted, lastAccessed}` in browser storage.
  - Storage is the field `stored: Option<map>` of class `Progress.ProgressTracker`.
    `None` stands for a missing, empty or unparseable entry.
  - `UpdateChapterProgress` clamps the value and completes the chapter at 100 or more.
    It then unlocks the next chapter in catalog order.
  - The update logic is proved over any id order (`order: seq<string>`). The tracker
    fixes that order to `Chapters.CatalogIds()`.
  - Chapter navigation is proved over any chapter list with distinct ids, and then
    applied to the catalog.
- **Quiz session** (`Quiz`, `Questions`, `KnowledgePoints`, `Shuffle`).
  - Class `Quiz.QuizSession` holds the component's state fields. Its handlers are
    methods.
  - The question pool is chosen by priority: knowledge point, then chapter prefix,
    then everything.
  - The pool is shuffled once. Each question scores at most one answer, and the
    result `(score, total)` is reported once at the end.
  - The question and knowledge-point filters are sequence comprehensions over the
    constant catalogs. `Questions.GetRandomQuestions` filters, shuffles a copy and
    slices it.
- **Task list** (`TaskList`): add, toggle and delete, plus the completion percentage.
- **Number-representation widgets.**
  - `Binary`: unsigned binary with clamping, nibble grouping and bit clicks.
  - `IntegerArithmetic`: 8-bit two's complement, wrap-around addition and overflow.
  - `Endianness`: hex sanitising, padding, byte splitting and the big/little-endian
    layout.
- **Navigator and selection widgets.**
  - `CompilationPipeline` and `HelloProgramFlow` are bounded stage/step players.
    Their auto-play tick is the shared `AutoPlay`.
  - `HardwareOverview`, `MemoryHierarchy` and `OSAbstraction` are selection lists.
    The toggle they share is `Selection`.
  - Every widget has the one-shot "interacted" latch `Interaction.Latch`.
  - `Markdown.ParseMarkdownBold` models the `**bold**` splitter. It is copied
    character for character into four of the widget files: `HelloProgramFlow.tsx`
    lines 8-16, `HardwareOverview.tsx` lines 8-16, `MemoryHierarchy.tsx` lines 7-15 and
    `OSAbstraction.tsx` lines 7-15. The table cites the first copy.
  - The latch is also one piece of code repeated in every widget. The table cites
    `CompilationPipeline.tsx` lines 154-159. The other copies are `HelloProgramFlow.tsx`
    lines 142-147, `HardwareOverview.tsx` lines 136-141, `MemoryHierarchy.tsx` lines
    172-177, `OSAbstraction.tsx` lines 128-133, `BinaryConverter.tsx` lines 20-23 and
    `IntegerArithmetic.tsx` lines 16-21.

Shared helpers:
- `Wrappers` holds `Option`.
- `Seqs` holds `Filter`, `Find`, `Reverse`, `Concat` and their lemmas.
- `Strings` holds `trim`, ASCII `toLowerCase`, `padStart` and decimal rendering.
- `Rounding` holds `Math.round(100·a/b)` in exact integer arithmetic.

Each widget is a class whose fields are the component's `useState` variables. Each
event handler is a method that states the whole new state. A few things are given
to the model as parameters because they come from outside the code:
- the wall clock, as the `now`, `id` and `createdAt` arguments;
- the random draws of the shuffles, as `rolls`;
- the parsed text of a number input, as `Option<int>`.

## Model

| member | source | states |
|---|---|---|
| Progress.Position | src/lib/progress.ts:87 | `findIndex` over the id order: -1 exactly when the id is absent, otherwise a position holding that id |
| Progress.PositionOf | src/lib/progress.ts:87 | with distinct ids, the position found for the id at `i` is `i` |
| Progress.DefaultPrefixShape | src/lib/progress.ts:11-18 | after the first `n` rounds of the `forEach`, the map holds exactly the first `n` ids, each a default record unlocked only at index 0 |
| Progress.DefaultProgressShape | src/lib/progress.ts:8-21 | the default map has one record per catalog id: progress 0, not completed, no access time, unlocked only for the first chapter |
| Progress.DefaultUnlocked | src/lib/progress.ts:8-21 | reading any id from the default map: unlocked iff it is the first chapter, never completed |
| Progress.Clamp | src/lib/progress.ts:79 | `min(100, max(0, p))`: always within 0..100, identity inside it, 0 below, 100 above |
| Progress.UnlockTarget | src/lib/progress.ts:87-89 | the chapter unlocked on completion: none for the last chapter, `order[0]` for an unknown id (index -1), otherwise the successor |
| Progress.TargetAt | src/lib/progress.ts:87-89 | only the predecessor of chapter `i` can unlock it |
| Progress.Lookup | src/lib/progress.ts:55-60 | `getChapterProgress`: the stored record, or a locked, incomplete, progress-0 placeholder for that id |
| Progress.StepRecord | src/lib/progress.ts:70-84 | after an update the record exists with the clamped progress and the new access time. Completed iff it was or p ≥ 100. Unlocked iff it was or it is its own unlock target |
| Progress.StepUnlocksTarget | src/lib/progress.ts:90-99 | at p ≥ 100 the target becomes unlocked. If it was absent it is created at progress 0, incomplete. Otherwise only its flag changes |
| Progress.StepFrame | src/lib/progress.ts:64-104 | the keys grow only by `id` and, at p ≥ 100, the target. Every other record is unchanged |
| Progress.StepBelowHundredKeepsFlags | src/lib/progress.ts:79-84 | below 100 no existing `isUnlocked` or `isCompleted` flag changes, and a new record starts locked and incomplete |
| Progress.StepMonotone | src/lib/progress.ts:83-99 | no record disappears, and completion and unlocking are never revoked |
| Progress.StepIdempotent | src/lib/progress.ts:64-104 | for a fixed timestamp, applying the same update twice equals applying it once |
| Progress.StepInRange | src/lib/progress.ts:79 | if every stored progress is within 0..100, it remains so after the update |
| Progress.StepCompletedIds | src/lib/progress.ts:83-84 | the completed ids grow by exactly `id` when p ≥ 100 and are otherwise unchanged |
| Progress.UpdateUnlocksNext | src/lib/progress.ts:83-100 | completing a non-last catalog chapter marks it completed and unlocks the next one, creating it at progress 0 if absent |
| Progress.UpdateUnknownUnlocksFirst | src/lib/progress.ts:87-99 | completing an id outside the catalog unlocks the first chapter, because `findIndex` returns -1 |
| Progress.UpdateLastUnlocksNothing | src/lib/progress.ts:87-88 | an update of the last chapter touches no record but its own |
| Progress.CompletionOutlivesProgress | src/lib/progress.ts:79-84 | completing a chapter and then setting p < 100 leaves it completed with progress below 100, so "completed ⇒ 100" is not an invariant |
| Progress.DefaultInvariants | src/lib/progress.ts:8-21 | the default map is gated (every unlocked record is the first chapter or the target of a completed one) and in range |
| Progress.UpdateGated | src/lib/progress.ts:64-104 | every update preserves gating |
| Progress.UnknownIdCounts | src/lib/progress.ts:133-136 | completing a fresh id outside the catalog still raises the completed count by one |
| Progress.OverallAtMostHundred | src/lib/progress.ts:124-130 | when every completed id is a catalog id, the overall percentage is at most 100 |
| Progress.ProgressTracker.constructor | src/lib/progress.ts:24-39 | the tracker uses the catalog order and starts from the given storage contents |
| Progress.ProgressTracker.GetDefaultProgress | src/lib/progress.ts:8-21 | the loop builds exactly the default map of the catalog |
| Progress.ProgressTracker.GetAllProgress | src/lib/progress.ts:24-39 | the stored map when present, otherwise the default map. It never fails |
| Progress.ProgressTracker.GetChapterProgress | src/lib/progress.ts:53-61 | the looked-up record or the placeholder. Nothing is written |
| Progress.ProgressTracker.UpdateChapterProgress | src/lib/progress.ts:64-104 | the storage afterwards holds the updated map (clamp, complete, unlock successor) |
| Progress.ProgressTracker.IsChapterUnlocked | src/lib/progress.ts:107-110 | the `isUnlocked` flag of the looked-up record |
| Progress.ProgressTracker.IsChapterCompleted | src/lib/progress.ts:113-116 | the `isCompleted` flag of the looked-up record |
| Progress.ProgressTracker.CompleteChapter | src/lib/progress.ts:119-121 | exactly an update with progress 100 |
| Progress.ProgressTracker.GetCompletedChaptersCount | src/lib/progress.ts:133-136 | the number of stored records marked completed, non-catalog ids included |
| Progress.ProgressTracker.GetOverallProgress | src/lib/progress.ts:124-130 | `round(100·completed/12)` |
| Progress.ProgressTracker.ResetAllProgress | src/lib/progress.ts:139-142 | storage is cleared, so the next read is the default map |
| Chapters.CatalogSize | src/lib/chapters.ts:23-149 | the catalog has 12 chapters |
| Chapters.CatalogDistinct | src/lib/chapters.ts:23-149 | chapter ids are pairwise distinct |
| Chapters.CatalogNumbers | src/lib/chapters.ts:23-149 | each chapter's `number` is its position plus one |
| Chapters.CatalogParts | src/lib/chapters.ts:23-149 | `part` lies in 1..3 and never decreases along the catalog |
| Chapters.CatalogShape | src/lib/chapters.ts:23-149 | all four catalog invariants together |
| Chapters.CatalogIds | src/lib/chapters.ts:23-149 | the id list is position by position the catalog's ids |
| Chapters.CatalogIdsShape | src/lib/chapters.ts:23-149 | 12 distinct ids, and an id is listed iff some chapter has it |
| Chapters.ChaptersByPart | src/lib/chapters.ts:152-168 | exactly the catalog chapters of that part |
| Chapters.FilterRun | src/lib/chapters.ts:152-168 | filtering a list whose only run of the part is in the middle yields that run |
| Chapters.Part1 | src/lib/chapters.ts:152-168 | part 1 is the first six catalog chapters, in order |
| Chapters.Part2 | src/lib/chapters.ts:152-168 | part 2 is the next three, in order |
| Chapters.Part3 | src/lib/chapters.ts:152-168 | part 3 is the last three, in order |
| Chapters.PartsPartitionCatalog | src/lib/chapters.ts:152-168 | the parts hold 6/3/3 chapters and concatenate to the catalog, so each chapter is in exactly one part, in catalog order |
| Chapters.GetChapterById | src/lib/chapters.ts:171-173 | some chapter iff the id is in the catalog, and then the unique chapter with that id |
| Chapters.IndexIn | src/lib/chapters.ts:177 | `findIndex` by id: -1 iff no chapter has the id, otherwise a position with that id |
| Chapters.IndexInAt | src/lib/chapters.ts:176-191 | with distinct ids, the index of chapter `i`'s id is `i` |
| Chapters.NextIn | src/lib/chapters.ts:177-181 | none for an unknown id or the last chapter, otherwise the chapter after it |
| Chapters.PrevIn | src/lib/chapters.ts:185-191 | none for an unknown id or the first chapter, otherwise the chapter before it |
| Chapters.PrevOfNextIn | src/lib/chapters.ts:176-191 | in any list with distinct ids, going next and then back returns the chapter |
| Chapters.NextOfPrevIn | src/lib/chapters.ts:176-191 | going back and then next returns the chapter |
| Chapters.EndsIn | src/lib/chapters.ts:176-191 | index 0 and the last index are reached exactly by the first and last ids |
| Chapters.GetNextChapter | src/lib/chapters.ts:176-182 | none exactly for an unknown id or "ch12", and otherwise the chapter right after the one with that id |
| Chapters.GetPrevChapter | src/lib/chapters.ts:185-191 | none exactly for an unknown id or "ch01", and otherwise the chapter right before the one with that id |
| Chapters.PrevOfNext | src/lib/chapters.ts:176-191 | for every non-last catalog chapter, next is `chapters[i+1]` and its previous is the chapter again |
| Chapters.NextOfPrev | src/lib/chapters.ts:176-191 | for every non-first catalog chapter, previous is `chapters[i-1]` and its next is the chapter again |
| Quiz.SelectPoolMeaning | src/components/quiz/QuizComponent.tsx:33-39 | the pool is the exact knowledge-point match when a point is chosen. Otherwise it is the chapter-prefix match when a chapter is given, otherwise the whole catalog |
| Quiz.CatalogAnswersNonEmpty | src/lib/questions.ts:27-419 | every catalog answer is a non-empty label |
| Quiz.PoolAnswersNonEmpty | src/components/quiz/QuizComponent.tsx:33-39 | so every pool answer is non-empty |
| Quiz.AnswersCarryOver | src/components/quiz/QuizComponent.tsx:42 | a permutation of the pool keeps that property |
| Quiz.CorrectCount | src/components/quiz/QuizComponent.tsx:63-64 | the number of correct answers never exceeds the number of questions |
| Quiz.AllCorrect | src/components/quiz/QuizComponent.tsx:57-77 | answering every question correctly scores all of them |
| Quiz.PerfectPercentage | src/components/quiz/QuizComponent.tsx:108 | the percentage is at most 100, and exactly 100 when all answers are correct |
| Quiz.QuizSession.constructor | src/components/quiz/QuizComponent.tsx:20-45 | mounting chooses the filter from the props and loads a permutation of the pool with all counters zeroed |
| Quiz.QuizSession.Load | src/components/quiz/QuizComponent.tsx:30-45 | the loading effect: questions are a permutation of the selected pool. Index, selection, explanation, score and completion are reset, and no report is made |
| Quiz.QuizSession.ResetQuiz | src/components/quiz/QuizComponent.tsx:47-53 | restart keeps the same question order and zeroes the progress fields |
| Quiz.QuizSession.HandleSelect | src/components/quiz/QuizComponent.tsx:57-66 | a no-op once a (truthy) answer is recorded. Otherwise it records the label, shows the explanation and adds 1 to the score iff the label is correct |
| Quiz.QuizSession.HandleNext | src/components/quiz/QuizComponent.tsx:68-77 | before the last question: next index, selection cleared, explanation hidden. At the last: complete, with `(score, total)` reported once if a callback is present |
| Quiz.QuizSession.SetFilterKP | src/components/quiz/QuizComponent.tsx:26-45 | a changed filter reloads a permutation of the new pool and zeroes the session. An unchanged one changes nothing |
| Quiz.QuizSession.SetChapterId | src/components/quiz/QuizComponent.tsx:45 | the same for the chapter prop |
| Quiz.QuizSession.ToggleFilter | src/components/quiz/QuizComponent.tsx:155 | flips only the filter panel's visibility |
| Quiz.QuizSession.ScoreBounds | src/components/quiz/QuizComponent.tsx:57-77 | `score ≤ currentIndex + (answered ? 1 : 0) ≤ len` |
| Quiz.QuizSession.EmptyPoolScreen | src/components/quiz/QuizComponent.tsx:87-104 | an empty pool is the "no questions" screen: nothing answered or complete, and "back to all" shown exactly when the filter is not "all" |
| Quiz.QuizSession.BackToAll | src/components/quiz/QuizComponent.tsx:93-101 | the button sets the filter to "all" and reloads a permutation of the chapter's pool, or of the whole bank without a chapter, with the session zeroed |
| Quiz.QuizSession.Percentage | src/components/quiz/QuizComponent.tsx:107-108 | the nearest integer to 100·score/len, within 0..100, 100 for a full score and 0 for none |
| Quiz.QuizSession.FinalScore | src/components/quiz/QuizComponent.tsx:68-108 | at completion the score counts the correct answers given, the percentage is at most 100, and an all-correct run gives `len` and 100 |
| Questions.CatalogIdFormat | src/lib/questions.ts:27-419 | every id is `"<year>-<questionNumber>"` |
| Questions.CatalogAnswers | src/lib/questions.ts:27-419 | every answer is one of its question's option labels, and difficulty is within 1..3 |
| Questions.CatalogDistinct | src/lib/questions.ts:27-419 | ids are pairwise distinct |
| Questions.CatalogInvariants | src/lib/questions.ts:27-419 | 15 well-formed entries with distinct ids |
| Questions.SampleNoDuplicates | src/lib/questions.ts:27-419 | the catalog has no repeated entry |
| Questions.ChapterDigits | src/lib/questions.ts:27-419 | entries 0–11 are chapter 1 knowledge points and entries 12–14 are chapter 2 |
| Questions.GetQuestionsByKnowledgePoint | src/lib/questions.ts:422-424 | exactly the catalog entries with that knowledge point |
| Questions.GetQuestionsBySubject | src/lib/questions.ts:426-428 | exactly the catalog entries with that subject |
| Questions.GetQuestionsByChapter | src/lib/questions.ts:430-432 | exactly the entries whose knowledge point starts with the chapter id |
| Questions.GetQuestionsByYear | src/lib/questions.ts:434-436 | exactly the entries of that year |
| Questions.EntriesOfCh01 | src/lib/questions.ts:430-432 | "ch01" yields the first 12 entries, in order |
| Questions.EntriesOfCh02 | src/lib/questions.ts:430-432 | "ch02" yields the last 3 |
| Questions.EntriesOf1_1 | src/lib/questions.ts:422-424 | point 1.1 has no questions |
| Questions.EntriesOf1_2 | src/lib/questions.ts:422-424 | point 1.2 has one question |
| Questions.EntriesOf1_4 | src/lib/questions.ts:422-424 | point 1.4 has one question |
| Questions.EntriesOf1_5 | src/lib/questions.ts:422-424 | point 1.5 has five questions, in catalog order |
| Questions.EntriesOf1_7 | src/lib/questions.ts:422-424 | point 1.7 has five questions, in catalog order |
| Questions.EntriesOf1_8 | src/lib/questions.ts:422-424 | point 1.8 has no questions |
| Questions.PoolIsConjunction | src/lib/questions.ts:444-457 | the successive filters equal one filter by the conjunction of the active tests. A falsy value disables its test |
| Questions.PoolFacts | src/lib/questions.ts:444-457 | the filtered pool has no duplicates, and each element is a catalog entry passing every filter |
| Questions.DrawFacts | src/lib/questions.ts:459-460 | any prefix of a permutation of the pool is a sub-multiset of it, passes the filters and has no duplicates |
| Questions.SliceEnd | src/lib/questions.ts:460 | `slice(0, count)` length: `min(count, n)` for count ≥ 0, with JavaScript's negative-end rule otherwise |
| Questions.DrawFrom | src/lib/questions.ts:443-461 | the sampling steps on any catalog give the slice length, a sub-multiset of the pool and no duplicates |
| Questions.GetRandomQuestions | src/lib/questions.ts:438-461 | length `min(count, |pool|)` for count ≥ 0. No duplicates, and each element passes the filters |
| KnowledgePoints.SubjectIds | src/lib/knowledgePoints.ts:22-51 | the subject ids, position by position |
| KnowledgePoints.SubjectsDistinct | src/lib/knowledgePoints.ts:22-51 | the subject ids are ds, co, os and cn, with no duplicates |
| KnowledgePoints.PointsInChapterOne | src/lib/knowledgePoints.ts:54-103 | six points, each of chapter "ch01" with an id starting "ch01-" |
| KnowledgePoints.SubjectTableCovers | src/lib/knowledgePoints.ts:54-113 | point ids are distinct and each has a subject entry that names only known subjects |
| KnowledgePoints.ByChapterIsFilter | src/lib/knowledgePoints.ts:116-122 | the chapter filter yields all six points for "ch01" and none for any other id |
| KnowledgePoints.GetKnowledgePointsBySubject | src/lib/knowledgePoints.ts:125-129 | exactly the points whose subject list contains the id |
| KnowledgePoints.SubjectsByPosition | src/lib/knowledgePoints.ts:106-113 | the subject list of each point, by position |
| KnowledgePoints.BySubjectAt | src/lib/knowledgePoints.ts:125-129 | the subject filter equals the points at the positions that serve it, in order |
| KnowledgePoints.SubjectCo | src/lib/knowledgePoints.ts:106-129 | "co" yields 1.1, 1.2, 1.4 and 1.5 |
| KnowledgePoints.SubjectOs | src/lib/knowledgePoints.ts:106-129 | "os" yields 1.7 |
| KnowledgePoints.SubjectCn | src/lib/knowledgePoints.ts:106-129 | "cn" yields 1.8 |
| KnowledgePoints.SubjectDs | src/lib/knowledgePoints.ts:106-129 | "ds" yields nothing |
| KnowledgePoints.SearchKnowledgePoints | src/lib/knowledgePoints.ts:132-138 | exactly the points whose lower-cased title or keyword contains the lower-cased query |
| KnowledgePoints.SearchEmpty | src/lib/knowledgePoints.ts:133-137 | the empty query matches all six points, in order |
| KnowledgePoints.SearchCaseInsensitive | src/lib/knowledgePoints.ts:133 | lower-casing the query first changes nothing |
| TaskList.Added | src/app/task/page.tsx:64-75 | a non-blank input prepends one incomplete task with the trimmed title and the chosen category, keeping the old list after it |
| TaskList.AddBlankIsNoOp | src/app/task/page.tsx:65 | the list is unchanged iff the input is all whitespace |
| TaskList.Toggled | src/app/task/page.tsx:77-81 | the same length. `completed` is flipped exactly on tasks with the id, and every other field is kept |
| TaskList.ToggleTwice | src/app/task/page.tsx:79 | toggling the same id twice is the identity |
| TaskList.ToggleAbsent | src/app/task/page.tsx:79 | toggling an absent id changes nothing |
| TaskList.Deleted | src/app/task/page.tsx:83-85 | exactly the tasks with another id remain, each as often as before, and tasks with the id are gone |
| TaskList.DeleteAbsent | src/app/task/page.tsx:84 | deleting an absent id changes nothing, and deleting a present one shortens the list |
| TaskList.DeleteShrinks | src/app/task/page.tsx:84 | a present id removes at least one task |
| TaskList.CompletedCount | src/app/task/page.tsx:87 | the completed count is at most the total |
| TaskList.ProgressPercent | src/app/task/page.tsx:87-89 | the percentage lies within 0..100 and is 0 for an empty list |
| TaskList.PercentExtremes | src/app/task/page.tsx:89 | 100 when every task is done, 0 when none is |
| TaskList.TaskPage.constructor | src/app/task/page.tsx:48-56 | the loaded list, an empty input and the "study" category |
| TaskList.TaskPage.SetNewTask | src/app/task/page.tsx:192 | only the input text changes |
| TaskList.TaskPage.SelectCategory | src/app/task/page.tsx:202 | only the category changes |
| TaskList.TaskPage.AddTask | src/app/task/page.tsx:64-75 | the list becomes the added list, and the input is cleared unless it was blank |
| TaskList.TaskPage.ToggleTask | src/app/task/page.tsx:77-81 | the list becomes the toggled list |
| TaskList.TaskPage.DeleteTask | src/app/task/page.tsx:83-85 | the list becomes the list without that id |
| Binary.ToBase2 | src/components/visualizations/binary/BinaryConverter.tsx:27 | `toString(2)` is a non-empty string of binary digits |
| Binary.ToBase2Value | src/components/visualizations/binary/BinaryConverter.tsx:27 | reading those digits back gives the number |
| Binary.ToBase2Length | src/components/visualizations/binary/BinaryConverter.tsx:27 | a number below 2^k needs at most k digits |
| Binary.ToBinaryCorrect | src/components/visualizations/binary/BinaryConverter.tsx:26-29 | for n < 2^bits, `toBinary` has exactly `bits` binary digits whose weighted sum is n |
| Binary.DigitsInjective | src/components/visualizations/binary/BinaryConverter.tsx:26-29 | equal-length digit strings with the same value are equal |
| Binary.FlipValue | src/components/visualizations/binary/BinaryConverter.tsx:105-110 | flipping digit p subtracts 2^(len−1−p) from a 1 and adds it to a 0 |
| Binary.ClickStaysInWidth | src/components/visualizations/binary/BinaryConverter.tsx:105-110 | a click's new value stays within the width and equals the value of the flipped digits |
| Binary.ClickFlipsOneDigit | src/components/visualizations/binary/BinaryConverter.tsx:105-110 | the new value's digits are the old digits with only the clicked one flipped |
| Binary.Clamp | src/components/visualizations/binary/BinaryConverter.tsx:16-17 | `min(max, max(0, v))`: within 0..max, identity inside, 0 below, max above |
| Binary.GroupDigits | src/components/visualizations/binary/BinaryConverter.tsx:34-37 | the loop yields ⌈len/4⌉ consecutive slices of 4 that concatenate to the digits, all of length 4 when len is a multiple of 4 |
| Binary.BinaryConverter.constructor | src/components/visualizations/binary/BinaryConverter.tsx:11-13 | starts at 42 with 8 bits and a fresh latch |
| Binary.BinaryConverter.HandleChange | src/components/visualizations/binary/BinaryConverter.tsx:15-24 | stores the value clamped to the width, keeps the width and fires the latch |
| Binary.BinaryConverter.HandleInput | src/components/visualizations/binary/BinaryConverter.tsx:49 | non-numeric input counts as 0 before clamping |
| Binary.BinaryConverter.SelectWidth | src/components/visualizations/binary/BinaryConverter.tsx:66-73 | the value drops to `2^bits − 1` only when it exceeds it, otherwise it is kept |
| Binary.BinaryConverter.ClickBit | src/components/visualizations/binary/BinaryConverter.tsx:105-110 | the displayed digits afterwards are the old digits with exactly the clicked one flipped |
| IntegerArithmetic.Encode8Mod | src/components/visualizations/chapter2/IntegerArithmetic.tsx:25 | the 8-bit pattern of n is `n mod 256` |
| IntegerArithmetic.ToBinary8RoundTrip | src/components/visualizations/chapter2/IntegerArithmetic.tsx:24-27 | 8 binary digits encoding n+256 when negative and n otherwise, and reading them as two's complement gives n |
| IntegerArithmetic.ToBinary8Value | src/components/visualizations/chapter2/IntegerArithmetic.tsx:24-27 | the unsigned value of the digits is the 8-bit pattern |
| IntegerArithmetic.ActualSum | src/components/visualizations/chapter2/IntegerArithmetic.tsx:32-40 | for 8-bit operands the wrapped sum is in −128..127 and congruent to A+B mod 256 |
| IntegerArithmetic.OverflowIffOutOfRange | src/components/visualizations/chapter2/IntegerArithmetic.tsx:35-43 | overflow holds iff A+B is out of range. Without it the sum is exact, and with it the sum is off by 256 |
| IntegerArithmetic.EncodeSum | src/components/visualizations/chapter2/IntegerArithmetic.tsx:24-43 | the pattern of the wrapped sum is the unsigned sum of the patterns mod 256 |
| IntegerArithmetic.SumDigitsAreLowByte | src/components/visualizations/chapter2/IntegerArithmetic.tsx:24-43 | the displayed sum digits are the low 8 bits of the unsigned sum, so bit-level addition ignores signedness |
| IntegerArithmetic.SumBitsAreUnsignedSum | src/components/visualizations/chapter2/IntegerArithmetic.tsx:24-43 | the same, stated on the digits' unsigned value |
| IntegerArithmetic.IntegerArithmeticWidget.constructor | src/components/visualizations/chapter2/IntegerArithmetic.tsx:12-14 | starts at A = 120, B = 10 with a fresh latch |
| IntegerArithmetic.IntegerArithmeticWidget.SetA | src/components/visualizations/chapter2/IntegerArithmetic.tsx:55-56 | sets A only and fires the latch |
| IntegerArithmetic.IntegerArithmeticWidget.SetB | src/components/visualizations/chapter2/IntegerArithmetic.tsx:67-68 | sets B only and fires the latch |
| IntegerArithmetic.IntegerArithmeticWidget.ResultDigits | src/components/visualizations/chapter2/IntegerArithmetic.tsx:42 | 8 digits whose two's-complement reading is the wrapped sum |
| Endianness.Sanitize | src/components/visualizations/chapter2/EndiannessExplorer.tsx:49 | keeps only hex digits of the input, and keeps all of them |
| Endianness.SanitizeConcat | src/components/visualizations/chapter2/EndiannessExplorer.tsx:49 | sanitising distributes over concatenation, so order is kept |
| Endianness.SanitizeKeepsHex | src/components/visualizations/chapter2/EndiannessExplorer.tsx:49 | all-hex input is unchanged, and sanitising is idempotent |
| Endianness.NormalizedHex | src/components/visualizations/chapter2/EndiannessExplorer.tsx:24 | always 8 characters: short input left-padded with '0', long input cut to its last 8 |
| Endianness.NormalizedEmpty | src/components/visualizations/chapter2/EndiannessExplorer.tsx:24 | the empty input gives "00000000" |
| Endianness.Bytes | src/components/visualizations/chapter2/EndiannessExplorer.tsx:25-30 | four consecutive 2-character slices |
| Endianness.BytesConcat | src/components/visualizations/chapter2/EndiannessExplorer.tsx:25-30 | the bytes concatenate back to the normalised hex |
| Endianness.LabelNamesShownByte | src/components/visualizations/chapter2/EndiannessExplorer.tsx:118 | the label under position idx is the index in `bytes` of the byte shown there. Little-endian shows the least significant byte first |
| Endianness.ToggleTwice | src/components/visualizations/chapter2/EndiannessExplorer.tsx:32 | the other layout is the reverse of this one, and toggling twice restores it |
| Endianness.EndiannessExplorer.constructor | src/components/visualizations/chapter2/EndiannessExplorer.tsx:12-14 | starts at "12345678", little-endian, with a fresh latch |
| Endianness.EndiannessExplorer.HandleInput | src/components/visualizations/chapter2/EndiannessExplorer.tsx:48-51 | stores the sanitised text and fires the latch |
| Endianness.EndiannessExplorer.ToggleEndianness | src/components/visualizations/chapter2/EndiannessExplorer.tsx:62-65 | flips the byte order only and fires the latch |
| Endianness.EndiannessExplorer.Layout | src/components/visualizations/chapter2/EndiannessExplorer.tsx:24-32 | four bytes which, read back in memory order, spell the normalised hex |
| Markdown.StarFrom | src/components/visualizations/hello/HelloProgramFlow.tsx:9 | the first `*` at or after i, or the end |
| Markdown.MatchAt | src/components/visualizations/hello/HelloProgramFlow.tsx:9 | a regex match at p is `**`, a non-empty star-free run and `**` |
| Markdown.MatchAtExact | src/components/visualizations/hello/HelloProgramFlow.tsx:9 | if any span starts at p, the match finds it |
| Markdown.SpanEnd | src/components/visualizations/hello/HelloProgramFlow.tsx:9 | a span starting at p can end in only one place |
| Markdown.SplitFromConcat | src/components/visualizations/hello/HelloProgramFlow.tsx:9 | the split pieces concatenate back to the scanned suffix, with an odd number of pieces |
| Markdown.SplitFromPieces | src/components/visualizations/hello/HelloProgramFlow.tsx:9 | odd pieces are matches, even pieces contain no span |
| Markdown.UnmatchedSpanFree | src/components/visualizations/hello/HelloProgramFlow.tsx:9 | text the leftmost scan passed over contains no span |
| Markdown.SliceInner | src/components/visualizations/hello/HelloProgramFlow.tsx:12 | `slice(2, -2)`: the inner part, or empty for pieces shorter than 4 |
| Markdown.ParseMarkdownBold | src/components/visualizations/hello/HelloProgramFlow.tsx:8-16 | one rendered piece per split piece, in order |
| Markdown.SplitConcat | src/components/visualizations/hello/HelloProgramFlow.tsx:9 | the pieces of `split` concatenate back to the input |
| Markdown.SpansRenderBold | src/components/visualizations/hello/HelloProgramFlow.tsx:9-12 | every matched piece renders bold with a non-empty star-free text, and restoring the markers gives the piece |
| Markdown.PlainPiecesSpanFree | src/components/visualizations/hello/HelloProgramFlow.tsx:9-12 | unmatched pieces contain no span |
| Markdown.RenderRestore | src/components/visualizations/hello/HelloProgramFlow.tsx:11-12 | restoring a rendered piece gives it back except for "**" and "***" |
| Markdown.ParseRoundTrip | src/components/visualizations/hello/HelloProgramFlow.tsx:8-16 | unless a piece is "**" or "***", the rendered pieces with markers restored spell the input |
| Markdown.ExampleSpanSplit | src/components/visualizations/hello/HelloProgramFlow.tsx:9 | "a **b** c" splits into "a ", "**b**", " c" |
| Markdown.ExampleSpanMatch | src/components/visualizations/hello/HelloProgramFlow.tsx:9 | its only match starts at 2 and ends at 7 |
| Markdown.ExampleSpan | src/components/visualizations/hello/HelloProgramFlow.tsx:8-16 | it renders as plain, bold "b", plain |
| Markdown.RenderThree | src/components/visualizations/hello/HelloProgramFlow.tsx:10 | a three-piece split renders piece by piece |
| Markdown.ExampleMarkersOnly | src/components/visualizations/hello/HelloProgramFlow.tsx:10-12 | "**" is not a match but still renders as an empty bold |
| Markdown.ExampleFourStars | src/components/visualizations/hello/HelloProgramFlow.tsx:10-12 | "****" renders as an empty bold |
| Markdown.ExampleInnerStar | src/components/visualizations/hello/HelloProgramFlow.tsx:10-12 | "**a*b**" is not a match but renders bold "a*b" |
| AutoPlay.Tick | src/components/visualizations/compile/CompilationPipeline.tsx:198-205 | the tick advances by one below the last position, and at the last it stops playing without moving |
| AutoPlay.RunFrom | src/components/visualizations/compile/CompilationPipeline.tsx:194-209 | n ticks from position i while playing reach `i + n`, or the last position and stop |
| AutoPlay.RunStaysInRange | src/components/visualizations/hello/HelloProgramFlow.tsx:149-164 | any number of ticks stays within range and never moves back |
| CompilationPipeline.Pipeline.constructor | src/components/visualizations/compile/CompilationPipeline.tsx:150-152 | stage 0, not playing, fresh latch |
| CompilationPipeline.Pipeline.GoToStage | src/components/visualizations/compile/CompilationPipeline.tsx:161-164 | sets the stage and fires the latch |
| CompilationPipeline.Pipeline.NextStage | src/components/visualizations/compile/CompilationPipeline.tsx:166-173 | one stage up below the last. At the last it stops playing and stays, without firing the latch |
| CompilationPipeline.Pipeline.PrevStage | src/components/visualizations/compile/CompilationPipeline.tsx:175-180 | one stage down above 0, and a no-op at 0 |
| CompilationPipeline.Pipeline.Reset | src/components/visualizations/compile/CompilationPipeline.tsx:182-186 | stage 0 and not playing |
| CompilationPipeline.Pipeline.TogglePlay | src/components/visualizations/compile/CompilationPipeline.tsx:188-191 | flips playing only |
| CompilationPipeline.Pipeline.OnTimer | src/components/visualizations/compile/CompilationPipeline.tsx:196-205 | one auto-play tick, leaving the latch alone. The stage stays within the 5 stages |
| CompilationPipeline.AutoPlayToLinker | src/components/visualizations/compile/CompilationPipeline.tsx:194-209 | auto-play reaches the linker stage and stops there |
| HelloProgramFlow.ProgramFlow.constructor | src/components/visualizations/hello/HelloProgramFlow.tsx:138-140 | step 0, not playing, fresh latch |
| HelloProgramFlow.ProgramFlow.GoToStep | src/components/visualizations/hello/HelloProgramFlow.tsx:166-169 | sets the step and fires the latch |
| HelloProgramFlow.ProgramFlow.Reset | src/components/visualizations/hello/HelloProgramFlow.tsx:171-175 | step 0 and not playing |
| HelloProgramFlow.ProgramFlow.TogglePlay | src/components/visualizations/hello/HelloProgramFlow.tsx:317-320 | flips playing only |
| HelloProgramFlow.ProgramFlow.OnTimer | src/components/visualizations/hello/HelloProgramFlow.tsx:153-159 | one auto-play tick. The step stays within the 6 steps |
| HelloProgramFlow.AutoPlayToExit | src/components/visualizations/hello/HelloProgramFlow.tsx:149-164 | auto-play reaches the exit step and stops there |
| HardwareOverview.Ids | src/components/visualizations/hardware/HardwareOverview.tsx:23-117 | the component ids, position by position |
| HardwareOverview.ComponentIdsDistinct | src/components/visualizations/hardware/HardwareOverview.tsx:23-117 | component ids are distinct |
| HardwareOverview.DataFlowsJoinComponents | src/components/visualizations/hardware/HardwareOverview.tsx:120-125 | every data-flow arrow joins two existing components |
| HardwareOverview.Lookup | src/components/visualizations/hardware/HardwareOverview.tsx:148 | the component with the selected id. None iff nothing is selected or no component has that id |
| HardwareOverview.LookupComponent | src/components/visualizations/hardware/HardwareOverview.tsx:148 | selecting a component's id shows that component |
| HardwareOverview.ClickComponent | src/components/visualizations/hardware/HardwareOverview.tsx:143-148 | a click on the shown component hides it, and any other click shows the clicked one |
| HardwareOverview.Overview.constructor | src/components/visualizations/hardware/HardwareOverview.tsx:130-134 | nothing selected, data flow hidden, fresh latch |
| HardwareOverview.Overview.HandleSelect | src/components/visualizations/hardware/HardwareOverview.tsx:143-146 | the selection toggles and the latch fires |
| HardwareOverview.Overview.ToggleDataFlow | src/components/visualizations/hardware/HardwareOverview.tsx:262-265 | flips the data-flow view once |
| HardwareOverview.Overview.Selected | src/components/visualizations/hardware/HardwareOverview.tsx:148 | some component exactly when something is selected, and then the one with that id |
| MemoryHierarchy.Ids | src/components/visualizations/memory/MemoryHierarchy.tsx:22-166 | the layer ids, position by position |
| MemoryHierarchy.LayerIdsDistinct | src/components/visualizations/memory/MemoryHierarchy.tsx:22-166 | layer ids are distinct |
| MemoryHierarchy.LayersOrdered | src/components/visualizations/memory/MemoryHierarchy.tsx:22-166 | any layer below another is slower and wider, one layer at a time |
| MemoryHierarchy.PyramidOrder | src/components/visualizations/memory/MemoryHierarchy.tsx:22-166 | going down the pyramid every layer is slower and drawn wider, matching the fastest-to-slowest order |
| MemoryHierarchy.Lookup | src/components/visualizations/memory/MemoryHierarchy.tsx:184 | the layer with the selected id, or none |
| MemoryHierarchy.ClickLayer | src/components/visualizations/memory/MemoryHierarchy.tsx:179-184 | a click on the shown layer hides it, and any other click shows the clicked one |
| MemoryHierarchy.Hierarchy.constructor | src/components/visualizations/memory/MemoryHierarchy.tsx:169-170 | nothing selected, fresh latch |
| MemoryHierarchy.Hierarchy.HandleSelect | src/components/visualizations/memory/MemoryHierarchy.tsx:179-182 | the selection toggles and the latch fires |
| MemoryHierarchy.Hierarchy.Selected | src/components/visualizations/memory/MemoryHierarchy.tsx:184 | some layer exactly when something is selected, and then the one with that id |
| OSAbstraction.Ids | src/components/visualizations/os/OSAbstraction.tsx:22-120 | the abstraction ids, position by position |
| OSAbstraction.AbstractionIdsDistinct | src/components/visualizations/os/OSAbstraction.tsx:22-120 | abstraction ids are distinct |
| OSAbstraction.Lookup | src/components/visualizations/os/OSAbstraction.tsx:140 | the abstraction with the selected id, or none |
| OSAbstraction.SelectShows | src/components/visualizations/os/OSAbstraction.tsx:140 | selecting an abstraction's id shows that abstraction |
| OSAbstraction.InitialSelectionShown | src/components/visualizations/os/OSAbstraction.tsx:123-125 | the initial "process" selection exists and shows the process abstraction |
| OSAbstraction.Explorer.constructor | src/components/visualizations/os/OSAbstraction.tsx:123-126 | starts on "process" with a fresh latch |
| OSAbstraction.Explorer.HandleSelect | src/components/visualizations/os/OSAbstraction.tsx:135-138 | sets the selection to the id with no toggle, so repeating it is idempotent, and fires the latch |
| OSAbstraction.Explorer.Selected | src/components/visualizations/os/OSAbstraction.tsx:140 | always the abstraction whose id is selected |
| Selection.Toggle | src/components/visualizations/hardware/HardwareOverview.tsx:144 | clears exactly when the id is already selected, and otherwise selects the id |
| Selection.ToggleInvolution | src/components/visualizations/hardware/HardwareOverview.tsx:144 | from "none" or "this id", toggling twice restores the selection |
| Selection.FindId | src/components/visualizations/hardware/HardwareOverview.tsx:148 | the first position with the selected id, none iff absent |
| Selection.FindIdAt | src/components/visualizations/hardware/HardwareOverview.tsx:148 | with distinct ids, the id at k is found at k |
| Interaction.Latch.Fire | src/components/visualizations/compile/CompilationPipeline.tsx:154-159 | sets the flag only when a callback exists, and calls it only on the first interaction |
| Interaction.Fresh | src/components/visualizations/compile/CompilationPipeline.tsx:154-159 | a new widget has not interacted and made no call |
| Interaction.AtMostOnce | src/components/visualizations/compile/CompilationPipeline.tsx:154-159 | after any number of interactions the callback has run once if there was one and a callback, and never otherwise |
| Strings.Trim | src/app/task/page.tsx:65 | no longer than the input, with no whitespace at either end |
| Strings.TrimSlice | src/app/task/page.tsx:65 | the trimmed text is the slice between the leading and the trailing whitespace runs |
| Strings.TrimEmpty | src/app/task/page.tsx:65 | trimming gives "" iff the text is all whitespace |
| Strings.ToLower | src/lib/knowledgePoints.ts:133 | character-wise lowering with the same length |
| Strings.ToLowerIdempotent | src/lib/knowledgePoints.ts:133 | lowering twice equals lowering once |
| Strings.PadStart | src/components/visualizations/chapter2/EndiannessExplorer.tsx:24 | pads on the left up to the width, keeping the text as a suffix |
| Strings.NatToString | src/lib/questions.ts:27-419 | a non-empty run of decimal digits, with no leading zero unless the number is 0 |
| Strings.NatToStringValue | src/lib/questions.ts:27-419 | reading the decimal digits back gives the number, so the rendering is exact |
| Rounding.RoundPercent | src/lib/progress.ts:129 | the nearest integer to 100·a/b, with halves rounded up |
| Rounding.RoundPercentBounds | src/app/task/page.tsx:89 | a part of a whole is 0..100 percent: 100 for the whole and 0 for nothing (the same rounding as the quiz percentage, `src/components/quiz/QuizComponent.tsx` line 108) |
| Shuffle.Reorder | src/lib/questions.ts:459 | the in-place random reordering permutes the array |
| Shuffle.ShuffledCopy | src/components/quiz/QuizComponent.tsx:42 | a copy of the same length and multiset, duplicate-free when the input is |
| Seqs.Filter | src/lib/questions.ts:422-436 | `filter` keeps exactly the passing elements of the input |
| Seqs.FilterConcat | src/lib/questions.ts:422-436 | filtering distributes over concatenation, so order is kept |
| Seqs.FilterFilter | src/lib/questions.ts:444-457 | two successive filters equal one filter by the conjunction |
| Seqs.FilterNoDuplicates | src/lib/questions.ts:444-457 | filtering keeps a duplicate-free list duplicate-free |
| Seqs.PermutationNoDuplicates | src/lib/questions.ts:459 | a permutation of a duplicate-free list is duplicate-free |
| Seqs.ReverseReverse | src/components/visualizations/chapter2/EndiannessExplorer.tsx:32 | reversing twice is the identity |

## Left out

- Rendering is not modelled: JSX, framer-motion animation, CSS classes, icons and colours.
  The data arrays keep their short catalog fields: ids, names and titles, parts, widths,
  speeds, data-flow captions, the abstraction's hardware, knowledge-point keywords and the
  questions' metadata and answer labels. Dropped are the long description, explanation, code
  and question text strings, display-only fields such as capacity, speed and cost captions, and the
  step/stage entries apart from their ids.
- `localStorage` and `JSON.parse`/`stringify` are modelled as the `Option<map>` field of the
  progress tracker and as the loaded task list. A missing entry and a parse failure are both
  `None`. Valid JSON that is not an object, such as `null`, is not modelled. Write failures
  and `loadTasks`/`saveTasks` are not modelled either.
- The server-rendering branches (`typeof window === "undefined"`) are not modelled. The model
  always runs in the browser.
- Clock values (`new Date().toISOString()`, `Date.now()`) are parameters: `now`, `id` and
  `createdAt`.
- `sort(() => Math.random() - 0.5)` is modelled as a swap reordering driven by a `rolls`
  parameter. Only "the result is a permutation" is claimed, not its distribution.
- The `setInterval`/`useEffect` plumbing of auto-play is not modelled. One timer firing is
  the method `OnTimer`. React batching and effect scheduling are not modelled: each handler
  is one atomic step.
- `src/components/visualizations/chapter2/FloatingPointDecoder.tsx` is not part of this
  model. It uses `DataView.setFloat32` and floating-point arithmetic for IEEE 754-2008
  binary32 (section 3.4 of IEEE 754-2008).
- `Math.round` of a ratio is the exact integer `Rounding.RoundPercent`. Floating-point error
  is not modelled.
- `toLowerCase` is ASCII-only in `Strings.ToLower`. Unicode case mapping is not modelled.
  The `toUpperCase` display of hex bytes and the input's `maxLength={8}` are presentation and
  are not modelled.
- Pages that only display the progress map (home, courses, progress, layout), the
  chapter card, navbar and footer, and `next.config.ts` are not part of this model.
- `MemoryHierarchy` keeps `speedValue` as an exact `real`.
- KnowledgePoints.GetKnowledgePointsByChapter has no contract of its own. What it returns is
  stated by `KnowledgePoints.ByChapterIsFilter`.
- ProgressTracker: the invariant "completed ⇒ progress = 100" is not claimed, because the
  code does not keep it (`Progress.CompletionOutlivesProgress`).
- Handlers that take an id or index (`GoToStage`, `GoToStep`, `ClickBit`, the three
  `HandleSelect`s) require it to be one that a rendered button can pass. These are an
  existing id, a valid stage or step, or a bit position within the width.
- IntegerArithmetic.IntegerArithmeticWidget.SetA: requires the value in −128..127, the range
  of the slider that calls it. SetB is the same.
- Binary.BinaryConverter.SelectWidth: requires a width of 8, 16 or 32, the three buttons.
- Quiz.QuizSession.HandleNext: requires that the explanation is shown and the quiz is not
  complete. The code has no guard, but its button is rendered only in that state.
- Quiz.QuizSession.HandleSelect requires a non-empty pool that is not complete, the only
  state in which answer buttons are rendered. The empty-pool and completion screens are
  otherwise shown only as the states `|questions| == 0` and `isComplete`.
