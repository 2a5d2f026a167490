# Study-tracker core, modelled in Dafny

The application is a study tracker. Users record study sessions, see their
study streaks and totals on a dashboard, and practise typing code in a small
typing game. The game can also be fed snippets that a language model writes
to suit the user's mood and available time. This project models the logic
under those features:

- **Streaks** (`streaks.dfy`). `computeStreaksFromDates` recomputes the
  current and longest streak from the days on which sessions were completed.
  It is a method with the source's two loops, proved against specification
  functions of the sorted distinct days.
- **Statistics** (`user_stats.dfy`). `upsertUserStatsForCompletion` is the
  reducer that updates a user's statistics row when a session is completed:
  it picks the effective day, applies the streak transition and updates the
  totals. The `userStats` table is the class `StatsStore`, which holds a map
  from user id to row.
- **Profiles** (`profiles.dfy`). `upsertProfile` is a create-with-defaults or
  partial update of the `profile` table, which is the class `ProfileStore`.
- **Days** (`calendar.dfy`). A calendar day is an integer, counted from
  1970-01-01 in the proleptic Gregorian calendar. The `YYYY-MM-DD` pattern
  is a predicate on strings, and consecutive dates are proved to be
  consecutive day numbers.
- **Typing game** (`code_type.dfy`). The CodeType component is the class
  `Game`: `resetGame`, language selection and `handleInputChange` change its
  state, and `calculateAccuracy` and `getCharacterClass` read it.
- **Dashboard** (`dashboard.dfy`). The computations of the dashboard page:
  `formatStudyTime`, the first-name greeting, the energy level of a mood,
  the duration sent when a session is completed, and the statistics cards.
- **Generated practice code** (`practice_code.dfy`). `generatePracticeCode`
  covers the time categories, the language default, the API-key check, the
  empty-answer check, markdown-fence stripping (the whole regular
  expression, under the `m` flag) and rate-limit classification. The model
  call is a parameter.
- **Route handlers** (`generate_route.dfy`, `sessions_route.dfy`,
  `coding_practice_route.dfy`). The `POST` handlers of
  `/api/generate-practice-code`, `/api/sessions` and `/api/coding-practice`
  are modelled as functions from the signed-in user, the parsed body and
  the outcomes of the calls they make, to the HTTP response and what they
  wrote.
- **Shared modules.** `js.dfy` holds the JavaScript semantics the other
  modules use: values of a JSON body, `??`, truthiness, `trim()`, `%`, and
  the values a `throw` can carry. `moods.dfy` holds the three moods.

## Model

| member | source | states |
|---|---|---|
| Calendar.DaysInMonth | lib/queries.ts:153-155 | every month has 28 to 31 days, and February has 29 exactly in leap years |
| Calendar.NextDate | lib/queries.ts:153-155 | the day after a valid date is again a valid date |
| Calendar.YearLength | lib/queries.ts:93-95 | a leap year has 366 days and any other year 365, in the day count of UTC midnights |
| Calendar.NextDateIsNextDay | lib/queries.ts:93-95 | consecutive calendar dates are exactly one day apart, which is what `gap === 1` tests |
| Calendar.DayNumberOrder | lib/queries.ts:88 | one day is before another iff its date comes first by year, then month, then day, which is the order `sort()` gives `YYYY-MM-DD` strings |
| Streaks.InsertSpec | lib/queries.ts:88 | inserting a day into a strictly increasing sequence keeps it strictly increasing and adds exactly that day |
| Streaks.SortedDistinctSpec | lib/queries.ts:88 | `[...new Set(dates)].sort()` is strictly increasing and holds exactly the given days |
| Streaks.IncreasingUnique | lib/queries.ts:88 | a strictly increasing sequence is determined by the set of its elements |
| Streaks.SortedDistinctDependsOnSetOnly | lib/queries.ts:88 | two lists with the same days have the same sorted distinct days |
| Streaks.SortedDistinctLast | lib/queries.ts:103 | the last sorted day is one of the given days and is not before any of them |
| Streaks.TrailingRun | lib/queries.ts:103-111 | the run ending at the n-th day is between 1 and n long, and 0 with no days |
| Streaks.LongestRun | lib/queries.ts:90-102 | the longest run among the first n days is at least the run ending at the n-th day and at most n |
| Streaks.TrailingRunIsLongestAtEnd | lib/queries.ts:103-111 | the trailing run is a run of consecutive days, and no run ending at the same day is longer |
| Streaks.LongestRunIsUpperBound | lib/queries.ts:90-102 | no run of consecutive days among the first n is longer than the longest run |
| Streaks.LongestRunIsAttained | lib/queries.ts:90-102 | some run of consecutive days among the first n is as long as the longest run |
| Streaks.ComputeStreaksFromDates | lib/queries.ts:87-112 | the forward loop yields the longest run and the backward loop, with its `break`, yields the run ending at the latest day, both of the sorted distinct days |
| Streaks.StreakBounds | lib/queries.ts:89-111 | no days give 0 and 0; otherwise 1 <= current <= longest <= the number of distinct days |
| Streaks.StreaksIgnoreOrderAndRepeats | lib/queries.ts:88-89 | both streaks depend only on which days occur, not on their order or repetition |
| Streaks.StreaksIgnorePermutation | lib/queries.ts:88 | a permutation of the days gives the same streaks |
| Streaks.LongestStreakIsLongestRun | lib/queries.ts:90-102 | `longest` is the length of some run of consecutive days, and no run is longer |
| Streaks.CurrentStreakIsRunEndingAtLatest | lib/queries.ts:103-111 | `current` is the longest run that ends at the latest day; today is not consulted |
| UserStats.EffectiveDay | lib/queries.ts:135-138 | the override's day when it matches `^\d{4}-\d{2}-\d{2}$`, otherwise the server's current day |
| UserStats.StreakTransition | lib/queries.ts:150-161 | no previous day gives 1; the same day keeps the streak; the next day adds one; any other day, backdated ones included, gives 1 |
| UserStats.CompletionTotals | lib/queries.ts:144-184 | a missing row counts as zeros; sessions grow by one, study time by the duration (even a negative one), longest is the maximum of the old longest and the new streak, and the last day is the effective day |
| UserStats.CompletionKeepsWellFormed | lib/queries.ts:150-163 | a completion keeps 0 <= current <= longest, a last day exactly when sessions were counted, and current >= 1 once there is a last day |
| UserStats.CompleteAllAccumulates | lib/queries.ts:162-172 | over any series of completions the longest streak never shrinks, sessions grow by their number and study time by the sum of durations |
| UserStats.SameDayRepeatKeepsStreaks | lib/queries.ts:156 | a second completion on the same day changes neither streak |
| UserStats.NoStatsAgreesWithNoHistory | lib/queries.ts:144-148 | the all-zero row of a missing user agrees with the recomputation over no days |
| UserStats.CompletionAgreesWithRecompute | lib/queries.ts:150-163 | when no completion is backdated, the incremental row equals the recomputation by `computeStreaksFromDates` over all completion days |
| UserStats.BackdatedCompletionDisagrees | lib/queries.ts:158 | a backdated completion resets the cached streak to 1 while the recomputation finds a longer run (1 against 4 on days 10, 11, 12, then 9) |
| UserStats.StatsStore.Lookup | lib/queries.ts:140-142 | the stored row of the user exactly when there is one |
| UserStats.StatsStore.UpsertUserStatsForCompletion | lib/queries.ts:130-185 | the written row is the reducer applied to the old row and the effective day; other users' rows are untouched and the store's invariant is kept |
| UserStats.StreakScenarios | lib/queries.ts:150-163 | a first completion, a same-day repeat, a next-day completion and a gap give the rows expected |
| UserStats.EffectiveDayExamples | lib/queries.ts:135-138 | `1970-01-01` is day 0, and a text that is not date-shaped or no override gives the server's day |
| UserStats.LeapDayExample | lib/queries.ts:153-155 | 2024-03-01 is the day after 2024-02-29 |
| Profiles.CreateDefaults | lib/queries.ts:62-66 | a new profile has the given display name (null kept) or none, and the given session length or 30 |
| Profiles.CreateIsUpdateOfDefault | lib/queries.ts:62-72 | creating equals patching the default profile |
| Profiles.UpdateTouchesOnlyGivenFields | lib/queries.ts:67-72 | a property changes exactly when the caller gave it, and then takes the given value |
| Profiles.EmptyUpdateIsIdentity | lib/queries.ts:67-72 | an empty `updates` object changes nothing |
| Profiles.UpsertIsIdempotent | lib/queries.ts:56-74 | upserting the same updates twice equals upserting once, after a create or an update |
| Profiles.UpdatesCompose | lib/queries.ts:67-72 | two updates in a row are one update in which the later properties win |
| Profiles.ProfileStore.UpsertProfile | lib/queries.ts:56-74 | a missing profile is created with defaults, an existing one patched, and no other user's profile changes |
| CodeType.Snippets | components/CodeType.tsx:6-226 | each of the seven languages has three snippets, none of them empty |
| CodeType.FreshIsConsistent | components/CodeType.tsx:254-265 | the reset state satisfies the game's invariant |
| CodeType.StepKeepsConsistent | components/CodeType.tsx:267-291 | a change of the text in a game in progress keeps the invariant: cursor at the end of the input, complete iff the input is the snippet iff there is an end time |
| CodeType.StepErrors | components/CodeType.tsx:275-281 | the error count rises by one exactly when the text grew and its last character is wrong or past the snippet's end; otherwise it stays |
| CodeType.StepPosition | components/CodeType.tsx:270-290 | the cursor follows the input, the start time is set on the first change only, and the game completes exactly when the input equals the snippet |
| CodeType.TypingCorrectlyMakesNoErrors | components/CodeType.tsx:267-291 | typing the snippet correctly character by character makes no error and completes exactly at its end |
| CodeType.Accuracy | components/CodeType.tsx:310-314 | 100 for an empty input, else the integer nearest to (length - errors) / length * 100, halves rounded up |
| CodeType.AccuracyBounds | components/CodeType.tsx:310-314 | accuracy is 100 with no errors, at most 100, falls as errors grow, and goes negative exactly when errors exceed the length by more than half a percent of it |
| CodeType.AccuracyUnique | components/CodeType.tsx:313 | `Math.round` has only one possible result |
| CodeType.ClassAt | components/CodeType.tsx:316-324 | before the cursor a character is correct or wrong as input and snippet match there; at the cursor it is the cursor; after it, pending |
| CodeType.PrefixShowsNoWrong | components/CodeType.tsx:316-324 | while the input is a prefix of the snippet nothing is shown wrong, and once complete every character is correct |
| CodeType.Game.constructor | components/CodeType.tsx:231-245 | the game mounts with JavaScript and a reset state |
| CodeType.Game.ResetGame | components/CodeType.tsx:254-265 | a snippet of the current language is chosen, and input, times, completion, cursor and errors start over |
| CodeType.Game.SelectLanguage | components/CodeType.tsx:362-365 | choosing another language sets it, and the language effect then resets the game with one of its snippets; choosing the language already selected changes nothing, because the effect does not run again |
| CodeType.Game.HandleInputChange | components/CodeType.tsx:267-291 | the new state is one step of the game on the new text; language and snippet are unchanged and the invariant is kept |
| CodeType.Game.CalculateAccuracy | components/CodeType.tsx:310-314 | 100 with no input, and 100 for a game completed without errors |
| CodeType.Game.GetCharacterClass | components/CodeType.tsx:316-324 | every snippet character of a completed game is correct, and the cursor is shown exactly at the end of the input |
| Dashboard.StudyTimeSplit | app/dashboard/page.tsx:54-56 | for totals of zero or more, hours * 60 + minutes is the total and 0 <= minutes < 60 |
| Dashboard.FormatStudyTimeRoundTrip | app/dashboard/page.tsx:54-60 | for totals of zero or more, reading the shown text back gives the total it was made from |
| Dashboard.FormatStudyTimeInjective | app/dashboard/page.tsx:54-60 | for totals of zero or more, two different totals are never shown alike |
| Dashboard.NegativeTotalsCollide | app/dashboard/page.tsx:54-60 | negative totals are shown too, and there texts collide: -5 and -65 minutes both show `-5m` |
| Dashboard.RoundTripHoursAndMinutes | app/dashboard/page.tsx:57 | the `Xh Ym` form reads back as its total |
| Dashboard.RoundTripWholeHours | app/dashboard/page.tsx:58 | the `Xh` form reads back as its total |
| Dashboard.RoundTripMinutesOnly | app/dashboard/page.tsx:59 | the `Ym` form reads back as its total |
| Dashboard.FormatNoStudyTime | app/dashboard/page.tsx:59 | a total of 0 shows `0m` |
| Dashboard.FormatMinutesExample | app/dashboard/page.tsx:59 | 45 shows `45m` |
| Dashboard.FormatHoursExample | app/dashboard/page.tsx:58 | 120 shows `2h` |
| Dashboard.FormatHoursAndMinutesExample | app/dashboard/page.tsx:57 | 135 shows `2h 15m` |
| Dashboard.FirstName | app/dashboard/page.tsx:100-105 | the greeting contains no white space |
| Dashboard.FirstNameFromDisplayName | app/dashboard/page.tsx:101 | a display name holding a word gives its first word |
| Dashboard.FirstNameFromFullName | app/dashboard/page.tsx:102-104 | with no display name or a blank one, the first word of a string full name is used |
| Dashboard.FirstNameEmpty | app/dashboard/page.tsx:100-105 | the greeting is empty exactly when neither name holds a word |
| Dashboard.FirstNameOfBoth | app/dashboard/page.tsx:100-105 | the first word of the display name if there is one, else that of the full name |
| Dashboard.EnergyFollowsMood | app/dashboard/page.tsx:145 | the energy level is 8, 5 or 3, and it orders the moods as high, moderate, anything else |
| Dashboard.ActualDuration | app/dashboard/page.tsx:162 | the whole minutes elapsed: 60000 * minutes <= elapsed < 60000 * (minutes + 1) |
| Dashboard.CompleteSession | app/dashboard/page.tsx:160-169 | a request is sent exactly when a session id and a start time are held, with that id, the elapsed whole minutes and `completed` set |
| Dashboard.OrZeroIsDefaultZero | app/dashboard/page.tsx:233 | on numbers, falling back to 0 on a falsy value equals falling back to 0 on a missing one |
| Dashboard.StatCardsShowValuesOrZero | app/dashboard/page.tsx:233-251 | without statistics the cards show `0 days`, `0 days`, `0m` and 0; otherwise each shows its field or 0 |
| Js.Rem | app/dashboard/page.tsx:56 | JavaScript's `%`: `a - r` is a multiple of `b`, with 0 <= r < b for a >= 0 and -b < r <= 0 for a < 0, which is the remainder truncated toward zero |
| Js.RemDetermined | app/dashboard/page.tsx:56 | those three facts leave a single remainder: any value having them is `Rem(a, b)` |
| Js.CoalesceAssociative | app/api/sessions/route.ts:18 | `a ?? b ?? c` gives the same value however it is grouped |
| Js.FirstWordShape | app/dashboard/page.tsx:101 | `trim().split(/\s+/)[0]` has no white space and is empty exactly for an all-blank text |
| Moods.ParseMood | app/api/generate-practice-code/route.ts:21 | a mood is read exactly from the three names, and names it |
| Moods.ParseMoodName | app/api/generate-practice-code/route.ts:21 | every mood is read back from its name |
| PracticeCode.TimeCategoryRanges | lib/ai/generate-practice-code.ts:16-20 | short iff at most 20 minutes, medium iff over 20 and at most 45, long iff over 45 |
| PracticeCode.TimeCategoryMonotone | lib/ai/generate-practice-code.ts:16-20 | more time never gives a shorter category |
| PracticeCode.LanguageNamed | lib/ai/generate-practice-code.ts:22 | a text is a whitelisted language only when it is that language's name |
| PracticeCode.LanguageNamedRoundTrip | lib/ai/generate-practice-code.ts:22 | each of the six languages is found by its name |
| PracticeCode.WordEnd | lib/ai/generate-practice-code.ts:74 | `\w+` is greedy: the run is all word characters and stops at the first other one |
| PracticeCode.SpaceEnd | lib/ai/generate-practice-code.ts:74 | `\s*` is greedy: the run is all white space and stops at the first other character |
| PracticeCode.NextFence | lib/ai/generate-practice-code.ts:74 | the lazy `[\s\S]*?` ends at the first three backticks and at no earlier place |
| PracticeCode.MatchOfOpeningFence | lib/ai/generate-practice-code.ts:74 | for a text that opens with a fence and a tag, the captured group runs from after the white space to the closing fence |
| PracticeCode.StripFenceWithoutFence | lib/ai/generate-practice-code.ts:73-77 | a text without three backticks in a row is kept as it is |
| PracticeCode.StripFenceOpening | lib/ai/generate-practice-code.ts:73-77 | an answer that opens with a fence and a tag line yields the trimmed code up to the closing fence, dropping what follows |
| PracticeCode.ApiKey | lib/ai/generate-practice-code.ts:35 | a key exactly when one of the two variables is set and not empty |
| PracticeCode.MissingKeyThrowsFirst | lib/ai/generate-practice-code.ts:35-38 | without a key the fixed error is thrown, whatever the model would do |
| PracticeCode.ResultLanguage | lib/ai/generate-practice-code.ts:42 | the language returned is the one asked for, or JavaScript |
| PracticeCode.EmptyAnswerIsError | lib/ai/generate-practice-code.ts:66-70 | a missing, empty or blank answer throws `Gemini returned empty code`, which the `catch` passes on |
| PracticeCode.BlankAnswerHasNoCode | lib/ai/generate-practice-code.ts:66-70 | a missing or all-blank answer gives the empty-code error |
| PracticeCode.FailedAnswerIsRethrown | lib/ai/generate-practice-code.ts:80-90 | an error thrown inside the `try` that is no rate limit leaves the function unchanged |
| PracticeCode.NonRateLimitIsRethrownAsIs | lib/ai/generate-practice-code.ts:86-90 | what is not a rate limit is rethrown as it is |
| PracticeCode.EmptyCodeMessageIsNoRateLimit | lib/ai/generate-practice-code.ts:81-85 | the empty-code error is not taken for a rate limit |
| PracticeCode.NoRateLimitWithoutDigitsOrQ | lib/ai/generate-practice-code.ts:81-85 | an error without a status whose message has no digit and no q is not a rate limit |
| PracticeCode.ModelErrorsClassified | lib/ai/generate-practice-code.ts:80-91 | a throw of the model call is replaced by the fixed rate-limit message iff it is a rate limit (status 429, or 429 or quota in the message), and rethrown unchanged otherwise |
| PracticeCode.AnswerYieldsCode | lib/ai/generate-practice-code.ts:66-79 | a non-blank answer yields its trimmed text with any fence stripped, in the effective language |
| GenerateRoute.RequestedLanguage | app/api/generate-practice-code/route.ts:19 | a language is passed on exactly when the body names one of the six |
| GenerateRoute.RequestOptions | app/api/generate-practice-code/route.ts:17-32 | options exist exactly when the body's mood is one of the three names; they carry that mood, the body's time when it is a number and 30 otherwise, and a language only when the body names a whitelisted one |
| GenerateRoute.UnauthorizedFirst | app/api/generate-practice-code/route.ts:10-14 | without a user the answer is 401, whatever the body and the generator |
| GenerateRoute.BadMoodRefused | app/api/generate-practice-code/route.ts:21-26 | a missing or unknown mood gives 400 with the fixed message |
| GenerateRoute.OptionDefaults | app/api/generate-practice-code/route.ts:18-19 | the time is the body's number or 30, and no language is passed unless the body names a whitelisted one |
| GenerateRoute.GeneratorOutcome | app/api/generate-practice-code/route.ts:28-42 | a valid request answers 200 with the generator's code and language when it succeeds, and 500 with the error's message when it throws an `Error` |
| GenerateRoute.AnswerLanguage | app/api/generate-practice-code/route.ts:34-37 | a 200 answer carries the requested language, or javascript |
| SessionsRoute.FirstPresent | app/api/sessions/route.ts:17-22 | a `??` chain gives the first of its values that is neither null nor undefined, and its fallback when every value is one of those |
| SessionsRoute.UnauthorizedInsertsNothing | app/api/sessions/route.ts:9-11 | without a user the answer is 401 and nothing is inserted |
| SessionsRoute.SessionRowDefaults | app/api/sessions/route.ts:15-23 | each column is the first present of its body properties in the listed order, or its default |
| SessionsRoute.ZeroMinutesKept | app/api/sessions/route.ts:18 | a planned length of 0 is kept, not replaced by 30 |
| SessionsRoute.EmptyBodyDefaults | app/api/sessions/route.ts:15-23 | an empty body gives now, 30, moderate, general_study, null and null |
| SessionsRoute.RowIgnoresUnreadProperties | app/api/sessions/route.ts:15-23 | the row's owner is the signed-in user, and properties the handler does not read, `user_id` among them, change nothing |
| SessionsRoute.InsertOutcome | app/api/sessions/route.ts:25-37 | the built row is inserted; 201 with the stored row on success, 500 with the error's message otherwise |
| CodingPracticeRoute.MissingRequiredMeans | app/api/coding-practice/route.ts:20-36 | the guard fails exactly when the language is falsy or one of the six required properties is null or undefined |
| CodingPracticeRoute.Present | app/api/coding-practice/route.ts:46 | null and undefined become undefined; any other value is kept |
| CodingPracticeRoute.OptionalFields | app/api/coding-practice/route.ts:38-49 | `snippetId`, `wpm` and `sessionId` map null to undefined and keep any other value |
| CodingPracticeRoute.CreateCodingPracticeSession | lib/queries.ts:507-534 | no user or an empty user id throws `Not authenticated` and stores nothing; otherwise the input is stored and the store's answer returned |
| CodingPracticeRoute.ZeroWpmNotStored | lib/queries.ts:529 | a `wpm` of 0 passes the handler but is left out of the stored session |
| CodingPracticeRoute.ErrorResponse | app/api/coding-practice/route.ts:52-58 | 401 exactly for an `Error` saying `Not authenticated`; any other `Error` is 500 with its message, anything else 500 `Internal server error` |
| CodingPracticeRoute.MissingFieldsRefused | app/api/coding-practice/route.ts:20-36 | a parsed body gets 400, with nothing stored, exactly when a required property is missing |
| CodingPracticeRoute.ZeroValuesPass | app/api/coding-practice/route.ts:20-36 | zero counts and a zero accuracy pass the guard |
| CodingPracticeRoute.CompleteBodyOutcome | app/api/coding-practice/route.ts:38-58 | a complete body gets 401 without a user, 201 with the stored session when the store accepts it, and the mapped error otherwise |
| CodingPracticeRoute.StoredIsConvertedBody | lib/queries.ts:522-532 | apart from `wpm` and `sessionId`, which are kept only when truthy, the stored session is the converted body |

## Left out

- Database access is not modelled. The Prisma and Supabase reads, inserts and upserts become a map held by a class, or a parameter giving the outcome of the call. Atomicity of the read-modify-write and concurrent completions are not modelled.
- `getStreaksFromSessions` is not part of this model. It is a database query feeding `computeStreaksFromDates`, which is modelled.
- The session-completion endpoint that calls the statistics reducer is not part of this model.
- No shown file zeroes a stale current streak when statistics are read, so the model does not do it either.
- `calculateWPM`, `getCurrentWPM` and the one-second ticker are left out. They depend on the wall clock and on floating-point division.
- The three.js and animation components, page layout and other UI composition are left out. They are per-frame floating-point drawing with no state logic.
- The prompt text and the language-model request of `generatePracticeCode` are left out. The answer or the thrown value is a parameter.
- The other route handlers (auth, onboarding, recommend, stats), the scripts, the SWR fetchers and the configuration are I/O plumbing and are not part of this model.
- Clocks and randomness are parameters: `now`, the server's current day, and the snippet index that `Math.random()` picks.
- Log output (`console.warn`, `console.error`) is not modelled.
- Dashboard.FormatStudyTimeRoundTrip: proved for totals of zero or more only. A negative duration can make the total negative, and negative totals do not read back (NegativeTotalsCollide).
- Dashboard.FormatStudyTimeInjective: proved for totals of zero or more only. Negative totals can show alike, as -5 and -65 minutes do.
- CodeType.Step: strings are sequences of Unicode scalar values, while JavaScript counts UTF-16 code units. A character outside the Basic Multilingual Plane, such as an emoji, counts one here and two in the component, so the length tests and the last character compared differ for such input.
- CodeType.Game.HandleInputChange: for the same reason the cursor moves by one per such character instead of two.
- CodeType.ClassAt: for the same reason indices count Unicode scalar values, not UTF-16 code units.
- CodeType.Game.GetCharacterClass: for the same reason indices count Unicode scalar values, not UTF-16 code units.
- CodeType.Game.CalculateAccuracy: for the same reason the snippet length counts Unicode scalar values. The snippets themselves contain no such characters.
- UserStats.StatsStore.UpsertUserStatsForCompletion: an override that has the `YYYY-MM-DD` shape but names no real day (`2024-13-45`) is excluded by precondition. JavaScript would compute with an invalid `Date` there.
- UserStats.EffectiveDay: the same precondition excludes well-shaped overrides that name no real day.
- CodeType.Game.HandleInputChange: requires a game still in progress, because the text area is disabled once the game is complete.
- CodeType.Accuracy: rounds the exact rational value. Floating-point error near a half is not modelled.
- GenerateRoute.TimeAvailable: the number is a real. `NaN` and the infinities, which JSON cannot carry, are not modelled.
- CodingPracticeRoute.ToInput: the `String`, `Number` and `new Date` conversions of the handler and the `Prisma.Decimal` and `Date` conversions of the store are not modelled. Values pass through as sent.
- Js.ToLower: lower-cases the Latin letters A to Z only. Other case mappings do not affect the search for `quota`.
- SessionsRoute.ErrorMessage: a thrown `null` or `undefined` would make `error.message` itself throw inside the `catch`. The model gives no message instead.
- Request bodies are modelled as JSON objects. A body that is valid JSON but not an object, such as `null`, is not modelled.
- The failure of the authentication client itself is not modelled, in any handler.
