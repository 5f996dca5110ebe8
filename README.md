# Countries and trivia: a Dafny model

This project models the logic of a small web application with two parts:

- A country explorer.
  - A search box filters the local list of countries by name or code.
  - A table shows the matches five at a time.
  - A row click opens a details panel.
  - The query and the selected country are kept in the page URL.
- A trivia quiz.
  - Five questions are fetched from the Open Trivia Database.
  - For each question, the correct answer is shuffled in among the wrong ones.
  - A countdown timer runs while the user answers.
  - Answers are recorded and graded, and the quiz moves on to the first unanswered question.

The modules follow the source files:

| module | file | form |
|---|---|---|
| `Types` | `types.dfy` | the `[value, null] \| [null, error]` result tuple and optional values |
| `JsBuiltins` | `js_builtins.dfy` | the JavaScript string and array built-ins the code relies on: `trim`, ASCII `toLowerCase`, `includes`, `join`, `padStart`, integer `toString` and `slice` with its index clipping |
| `TriviaTypes` | `trivia_types.dfy` | the question and response records |
| `TriviaFetch` | `trivia_fetch.dfy` | building the request URL, the Fisher–Yates shuffle (a method over an array that is proved equal to a function on sequences), shaping an answered response, and the two error paths |
| `TriviaState` | `trivia_state.dfy` | the quiz context, a class whose fields the helper functions read and update |
| `CountryTypes` | `country_types.dfy` | the country record |
| `CountrySearch` | `country_search.dfy` | the local search filter |
| `CountryTable` | `country_table.dfy` | pagination |
| `CountryDetails` | `country_details.dfy` | the lookup and formatting of the details panel |
| `CountryState` | `country_state.dfy` | the search page's hook, a class whose fields are the hook's state and whose methods are its handlers |
| `Timer` | `timer.dfy` | the countdown timer, a class whose fields are the closure's variables |

Inputs that the code takes from the environment become parameters:

- Randomness. `Math.random()` is a sequence of draws, each a real in `[0, 1)`.
- HTML entity decoding. `decodeHTML` is a function parameter `decode`.
- The network. The result of the trivia request is an `Outcome`: a response body or a thrown value.
- The clock. The interval callback receives the elapsed milliseconds.
- The all-countries dataset, which is a parameter `data`.

How the code behaves, and what the model proves about it:

- **The correct answer is not decoded.** `fetch.ts:30` copies `correct_answer`, `incorrect_answers` and `difficulty` without decoding them. It decodes `type`, `category` and `question` (`fetch.ts:31-33`) and every entry of `all_answers` (`fetch.ts:34-36`).
  - Whenever decoding leaves the correct answer unchanged, one shown option equals it (`CorrectOptionShown`).
  - If decoding changes the correct answer (an HTML entity in it) and no incorrect answer decodes to it, no shown option equals it (`RawCorrectAnswerNotShown`), so no answer index is graded correct (`RawCorrectAnswerUnreachable`). `RawCorrectAnswerExample` gives a concrete question where this happens.
- **An empty capital shows as `N/A`.** `country.capital?.[0] || 'N/A'` treats an empty string as missing, so an empty first capital also shows `N/A` (`CapitalText`). The table cell at `CountryTable.tsx:69` uses the same expression.
- **`getInitialValues().query` is read but never used.** On the first render the hook's query is empty whatever the URL says (`CountryState.CountryState.constructor`). The mount effect `handleUrlChange` (`useCountryState.ts:42-62`) then restores `q`, but only when the URL's `country` differs from the selection. The selection was itself initialised from `country`, so a URL carrying both `q` and `country` opens with an empty query and no results (`CountryState.Mount`).
- **Nothing in the modelled files stores the answer value -2.** `isCurrentQuestionAnswered` treats -2 as "not answered".
- **The page index is not clamped.** Page 0 shows nothing (`PageZero`), and a page past the end shows nothing (`PastTheEnd`).
- **Negative timer values.** `formatTime` on a negative value prints a negative remainder (`FormatMsNegative`). A negative value can be stored by `createTimer` or `reset` with a negative duration, and by the `valueMs` setter.

## Model

| member | source | states |
|---|---|---|
| Types.ResultOrError.First | src/lib/types.ts:1 | the value slot is filled exactly for a success, and then holds the success value |
| Types.ResultOrError.Second | src/lib/types.ts:1 | the error slot is filled exactly for a failure, and then holds the error |
| JsBuiltins.TrimProperties | src/lib/components/useCountryState.ts:103 | `trim()` is empty exactly when the string is all ECMAScript whitespace; otherwise neither end of the trimmed text is whitespace |
| JsBuiltins.TrimStartSuffix | src/lib/components/useCountryState.ts:103 | trimming the start removes a whitespace-only prefix and leaves a suffix that does not start with whitespace |
| JsBuiltins.TrimEndPrefix | src/lib/components/useCountryState.ts:114 | trimming the end removes a whitespace-only suffix and leaves a prefix that does not end with whitespace |
| JsBuiltins.Lower | src/lib/fetch/country-by-name.ts:15 | `toLowerCase` keeps the length and maps each character through the ASCII lower-casing |
| JsBuiltins.LowerChar | src/lib/fetch/country-by-name.ts:15 | upper-case ASCII letters move down by 32; every other character is kept |
| JsBuiltins.LowerIdempotent | src/lib/fetch/country-by-name.ts:16 | lower-casing twice is the same as lower-casing once |
| JsBuiltins.ContainsIffOccurs | src/lib/fetch/country-by-name.ts:16 | `includes` holds exactly when the needle occurs at some index |
| JsBuiltins.ContainsAt | src/lib/fetch/country-by-name.ts:16 | an occurrence at any index makes `includes` true |
| JsBuiltins.ContainsEmpty | src/lib/fetch/country-by-name.ts:16 | every string includes the empty string |
| JsBuiltins.ContainsInfix | src/lib/components/CounrtyDetailsView.tsx:93 | a string includes every piece placed inside it |
| JsBuiltins.ContainsAfterPrefix | src/lib/components/CounrtyDetailsView.tsx:93 | putting text in front keeps an occurrence |
| JsBuiltins.Join | src/lib/components/CounrtyDetailsView.tsx:93 | joining no parts gives `""`; joining one part gives that part; the layout of more parts is stated by `JoinLayout` |
| JsBuiltins.JoinContainsEach | src/lib/components/CounrtyDetailsView.tsx:93 | the joined text contains every part |
| JsBuiltins.JoinOffset | src/lib/components/CounrtyDetailsView.tsx:93 | part `k` of the joined text starts after the parts before it and one separator after each of them |
| JsBuiltins.JoinLayout | src/lib/components/CounrtyDetailsView.tsx:93 | `join` keeps the parts in order: part `k` sits at its offset, followed by the separator, and the last part ends the text |
| JsBuiltins.ShiftLayout | src/lib/components/CounrtyDetailsView.tsx:93 | a part placed in the rest of the text keeps its place after the first part and separator are put in front |
| JsBuiltins.HeadLayout | src/lib/components/CounrtyDetailsView.tsx:93 | the first part starts the joined text and the separator follows it |
| JsBuiltins.DigitChar | src/lib/timer.svelte.ts:67 | a value below 10 becomes a decimal digit |
| JsBuiltins.DigitValue | src/lib/timer.svelte.ts:67 | a decimal digit has a value below 10 |
| JsBuiltins.NatToString | src/lib/timer.svelte.ts:67 | the decimal text of a natural number is non-empty, all digits, and has no leading zero |
| JsBuiltins.IntToStringReadBack | src/lib/trivia/fetch.ts:12 | the decimal text of an integer starts with `-` exactly when it is negative, and its digits read back as its absolute value |
| JsBuiltins.ParseNatToString | src/lib/timer.svelte.ts:67 | reading the decimal text back gives the number |
| JsBuiltins.NatToStringShort | src/lib/timer.svelte.ts:66-67 | a value below 1000 has at most three digits |
| JsBuiltins.Repeat | src/lib/timer.svelte.ts:67 | `k` copies of a character |
| JsBuiltins.PadStart | src/lib/timer.svelte.ts:67 | `padStart` fills on the left up to the length, keeps the text as the suffix, and leaves longer text unchanged |
| JsBuiltins.ParseZeros | src/lib/timer.svelte.ts:67 | a run of zeros reads as 0 |
| JsBuiltins.ParseLeadingZeros | src/lib/timer.svelte.ts:67 | zero padding does not change the value read back |
| JsBuiltins.RelativeIndex | src/lib/components/CountryTable.tsx:26 | `slice` clips an index to the length and counts a negative index from the end, down to 0 |
| JsBuiltins.Slice | src/lib/components/CountryTable.tsx:26 | a slice is never longer than the list |
| JsBuiltins.SliceNonNegative | src/lib/components/CountryTable.tsx:26 | with non-negative bounds, `slice` is the sub-sequence between the clipped bounds, or empty |
| TriviaFetch.BuildTriviaUrl | src/lib/trivia/fetch.ts:12-19 | the URL carries `amount` first, then `category` and `difficulty` exactly when they are not `any`, and no other parameter |
| TriviaFetch.ParamValuesAppend | src/lib/trivia/fetch.ts:12-19 | looking up a parameter among the appended ones finds exactly the values appended under that name |
| TriviaFetch.SwapPartner | src/lib/trivia/fetch.ts:54 | the index drawn for position `i` lies in `0..i` |
| TriviaFetch.SwapPartnerIsFloor | src/lib/trivia/fetch.ts:54 | the drawn index is `Math.floor(x * (i + 1))` |
| TriviaFetch.ScaleIsProduct | src/lib/trivia/fetch.ts:54 | repeated addition of the draw equals the product `x * n` |
| TriviaFetch.ScaleBounds | src/lib/trivia/fetch.ts:54 | `x * n` lies in `[0, n)` for a draw `x` in `[0, 1)` |
| TriviaFetch.FloorBelow | src/lib/trivia/fetch.ts:54 | the floor search never passes its bound |
| TriviaFetch.FloorBelowBounds | src/lib/trivia/fetch.ts:54 | the floor search returns the integer just below the value |
| TriviaFetch.FloorUnique | src/lib/trivia/fetch.ts:54 | the floor is the one integer `j` with `j <= y < j + 1` |
| TriviaFetch.Swap | src/lib/trivia/fetch.ts:55 | the destructuring swap exchanges positions `i` and `j` and keeps all others |
| TriviaFetch.SwapPermutes | src/lib/trivia/fetch.ts:55 | a swap keeps the multiset of elements |
| TriviaFetch.SwapArray | src/lib/trivia/fetch.ts:55 | swapping in place leaves the array equal to the swapped sequence |
| TriviaFetch.DrawIndex | src/lib/trivia/fetch.ts:53-54 | the loop consumes one draw per position above 0, starting from the last position |
| TriviaFetch.Partners | src/lib/trivia/fetch.ts:53-54 | the drawn partner of every position lies at or below it |
| TriviaFetch.IsPartnerList | src/lib/trivia/fetch.ts:53-54 | a partner list has one entry per draw, each no larger than its position |
| TriviaFetch.PartnerAt | src/lib/trivia/fetch.ts:53-54 | the partner list holds, at each draw, the index computed from that draw |
| TriviaFetch.ShuffleFrom | src/lib/trivia/fetch.ts:53-56 | the loop from position `i` down keeps the length |
| TriviaFetch.ShuffleFromPermutes | src/lib/trivia/fetch.ts:53-56 | the loop from position `i` down keeps the multiset of elements |
| TriviaFetch.Shuffle | src/lib/trivia/fetch.ts:51-58 | the shuffled copy has the input's length |
| TriviaFetch.ShufflePermutes | src/lib/trivia/fetch.ts:51-58 | the shuffled copy is a permutation of the input |
| TriviaFetch.ShuffleArray | src/lib/trivia/fetch.ts:51-58 | the in-place loop over a copied array returns the specified shuffle, a permutation of the input |
| TriviaFetch.MapSeq | src/lib/trivia/fetch.ts:35 | mapping keeps the length and applies the function at every index |
| TriviaFetch.MapSwap | src/lib/trivia/fetch.ts:34-35 | decoding commutes with a swap |
| TriviaFetch.MapShuffleFrom | src/lib/trivia/fetch.ts:34-35 | decoding commutes with the shuffle loop |
| TriviaFetch.DecodedShuffleIsPermutation | src/lib/trivia/fetch.ts:34-35 | the decoded, shuffled options are the decoded options in another order |
| TriviaFetch.AnswerOptions | src/lib/trivia/fetch.ts:34 | the options are the wrong answers, in order, followed by the correct one |
| TriviaFetch.EnhanceQuestion | src/lib/trivia/fetch.ts:29-37 | a shaped question decodes `type`, `category` and `question`; copies `difficulty`, `correct_answer` and `incorrect_answers`; and shows the decoded options in shuffled order |
| TriviaFetch.CorrectOptionShown | src/lib/trivia/fetch.ts:30-36 | when decoding leaves the correct answer unchanged, some shown option equals it |
| TriviaFetch.RawCorrectAnswerNotShown | src/lib/trivia/fetch.ts:30-36 | for any decoder that changes the correct answer, with no incorrect answer decoding to it, no shown option equals the stored correct answer |
| TriviaFetch.RawCorrectAnswerExample | src/lib/trivia/fetch.ts:30-36 | the question with correct answer `AT&amp;T` and incorrect answer `IBM`, under a decoder of `&amp;`, shows no option equal to its correct answer |
| TriviaFetch.EnhanceAll | src/lib/trivia/fetch.ts:29-37 | every result is shaped, in order, with the draws consumed question by question |
| TriviaFetch.ResponseToResult | src/lib/trivia/fetch.ts:28-42 | code 0 yields the shaped questions; any other code yields the error `Failed to load questions` |
| TriviaFetch.CaughtToResult | src/lib/trivia/fetch.ts:43-48 | a thrown error yields `Error loading questions: ` followed by its message; any other thrown value gives `Unknown error` after the prefix |
| TriviaFetch.FailureMessagesDiffer | src/lib/trivia/fetch.ts:40-48 | a thrown failure is never reported with the bad-response message |
| TriviaFetch.FetchTrivia | src/lib/trivia/fetch.ts:5-49 | requests the URL for the filters; succeeds exactly when the response came back with code 0; otherwise reports the matching failure |
| TriviaState.TriviaContext.constructor | src/lib/trivia/state.svelte.ts:4-18 | a new context is not loading, has no questions, no error, no answers and nothing seen, is at index -1 with no current question, and has both filters set to `any` |
| TriviaState.TriviaContext.GetCurrentQuestion | src/lib/trivia/state.svelte.ts:20-22 | the current question exists exactly when the index is in range, and it is the question at that index; after `setNextQuestion` on an incomplete quiz it is the first unanswered question (`SetNextQuestion`, `FirstUnansweredIsOpen`) |
| TriviaState.TriviaContext.AnswerAt | src/lib/trivia/state.svelte.ts:53-55 | the stored answer of a question, present exactly when one was recorded |
| TriviaState.TriviaContext.GetCurrentAnswerIndex | src/lib/trivia/state.svelte.ts:24-26 | the current answer exists exactly when the current question is answered, and is the value stored for it |
| TriviaState.TriviaContext.IsQuestionAnswered | src/lib/trivia/state.svelte.ts:53-55 | a question is answered exactly when a value is stored for it, the timeout value included |
| TriviaState.TriviaContext.IsQuestionSeen | src/lib/trivia/state.svelte.ts:57-59 | a question is seen exactly when it is marked seen with `true`; after a new context or `initTrivia` no question is |
| TriviaState.TriviaContext.FirstUnansweredFrom | src/lib/trivia/state.svelte.ts:28-34 | from a start index: the least unanswered index at or after it, or -1 when all those questions are answered |
| TriviaState.TriviaContext.GetFirstUnansweredQuestionIndex | src/lib/trivia/state.svelte.ts:28-34 | `findIndex`: the least unanswered index, or -1 exactly when every question is answered |
| TriviaState.TriviaContext.IsQuizComplete | src/lib/trivia/state.svelte.ts:61-63 | complete exactly when there is no unanswered question; an empty quiz is complete |
| TriviaState.TriviaContext.IsCurrentQuestionAnswered | src/lib/trivia/state.svelte.ts:65-67 | answered with a value other than -2; a timed-out question counts as answered |
| TriviaState.TriviaContext.IsTimedoutAnswer | src/lib/trivia/state.svelte.ts:84-88 | timed out exactly when the stored answer is -1 |
| TriviaState.TriviaContext.IsCurrentQuestionTimedOut | src/lib/trivia/state.svelte.ts:69-71 | the current question's answer is the timeout value |
| TriviaState.TriviaContext.IsCorrectAnswer | src/lib/trivia/state.svelte.ts:77-82 | correct exactly when the option at that index exists and its text equals the stored correct answer; the timeout value is never correct |
| TriviaState.TriviaContext.IsCurrentQuestionCorrectlyAnswered | src/lib/trivia/state.svelte.ts:49-51 | a correctly answered question is answered and not timed out |
| TriviaState.TriviaContext.IsCurrentQuestionAnsweredCorrectly | src/lib/trivia/state.svelte.ts:73-75 | the current question is answered and its answer is graded correct |
| TriviaState.TriviaContext.SetCurrentAnswer | src/lib/trivia/state.svelte.ts:36-39 | records the answer and its time for the current question and leaves every other question's answer unchanged |
| TriviaState.TriviaContext.SetNextQuestion | src/lib/trivia/state.svelte.ts:41-47 | moves to the first unanswered question, which is then the current question with no answer index; on a complete quiz the index stays put |
| TriviaState.TriviaContext.BeginInitTrivia | src/lib/trivia/state.svelte.ts:90-97 | before the request: clears questions, answers and seen marks, sets index 0 (with no current question yet), starts loading, and asks for five questions with the chosen filters |
| TriviaState.TriviaContext.CompleteInitTrivia | src/lib/trivia/state.svelte.ts:98-100 | after the request: stores the questions (empty on failure) and the error, and stops loading |
| TriviaState.TriviaContext.InitTrivia | src/lib/trivia/state.svelte.ts:90-101 | a full initialisation: requests five questions with the filters; on code 0 the questions are the shaped results, in order, and there is no error; on another code there are no questions and the error is `Failed to load questions`; when the request throws, the error is the caught message |
| TriviaState.GradingByText | src/lib/trivia/state.svelte.ts:77-82 | grading depends only on the option's text: two options with equal text are graded the same |
| TriviaState.CorrectAnswerReachable | src/lib/trivia/state.svelte.ts:77-82 | when the correct answer is among the options, some answer index is graded correct |
| TriviaState.RawCorrectAnswerUnreachable | src/lib/trivia/state.svelte.ts:77-82 | a question shaped with a decoder that changes its correct answer, none of whose incorrect answers decode to it, has no answer index graded correct |
| TriviaState.FirstUnansweredIsOpen | src/lib/trivia/state.svelte.ts:20-47 | at the first unanswered question of an incomplete quiz, there is a current question and it has no answer, so it is neither answered nor timed out |
| TriviaState.ThreeQuestionRun | src/lib/trivia/state.svelte.ts:36-101 | load three questions, answer the first correctly, call `setNextQuestion`, let the second time out, call `setNextQuestion` again: the run is at question 2, which is open, the quiz is incomplete, and the first answer is graded correct and the second not |
| CountrySearch.SearchFields | src/lib/fetch/country-by-name.ts:13 | the searched fields are, in order, the common name, the official name, cca2 and cca3 |
| CountrySearch.NonEmpty | src/lib/fetch/country-by-name.ts:14 | `filter(s => !!s)` keeps exactly the non-empty fields |
| CountrySearch.LowerAll | src/lib/fetch/country-by-name.ts:15 | lower-cases every field |
| CountrySearch.AnyIncludesIff | src/lib/fetch/country-by-name.ts:16 | `some(includes)` holds exactly when some field includes the needle |
| CountrySearch.MatchesSearchIff | src/lib/fetch/country-by-name.ts:12-17 | a country matches exactly when one of its non-empty search fields, lower-cased, includes the lower-cased name |
| CountrySearch.SearchLocal | src/lib/fetch/country-by-name.ts:12-17 | the result holds exactly the matching countries |
| CountrySearch.SearchLocalCounts | src/lib/fetch/country-by-name.ts:12-17 | each matching country is kept as often as the dataset holds it, and no other country is kept |
| CountrySearch.SubsequenceTail | src/lib/fetch/country-by-name.ts:12 | a subsequence stays one when an element is put in front of the longer list |
| CountrySearch.SearchLocalIsSubsequence | src/lib/fetch/country-by-name.ts:12 | `filter` keeps the dataset's order |
| CountrySearch.MatchesSearchIgnoresCase | src/lib/fetch/country-by-name.ts:16 | matching ignores the case of the search term |
| CountrySearch.SearchIgnoresCase | src/lib/fetch/country-by-name.ts:12-17 | searching for a term and for its lower-cased form gives the same list |
| CountrySearch.EmptySearchMatches | src/lib/fetch/country-by-name.ts:14-16 | the empty term matches every country with a non-empty search field |
| CountrySearch.SearchCountryByName | src/lib/fetch/country-by-name.ts:5-19 | the local search always succeeds, with the filtered list and no error |
| CountryTable.Visible | src/lib/components/CountryTable.tsx:23-27 | the visible rows are never more than the list |
| CountryTable.VisibleWindow | src/lib/components/CountryTable.tsx:23-27 | page `p` (from 1) shows the rows from `(p-1)*size` up to `p*size`, clipped to the list |
| CountryTable.OffsetStep | src/lib/components/CountryTable.tsx:24 | the next page's offset is one page size further |
| CountryTable.VisibleLength | src/lib/components/CountryTable.tsx:23-27 | a page never shows more than the page size |
| CountryTable.FirstPage | src/lib/components/CountryTable.tsx:17-27 | page 1 shows the first `pageSize` rows |
| CountryTable.DefaultFirstPage | src/lib/components/CountryTable.tsx:17-27 | with the default page size of 5, page 1 shows the first five rows, or all of them when there are fewer |
| CountryTable.PageZero | src/lib/components/CountryTable.tsx:23-27 | page 0 shows nothing, because the slice `(-size, 0)` is empty |
| CountryTable.PastTheEnd | src/lib/components/CountryTable.tsx:23-27 | a page that starts past the end shows nothing |
| CountryTable.PagesArePrefix | src/lib/components/CountryTable.tsx:23-27 | pages 1 to `k`, put together, are the first `k*size` rows |
| CountryTable.PrefixThenWindow | src/lib/components/CountryTable.tsx:26 | a prefix followed by the window after it is a longer prefix |
| CountryTable.PageCount | src/lib/components/CountryTable.tsx:23-27 | the least number of pages that holds every row |
| CountryTable.AllPages | src/lib/components/CountryTable.tsx:23-27 | the pages together show every row exactly once, in order |
| CountryTable.PrevPage | src/lib/components/CountryTable.tsx:79 | the previous trigger moves exactly one page down |
| CountryTable.NextPage | src/lib/components/CountryTable.tsx:96 | the next trigger moves exactly one page up, and the previous trigger undoes it |
| CountryTable.PrevThenNext | src/lib/components/CountryTable.tsx:79-96 | the next trigger undoes the previous trigger |
| CountryTable.NextPageContinues | src/lib/components/CountryTable.tsx:23-27 | a page followed by the next page is one contiguous run of rows |
| CountryDetails.FirstMatchFrom | src/lib/components/CounrtyDetailsView.tsx:14 | from a start index: the least matching index at or after it, or none when no later country matches |
| CountryDetails.FindCountry | src/lib/components/CounrtyDetailsView.tsx:12-15 | no id finds nothing; otherwise the result is the first country whose cca3 or cca2 equals the id, or nothing when none does |
| CountryDetails.DetailView | src/lib/components/CounrtyDetailsView.tsx:17-30 | the not-found panel, with the id, exactly when the lookup fails; otherwise the details of a country with that id from the list |
| CountryDetails.SelectedRowIsFound | src/lib/components/CounrtyDetailsView.tsx:14 | a row clicked in the table, which passes its cca2, is found: it or an earlier country with the same code |
| CountryDetails.CapitalText | src/lib/components/CounrtyDetailsView.tsx:75 | the first capital, or `N/A` when there is none or the first one is empty; never empty |
| CountryDetails.RegionText | src/lib/components/CounrtyDetailsView.tsx:81 | the region, a space, then `(subregion)` only when there is a subregion |
| CountryDetails.LanguagesText | src/lib/components/CounrtyDetailsView.tsx:90-95 | the languages row is shown exactly when languages are present and names every language |
| CountryDetails.CurrencyText | src/lib/components/CounrtyDetailsView.tsx:102 | a currency shows as its name followed by ` (symbol)` |
| CountryDetails.CurrenciesText | src/lib/components/CounrtyDetailsView.tsx:97-106 | the currencies row is shown exactly when currencies are present and names every currency |
| CountryDetails.LanguagesTextLayout | src/lib/components/CounrtyDetailsView.tsx:93 | the languages row lists the languages in their order, separated by `, `, with the last one ending the row |
| CountryDetails.CurrenciesTextLayout | src/lib/components/CounrtyDetailsView.tsx:100-104 | the currencies row lists `name (symbol)` for each currency in order, separated by `, `, with the last one ending the row |
| CountryState.ParamOrEmpty | src/lib/components/useCountryState.ts:18-19 | `params.get(name) \|\| ''`: the value of a present parameter, else `""` |
| CountryState.GetInitialValues | src/lib/components/useCountryState.ts:15-21 | reads `q` and `country` from the URL, each `""` when missing; it reads back what `updateUrlParams` wrote (`InitialValuesRoundTrip`) |
| CountryState.UpdatedParams | src/lib/components/useCountryState.ts:64-78 | `q` is set to a non-empty query and removed for an empty one; `country` is set to a non-empty id, removed for `null`, and kept when the id is left out or empty; other parameters are untouched |
| CountryState.UpdatedParamsIdempotent | src/lib/components/useCountryState.ts:64-78 | writing the same values twice is the same as writing them once |
| CountryState.InitialValuesRoundTrip | src/lib/components/useCountryState.ts:15-78 | reading the URL back after `updateUrlParams` gives the query written (`""` for the empty one), the id written, `""` after `null`, and the old `country` when the id is left out |
| CountryState.CountryState.constructor | src/lib/components/useCountryState.ts:23-30 | on the first render: an empty query, no results, no error, and the URL's `country` as the selection |
| CountryState.CountryState.UpdateUrlParams | src/lib/components/useCountryState.ts:64-78 | the step-by-step edits of the URL give `UpdatedParams` |
| CountryState.CountryState.ApplySearchResult | src/lib/components/useCountryState.ts:94-100 | the results become the value slot and the error the error slot, or `""` |
| CountryState.CountryState.PerformSearch | src/lib/components/useCountryState.ts:94-100 | the results are the local matches for the term, and the error is cleared |
| CountryState.CountryState.HandleSearch | src/lib/components/useCountryState.ts:102-110 | a non-blank query is written to the URL, untrimmed, and searched; a blank one clears the results and removes `q`, keeping the error |
| CountryState.CountryState.HandleInputChange | src/lib/components/useCountryState.ts:112-118 | stores the typed value; a blank value also clears the results and removes `q`; otherwise results and URL are unchanged |
| CountryState.CountryState.HandleCountrySelect | src/lib/components/useCountryState.ts:120-123 | selects the id and writes it, with the current query, into the URL |
| CountryState.CountryState.HandleCountryDeselect | src/lib/components/useCountryState.ts:125-128 | clears the selection and removes `country` from the URL |
| CountryState.CountryState.ClearError | src/lib/components/useCountryState.ts:130-132 | the error becomes `""` |
| CountryState.CountryState.HandleUrlChange | src/lib/components/useCountryState.ts:42-62 | a new non-empty `q` is searched and becomes the query only when `country` also differs from the selection; a missing or empty `q` clears query and results; afterwards the selection is the URL's `country`, or `""` |
| CountryState.SelectThenDeselect | src/lib/components/useCountryState.ts:120-128 | select then deselect leaves no `country`; `q` is present exactly for a non-empty query; other parameters are kept |
| CountryState.Mount | src/lib/components/useCountryState.ts:23-62 | opening a URL: a non-empty `q` is searched and restored only when there is no `country`; with `country` the query stays empty and there are no results; the selection is the URL's `country` |
| CountryState.PressEnter | src/lib/components/CountrySearchPage.tsx:45-50 | Enter deselects and then searches: no selection and no `country` afterwards, with results exactly when the query is not blank |
| Timer.TickValue | src/lib/timer.svelte.ts:38 | the value after a tick is `max(0, start - elapsed)`: never negative, never below `start - elapsed`, 0 exactly when the time is up, and never above the start value |
| Timer.TickValueMonotone | src/lib/timer.svelte.ts:36-39 | later ticks never show more time |
| Timer.JsRemainder1000 | src/lib/timer.svelte.ts:66 | the JavaScript remainder by 1000 takes the sign of the value and differs from it by a multiple of 1000 |
| Timer.FormatMsRoundTrip | src/lib/timer.svelte.ts:64-68 | for a non-negative value: whole seconds with no leading zero, a dot, exactly three digits, and reading the text back gives the value |
| Timer.PaddedMillis | src/lib/timer.svelte.ts:66-67 | a remainder below 1000 pads to three digits that read back as the remainder |
| Timer.SplitAtDot | src/lib/timer.svelte.ts:67 | seconds with no leading zero, a dot and three digits split back into the two numbers |
| Timer.FormatMsNegative | src/lib/timer.svelte.ts:64-68 | -1500 ms prints as `-2.-500` |
| Timer.Timer.constructor | src/lib/timer.svelte.ts:9-12 | a new timer is stopped at the full duration with no completions |
| Timer.Timer.CompletionEffect | src/lib/timer.svelte.ts:21-27 | a running timer at or below 0 stops and completes once; otherwise nothing changes |
| Timer.Timer.Start | src/lib/timer.svelte.ts:30-41 | only a stopped timer with time left starts, remembering its start value; otherwise nothing changes |
| Timer.Timer.Tick | src/lib/timer.svelte.ts:36-39 | the value becomes start minus elapsed, floored at 0; while time is left the elapsed time grows by the ticked amount; the timer stops, with exactly one completion, exactly when the value reaches 0 |
| Timer.Timer.SetValueMs | src/lib/timer.svelte.ts:95-97 | stores the value; a running timer set to 0 or below completes once; a stopped timer does not complete |
| Timer.Timer.Stop | src/lib/timer.svelte.ts:44-49 | the timer is stopped and its value kept |
| Timer.Timer.Reset | src/lib/timer.svelte.ts:52-56 | stopped, at the full duration |
| Timer.Timer.ElapsedMs | src/lib/timer.svelte.ts:92-94 | elapsed plus remaining is the duration; after a start and a tick before the end it is the time ticked (`ElapsedAfterTick`) |
| Timer.Timer.FormatTime | src/lib/timer.svelte.ts:64-68 | for a non-negative value: seconds with no leading zero, a dot and three digits that read back as the value |
| Timer.ElapsedAfterTick | src/lib/timer.svelte.ts:9-94 | a timer started at its duration and ticked `e` ms later, before the end, is still running and reports `e` ms elapsed |
| Timer.CountDown | src/lib/timer.svelte.ts:21-41 | a timer started and ticked at or past its duration is stopped at 0 with one completion and does not start again |

## Left out

- The network request and `response.json()` are not modelled. The outcome of the trivia request is a parameter.
- The remote branch of `searchCountryByName` is not modelled: the REST Countries request, its `Country not found` error and the `An error occurred` fallback. The page only calls the local search.
- The `useLocalData` branch of `fetchTrivia` and its sample questions (`fetch.ts:60-105`) are not modelled. That flag is off by default.
- `decodeHTML` is not part of this model; it is a function parameter.
- The all-countries dataset is not part of this model; it is a parameter.
- `Math.random()` is a sequence of exact reals in `[0, 1)`. Floating-point rounding of `x * (i + 1)` and the uniformity of the shuffle are not modelled.
- Reactivity is not modelled. This covers Svelte `$state`/`$derived`/`$effect` and React `useEffect`/`useMemo`/`useTransition`/`isPending`. Each effect runs right after the assignment it depends on.
- The `getAllCountries` effect of the hook is not modelled, because it needs the network. `allCountries` is a field that nothing sets.
- CountryState.CountryState.HandleUrlChange: reads the URL from the `urlParams` field rather than from `window.location`, and runs `performSearch` at once. It runs once, on mount, as in the source, where the closure sees the first render's `query` and `selectedCountryId`.
- The search inside `startTransition` is applied at once. The ordering of concurrent searches is not modelled.
- The URL is a map from parameter name to value. Parameter order, repeated keys, `window.location` and the `navigate(newUrl)` call and its `history.replaceState` fallback are not modelled. The trivia request URL keeps its parameters in order.
- `percentRemaining` is floating point and is not modelled.
- `destroy`, `onDestroy`, the interval id and `clearInterval` are not modelled. `onComplete` is not modelled; completions are counted instead of running a callback.
- `Date.now()` and `setInterval` are not modelled: `Tick` receives the elapsed time.
- Timer values are integers; the fractional milliseconds a setter could store are not modelled.
- `toLowerCase` lower-cases ASCII letters only. Full Unicode case mapping is not modelled.
- Population uses `toLocaleString`; it and the rest of the markup are not modelled. This includes the flag image, `FeedbackDialog`, the pagination buttons other than previous and next, `CountrySearchPage` apart from Enter and the row click, and `vite.config.ts`.
- TriviaState.TriviaContext.SetCurrentAnswer: requires an index of 0 or more. At index -1, before `initTrivia`, the source stores the answer as the array property `"-1"`, outside its elements. The model stores answers only at indices 0 or more, so a negative index is never answered in it.
- The answer arrays, which have holes, are maps from index to value. Their `length` is not modelled.
- TriviaState.TriviaContext.IsCorrectAnswer: requires the question index to be in range; out of range, the source throws on `undefined.all_answers`.
- Timer.Timer.Tick: requires a running timer. The interval is cleared when the timer stops, so the callback never runs otherwise.
- Timer.Timer.FormatTime: states the text's shape and value only for non-negative values. For negative values only the example in `FormatMsNegative` is proved.
- TriviaFetch.Shuffle: states the length and, in `ShufflePermutes`, the permutation. Fairness of the shuffle is not stated.
