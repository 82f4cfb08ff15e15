# Laptop price predictor: text parsers, option lists and page logic

This project models in Dafny the deterministic core of a laptop price
predictor. The system has a Python backend that turns raw laptop
specifications into model features. It also has two pages of a Next.js
frontend.

The project models three parts:

- **Backend feature parsers:**
  - the storage description (`parse_memory`) becomes SSD, HDD, Hybrid and
    Flash gigabytes and `Total_Storage`;
  - the CPU text (`extract_cpu_features`) gives brand, model and speed
    text;
  - the screen text (`extract_resolution_features`) gives the resolution
    and the IPS and Retina flags.
- **The `/options` endpoint (`get_options`):** the sorted, distinct
  dropdown lists. This includes the RAM cleaning (`clean_ram`) and
  Python's `int()`.
- **The laptop comparison page:**
  - form editing (`handleChange`) and validation (`validateForm`), with
    JavaScript's `parseFloat` and `parseInt`;
  - the default forms seeded from the options (`||` fallbacks and
    `Math.min(1, n - 1)`);
  - the option loader with its retries, timeout and unmount guard;
  - price difference and cheaper laptop;
  - one prediction round (`handlePredict`).
- **The visualizations page:**
  - the per-chart `loading` and `errors` maps driven by image load, image
    error and retry;
  - what is rendered (spinner, error panel, image);
  - the image URL with its cache-busting timestamp;
  - the chart catalogue, matched against the backend's chart routes.

Both regular expressions are modelled as a greedy matcher at one position
plus a leftmost search:

- `(\d+)\s*(GB|TB)`, case-insensitive;
- `(\d+)x(\d+)`.

Each matcher comes with a lemma showing that a backtracking engine can find
nothing the greedy match misses.

Modules, one per file:

- `Wrappers`: `Option`.
- `Text`: Python string operations (split, strip, `split()`, upper,
  replace, `in`) and decimal rendering.
- `Collections`: `sorted(set(...))` and first-occurrence de-duplication.
- `StorageParser`, `CpuParser`, `ScreenParser`, `OptionLists`.
- `JsNumbers`.
- `CompareForm`, `OptionsFetch`.
- `ChartStatus`.

Inputs outside the program are parameters:

- **Dataset:** a sequence of rows.
- **Network outcomes:** an `Attempt` or a `PredictOutcome`.
- **Time:** the image URL takes `timestamp`, standing for `Date.now()`.
  Retry delays are recorded rather than waited for.
- **Environment:** `NEXT_PUBLIC_API_URL` is an `Option<string>`.
- **Float rendering:** how a JavaScript float is rendered (`String(x)`) is
  the `showReal` function.

## Model

| member | source | states |
|---|---|---|
| `StorageParser.SizeMatchAt` | backend/main.py:88 | a match at a position consists of digits, then whitespace, then GB or TB in any case, with the digits taken from the text |
| `StorageParser.SizeMatchAtComplete` | backend/main.py:88 | any way the size pattern can match at a position is the greedy match there, so `re.search` semantics are not narrowed |
| `StorageParser.SearchSize` | backend/main.py:88 | the search returns the leftmost position where the pattern matches, and none when it matches nowhere |
| `StorageParser.Classify` | backend/main.py:98-106 | each bucket is chosen exactly under its keyword condition: SSD yields to HYBRID, HYBRID to HDD, and FLASH/EMMC only without the other three; other segments are dropped |
| `StorageParser.Deposit` | backend/main.py:99-106 | a segment's size lands in one bucket only, and in none when the segment is dropped |
| `StorageParser.SegmentCredit` | backend/main.py:84-106 | one segment contributes to at most one bucket |
| `StorageParser.ParseMemory` | backend/main.py:72-108 | a missing memory value gives four zeros; otherwise the four buckets, which `Total_Storage` adds, sum to the sizes of the `+`-separated segments that land in a bucket |
| `StorageParser.SegmentSize` | backend/main.py:88-96 | a segment has no size exactly when no digits, optional whitespace and GB or TB in any letter case occur anywhere in it |
| `StorageParser.SegmentSizeRoundTrip` | backend/main.py:88-96 | "n", optional spaces, then GB or TB in any letter case reads as n gigabytes or 1024·n gigabytes, whatever text follows |
| `StorageParser.Tally` | backend/main.py:84-106 | the running buckets add up to the sum of the segments' credits, each counted exactly once |
| `StorageParser.TallyConcat` | backend/main.py:84-106 | tallying two runs of segments adds their buckets |
| `StorageParser.ParseMemoryConcat` | backend/main.py:84-106 | joining two descriptions with `+` adds their buckets |
| `StorageParser.ParseMemorySingleSegment` | backend/main.py:84-106 | a description without `+` fills at most one bucket |
| `StorageParser.ParseMemoryRoundTrip` | backend/main.py:72-108 | a padded "<n><gap><unit><note>" puts n GB, or 1024·n for TB, into the bucket its upper-cased text selects |
| `StorageParser.SegmentCreditCases` | backend/main.py:88-106 | a segment with no size, or naming no storage kind, adds nothing; otherwise its whole size is added |
| `CpuParser.CpuModel` | backend/main.py:121-126 | the model is tokens 2 and 3 joined by a space, token 2 alone, or empty, by token count |
| `CpuParser.FirstGhz` | backend/main.py:129-130 | the first token containing `GHz`, case-sensitively; none exactly when no token has it |
| `CpuParser.SpeedText` | backend/main.py:131 | the speed text never keeps a decimal comma |
| `CpuParser.ExtractCpu` | backend/main.py:111-138 | a missing or blank value gives no features; otherwise the brand is a non-empty token without whitespace |
| `CpuParser.ExtractCpuOfTokens` | backend/main.py:115-136 | when some token contains `GHz`, for tokens laid out with any whitespace around and between them: the brand is the first token, the model the next one or two, and the speed comes from the first `GHz` token |
| `CpuParser.ExtractCpuWithoutGhz` | backend/main.py:115-136 | when no token contains `GHz`, whatever the whitespace layout: the brand is still the first token, the model the next one or two, and there is no speed |
| `CpuParser.SpeedTextOfDecimal` | backend/main.py:131 | "<int>,<frac>GHz" and "<int>.<frac>GHz" both give "<int>.<frac>" |
| `CpuParser.SpeedTextOfInteger` | backend/main.py:131 | "<int>GHz" gives "<int>" |
| `ScreenParser.ResMatchAt` | backend/main.py:146 | a match at a position is digits, `x`, digits, with both groups taken from the text |
| `ScreenParser.ResMatchAtComplete` | backend/main.py:146 | any way the resolution pattern matches at a position has the greedy match's first group and a second group no longer than the greedy one |
| `ScreenParser.SearchRes` | backend/main.py:146 | the search returns the leftmost match |
| `ScreenParser.Flag` | backend/main.py:154-156 | the flag is 1 exactly when the word occurs in the upper-cased text |
| `ScreenParser.ExtractScreen` | backend/main.py:141-158 | a missing value gives no resolution and zero flags; flags follow case-insensitive occurrence; a resolution is found exactly when the pattern occurs somewhere |
| `ScreenParser.NoResolutionMeansNoPattern` | backend/main.py:146-152 | when the search fails, the pattern occurs nowhere in the text |
| `ScreenParser.ResolutionRoundTrip` | backend/main.py:141-152 | "<x>x<y>", with no digits before it and no digit after it, reads back as (x, y) |
| `ScreenParser.SearchResFirst` | backend/main.py:146 | with no match between the start and i, the search returns the match at i |
| `ScreenParser.FlagsSurviveContext` | backend/main.py:154-156 | a raised flag stays raised whatever text is added around it |
| `ScreenParser.FlagsIgnoreCase` | backend/main.py:154-156 | upper-casing the text first changes neither flag |
| `Text.Split` | backend/main.py:84 | `split('+')` gives at least one piece and no piece holds the separator |
| `Text.Strip` | backend/main.py:86 | `strip()` is the text between the leading and trailing whitespace runs and neither starts nor ends with whitespace |
| `Text.Words` | backend/main.py:115 | `split()` gives non-empty whitespace-free tokens, and none exactly when the text is blank |
| `Text.Upper` | backend/main.py:98 | `upper()` keeps the length and upper-cases each letter in place |
| `Text.Replace` | backend/main.py:131 | `replace` leaves text without the pattern unchanged |
| `Text.ReplaceChar` | backend/main.py:131 | replacing one character by another rewrites exactly its positions, leaving none |
| `Text.JoinSplit` | backend/main.py:84 | joining the pieces of a split with the separator gives back the text |
| `Text.SplitConcat` | backend/main.py:84 | splitting "a+b" gives the pieces of a followed by the pieces of b |
| `Text.TakeWordOfWord` | backend/main.py:115 | whitespace-splitting reads back a leading word |
| `Text.WordsOfJoin` | backend/main.py:115 | `split()` reads back non-empty space-free tokens joined by single spaces |
| `Text.WordsOfLead` | backend/main.py:115 | leading whitespace of any kind and length does not change `split()` |
| `Text.WordsOfSpaced` | backend/main.py:115 | `split()` reads back the tokens of any whitespace layout: tabs, newlines and runs of whitespace separate them, and padding is ignored |
| `Text.Gaps` | backend/main.py:115 | every text is its `split()` tokens laid out with whitespace gaps, and the inner gaps are non-empty |
| `Text.WordsCharacterised` | backend/main.py:115 | `split()` gives `ws` exactly when `ws` are non-empty whitespace-free tokens and the text is `ws` laid out with whitespace gaps |
| `Text.StripPadded` | backend/main.py:86 | `strip()` removes exactly the whitespace around text that starts and ends with non-whitespace |
| `Text.ReplaceAfter` | backend/main.py:131 | replacing an occurrence preceded by text without the pattern's first character keeps that text and continues after the occurrence |
| `OptionLists.DropUnderscores` | backend/main.py:239 | the underscores `int()` allows between digits are dropped, leaving only digits |
| `OptionLists.PyInt` | backend/main.py:239 | `int()` of blank text fails; text it accepts is, once stripped, an optional sign then digits and underscores ending in a digit; a run of plain digits reads as its decimal value |
| `OptionLists.PyIntRejectsNonIntegers` | backend/main.py:239 | "8.0" and "16 DDR4" are no integers: `int()` raises on them |
| `OptionLists.PyIntRoundTrip` | backend/main.py:239 | `int()` reads back every integer's decimal rendering |
| `OptionLists.CleanRam` | backend/main.py:236-244 | a blank RAM cell never cleans to a number, so filtering blank cells first drops nothing a failed conversion would keep |
| `OptionLists.CleanRamRoundTrip` | backend/main.py:236-241 | "<n>", optional spaces, then GB in any letter case and trailing spaces, cleans to n |
| `OptionLists.OptionList` | backend/main.py:248-255 | each text list is strictly increasing, has no duplicates, and holds exactly the column's values |
| `OptionLists.RamCell` | backend/main.py:244 | a blank RAM cell contributes no value, whether skipped by the filter or failing to clean |
| `OptionLists.Cleaned` | backend/main.py:243-245 | the cleaned values are exactly those produced by some cell |
| `OptionLists.RamOptions` | backend/main.py:243-245 | `rams_gb` is strictly increasing, has no duplicates, and holds exactly the sizes some non-blank cell cleans to |
| `OptionLists.GetOptions` | backend/main.py:213-269 | every list of the `/options` payload is sorted, distinct and exactly its column's values; the RAM list holds the cleaned sizes |
| `OptionLists.OptionListCanonical` | backend/main.py:248-255 | a list depends only on the set of rows, not on their order or repetition |
| `OptionLists.RamOptionsCanonical` | backend/main.py:243-245 | the RAM list depends only on the set of RAM cells |
| `Collections.SortUnique` | backend/main.py:243-255 | the sorted list is increasing and has exactly the input's elements |
| `Collections.IncreasingUnique` | backend/main.py:243-255 | two increasing lists with the same elements are equal |
| `Collections.Dedupe` | frontend/src/app/laptop-compare/page.tsx:471 | de-duplication keeps each distinct option exactly once, in order of first occurrence |
| `Collections.DedupeKeepsDistinct` | frontend/src/app/laptop-compare/page.tsx:471 | a list without duplicates is unchanged |
| `Collections.DedupeIdempotent` | frontend/src/app/laptop-compare/page.tsx:471 | de-duplicating twice is de-duplicating once |
| `JsNumbers.TrimStartJs` | frontend/src/app/laptop-compare/page.tsx:99-105 | only leading ECMAScript whitespace is removed, and the rest starts with non-whitespace |
| `JsNumbers.ParseIntValue` | frontend/src/app/laptop-compare/page.tsx:102 | `parseInt` is not NaN exactly when a digit follows the whitespace and optional sign |
| `JsNumbers.ParseIntOkIsParseFloatOk` | frontend/src/app/laptop-compare/page.tsx:99-105 | whatever `parseInt` reads, `parseFloat` reads too |
| `JsNumbers.ParseIntOfPrefix` | frontend/src/app/laptop-compare/page.tsx:102 | `parseInt` reads `String(n)` back as n whatever non-digit text follows, e.g. "12abc" |
| `JsNumbers.NumbersIgnoreLeadingSpace` | frontend/src/app/laptop-compare/page.tsx:99-105 | leading whitespace changes neither `parseInt` nor `parseFloat` |
| `CompareForm.Set` | frontend/src/app/laptop-compare/page.tsx:86-93 | the written field takes the value and no other field changes |
| `CompareForm.SetLaws` | frontend/src/app/laptop-compare/page.tsx:86-93 | writing back a field's value is a no-op, and the last of two writes wins |
| `CompareForm.HandleChange` | frontend/src/app/laptop-compare/page.tsx:86-93 | exactly one field of one form changes, and nothing else on the page |
| `CompareForm.ValidateForm` | frontend/src/app/laptop-compare/page.tsx:95-109 | no message exactly when all four rules pass; otherwise the message of the first failing rule, never empty |
| `CompareForm.MessagesIdentifyRules` | frontend/src/app/laptop-compare/page.tsx:95-109 | the messages are non-empty and distinct, so a message names its rule |
| `CompareForm.RamRuleAcceptsPrefix` | frontend/src/app/laptop-compare/page.tsx:102 | a RAM value that merely starts with a number passes |
| `CompareForm.SecondIndex` | frontend/src/app/laptop-compare/page.tsx:154-166 | `Math.min(1, n - 1)` is 1 for two or more options, 0 for one, and -1 for none |
| `CompareForm.FirstTruthy` | frontend/src/app/laptop-compare/page.tsx:139-166 | `a \|\| b \|\| ...` is the first truthy candidate, and nothing exactly when all are falsy |
| `CompareForm.At` | frontend/src/app/laptop-compare/page.tsx:139-166 | indexing gives the element inside the list and `undefined` outside it, negative indices included |
| `CompareForm.PickA` | frontend/src/app/laptop-compare/page.tsx:139-152 | Laptop 1 takes element 0 exactly when it is truthy |
| `CompareForm.PickB` | frontend/src/app/laptop-compare/page.tsx:154-166 | Laptop 2 takes element 1 when it is truthy and otherwise falls back to Laptop 1's choice; any choice is an offered option |
| `CompareForm.DefaultA` | frontend/src/app/laptop-compare/page.tsx:140-152 | Laptop 1's company is the first one; a field with no options is empty; every other default is empty or an offered value (a RAM, inches or weight default renders an offered non-zero number) |
| `CompareForm.DefaultB` | frontend/src/app/laptop-compare/page.tsx:154-166 | Laptop 2's company is offered and is the second one when there are two; with at most one option a field gets Laptop 1's default; every default is empty or an offered value |
| `CompareForm.SeedA` | frontend/src/app/laptop-compare/page.tsx:140-152 | every field of Laptop 1's seeded form holds that field's default |
| `CompareForm.SeedB` | frontend/src/app/laptop-compare/page.tsx:154-166 | every field of Laptop 2's seeded form holds that field's default |
| `CompareForm.Seed` | frontend/src/app/laptop-compare/page.tsx:139 | the forms are seeded exactly when there is a company |
| `CompareForm.SeedSecondChoice` | frontend/src/app/laptop-compare/page.tsx:154-166 | with two or more options Laptop 2 takes the second when truthy, and Laptop 1's value otherwise |
| `CompareForm.PriceDiff` | frontend/src/app/laptop-compare/page.tsx:72-77 | the difference exists exactly when both prices do, and is non-negative |
| `CompareForm.Cheaper` | frontend/src/app/laptop-compare/page.tsx:79-84 | the verdict exists exactly when both prices do, and names Laptop 1 or Laptop 2 |
| `CompareForm.PriceComparison` | frontend/src/app/laptop-compare/page.tsx:72-84 | the difference is symmetric; Laptop 1 wins exactly when strictly cheaper; the cheaper price plus the difference is the other; a tie goes to Laptop 2 |
| `CompareForm.ShownError` | frontend/src/app/laptop-compare/page.tsx:199-201 | the shown error is never empty: Laptop 1's message when it has one, else Laptop 2's, else the fallback text |
| `CompareForm.ShownErrorPrefersA` | frontend/src/app/laptop-compare/page.tsx:199-201 | when a form fails, the shown error is Laptop 1's if it fails and Laptop 2's otherwise; the fallback text never shows |
| `CompareForm.BodyOf` | frontend/src/app/laptop-compare/page.tsx:209-235 | the request body carries the RAM as the value `parseInt` reads from the form |
| `CompareForm.Submit` | frontend/src/app/laptop-compare/page.tsx:191-235 | nothing happens without options; a failing form only sets the error; otherwise loading starts, the error and prices are cleared, and the bodies carry the parsed RAM |
| `CompareForm.Complete` | frontend/src/app/laptop-compare/page.tsx:237-273 | loading ends in every case, and only the error and the prices change |
| `CompareForm.PredictRoundAllOrNothing` | frontend/src/app/laptop-compare/page.tsx:191-274 | after a valid round both prices are present exactly when both responses were ok, with no error; otherwise there is an error and no price |
| `CompareForm.PredictErrorQuotesFirstFailure` | frontend/src/app/laptop-compare/page.tsx:258-260 | a failed answer's error quotes Laptop 1's response text when it failed, and otherwise Laptop 2's |
| `OptionsFetch.ThrownBy` | frontend/src/app/laptop-compare/page.tsx:118-131 | an attempt throws exactly when it is not an ok response, and it is an abort exactly on timeout |
| `OptionsFetch.Step` | frontend/src/app/laptop-compare/page.tsx:112-189 | a finished loader ignores outcomes, an unmounted page's display never changes, and the loader's bookkeeping is preserved |
| `OptionsFetch.Apply` | frontend/src/app/laptop-compare/page.tsx:186-188 | every event keeps the loader's bookkeeping, and after unmount the page stays unmounted and its display unchanged |
| `OptionsFetch.Run` | frontend/src/app/laptop-compare/page.tsx:112-189 | after loading has finished no event changes what is shown or recorded; after unmount the page stays unmounted with its display unchanged; attempts only grow |
| `OptionsFetch.RunKeepsInv` | frontend/src/app/laptop-compare/page.tsx:112-189 | over any sequence of events there are at most four attempts, retries are scheduled at 2000·k ms, and nothing shown changes after unmount |
| `OptionsFetch.AlwaysFailing` | frontend/src/app/laptop-compare/page.tsx:168-181 | four failures give three retries after 2, 4 and 6 seconds and then the last failure's message, with no options |
| `OptionsFetch.TimeoutIsTerminal` | frontend/src/app/laptop-compare/page.tsx:168-181 | a timeout stops loading at once with the timeout message, without a retry |
| `OptionsFetch.ServerErrorReported` | frontend/src/app/laptop-compare/page.tsx:127-131 | a non-ok status is retried while retries remain, then reported with the status |
| `OptionsFetch.SuccessShowsOptions` | frontend/src/app/laptop-compare/page.tsx:133-166 | an ok response shows the lists with no error and ends loading; the forms are seeded exactly when there is a company |
| `ChartStatus.OnLoad` | frontend/src/app/visualizations/page.tsx:82-84 | a loaded chart stops loading, its error is untouched, and every other chart is unchanged |
| `ChartStatus.OnError` | frontend/src/app/visualizations/page.tsx:86-89 | a failed chart stops loading and gets the failure message; every other chart is unchanged |
| `ChartStatus.OnRetry` | frontend/src/app/visualizations/page.tsx:149-156 | a retried chart loads again with no error; every other chart is unchanged |
| `ChartStatus.ShowsSpinner` | frontend/src/app/visualizations/page.tsx:134-141 | the spinner shows exactly while a chart is marked loading or has no entry yet |
| `ChartStatus.ShowsError` | frontend/src/app/visualizations/page.tsx:143-162 | the error panel shows only for a chart with a non-empty error message |
| `ChartStatus.ShowsImage` | frontend/src/app/visualizations/page.tsx:143-169 | the image is visible exactly when the chart has finished loading and holds no error message |
| `ChartStatus.EventsOnScreen` | frontend/src/app/visualizations/page.tsx:134-169 | each chart starts with a spinner and no error; a load hides the spinner and shows the image unless an error is up; an error shows the error panel; a retry brings back the spinner |
| `ChartStatus.ScreenIsPerChart` | frontend/src/app/visualizations/page.tsx:134-143 | what a chart shows depends only on its own entries |
| `ChartStatus.RetryAfterError` | frontend/src/app/visualizations/page.tsx:86-89 | retrying after an error leaves the chart loading with no error, whatever it held before |
| `ChartStatus.ApiBase` | frontend/src/app/visualizations/page.tsx:6 | the base URL is never empty and is the environment value when one is set |
| `ChartStatus.ImageUrl` | frontend/src/app/visualizations/page.tsx:165 | the URL starts with base and endpoint, and carries a query exactly when the timestamp is set |
| `ChartStatus.ImageUrlRoundTrip` | frontend/src/app/visualizations/page.tsx:165 | splitting the URL at `?` gives base plus endpoint and `t=<timestamp>`, and the timestamp reads back |
| `ChartStatus.CatalogueIdsDistinct` | frontend/src/app/visualizations/page.tsx:15-70 | chart ids are pairwise distinct |
| `ChartStatus.CatalogueEndpointsFromIds` | frontend/src/app/visualizations/page.tsx:15-70 | each chart's endpoint is `/visualizations/` followed by its id |
| `ChartStatus.CatalogueServed` | frontend/src/app/visualizations/page.tsx:15-70 | every chart's endpoint is a backend chart route, and every chart route has a chart |

## Left out

- `Text.Upper`: upper-casing is ASCII-only. Python's `str.upper` also maps non-ASCII letters.
- **Digits:** only ASCII digits count as `\d` and as digits for `int()`. Python also accepts other Unicode decimal digits.
- **Floating point:** left out throughout:
  - the `float()` conversion of the CPU speed;
  - the `Inches` and `Weight` lists and `clean_weight`;
  - the predicted prices' arithmetic beyond exact reals;
  - `toLocaleString` and the rupiah formatting.
- `JsNumbers.ParseIntValue`: the value is not rounded to a double. It is exact for at most 15 digits.
- `CpuParser.SpeedText`: the contract states only that no comma survives. The full conversions are stated by `CpuParser.SpeedTextOfDecimal` and `CpuParser.SpeedTextOfInteger`.
- `StorageParser.SegmentCredit`: the contract states only that one bucket is touched. Which bucket and how much are stated by `StorageParser.SegmentCreditCases` and `StorageParser.ParseMemoryRoundTrip`.
- `StorageParser.ParseMemory`: the contract covers the missing value and the sum of the buckets. Which bucket each size lands in is stated by `StorageParser.ParseMemoryConcat` and `StorageParser.ParseMemoryRoundTrip`.
- `Text.Replace`: the contract covers only the case without an occurrence. `Text.ReplaceChar` and `Text.ReplaceAfter` state the rewriting.
- **JavaScript float rendering:** `String(x)` is the `showReal` parameter.
- `CompareForm.BodyOf`: inches and weight go out as the field text as typed (for example "15.6abc"), not as the float `parseFloat` reads from it (15.6).
- `OptionLists.RamOptions`: NaN is not modelled.
  - A cell that fails to clean is left out before sorting.
  - In the source, such a cell becomes a NaN in the set. `sorted` with a NaN present need not order the integers around it. Only the NaN itself is filtered out afterwards.
- `OptionLists.GetOptions`: text columns are assumed to hold strings. A missing value in such a column would be a float NaN, and mixing it with strings makes `sorted` raise.
- **The `Options` payload of `OptionLists`:** it omits `inches` and `weights` because those are floats. The page's `CompareForm.Options` carries them as reals.
- **JSON decoding failures:** both the `/options` body and the prediction bodies fold into `Errored` or `Failed` with a message. A payload missing a field is not modelled.
- **Time and concurrency:** left out:
  - fetch, `AbortController` timers and real delays. A retry is recorded by its delay.
  - concurrency between the two prediction requests. Their joint outcome is one `PredictOutcome`.
- **Backend inference:** `model.predict`, the DataFrame plumbing of `predict_from_spec`, and the `/` and `/predict` routes are not modelled.
- **Chart rendering:** the matplotlib code behind the nine chart routes. Only their paths are modelled.
- **Presentation:** chart descriptions, JSX layout and styling.
- **Landing page:** `frontend/src/app/page.tsx` is not part of this model.
- **Timestamp effect:** the effect that sets `timestamp` to `Date.now()` is left out. The URL takes the timestamp as a parameter.
- **Form-invalid fallback:** the fallback message "Form tidak valid" is unreachable. `CompareForm.ShownErrorPrefersA` shows this, so the model keeps it only inside `ShownError`.
