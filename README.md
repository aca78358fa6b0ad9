# AI expense tracker backend: a Dafny model

This project models the deterministic logic around the AI calls in the
Python/FastAPI expense-tracker backend. It covers three parts:

- **The category classifier** (`categorize_expense_with_gemini`). The
  model's stripped answer is accepted only when it is one of the fifteen
  fixed categories. Otherwise the lower-cased title is tested against ten
  ordered keyword groups, and the first group that hits decides. Any
  exception yields "Other".
- **The reply parser** (`parse_expense_with_gemini`). It strips the
  reply, removes a code fence, cuts the greedy `{...}` span and decodes
  it. It then checks the three required keys, coerces a string amount and
  normalises a string date, and it says which failures return `None` and
  which exceptions escape.
- **The endpoints of `main.py`**:
  - `/parse_expense`: the draft plus its category, or 422/500;
  - `/add_expense`: defaults, the re-classify-on-"Other" policy, the five
    date branches and a timezone-aware stored date;
  - `/today_expenses` and `/all_expenses`: the UTC day window and the
    per-row loop that rewrites each document in place;
  - `/category_summary`, `/monthly_trends`, `/weekly_trends` and
    `/top_categories`: the formatting loops after aggregation;
  - the `Expense` validators of `models.py`, which `/add_expense` never
    runs.

The model's external collaborators are parameters:

- **The language model** is a `Reply`: the answer text, an exception
  from the call, or a response whose `.text` accessor raises.
- **Library parsers and formatters** are partial functions in a `Library`
  value: `json.loads`, `float(str)`, `datetime.fromisoformat`,
  `isoformat`, `str()`.
- **The clock** is a `DateTime` holding the current UTC wall time.
- **The document store** is left out. The model takes the documents or
  aggregated groups it returns as input, and a flag for whether the
  insert succeeded.

Modules:

- `Wrappers`: `Option`.
- `PyText`: the Python `str` operations used.
- `DateTimes`: Python `datetime` values and the calendar.
- `PyRuntime`: Python values, truthiness, `in`, `float()`, the library and
  the reply.
- `Categorizer`, `ResponseParser`: `gemini_utils.py`.
- `Validators`: `models.py`.
- `Ingestion`, `Listings`, `Summaries`: `main.py`.

The model follows the code except in two places, the defects listed under
"## Findings": the end of the today window, and the failure handler of
the reply parser. There, the code as written is modelled by its own
members (`Listings.TodayWindowAsWritten`, `ResponseParser.ParseReplyAsWritten`,
`Ingestion.ParseEndpointAsWritten`), the corrected behaviour by others, and
the endpoint methods `ResponseParser.ParseExpenseReply`,
`Ingestion.ParseExpense` and `Listings.GetTodayExpenses` run the corrected
one.

The model also keeps three behaviours of the code that a reader of the
endpoint names might not expect:

- **A failed category call.** The code returns "Other" straight from its
  `except` clause (backend/gemini_utils.py:80-82) instead of falling back
  to the keywords, and `Categorizer.FailedCallIsOther` states that.
- **Amounts at ingestion.** `/add_expense` stores zero and negative
  amounts (`Ingestion.NonPositiveAmountIsStored`). Only the `Expense`
  validator rejects them, and that path is kept separate.
- **Identity.** The code has no authentication, and the listings return
  every document.

## Model

| member | source | states |
|---|---|---|
| PyText.Strip | backend/gemini_utils.py:110 | `str.strip()`: the result is a slice of the input with no whitespace at either end |
| PyText.StripSurrounded | backend/gemini_utils.py:110 | stripping text whose ends are not whitespace, padded by whitespace, gives back exactly that text |
| PyText.LStripBy | backend/gemini_utils.py:110 | left strip by a character class: the result is a suffix, every dropped character is in the class, and the first kept one is not |
| PyText.RStripBy | backend/gemini_utils.py:114 | `rstrip("```")`: the result is a prefix, every dropped character is a backtick, and the last kept one is not |
| PyText.LStripByPrefix | backend/gemini_utils.py:110 | a prefix of dropped characters before a text starting with a kept one is removed, and nothing else is |
| PyText.RStripBySuffix | backend/gemini_utils.py:114 | a run of trailing backticks after a text not ending in one is removed, and nothing else is |
| PyText.Lower | backend/gemini_utils.py:56 | `title.lower()` keeps the length and lower-cases each ASCII letter |
| PyText.ContainsIffOccurs | backend/gemini_utils.py:57 | the substring test `word in title_lower` holds exactly when the word occurs at some index |
| PyText.IndexOf | backend/gemini_utils.py:119 | the first `{` of the text, or none when the text has no `{` |
| PyText.LastIndexOf | backend/gemini_utils.py:119 | the last `}` of the text, or none when the text has no `}` |
| PyText.ReplaceCharRemovesAll | backend/gemini_utils.py:144 | `s.replace('Z', ...)` with a replacement without 'Z' leaves no 'Z' |
| PyText.ReplaceCharAbsent | backend/models.py:18 | `replace` of a character the text does not hold returns the text unchanged |
| PyText.NatToString | backend/main.py:235 | the decimal rendering used by the f-string is non-empty and all digits |
| PyText.NatToStringRoundTrip | backend/main.py:235 | reading the decimal rendering back gives the number |
| PyText.NatToStringInjective | backend/main.py:235 | different numbers render differently |
| DateTimes.AttachUtc | backend/main.py:85-86 | the result is aware; an aware value is kept; a naive one gains the UTC offset 0 and nothing else changes |
| DateTimes.DaysInMonth | backend/main.py:121 | every month has 28 to 31 days |
| DateTimes.ReplaceDay | backend/main.py:121 | `replace(day=...)` succeeds exactly when the day lies in the month, and then changes only the day |
| DateTimes.DaysBeforeYearStep | backend/main.py:121 | a year adds 366 days to the ordinal count when it is a leap year and 365 otherwise |
| DateTimes.AddOneDayIsNextDay | backend/main.py:121 | adding a day fails only on 9999-12-31, otherwise it raises the day ordinal by exactly one and keeps the time and offset |
| PyRuntime.FalsyValues | backend/main.py:60 | `bool()` is false exactly on `None`, `False`, zero, and the empty string, list and dict |
| PyRuntime.KeyIn | backend/gemini_utils.py:132 | `key in v` raises exactly on values other than dicts, lists and strings; on a dict it is key membership, on a list element membership, on a string the substring test (occurrence at some index) |
| PyRuntime.ToFloat | backend/main.py:55 | `float()` succeeds on numbers and booleans (1.0 / 0.0), on a string exactly when the string parses, and raises on anything else |
| Categorizer.Classify | backend/gemini_utils.py:24-82 | the classifier always returns one of the fifteen fixed categories, whatever the answer or title |
| Categorizer.ListedAnswerIsKept | backend/gemini_utils.py:49-53 | a stripped answer on the list is returned verbatim |
| Categorizer.OffListAnswerIgnored | backend/gemini_utils.py:52-82 | two off-list answers give the same category; for a string title it is the keyword fallback's; for a non-string title `.lower()` raises and the handler gives "Other" |
| Categorizer.FailedCallIsOther | backend/gemini_utils.py:80-82 | a call that raises, or a reply whose text cannot be read, gives "Other" |
| Categorizer.FirstHitCases | backend/gemini_utils.py:56-78 | the if/elif chain returns the category of the first group that hits, and "Other" when none does |
| Categorizer.FallbackPriority | backend/gemini_utils.py:56-78 | the fallback gives group k's category exactly when group k hits and no earlier group does |
| Categorizer.FallbackOtherIffNoHit | backend/gemini_utils.py:77-78 | the fallback gives "Other" exactly when no keyword of any group occurs in the lower-cased title |
| Categorizer.FallbackInCategories | backend/gemini_utils.py:17-22 | every fallback outcome is a listed category |
| Categorizer.GroupCategoriesDistinct | backend/gemini_utils.py:57-76 | the ten groups name distinct listed categories, none of them "Other" |
| Categorizer.GasIsNeverUtilities | backend/gemini_utils.py:63-68 | a title containing "gas" never yields "Bills & Utilities", and yields "Fuel" when no earlier group hits |
| ResponseParser.CleanResponse | backend/gemini_utils.py:110-121 | reassigning the text step by step ends in the cleaned text: strip, drop a fence and trailing backticks, strip, cut the brace span |
| ResponseParser.BraceSpanIsGreedyMatch | backend/gemini_utils.py:119-121 | when a `}` follows the first `{`, the result runs from that `{` to the last `}`, and no brace pair reaches outside it; otherwise the text is unchanged |
| ResponseParser.UnfenceStripsFence | backend/gemini_utils.py:113-116 | "```json" drops 7 characters, otherwise "```" drops 3, then the trailing backticks go and the rest is stripped |
| ResponseParser.UntaggedFenceIsNotJsonFence | backend/gemini_utils.py:113-115 | a bare fence followed by text not starting with "json" does not take the "```json" branch |
| ResponseParser.StripKeepsFencedReply | backend/gemini_utils.py:110 | the first strip keeps a fenced reply whole |
| ResponseParser.PaddedObject | backend/gemini_utils.py:114-116 | an object with whitespace around it strips to the object |
| ResponseParser.BraceSpanOfObject | backend/gemini_utils.py:119-121 | text from `{` to `}` is its own brace span |
| ResponseParser.FencedObjectUnwraps | backend/gemini_utils.py:110-121 | a fenced object, tagged or not, with whitespace around it, cleans to exactly the object text |
| ResponseParser.ParseExpenseReply | backend/gemini_utils.py:84-156 | corrected: the parser, run in place, returns the draft, `None`, or lets an exception escape, exactly as `ParseReply` says, with a reply whose `.text` raises giving `None` |
| ResponseParser.NormalizeDraftDate | backend/gemini_utils.py:140-148 | only "date" may change: a string date becomes the ISO form of its parse with 'Z' removed, or of the reference time when it does not parse; a non-string date leaves the draft as it is |
| ResponseParser.CheckParsed | backend/gemini_utils.py:132-151 | the key check, amount coercion and date normalisation, updating the dict in place |
| ResponseParser.ParseReplyStages | backend/gemini_utils.py:106-134 | a handled call failure, an empty cleaned text or a decode error gives `None`; otherwise the decoded value decides |
| ResponseParser.DraftHasRequiredKeys | backend/gemini_utils.py:132-138 | every draft holds "title", "amount" and "date" |
| ResponseParser.DraftExactlyWhen | backend/gemini_utils.py:132-138 | a draft comes back exactly when the decoded value is an object with the three keys whose string amount, if any, converts; the date never decides |
| ResponseParser.RaisesExactlyWhen | backend/gemini_utils.py:132-138 | an exception escapes exactly when the decoded value is a number, boolean or null (`in` raises), or a list or string holding all three keys (indexing raises); a list or string missing one of them gives `None` |
| ResponseParser.DraftFieldsFromObject | backend/gemini_utils.py:136-148 | a draft has the object's keys and values, except a string amount becomes its number and a string date becomes the ISO form of its parse or of the reference time |
| ResponseParser.UnreadableReplyEscapesHandler | backend/gemini_utils.py:153-156 | as written, a reply whose `.text` raises lets an exception escape; corrected, it returns `None`; every other reply gets the same outcome either way |
| Validators.ParseDate | backend/models.py:11-22 | `None` and strings become datetimes; any other value is returned unchanged |
| Validators.ParseDateFallbackIsNaive | backend/models.py:13-21 | `None`, or a string that does not parse, becomes the naive current UTC time |
| Validators.ParseDateReadsZuluAsUtc | backend/models.py:15-18 | a string is parsed with every 'Z' turned into "+00:00"; a string without 'Z' is parsed as it is |
| Validators.ValidateAmount | backend/models.py:24-28 | the amount is accepted exactly when positive, and is then unchanged |
| Validators.ValidateCategory | backend/models.py:30-34 | a falsy value (`None`, "", 0, an empty list) becomes "Other"; a truthy value is kept, listed or not |
| Validators.DateField | backend/models.py:8-14 | an absent date stays the default `None`; an explicit `None` becomes the naive current time; a string becomes a datetime; anything else is kept |
| Validators.CategoryField | backend/models.py:9 | an absent category is the default "Other"; a given one goes through the validator |
| Validators.ValidatorsIdempotent | backend/models.py:24-34 | validating an accepted value again changes nothing |
| Ingestion.ParseExpense | backend/main.py:37-47 | corrected: the endpoint, writing the category into the draft in place, answers as `ParseEndpoint` says, over the corrected parser |
| Ingestion.ParseEndpointAsWrittenDiffers | backend/main.py:37-47 | the endpoint over the parser as written gives 500 on a reply whose `.text` raises, where the corrected one gives 422; every other reply gets the same response either way |
| Ingestion.ParseEndpointStatus | backend/main.py:39-41 | 500 exactly when the parser raises, 422 exactly when it returns `None`, success exactly when it returns a draft |
| Ingestion.EndpointBodyExtends | backend/main.py:39-47 | on any parser outcome the endpoint accepts, the body is the draft plus a listed "category" classified from its title, every other field unchanged |
| Ingestion.ParsedBodyExtendsDraft | backend/main.py:44-47 | a success returns the draft's fields unchanged plus "category", a listed category classified from the draft's title |
| Ingestion.FencedObjectIsDraft | backend/gemini_utils.py:110-151 | a fenced object with a title, a date and a numeric amount is returned as decoded, with only its date normalised |
| Ingestion.ReadyObjectIsDraft | backend/gemini_utils.py:132-151 | such an object passes the checks with only its date normalised |
| Ingestion.CoffeeFallsBackToFood | backend/gemini_utils.py:52-58 | the title "Coffee" with an off-list answer is "Food & Dining" |
| Ingestion.CoffeeIsFoodAndDining | backend/main.py:37-47 | `/parse_expense` for a coffee with an off-list category answer returns the object, its date normalised (a string such as "2024-01-01T08:00:00" becomes the ISO form of its parse), plus "Food & Dining" |
| Ingestion.IngestDate | backend/main.py:63-86 | the date `/add_expense` stores is always timezone-aware |
| Ingestion.ParseIngestDate | backend/main.py:63-86 | the date branches, reassigning the date in place, give the specified date |
| Ingestion.IngestDateCases | backend/main.py:63-86 | a string with a 'T' is parsed with 'Z' read as "+00:00"; a non-empty string without one is parsed as midnight UTC of that date; a datetime is kept; a naive result gets UTC; a falsy or absent date, any other value, or an unparsable string becomes the aware current time |
| Ingestion.AddExpense | backend/main.py:49-106 | the endpoint stores the specified document, or fails with 500 when `float()` raises or the insert fails |
| Ingestion.IngestDocShape | backend/main.py:54-94 | the document has exactly title, amount, date and category; the title defaults to ""; the amount is `float()` of the given value or 0; the date is aware; it is built exactly when `float()` succeeds |
| Ingestion.IngestCategoryPolicy | backend/main.py:57-61 | a truthy category other than "Other" is stored verbatim, even off the list; a missing, falsy or explicit "Other" category is replaced by `Classify` of the title (default ""), which is always listed |
| Ingestion.NonPositiveAmountIsStored | backend/main.py:54-55 | a zero or negative amount is stored as given, though the `Expense` validator rejects it |
| Ingestion.FallbackDatesDisagreeOnAwareness | backend/main.py:82 | the `/add_expense` fallback is the aware current UTC time, while `parse_date`'s is the same wall time but naive |
| Ingestion.ParseThenAdd | backend/main.py:49-94 | a parsed body given to `/add_expense` keeps its title, numeric amount and a category other than "Other", and, when the ISO formatter and parser invert each other, its date: an aware one as it is, a naive one with UTC attached |
| Listings.StringifyId | backend/main.py:141-142 | `_id` becomes the string `str()` gives, and nothing else changes |
| Listings.FormatDate | backend/main.py:144-145 | a datetime date becomes its ISO string, and nothing else changes |
| Listings.DefaultCategory | backend/main.py:147-148 | a missing category becomes "Other", and a present one stays |
| Listings.NormalizeOne | backend/main.py:140-148 | one pass over a dict finishes exactly when the row has what it reads, and leaves the normalised row or what it wrote before raising |
| Listings.NormalizeListing | backend/main.py:277-288 | the loop normalises every row, or stops at the first row that raises, with the rows before it normalised and the rows after it untouched |
| Listings.GetTodayExpenses | backend/main.py:115-150 | corrected: the endpoint computes the one-day window `TodayWindow` (fails only on 9999-12-31) and then runs the loop over the rows for that window; no row changes when the window fails |
| Listings.NormalizeRowEffect | backend/main.py:140-148 | a row passes exactly when it has a date (and, on `/all_expenses`, a title and amount); it then gains a category if missing, `_id` is a string, the date is not a datetime, and every other field is unchanged |
| Listings.NormalizeRowIdempotent | backend/main.py:277-285 | when `str()` leaves strings alone, a second pass changes nothing |
| Listings.TodayWindowFailsAtMonthEnd | backend/main.py:118-121 | as written, the window fails exactly when today is the last day of its month |
| Listings.TodayWindowFailsOnJanuary31 | backend/main.py:118-121 | as written, the window fails on 31 January 2024; the corrected window runs to 1 February |
| Listings.TodayWindowIsOneDay | backend/main.py:118-121 | the corrected window runs from UTC midnight of today to the next midnight, one day ordinal later; it exists on every day but 9999-12-31 and agrees with the written one wherever that exists |
| Summaries.CategoryLabel | backend/main.py:165 | a falsy category id becomes "Other"; a truthy one is kept |
| Summaries.FormatCategorySummary | backend/main.py:162-170 | one row per group, in order, with the labelled category and the total and count copied |
| Summaries.FormatWeeklyTrends | backend/main.py:232-240 | one row per group, in order, labelled "Week i+1" with total and count copied |
| Summaries.WeekLabelsDistinct | backend/main.py:235 | different positions get different week labels |
| Summaries.FormatTopCategories | backend/main.py:250-263 | at most five rows, the first five groups of the sorted cursor, each labelled with its total copied |
| Summaries.TopCategoriesAreLargest | backend/main.py:250-261 | with the cursor sorted by total, no group left out has a larger total than a row kept, and the rows kept are in descending order |
| Summaries.FormatMonthlyTrends | backend/main.py:196-210 | one row per group labelled "%b %Y" with total and count copied, or an empty list when some group's year and month make no date |
| Summaries.MonthLabelsDistinct | backend/main.py:199 | different months never share a label |

## Left out

- Network and persistence are not modelled: the Gemini SDK, the prompts, MongoDB (`insert_one`, `find`/`sort`, the aggregation pipelines, `delete_many`), FastAPI routing, CORS, logging, dotenv and async concurrency. The replies, documents and grouped rows they produce are inputs.
- `/summary` and `/clear_expenses` are not modelled. They are one aggregation and one deletion with no logic of their own.
- The `to_list(length=100)` cap is left out, because the rows passed in stand for what the store returns. For `/top_categories`, the cap of five is modelled.
- `json.loads`, `float(str)` and `datetime.fromisoformat` are abstract partial functions (`None` where they raise), and `isoformat` and `str()` are abstract total functions; all are fields of `PyRuntime.Library`. Their grammars are not re-implemented, and their round trips appear only as hypotheses. `strftime("%b %Y")` is rendered concretely by `Summaries.MonthLabel`.
- Floating point is not modelled. Amounts and totals are reals, the int/float distinction is not kept, and NaN and infinities are absent.
- ResponseParser.ParseExpenseReply: runs the corrected failure handler, so a reply whose `.text` raises gives `None` and not an escaping exception; the code as written is `ResponseParser.ParseReplyAsWritten`, and `ResponseParser.UnreadableReplyEscapesHandler` states where the two differ.
- Ingestion.ParseExpense: answers over the corrected parser, 422 where the code as written gives 500; the code as written is `Ingestion.ParseEndpointAsWritten`, and `Ingestion.ParseEndpointAsWrittenDiffers` states where the two differ.
- Listings.GetTodayExpenses: computes the corrected window, one day from today's midnight; the code as written is `Listings.TodayWindowAsWritten`, which fails on the last day of every month (`Listings.TodayWindowFailsAtMonthEnd`) and agrees with the corrected window on every other day (`Listings.TodayWindowIsOneDay`).
- PyText.Lower: lower-cases ASCII letters only. Python's Unicode case mapping, such as the Kelvin sign, is not modelled.
- Summaries.FormatMonthlyTrends: `%b` is taken in the C locale. Years below 1000 are rendered without the zero padding some platforms add.
- The timezone arithmetic of aware datetimes is not modelled. The store's window query, which compares stored dates across offsets, is left to the store, and `GetTodayExpenses` takes its result as input.
- Validators: pydantic's type coercion of the fields (`title: str`, and `amount: float`, which happens before `validate_amount` runs since that validator is not `pre=True`) is not modelled; `ValidateAmount` takes the amount already as a number. The `Expense` model is only the three validators and the field defaults.
- A reply whose `.text` raises is modelled as a whole reply kind. Which SDK responses do this (blocked or empty candidates) is left out.
- Exceptions from `generate_content` are split only into those the parser's `except` clause names and the rest.

## Findings

| source | as written | input that shows it | evidently intended | confidence | as-written member | corrected member |
|---|---|---|---|---|---|---|
| backend/main.py:118-121 | the end of today's window is `replace(day=day + 1)` on today's midnight | any clock reading on the last day of a month, e.g. 2024-01-31 12:00 UTC: day 32 raises `ValueError` and `/today_expenses` fails with 500 | the next midnight, `today_start + timedelta(days=1)` | high, not executed | Listings.TodayWindowFailsOnJanuary31 | Listings.TodayWindowIsOneDay |
| backend/gemini_utils.py:153-156 | the `except` clause logs `response.text` again | a response whose `.text` raises `ValueError` (no valid part): line 107 raises, the handler reads `.text` once more, and the second `ValueError` escapes, so `/parse_expense` gives 500 instead of 422 | the handler returns `None` for any `ValueError` | medium, not executed | ResponseParser.UnreadableReplyEscapesHandler | Ingestion.ParseEndpointStatus |
