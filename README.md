# World Happiness dashboard — a Dafny model of its page logic

The dashboard is a React single-page app over a World Happiness Report API.
It has four views:
- **Home** searches for a country.
- **Rankings** shows every country and year in a filterable table.
- **Factors** shows one year's top ten countries plus a spotlight country.
- **Country** shows one country's rankings and factors across the years.

A **Register** form signs new users up. `App.js` exports `linkParams`, which
turns a page's parameters into a `?country=` suffix.

This project models the logic of those pages and proves what each promises:
- the validation chain each fetch applies to a decoded response, and its
  order of precedence;
- the distinct-years computation and its descending sort;
- the translation between the rankings grid's filter model and the URL;
- the per-year fan-out on the country page and what it collects;
- the chart series, the search decision, the registration rules and the
  `linkParams` suffix.

There is one module per source file:

| module | file | what it holds |
|---|---|---|
| `Common` | common.dfy | Option/Result, rejected-promise reasons, API responses and records, the error/loading/data precedence, number-to-text, the `<select>` read-back |
| `QueryString` | query_string.dfy | the browser's `location.search` and `URLSearchParams` (`get`, `has`), the `?k=v&k=v` text the pages build, and the round trip between them |
| `App` | app.dfy | `linkParams` |
| `Rankings` | rankings.dfy | `getRankings`, `getUniqueYears`, the filter model ↔ URL, and the `RankingsPage` state class |
| `Factors` | factors.dfy | `getFactors`, `getUniqueYears`, the error mapping, `factorData`, and the `FactorsPage` state class |
| `Country` | country.dfy | `getRankings`, `getFactors`, the per-year fan-out, the chart series, `heading1`, and the `CountryPage` state class |
| `Home` | home.dfy | `handleSearch` and the `HomePage` state class |
| `Register` | register.dfy | the email and password rules and the `RegisterForm` state class |

Network, storage and the clock are not part of the model. Each fetch is
replaced by its decoded JSON body, passed in as a value: either the API's
`{error: true, message}` envelope or an array of records. A page that issues
several requests takes a function from request URL to body.
The bearer token read from `localStorage` is a parameter (`None` when no
token is stored). A URL parameter that is absent is `None`. JavaScript's
rendering of such a value inside a template literal, the text "null", is
modelled by `Common.JsText`.
A rejected promise is a `Result.Err`. Calling `.map` on an error envelope
(it is not an array) is the `NotAnArray` error.
State the components keep in React hooks and refs is a class whose methods
update it:
- `RankingsPage`, `FactorsPage` and `CountryPage`;
- `HomePage` and `RegisterForm`.

### Behaviour of the code worth knowing

- **Spotlight failure.** On the Factors page a failed spotlight fetch is
  never reported. Its `.catch(e => { throw e })` rejects a promise that
  nothing waits on (src/Components/Factors.js:91-95).
  `Factors.FactorsPage.Load` keeps the error unset in that case.
- **Top-ten failure.** A failed top-ten fetch is set as it is. Only a failed
  year list goes through the "Invalid country…" mapping
  (src/Components/Factors.js:85-107).
- **Year check.** `getFactors` issues its request first and rejects a blank
  or missing year only in the `.then` that handles the response
  (src/Components/Factors.js:19-24).
- **Empty filter value.** `filterChange` writes `country=` even when the
  filter's value is empty (src/Components/Rankings.js:159-161).
  `Rankings.EncodeFilter` states this.
- **Year tagging.** The country page tags every factors row with the year it
  requested (src/Components/Country.js:126). Only the first row of each
  successful year is pushed into one array, `factorsTemp`, and for a year
  whose list is empty that is `undefined` (src/Components/Country.js:65-69).
- **Register gate.** When the submit reaches `register`, registration is
  attempted when *either* field is valid (`emailError === null || pwdError
  === null`, src/Components/Register.js:38). The browser's own check of the
  `type="email"` field (src/Components/Register.js:61-66) can stop the
  submit earlier. `Register.SubmitFilledForm` states both.

## Model

| member | source | states |
|---|---|---|
| Common.YearsOf | src/Components/Country.js:60-63 | one year per rankings record, in record order |
| Common.JsText | src/Components/Country.js:13 | a present value is inserted as it is, and a missing one as the text "null" |
| Common.ScreenFor | src/Components/Factors.js:243-250 | an error wins over loading, and data is shown only when there is neither an error nor loading (each case as an if-and-only-if) |
| Common.NatToString | src/Components/Country.js:104 | the decimal text of a year is non-empty and consists only of digits |
| Common.NatToStringValue | src/Components/Country.js:104 | the digits of the text denote the number itself |
| Common.NatToStringInjective | src/Components/Country.js:104 | different numbers get different texts |
| Common.IntToString | src/Components/Country.js:104 | the decimal text of any integer is non-empty and consists only of digits and '-' |
| Common.IntToStringSign | src/Components/Country.js:104 | the text starts with '-' exactly when the number is negative |
| Common.IntToStringInjective | src/Components/Country.js:104 | different integers get different texts |
| Common.SelectValue | src/Components/Rankings.js:145 | after `select.value = v` the dropdown reads back `v` when some option has it, and "" when none does |
| Common.YearOptions | src/Components/Rankings.js:84-89 | the dropdown has a blank first option, then one option per year, in year-list order |
| Common.YearOptionsDistinct | src/Components/Rankings.js:84-89 | distinct years give distinct options, none of them the blank one |
| QueryString.ParseSearch | src/Components/Rankings.js:109 | `new URLSearchParams(search)` drops a leading '?' and splits on '&'; an empty search or a bare "?" gives no parameters |
| QueryString.Get | src/Components/Rankings.js:134 | `params.get(key)` is null exactly when no pair has the key; otherwise it is the value of the first pair with that key |
| QueryString.HasIffGet | src/Components/Rankings.js:130-141 | `params.has(key)` holds exactly when `params.get(key)` is not null |
| QueryString.SearchOf | src/Components/Rankings.js:109 | `location.search` is empty or starts with '?', and never contains the fragment |
| QueryString.RenderRoundTrip | src/Components/Rankings.js:156-171 | pushing `path + "?k1=v1&k2=v2…"` and reading `location.search` back gives exactly those pairs, in order (clean keys and values) |
| QueryString.NoQueryNoParams | src/Components/Rankings.js:170 | a URL without '?' leaves `location.search` empty and no parameters |
| App.LinkParams | src/App.js:15-17 | the link suffix is "" exactly when `country` is absent; otherwise it is "?country=" followed by the raw value |
| App.LinkParamsOnlyCountry | src/App.js:16 | pages that agree on `country` get the same suffix, whatever their other keys (such as `year`) |
| App.LinkParamsShape | src/App.js:16 | the suffix is empty or starts with "?country=" |
| App.LinkParamsRoundTrip | src/App.js:16 | following a link ending in the suffix lands on a page whose only parameter is the same `country` value |
| Rankings.GetRankings | src/Components/Rankings.js:13-30 | an empty array rejects with "Rankings not found", and an envelope fails in `.map`. Otherwise the result has the same length and order, with rank, country, score and year copied (all as if-and-only-ifs) |
| Rankings.AppendNew | src/Components/Rankings.js:64-71 | the push loop's result, one ranking at a time: a year not yet in the list is appended (its properties are the three lemmas below) |
| Rankings.AppendNewMembers | src/Components/Rankings.js:64-71 | after the push loop a year is present exactly when it was already there or occurs in `rankingsIn` |
| Rankings.AppendNewDistinct | src/Components/Rankings.js:66-69 | a year already included is never pushed again, so a duplicate-free list stays duplicate-free |
| Rankings.AppendNewExtends | src/Components/Rankings.js:67-68 | the push loop keeps the existing entries in place and only appends |
| Rankings.DistinctCounts | src/Components/Rankings.js:66-69 | a list has no duplicates exactly when no value occurs twice in it |
| Rankings.SortDescending | src/Components/Rankings.js:74 | `sort((a, b) => b - a)` gives a descending permutation of its input |
| Rankings.DecodeFilter | src/Components/Rankings.js:129-142 | a `country` entry exists iff the URL has `country`, and it is text-"contains" of `params.get("country")`. A `year` entry exists iff the URL has `year`, and it is number-"equals" of `params.get("year")` |
| Rankings.EncodeFilter | src/Components/Rankings.js:156-171 | no filter gives "/Rankings". Otherwise the query is `country=` first, then `&` only between two parameters, then `year=`, in each of the four cases |
| Rankings.RenderFilterParams | src/Components/Rankings.js:156-171 | the query of a non-empty filter model is `?country=v`, `?year=v` or `?country=v&year=w` |
| Rankings.DecodeFilterParams | src/Components/Rankings.js:129-142 | the parameters of a filter model decode to that model's canonical entries |
| Rankings.FilterRoundTrip | src/Components/Rankings.js:153-171 | decoding the URL `filterChange` pushes gives back the same country and year filter values |
| Rankings.DecodeEncodeFixpoint | src/Components/Rankings.js:124-171 | after `gridReady`, the URL `filterChange` pushes decodes to the filter model `gridReady` set |
| Rankings.RankingsPage.constructor | src/Components/Rankings.js:101-104 | the page starts loading, with no rankings, no error, no years, no filters and a blank dropdown |
| Rankings.RankingsPage.Load | src/Components/Rankings.js:39-53 | success fills the rankings and failure sets the error; loading ends either way |
| Rankings.RankingsPage.GetUniqueYears | src/Components/Rankings.js:62-75 | the years end up descending and are exactly the old ones plus those in `rankingsIn`; no duplicate is added; the result is a permutation of what the push loop built |
| Rankings.RankingsPage.Render | src/Components/Rankings.js:119-120 | the years are computed only while the list is empty and rankings exist, and are then distinct, descending and exactly the ranked years; the error wins over loading |
| Rankings.RankingsPage.GridReady | src/Components/Rankings.js:124-150 | the filter model becomes the decoded URL; a `year` parameter selects that year in the dropdown |
| Rankings.RankingsPage.FilterChange | src/Components/Rankings.js:153-172 | the URL built by appending pieces equals `EncodeFilter` of the current filter model |
| Rankings.RankingsPage.ResetFilters | src/Components/Rankings.js:175-179 | there are no filters and the dropdown is blank |
| Rankings.RankingsPage.YearChange | src/Components/Rankings.js:182-191 | the dropdown reads back the picked value; the year entry becomes number-"equals" of it, and the country entry is unchanged |
| Factors.GetFactors | src/Components/Factors.js:12-49 | a blank or missing year is rejected first, then an empty token, then the envelope's message; otherwise every row is kept, same length and order (success as an if-and-only-if) |
| Factors.GetYearList | src/Components/Factors.js:52-68 | an empty array rejects with "Invalid country", and an envelope fails in `.map`; otherwise one year per record, in order, duplicates kept |
| Factors.MapYearsError | src/Components/Factors.js:99-107 | an empty or missing country, or the "Invalid country" error, becomes the "select a country" hint; any other error is kept |
| Factors.UnknownCountryHint | src/Components/Factors.js:52-107 | an empty year list reaches the user as the "select a country" hint, whatever the country |
| Factors.FactorData | src/Components/Factors.js:152-177 | the labels are the top countries followed by the spotlight rows; data and labels have equal length; position by position they come from the same record |
| Factors.SpotlightIsLast | src/Components/Factors.js:156-167 | one spotlight row adds exactly one entry, after all the top entries |
| Factors.FactorsLink | src/Components/Factors.js:212 | the link is "/Factors" followed by the query of `country` and then `year` |
| Factors.FactorsLinkRoundTrip | src/Components/Factors.js:212 | the page reached by the link reads back the same country and year |
| Factors.FactorsPage.constructor | src/Components/Factors.js:125-127 | country and year are the URL's parameters; the page starts loading with nothing fetched |
| Factors.FactorsPage.Load | src/Components/Factors.js:70-114 | requests go out in order: years, top ten, then the spotlight unless the country is "". A years failure is mapped; a top-ten failure is set as it is; a spotlight failure leaves everything unchanged |
| Factors.FactorsPage.Render | src/Components/Factors.js:243-250 | the error wins over loading, and data is shown only with neither |
| Factors.FactorsPage.YearChange | src/Components/Factors.js:207-214 | a blank choice does nothing; any other navigates to the same country in that year |
| Factors.FactorsPage.ResetFilters | src/Components/Factors.js:217-221 | the dropdown selects the first listed year (blank when there is none) and the page navigates to it |
| Factors.FactorsPage.SetupParams | src/Components/Factors.js:224-227 | the dropdown selects the URL's year if listed, and the page navigates to what it reads back |
| Country.GetRankings | src/Components/Country.js:12-39 | the empty country is refused whatever the response; then the envelope's message, then "Country not found" for an empty array; otherwise the records are kept in order |
| Country.GetFactors | src/Components/Country.js:97-130 | an empty token is refused before the envelope is looked at; every row carries the requested year and the response's six factors |
| Country.First | src/Components/Country.js:69 | `factorsIn[0]` is undefined exactly when the year came back empty |
| Country.FactorsUrls | src/Components/Country.js:67-68 | the requests the fan-out issues: one per ranked year, so as many as there are years |
| Country.FactorsUrlsAt | src/Components/Country.js:67-68 | one request per ranked year, in ranking order: the `k`-th request is the one for the `k`-th year |
| Country.FactorsUrlInjective | src/Components/Country.js:104 | different years are asked for with different request URLs |
| Country.Answers | src/Components/Country.js:67-68 | one answer per ranked year, in ranking order, each the outcome of that year's request |
| Country.Collected | src/Components/Country.js:65-69 | `factorsTemp` after every answer: each successful year appends its first row (undefined for an empty year), a failing year appends nothing |
| Country.LastFailure | src/Components/Country.js:70-73 | `errorFactors` after every answer: each failure replaces the error before it, and a success leaves it unchanged |
| Country.CollectedMembers | src/Components/Country.js:65-69 | a row is collected exactly when some year succeeded with it as its first row (undefined for an empty year), so a failing year takes nothing from the others |
| Country.CollectedTagged | src/Components/Country.js:67-69 | every collected row carries one of the requested years, and there are no more rows than years |
| Country.SucceededYearCollected | src/Components/Country.js:67-69 | a year answered with rows contributes its first row, tagged with that year |
| Country.LastFailureIff | src/Components/Country.js:70-72 | the factors error is set exactly when some year failed, and it is then one of those years' errors |
| Country.PartialFailure | src/Components/Country.js:65-78 | a failing year followed by a succeeding one leaves the failure's error set and the succeeding year's row collected |
| Country.Reverse | src/Components/Country.js:173 | `.reverse()` puts element `i` at position `n-1-i` |
| Country.Insert | src/Components/Country.js:168 | inserting into an ascending list keeps it ascending and adds exactly that element |
| Country.SortAscending | src/Components/Country.js:166-168 | `sort((a, b) => a - b)` gives an ascending permutation |
| Country.AscendingUnique | src/Components/Country.js:166-168 | an ascending order of a collection is unique |
| Country.RankingSeries | src/Components/Country.js:165-182 | the labels are the years ascending; the values are the scores in reverse arrival order; both have the length of the rankings |
| Country.ReverseDescending | src/Components/Country.js:166-173 | years that strictly fall become ascending once reversed |
| Country.RankingSeriesAligned | src/Components/Country.js:166-173 | when the rankings arrive newest year first, each label and value come from the same record |
| Country.RankingSeriesMisaligned | src/Components/Country.js:166-173 | when they arrive oldest year first, the first label is the oldest year but the first value is the newest score |
| Country.FactorSeries | src/Components/Country.js:185-206 | there is no chart when a row is undefined; otherwise the labels are the years ascending and the values are in reverse collection order |
| Country.Heading | src/Components/Country.js:157-162 | the first record's country once rankings exist; otherwise "Searching for …" for a non-empty parameter and "Invalid country" otherwise |
| Country.HeadingAfterLoad | src/Components/Country.js:157-162 | after a successful load the heading is the first record's country; the empty country keeps "Invalid country" |
| Country.CountryPage.constructor | src/Components/Country.js:43-49 | both halves start loading with nothing fetched |
| Country.CountryPage.Receive | src/Components/Country.js:69-75 | a success appends the year's first row, a failure sets the factors error, and either way the factors stop loading |
| Country.CountryPage.FanOut | src/Components/Country.js:64-78 | one request per year in order; the rows are those `Collected` from the answers, the error is the last failure (or stays as it was), and the factors stop loading when any year answered |
| Country.CountryPage.Load | src/Components/Country.js:52-89 | a rankings failure sets only `error`; success stores the rankings and runs the fan-out over their years |
| Country.CountryPage.HandleLoad | src/Components/Country.js:217 | the factors table shows the rows collected so far |
| Country.CountryPage.RenderRankings | src/Components/Country.js:222-230 | the rankings error wins over rankings loading |
| Country.CountryPage.RenderFactors | src/Components/Country.js:254-261 | the factors error wins over factors loading |
| Home.LowerChar | src/Components/Home.js:49 | letters A-Z become a-z, other characters are unchanged, and no capital letter remains |
| Home.Lower | src/Components/Home.js:49 | lowercasing keeps the length and works character by character |
| Home.LowerAll | src/Components/Home.js:50 | the country list is lowercased element by element, in the same order |
| Home.LowerIdempotent | src/Components/Home.js:49-50 | lowercasing twice is lowercasing once |
| Home.Contains | src/Components/Home.js:58-59 | the search pattern matches exactly when the input occurs in the name; it needs a name at least as long as the input, and the empty input matches every name |
| Home.FirstContaining | src/Components/Home.js:58-59 | `find` gives the first country, in list order, that contains the input, and nothing exactly when none does |
| Home.Search | src/Components/Home.js:46-68 | it navigates iff the lowercased input is a lowercased country, to "/Country?country=" plus the lowercased input; otherwise it fills in the first containing country, or alerts |
| Home.AlertIff | src/Components/Home.js:58-66 | the alert is shown exactly when no country contains the input, case aside |
| Home.SearchIgnoresCase | src/Components/Home.js:49-50 | inputs or country lists that agree once lowercased give the same outcome |
| Home.AutofillThenSubmit | src/Components/Home.js:53-63 | submitting again after an autofill navigates to that country |
| Home.NavigateRoundTrip | src/Components/Home.js:53-54 | the country page reads back the lowercased input as its `country` parameter |
| Home.HomePage.constructor | src/Components/Home.js:8-10 | the page starts loading with no countries and an empty search box |
| Home.HomePage.Load | src/Components/Home.js:12-30 | the countries are kept in the API's order, or the error is set; loading ends either way |
| Home.HomePage.Type | src/Components/Home.js:86 | the search box holds the typed text |
| Home.HomePage.HandleSearch | src/Components/Home.js:46-68 | navigation pushes the URL, an autofill replaces the box's text, and an alert is recorded; nothing else changes |
| Register.EmailValid | src/Components/Register.js:20 | the unanchored `/.+@.+[.].+/` test; a passing address has an '@', a '.' and at least five characters |
| Register.PasswordValid | src/Components/Register.js:29 | `value.length >= 6` in code units plus a digit; six characters with a digit always pass, and a passing password has at least three characters |
| Register.EmailValidOneLine | src/Components/Register.js:20 | on one line, an email is valid iff it has an '@' with a character before it, then a '.' with a character between them and one after it |
| Register.ExampleEmailAccepted | src/Components/Register.js:7 | "example@email.abc" is accepted |
| Register.MalformedEmailsRefused | src/Components/Register.js:20 | "a@.c", "a@b." and an address with a line break between '@' and '.' are refused |
| Register.RegisterForm.constructor | src/Components/Register.js:11-13 | both fields start out flagged invalid, with no registration message |
| Register.RegisterForm.EmailChange | src/Components/Register.js:18-25 | the email error is cleared iff the email is valid; nothing else changes |
| Register.RegisterForm.PasswordChange | src/Components/Register.js:27-34 | the password error is cleared iff the password is at least 6 UTF-16 code units long and has a digit; nothing else changes |
| Register.Utf16Length | src/Components/Register.js:29 | `value.length` counts at least one and at most two code units per character |
| Register.Utf16LengthBmp | src/Components/Register.js:29 | text without characters beyond U+FFFF has one code unit per character |
| Register.PasswordExamples | src/Components/Register.js:29 | "abcde1" passes; "abcd1" and "abcdef" fail; three emoji and a digit pass, since each emoji is two code units |
| Register.RegisterForm.Register | src/Components/Register.js:36-54 | the request is sent iff either error is clear; the server's message is shown; the login page opens iff `error` is not `true` |
| Register.SubmitFilledForm | src/Components/Register.js:18-66 | on a fresh form, the request goes out iff the browser lets the submit through and the email or the password is valid; the login page opens iff it went out and the server reported no error |

## Left out

- Fetching, JSON parsing, `localStorage`, `window.location.reload` and `alert`. Bodies, the token and the countries response are parameters. The Home page records its alerts and history pushes in its state, and the Register form its history pushes. On the Rankings and Factors pages, the handlers that navigate (`RankingsPage.FilterChange` and the `FactorsPage` handlers) return the URL they push instead.
- React scheduling: re-renders, effect dependencies, the moment each `setState` lands, and cancelling superseded requests. Each load is modelled as a completed run, in the order its requests are issued.
- Country.CountryPage.Load: rows are collected in the order the years' requests were issued. The code appends each row when its response arrives, so with reordered responses the order of `factors` may differ. The year inside each row is exact either way.
- Factors.FactorsPage.Load: `loading` is cleared once the whole chain has run. In the code it is cleared as soon as the year list has been handled, before the top ten arrive.
- `parseInt` and `parseFloat` on years and scores: the records hold numbers already.
- Percent-decoding and '+'-decoding in `URLSearchParams`. The round-trip lemmas require values without '&', '#', '%' or '+'.
- Regular-expression metacharacters in the search text (src/Components/Home.js:58): the input is matched as literal text.
- Home.LowerChar, Home.Lower: only A-Z are lowercased, not the full Unicode case mapping of `toLowerCase`.
- Rendering: JSX markup, chart colours, dataset captions (`capitalisedType`), grid column definitions and pagination.
- The grid's own sorting and filtering, and the wiring of `onFilterChanged` and `onGridReady`. The filter model the grid holds is a field.
- The "Go to Rankings" and "Go to Factors" links and the "Check how … fairs" caption on the country and factors pages: fixed string templates.
- Country.FactorSeries: an undefined row makes the chart throw while rendering. The model gives no chart, and does not model the resulting React error.
- src/Components/Login.js and src/Components/NavBar.js are not part of this model. Login stores the token and reloads. NavBar appends "?" and the whole current query string (every parameter, re-serialised by `URLSearchParams.toString`) to each of its fixed paths; it does not call `linkParams`, and no component in these sources does.
- Register.SubmitFilledForm: the browser's `type="email"` validation of the email field is not modelled; its verdict is the `browserAccepts` parameter, and the model starts at the `register` handler when that verdict lets the submit through.
