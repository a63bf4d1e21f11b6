# FX tracker: the decisions behind the converter, in Dafny

FX tracker is a command-line exchange-rate calculator. It asks for a base currency, a target currency, a date and an amount. It converts the amount at that date's rate, and it draws the rate's history from 2000 to 2024 as an ASCII chart. The chart carries a step "baseline" that switches at the half-year of the query date. Almost all of the program is network and console work. This project models the three pieces of real logic in `FXproject.py`:

1. **Input acceptance** (`validation.dfy`, `dates.dfy`). These are the decisions of the three prompts, without the `input()`/`print` loops:
   - A currency entry is accepted when its upper-cased form is a key of the supported-currency map.
   - A date entry must have 10 characters and must parse as `%Y-%m-%d`. It must not be after today or before 2000-01-01.
   - An amount is kept when it is positive. Anything else becomes 1.

   `strptime` is modelled on CPython's own directive patterns:
   - `%Y` is four digits.
   - `%m` is `1[0-2]|0[1-9]|[1-9]`.
   - `%d` is `3[01]|[12]\d|0[1-9]|[1-9]| [1-9]`.
   - The date must exist in the calendar.

   Because of the length-10 guard, an accepted entry is always laid out `YYYY-MM-DD`. The day may be written as a space and a digit (`"2020-01- 5"`), and the model keeps that quirk.
2. **The annual series** (`annual_series.dfy`). `get_annual_exchange_rate_data` is a loop over the years 2000 to 2024. For each year it requests 1 January and then 1 July. It appends a rate only when the request returned status 200 with a truthy rate. The network becomes an oracle `fetch` from the requested date string to one of four outcomes: `Ok(rate)`, `BadStatus`, `Missing` or `Raise`. The method `GetAnnualExchangeRateData` keeps the loop. It is proved against a reference function, `AnnualRates`, which filters the 50 scheduled responses. The lemmas about that filter state the ordering, the filtering, the length bound, the `None` cases and the one-to-one alignment of a complete series.
3. **The baseline** (`plot.dfy`). `generate_annual_plot` does three things before it draws:
   - It rejects an empty or odd-length rate list.
   - It finds the query year with `years.index`.
   - It computes `data_index = 2 * year_index (+1 for July to December)`, then builds `[rates[0]] * k + [rates[k]] * (n - k)`.

   The model works on a generic element type and makes each failure an explicit error: the early return, the `ValueError` of `years.index`, the `ValueError` of `strptime`, and the `IndexError` of `rates[k]`.

`session.dfy` connects the three pieces as `main` does:
- If the current year is at most 2024, an accepted date and a full 50-entry series always give a baseline.
- With a full series, the baseline level after the split is exactly the rate sampled at the start of the query date's half-year.
- From 2025 on, the date prompt accepts dates that `years.index` rejects, so the plot raises. `DateIn2025Accepted` shows such an entry.
- A series shortened by failed requests is misaligned with the year/month index. With year 2000 missing, position `k` holds the sample from one year later, and a query in the second half of 2024 reaches past the end of the list.

Where the description of the program and its code differ, the model follows the code:
- No check requires a currency code to have three letters. Only membership in the map counts.
- The date validator accepts a space-padded day.
- The month test in the plot is `7 <= month <= 12`. This is the same as `month >= 7` for a parsed date.

## Model

| member | source | states |
|---|---|---|
| `Validation.UpperChar` | FXproject.py:34 | a lower-case ASCII letter becomes its upper-case letter (32 code points lower); every other character is unchanged; no lower-case letter remains |
| `Validation.Upper` | FXproject.py:34 | upper-casing keeps the length and maps every character to its upper-case form |
| `Validation.AcceptCurrency` | FXproject.py:34-36 | an entry is accepted iff its upper-cased form is a supported key; the returned code is exactly the upper-cased entry, a key of the map |
| `Validation.UpperFixesUpper` | FXproject.py:34-36 | an upper-case code is left unchanged by `upper()` |
| `Validation.SupportedCodeAccepted` | FXproject.py:34-36 | a supported upper-case code typed in any mix of cases is returned as the code itself |
| `Validation.AcceptedCurrencyStable` | FXproject.py:34-36 | an accepted code is accepted again, unchanged |
| `Validation.CheckDate` | FXproject.py:44-53 | a wrong length is rejected first; an entry is accepted iff it has 10 characters, parses, and its day lies between 2000-01-01 and today; the accepted entry is returned as typed |
| `Validation.AcceptedDateInWindow` | FXproject.py:46-53 | an accepted entry is laid out `YYYY-MM-DD`, is a real calendar day, and its year lies between 2000 and the current year |
| `Validation.ValidAmount` | FXproject.py:59-71 | the result is always positive; a positive parsed value is returned unchanged; zero, a negative value or a parse failure gives exactly 1 |
| `Validation.AmountTestCases` | test_project.py:18-27 | 100, 200.5 and 4.574 are kept; -1, 0 and unparsable text give 1 |
| `Validation.ValidAmountIdempotent` | FXproject.py:65-71 | feeding a returned amount back returns it again |
| `Dates.IsCalendarDate` | FXproject.py:48 | the dates `datetime` accepts: a day is at most 31, February has at most 29 days, and 29 February exists only in leap years |
| `Dates.Before` | FXproject.py:49-51 | the `>` and `<` of two midnights: an earlier day is a different day in the same or an earlier year |
| `Dates.BeforeStrictTotal` | FXproject.py:49-51 | of two days at most one comes before the other, and if neither does they are the same day |
| `Dates.DaysInMonth` | FXproject.py:48 | months have 28 to 31 days, and 29 only in a leap-year February |
| `Dates.ParseYear` | FXproject.py:48 | `%Y` accepts exactly four digits, giving a year of 0 to 9999 |
| `Dates.ParseMonth` | FXproject.py:48 | `%m` accepts a single digit 1 to 9, or two digits whose value is 1 to 12, and gives that value; any other token fails |
| `Dates.ParseDay` | FXproject.py:48 | `%d` accepts a single digit 1 to 9, two digits whose value is 1 to 31, or a space and a digit 1 to 9, and gives that value; any other token fails |
| `Dates.Fields` | FXproject.py:48 | the date is present iff the three fields parse and form a real calendar day, and it is then built from the three parsed values |
| `Dates.ParseIso` | FXproject.py:48 | `strptime(s, "%Y-%m-%d")` succeeds only on 8 to 10 characters with `-` at position 4, giving a calendar date; a 10-character text with `-` at positions 4 and 7 is read as the fields around them |
| `Dates.TwoDigits` | FXproject.py:79 | the two-digit zero-padded text of a number below 100 spells that number |
| `Dates.IsoText` | FXproject.py:46-48 | a date written `YYYY-MM-DD` has 10 characters with `-` at positions 4 and 7 |
| `Dates.MonthRoundTrip` | FXproject.py:48 | every zero-padded month 01 to 12 parses back to itself |
| `Dates.DayRoundTrip` | FXproject.py:48 | every zero-padded day 01 to 31 parses back to itself |
| `Dates.IsoRoundTrip` | FXproject.py:48 | every calendar date with a four-digit year, written `YYYY-MM-DD`, parses back to that date |
| `Dates.TenCharacterLayout` | FXproject.py:46-48 | a 10-character entry that parses has four digits, `-` at positions 4 and 7, a two-character month and a two-character day |
| `Dates.YearText` | FXproject.py:79 | `f"{year}"` of a four-digit year is four characters that parse back to the year |
| `AnnualSeries.SampleDate` | FXproject.py:79-89 | the requested date strings `YYYY-01-01` and `YYYY-07-01` have 10 characters |
| `AnnualSeries.SampleDateParses` | FXproject.py:79-89 | each requested date string parses to 1 January or 1 July of its year |
| `AnnualSeries.Responses` | FXproject.py:77-89 | the loop makes 50 requests |
| `AnnualSeries.Kept` | FXproject.py:81-84 | only a status-200 response with a rate can be kept, and a zero rate is never kept |
| `AnnualSeries.Contribution` | FXproject.py:81-85 | a response adds nothing unless it carries a non-zero rate, and then adds exactly that rate |
| `AnnualSeries.KeptRates` | FXproject.py:75-94 | the collected list is no longer than the responses and holds no zero rate |
| `AnnualSeries.AnnualRates` | FXproject.py:96-100 | the result is present iff no request raised and at least one rate was kept; a present result holds 1 to 50 rates |
| `AnnualSeries.KeptRatesAppend` | FXproject.py:77-94 | collecting over two stretches of requests concatenates what each collects |
| `AnnualSeries.KeptRatesEmpty` | FXproject.py:96 | nothing is collected exactly when no response is kept |
| `AnnualSeries.KeptRatesFromResponses` | FXproject.py:81-94 | every collected rate is the rate of a kept response at or after its own position |
| `AnnualSeries.AllKeptAligned` | FXproject.py:77-94 | when every request succeeds, entry `i` of the series is the rate of request `i` |
| `AnnualSeries.FullLengthMeansAllKept` | FXproject.py:77-94 | a series as long as the schedule means every request succeeded |
| `AnnualSeries.MoreSuccessesNoShorter` | FXproject.py:81-94 | more successful requests never give a shorter series |
| `AnnualSeries.ScheduleChronological` | FXproject.py:77-89 | the requests go in strictly increasing date order, January before July within a year |
| `AnnualSeries.ResponsesOfYear` | FXproject.py:77-89 | a year's January and July requests are at positions `2*(year-2000)` and the next one |
| `AnnualSeries.PrefixStep` | FXproject.py:77-94 | one loop iteration extends the list by what the year's two responses contribute, and raises iff one of them raised |
| `AnnualSeries.GetAnnualExchangeRateData` | FXproject.py:73-100 | the loop returns the kept rates in request order, `None` if any request raised (the partial list is dropped), and `None` if nothing was kept |
| `Plot.Years` | FXproject.py:127 | `years` is the 25 years 2000 to 2024 in order |
| `Plot.IndexOf` | FXproject.py:130 | `list.index` gives the first position holding the value, and fails iff the value is absent |
| `Plot.SplitIndex` | FXproject.py:127-135 | the split index is `2*(year-2000)`, plus 1 for July to December; a year outside 2000 to 2024 is `YearNotListed`; a listed year with an unparsable date is `DateUnparsable`; the index is below 50 |
| `Plot.Repeat` | FXproject.py:138 | `[x] * n` has `max(n, 0)` entries, all `x` |
| `Plot.Baseline` | FXproject.py:116-138 | empty or odd-length rates give `NoValidRates`; split-index errors are passed on; a split index at or past the end of the list is `IndexOutOfRange`; the baseline exists iff the split index is within the list, and then it is as long as the rates, `rates[0]` before the split and `rates[k]` from the split on |
| `Plot.FullSeriesBaselineBuilt` | FXproject.py:127-138 | with 50 rates, every listed year and parsable date give a baseline |
| `Plot.BaselineJuly2010` | FXproject.py:127-138 | for 2010-07-01 the split index is 21 and the baseline is 21 copies of `rates[0]` followed by 29 copies of `rates[21]` |
| `Session.AcceptedDateBaselineBuilt` | FXproject.py:156-175 | while the current year is at most 2024, an accepted date and a full series always give a baseline |
| `Session.AcceptedDateAfter2024Fails` | FXproject.py:49-53 | an accepted date in 2025 or later makes the plot fail at `years.index`, for any non-empty, even-length series |
| `Session.DateIn2025Accepted` | FXproject.py:46-53 | on 1 March 2025 the prompt accepts "2025-03-01" |
| `Session.FullSeriesBaselineAligned` | FXproject.py:127-138 | with a full series, the baseline is the 2000-01-01 rate before the split and the rate fetched for the query date's half-year from the split on |
| `Session.FirstYearGapShiftsSeries` | FXproject.py:77-96 | if only year 2000's requests fail, the series has 48 entries and entry `j` comes from request `j + 2` |
| `Session.ShortSeriesLateQueryFails` | FXproject.py:138 | a 48-entry series with a query in the second half of 2024 fails with an out-of-range index |

## Left out

- The HTTP requests to the rate service (`get_supported_currencies`, the requests inside the annual loop, `get_day_rate`): network I/O. In the annual loop each request is an oracle from the date string to its outcome. `get_day_rate` is a single request with a status check and holds no further logic.
- `AnnualSeries.GetAnnualExchangeRateData`: the oracle is a pure function of the date string. A service that answers the same date differently within one run is not modelled. The printed diagnostics are not modelled either. The base and target currencies are fixed for a run and are folded into the oracle.
- `AnnualSeries.Fetched`: rates are real numbers. A JSON rate that is truthy but not a number, or a float NaN or infinity, is not modelled. A response body that is not a mapping makes `.get` raise, and that case is covered by `Raise`.
- The banner, the module-level prints and the ASCII chart drawing (`text2art`, `asciichartpy`): console output from foreign libraries. The model stops at the two series the chart is given.
- The `input()`/`print` retry loops of the three prompts: only each pass's acceptance decision is modelled.
- `Validation.CheckDate`: `datetime.now()` is the parameter `today`, a calendar date. A parsed date is a midnight, so it is later than the current moment exactly when its day is after today.
- `Validation.Upper`: only ASCII letters are case-mapped. Python's `str.upper` also maps other scripts and can change a string's length (`"ß"` becomes `"SS"`).
- `Dates.ParseIso`: only ASCII digits are read as digits. Python's `\d` in `strptime` also matches other Unicode decimal digits.
- `Validation.ValidAmount`: `float()` parsing is given as its result, `Some(value)` or `None` for a `ValueError`. A `TypeError` from a non-string, non-number argument is not caught by the source and is not modelled. Floating-point rounding is not modelled. Neither is NaN (`float("nan")` gives 1, since `nan > 0` is false) or infinity (`float("inf")` is returned as infinity): `real` has neither value.
- The conversion `amount * day_rate` and its formatting, and the `main` sequencing: float arithmetic and printing. The lemmas in `session.dfy` state how `main` joins the validated date, the series and the plot.
- The `CurrencyConverter` object: its one field, the supported-currency map, is set once by the constructor and only read afterwards. It is passed to `AcceptCurrency` as a parameter.
