# COVID-19 timeseries reconciliation, modelled in Dafny

The system builds one reconciled COVID-19 timeseries from three sources and serves it over HTTP:

- a wide table of cumulative confirmed cases, with one row per date and one column per country label;
- the same shape of table for cumulative deaths;
- a long table of vaccination figures.

The ETL side (`frontend/etl`) runs in this order:

1. It resolves free-text country labels to ISO3 codes through an ordered alias table.
2. It normalizes date strings against five fixed formats.
3. It reshapes the wide tables into (date, country, iso3, metric) records.
4. It sorts cases and deaths by (iso3, date) and repairs each code's cumulative series so that it never decreases.
5. It forward-fills the vaccination figures within each code.
6. It outer-joins cases with deaths and left-joins vaccinations on (date, country, iso3).
7. It validates the schema, sorts by (iso3, date) and publishes the table, or returns `False`.

The query side (`frontend/services/api/main.py`) answers four questions over the published table:

- the list of countries;
- a per-date global summary;
- a per-country series over an inclusive date range;
- the covered date range.

The project has one module per component, one file each:

| file | module | models |
|---|---|---|
| `wrappers.dfy` | `Wrappers` | `Option`. NaN and an unresolved label are `None`, and so is a `NaT` date in a record. |
| `text.dfy` | `Text` | `strip`, `lower` and `upper`, substring containment, and string order. |
| `calendar.dfy` | `Calendar` | Calendar dates, their order (with `NaT` last), the (iso3, date) key order, and the `Timestamp` bounds. |
| `date_normalizer.dfy` | `DateNormalizer` | `normalize_date`, with its three outcomes: `None`, `NaT` or a day. |
| `identity_resolver.dfy` | `IdentityResolver` | The three passes of `get_iso3_code`, over any alias table. |
| `iso3_mapping.dfy` | `Iso3Mapping` | `ISO3_COUNTRY_MAPPING`, and `get_iso3_code` over it. |
| `monotonicity.dfy` | `Monotonicity` | `fix_monotonicity`: the two fills as functions, and the clamp loop as a method over an array. |
| `sorting.dfy` | `Sorting` | `sort_values` as a stable sort by a total preorder. |
| `groups.dfy` | `Groups` | Per-iso3 masked transforms, and `unique()`. |
| `reshaper.dfy` | `Reshaper` | `long_format_timeseries`: its nested append loops, proved against a function. |
| `cases_deaths.dfy` | `CasesDeaths` | The transform part of `load_and_transform_cases_deaths`. |
| `vaccinations.dfy` | `Vaccinations` | The transform part of `load_and_transform_vaccinations`. |
| `merge.dfy` | `Merge` | The outer and left joins of `run_etl`. |
| `validation.dfy` | `Validation` | `validate_data`. |
| `pipeline.dfy` | `Pipeline` | `run_etl`. |
| `queries.dfy` | `Queries` | `list_countries`, `global_summary`, `country_timeseries` and `available_dates`. |

The two lookups that the reshaper and the vaccination stage apply are passed in a `Reshaper.Parsers` value: label to code, and text to what `normalize_date` returns for it. `Reshaper.Standard()` holds the real ones, `Iso3Mapping.GetIso3Code` and `DateNormalizer.NormalizeDate`. The stage and pipeline properties hold for any lookups.

Where the code does something other than its docstrings, signatures and tests (`tests/test_etl.py`) suggest, the model follows the code:

- **Blank labels.** A label that strips to `""` resolves to `"USA"`, not to nothing. `""` is a substring of the first alias, `"US"` (`Iso3Mapping.BlankResolvesToUsa`).
- **Join key.** Both joins match on (date, country, iso3), so rows also need the raw country label to agree. The key is not (date, code) alone.
- **Empty long table.** A cases or deaths table that reshapes to no records fails the run: `sort_values(["iso3", "date"])` on a frame without columns raises.
- **NaT dates.** `normalize_date` is typed to return a `Timestamp` or `None`. But pandas reads `"nan"`, `"NaN"`, `"NAN"`, `"NaT"`, `"nat"` and `"NAT"` as the missing timestamp `NaT`, under the first format already. A blank date cell in a wide table is printed as `"nan"`, so it gives `NaT`.
- **NaT rows are kept.** The reshaper skips a row only when `normalize_date` returns `None`, so a `NaT` row stays, dated `NaT` (`Reshaper.BlankDateRowKept`). It sorts last within its code.
- **NaT usually fails the run.** Every `NaT` date in the cases or deaths records reaches the merged table (`Pipeline.RecordReachesMerge`). A date column mixing dates and `NaT` makes `validate_data`'s `min()` raise. A date column of `NaT` only is a datetime column, which the left join refuses to match with the vaccination table's column of objects. So the run returns `False` whenever some record is dated `NaT` and either some record has a day or some vaccination row resolves (`Pipeline.NaTRecordFails`, `Pipeline.BlankCasesDateFails`).
- **An all-NaT table is published.** When every cases and deaths date is `NaT` and no vaccination row resolves, pandas skips the dtype check for the empty side, and `min()` of an all-`NaT` column is `NaT`. The run then returns `True` and publishes a table whose every date is `NaT` (`Pipeline.AllNaTPublishes`).
- **Partial matches across names.** `"Belarus"`, `"Cyprus"` and `"Mauritius"` contain `"US"` and resolve to `"USA"`, and `"Ukraine"` contains `"UK"` and resolves to `"GBR"` (`frontend/etl/transform_utils.py:16-17`, `:111-134`; `IdentityResolver.PartialMatchWins`). Their series are then sorted and repaired together with the US or UK series, under the one code.
- **Vaccination dates.** Vaccination rows keep an unparsed or `NaT` date as `NaT`, which sorts last within its code and matches only a `NaT` key. When no date normalizes to a day or to `NaT`, `.dt.date` raises and the run fails.
- **The timeseries `metric` parameter.** `country_timeseries` accepts `metric` and ignores it.

## Model

| member | source | states |
|---|---|---|
| `Text.TrimStartSpec` | frontend/etl/transform_utils.py:117 | The left strip removes exactly the leading whitespace run, and leaves a result that is empty or starts with a non-space. |
| `Text.TrimEndSpec` | frontend/etl/transform_utils.py:117 | The right strip removes exactly the trailing whitespace run. |
| `Text.Strip` | frontend/etl/transform_utils.py:117 | The stripped label is no longer than the input, and is empty or starts and ends with a non-space. |
| `Text.StripLower` | frontend/etl/transform_utils.py:117 | Stripping and lower-casing commute, so the order of `.strip().lower()` does not matter. |
| `Text.StripPadded` | frontend/etl/transform_utils.py:117 | Whitespace added around a label is removed by the strip. |
| `Text.UpperIdempotent` | frontend/services/api/main.py:164 | Upper-casing an upper-cased code changes nothing. |
| `Text.StrLeTotal` | frontend/etl/transform_utils.py:224 | String order relates any two strings one way or the other. |
| `Text.StrLeTransitive` | frontend/etl/transform_utils.py:224 | String order is transitive. |
| `Text.StrLeAntisymmetric` | frontend/etl/transform_utils.py:224 | Two strings ordered both ways are equal. |
| `Calendar.LeTotal` | frontend/etl/transform_utils.py:224 | Any two dates are ordered one way or the other. |
| `Calendar.LeTransitive` | frontend/etl/transform_utils.py:224 | Date order is transitive. |
| `Calendar.LeAntisymmetric` | frontend/etl/transform_utils.py:224 | Two dates ordered both ways are equal. |
| `Calendar.DateLeTotal` | frontend/etl/transform_utils.py:224 | Any two dates, `NaT` included, are ordered one way or the other, with `NaT` last. |
| `Calendar.DateLeTransitive` | frontend/etl/transform_utils.py:224 | Date order with `NaT` last is transitive. |
| `Calendar.CodeDateLeTotal` | frontend/etl/transform_utils.py:224 | Any two (iso3, date) keys are ordered one way or the other, by code and then by date with `NaT` last. |
| `Calendar.CodeDateLeTransitive` | frontend/etl/transform_utils.py:224 | The (iso3, date) key order is transitive. |
| `DateNormalizer.DecimalValue` | frontend/etl/transform_utils.py:101 | A run of `n` digits denotes a number below `10^n`. |
| `DateNormalizer.ParseYear` | frontend/etl/transform_utils.py:99 | `%y` yields a year in 1969-2068, and `%Y` a year in 0-9999. |
| `DateNormalizer.ParseMonth` | frontend/etl/transform_utils.py:99 | `%m` yields a month in 1-12. |
| `DateNormalizer.ParseDay` | frontend/etl/transform_utils.py:99 | `%d` yields a day in 1-31. |
| `DateNormalizer.FromFields` | frontend/etl/transform_utils.py:99-101 | A date read from three fields is a real calendar day within the `Timestamp` range. |
| `DateNormalizer.Split` | frontend/etl/transform_utils.py:101 | Splitting yields at least one part, and no part holds the separator. |
| `DateNormalizer.ParseWith` | frontend/etl/transform_utils.py:101 | A parse under one format yields a valid date within the `Timestamp` range. |
| `DateNormalizer.FirstParsing` | frontend/etl/transform_utils.py:99-103 | Every format before the returned position fails, and the one at it parses. |
| `DateNormalizer.NormalizeDate` | frontend/etl/transform_utils.py:92-108 | NaN and `""` give `None`, and any day returned is valid and within range. |
| `DateNormalizer.NatStringsParseNowhere` | frontend/etl/transform_utils.py:99-101 | No format reads a missing-timestamp string as a day. |
| `DateNormalizer.NatStringsGiveNaT` | frontend/etl/transform_utils.py:99-101 | A string gives `NaT` exactly when it is one of pandas' missing-timestamp strings, `"nan"` included. |
| `DateNormalizer.FirstFormatWins` | frontend/etl/transform_utils.py:99-103 | The first format in priority order that parses decides the date. |
| `DateNormalizer.NotResolvedIff` | frontend/etl/transform_utils.py:99-108 | A non-empty string gives `None` exactly when it is not a missing-timestamp string and all five formats fail. |
| `DateNormalizer.SplitThree` | frontend/etl/transform_utils.py:101 | Three separator-free fields joined by the separator split back into those fields. |
| `DateNormalizer.ParseWithFields` | frontend/etl/transform_utils.py:101 | A string of three joined fields parses field by field. |
| `DateNormalizer.DigitsRoundTrip` | frontend/etl/transform_utils.py:101 | A zero-padded number reads back as itself. |
| `DateNormalizer.IsoRoundTrip` | frontend/services/api/main.py:188 | Every date the normalizer can produce is read back unchanged from its `str(date)` text. |
| `DateNormalizer.IsoExample` | tests/test_etl.py:28-32 | `"2020-01-23"` gives 2020-01-23. |
| `DateNormalizer.ShortYearExample` | tests/test_etl.py:34-38 | `"1/23/20"` gives 2020-01-23 through `%m/%d/%y`. |
| `DateNormalizer.MonthFirstExample` | frontend/etl/transform_utils.py:99 | `"03/04/2020"` is March 4, because `%m/%d/%Y` comes before `%d/%m/%Y`. |
| `DateNormalizer.DayFirstExample` | frontend/etl/transform_utils.py:99 | `"13/04/2020"` falls through to `%d/%m/%Y` and gives April 13. |
| `DateNormalizer.InvalidExample` | tests/test_etl.py:40-42 | `"invalid"` gives `None`. |
| `IdentityResolver.Normalize` | frontend/etl/transform_utils.py:117 | `.strip().lower()`. `IdentityResolver.CaseInsensitive` and `IdentityResolver.PaddingInsensitive` state what it erases. |
| `IdentityResolver.FirstExact` | frontend/etl/transform_utils.py:120-122 | The exact pass stops at the first alias whose normalized form equals the label, and none before it does. |
| `IdentityResolver.FirstPartial` | frontend/etl/transform_utils.py:125-127 | The partial pass stops at the first alias contained in the label or containing it. |
| `IdentityResolver.Resolve` | frontend/etl/transform_utils.py:113-134 | NaN gives `None`, and any code returned is a table code or the US fallback. |
| `IdentityResolver.ExactMatchWins` | frontend/etl/transform_utils.py:116-122 | The first exact match in table order decides the result. |
| `IdentityResolver.PartialMatchWins` | frontend/etl/transform_utils.py:124-127 | With no exact match, the first alias that overlaps the label in either direction decides. |
| `IdentityResolver.NotResolvedIff` | frontend/etl/transform_utils.py:120-134 | A label is unresolved exactly when it overlaps no alias and is not a US spelling. |
| `IdentityResolver.CaseInsensitive` | frontend/etl/transform_utils.py:117 | Labels equal up to case resolve alike. |
| `IdentityResolver.PaddingInsensitive` | frontend/etl/transform_utils.py:117 | Surrounding whitespace does not change how a label resolves. |
| `Iso3Mapping.AliasTable` | frontend/etl/transform_utils.py:15-89 | The table has 153 aliases in insertion order, none blank. |
| `Iso3Mapping.GetIso3Code` | frontend/etl/transform_utils.py:111-134 | NaN gives `None`, and every code returned is one of the table's. |
| `Iso3Mapping.UsFallbackUnreachable` | frontend/etl/transform_utils.py:130-131 | Every US spelling of the last pass already matches exactly, so that pass never fires. |
| `Iso3Mapping.GetIso3CodeNoneIff` | frontend/etl/transform_utils.py:124-134 | Over the real table, a label is unresolved exactly when no alias is a substring of it or contains it. |
| `Iso3Mapping.BlankResolvesToUsa` | frontend/etl/transform_utils.py:116-127 | A label that strips to `""` resolves to `"USA"`. |
| `Iso3Mapping.UsLabels` | tests/test_etl.py:56-59 | `"US"`, `"USA"` and `"United States"` resolve to `"USA"`. |
| `Iso3Mapping.UkLabels` | tests/test_etl.py:61-63 | `"UK"` and `"United Kingdom"` resolve to `"GBR"`. |
| `Iso3Mapping.CaseLabels` | tests/test_etl.py:65-67 | `"china"` resolves to `"CHN"`, and `"INDIA"` to `"IND"`. |
| `Monotonicity.ForwardFill` | frontend/etl/transform_utils.py:145 | `fillna(method='ffill')`; keeps the length. `Monotonicity.ForwardFillLast` and `Monotonicity.ForwardFillNone` state what each entry becomes. |
| `Monotonicity.BackFill` | frontend/etl/transform_utils.py:145 | `fillna(method='bfill')`; keeps the length. `Monotonicity.BackFillNext` and `Monotonicity.BackFillNone` state what each entry becomes. |
| `Monotonicity.Clamp` | frontend/etl/transform_utils.py:148-152 | The clamp loop as a recursion on the prefix; keeps the length. `Monotonicity.ClampRunningMax` and `Monotonicity.ClampLeastMajorant` state what it computes. |
| `Monotonicity.Repaired` | frontend/etl/transform_utils.py:137-154 | `fix_monotonicity` as a function, the fills then the clamp; keeps the length. `Monotonicity.RepairedNonDecreasing` and `Monotonicity.RepairedIdempotent` state what it promises. |
| `Monotonicity.FixMonotonicity` | frontend/etl/transform_utils.py:137-154 | The in-place clamp loop over the filled copy returns `Repaired(series)`. |
| `Monotonicity.ForwardFillLast` | frontend/etl/transform_utils.py:145 | A forward-filled entry is the last present value at or before it. |
| `Monotonicity.ForwardFillNone` | frontend/etl/transform_utils.py:145 | With nothing present up to a position, the forward fill leaves it absent. |
| `Monotonicity.BackFillNext` | frontend/etl/transform_utils.py:145 | A back-filled entry is the first present value at or after it. |
| `Monotonicity.BackFillNone` | frontend/etl/transform_utils.py:145 | With nothing present from a position on, the back fill leaves it absent. |
| `Monotonicity.FilledAllPresent` | frontend/etl/transform_utils.py:145 | Once one value is present, the two fills leave no value absent. |
| `Monotonicity.ClampAt` | frontend/etl/transform_utils.py:148-152 | Each output position is one loop step from the position before it. |
| `Monotonicity.ClampPrefix` | frontend/etl/transform_utils.py:148-152 | Clamping a prefix gives the prefix of the clamped series, so the loop never looks ahead. |
| `Monotonicity.ClampRunningMax` | frontend/etl/transform_utils.py:148-152 | On a present series, `out[0] = f[0]` and `out[i] = max(out[i-1], f[i])`. |
| `Monotonicity.ClampNonDecreasing` | frontend/etl/transform_utils.py:148-152 | On an all-present series, the clamp output never decreases. |
| `Monotonicity.ClampLeastMajorant` | frontend/etl/transform_utils.py:148-152 | The output is above the input, and below every non-decreasing series that is above the input. |
| `Monotonicity.RepairedAllAbsent` | frontend/etl/transform_utils.py:142-154 | An all-absent series, including the empty one, comes back unchanged. |
| `Monotonicity.RepairedNonDecreasing` | frontend/etl/transform_utils.py:142-154 | Once any value is present, the output is all present and non-decreasing, and is the running maximum of the filled series. |
| `Monotonicity.MonotoneUnchanged` | tests/test_etl.py:81-85 | A series that is already non-decreasing is returned unchanged. |
| `Monotonicity.RepairedIdempotent` | frontend/etl/transform_utils.py:137-154 | Repairing a repaired series changes nothing. |
| `Monotonicity.DipRaised` | tests/test_etl.py:93-99 | `[0,10,20,15,25]` becomes `[0,10,20,20,25]`. |
| `Monotonicity.GapFilled` | tests/test_etl.py:87-91 | `[0,10,NaN,30,40]` becomes `[0,10,10,30,40]`. |
| `Sorting.SortBy` | frontend/etl/transform_utils.py:224 | The sort's output is a permutation of its input. |
| `Sorting.SortBySorted` | frontend/etl/transform_utils.py:224 | Under a total preorder, the output is sorted and is a permutation of the input. |
| `Sorting.SortByStable` | frontend/etl/transform_utils.py:224 | Rows that the order ties keep their input order. |
| `Groups.GroupAt` | frontend/etl/transform_utils.py:226-228 | A row's value sits at its position within its code's masked series. |
| `Groups.GroupOrder` | frontend/etl/transform_utils.py:226-228 | Two rows of one code keep their table order within the code's series. |
| `Groups.PerGroupGroup` | frontend/etl/transform_utils.py:225-229 | Each code's series in the result is the transform applied to that code's series in the input. |
| `Groups.PerGroupIdentity` | frontend/etl/transform_utils.py:225-229 | A transform that leaves every series alone leaves the column alone. |
| `Groups.Unique` | frontend/etl/transform_utils.py:225 | `unique()` lists each code once, and exactly the codes present. |
| `Reshaper.Metric` | frontend/etl/transform_utils.py:189-195 | A kept metric is the cell's own number and is not negative. |
| `Reshaper.SplitLayout` | frontend/etl/transform_utils.py:171-172 | There is no layout only for a frame without columns. The dates are one column, and every country column is a column of the frame. |
| `Reshaper.AppendRows` | frontend/etl/transform_utils.py:184-202 | The inner loop appends one record per row of a resolved column whose date is not `None`, a `NaT` date included, dated as `.date()` gives it. |
| `Reshaper.LongFormat` | frontend/etl/transform_utils.py:157-204 | Reference definition of `long_format_timeseries`: no layout for a frame without columns, otherwise the records of every column in turn. `Reshaper.ColumnsRecordsMember` and `Reshaper.ColumnsRecordsCount` state which records it holds. |
| `Reshaper.LongFormatTimeseries` | frontend/etl/transform_utils.py:157-204 | The outer loop over country columns builds `LongFormat(p, f)`, column by column. |
| `Reshaper.ColumnsRecordsMember` | frontend/etl/transform_utils.py:175-202 | A record is produced exactly when it is the record of a row whose date normalizes to a day or to `NaT`, in a resolved column, with the raw label as `country`. |
| `Reshaper.NoNegativeValues` | frontend/etl/transform_utils.py:189-195 | No record carries a negative value. |
| `Reshaper.ColumnsRecordsCount` | frontend/etl/transform_utils.py:175-202 | There is exactly one record per (resolved column, row whose date is not `None`) pair, `NaT` rows included. |
| `Reshaper.StandardBlankIsNaT` | frontend/etl/transform_utils.py:185 | A blank date cell, printed as `"nan"`, normalizes to `NaT`. |
| `Reshaper.BlankDateRowKept` | frontend/etl/transform_utils.py:184-202 | A row with a blank date cell is kept, dated `NaT`, in every column whose name resolves. |
| `Reshaper.FullGridCount` | tests/test_etl.py:110-124 | With every date normalizing to a day or `NaT` and every label resolving, the output has one record per date and country column. |
| `Reshaper.DateColumnLayout` | frontend/etl/transform_utils.py:171-172 | With a `"date"` column, every other column is a country column. |
| `Reshaper.FirstColumnLayout` | frontend/etl/transform_utils.py:171-172 | Without a `"date"` column, the first column holds the dates. |
| `Reshaper.NegativeValueDropped` | tests/test_etl.py:126-136 | A country whose cells are all negative gets records without a value. |
| `CasesDeaths.RepairedByGroup` | frontend/etl/transform_utils.py:225-229 | Each code's metric series replaced by `fix_monotonicity` of it, row count kept. `CasesDeaths.StageRepairsEachGroup` states what each code's series becomes. |
| `CasesDeaths.Stage` | frontend/etl/transform_utils.py:217-237 | Reference definition of one table's transform: reshape, fail on no records, sort by (iso3, date), repair per code. `CasesDeaths.StageKeepsLength`, `CasesDeaths.StageSorted` and `CasesDeaths.StageNeverDecreases` state its properties. |
| `CasesDeaths.CasesDeathsStage` | frontend/etl/transform_utils.py:207-239 | Reference definition: both tables through the stage, failing when either fails. `CasesDeaths.TransformCasesDeaths` is the method proved against it. |
| `CasesDeaths.KeyLeTotalPreorder` | frontend/etl/transform_utils.py:224 | (iso3, date) order with `NaT` last is a total preorder. |
| `CasesDeaths.RepairByGroup` | frontend/etl/transform_utils.py:225-229 | The loop over unique codes leaves each row with its code's repaired value. |
| `CasesDeaths.WriteBack` | frontend/etl/transform_utils.py:226-229 | The masked assignment writes the repaired series to that code's rows in order, and leaves the other rows alone. |
| `CasesDeaths.TransformLong` | frontend/etl/transform_utils.py:217-229 | One table goes through reshape, sort and per-code repair. |
| `CasesDeaths.TransformCasesDeaths` | frontend/etl/transform_utils.py:207-239 | Both tables go through the stage, and the call fails when either does. |
| `CasesDeaths.StageKeepsLength` | frontend/etl/transform_utils.py:224-237 | A table the stage accepts keeps its row count, which is positive. |
| `CasesDeaths.StageSorted` | frontend/etl/transform_utils.py:224 | The output is sorted by (iso3, date), and the sort permutes its input. |
| `CasesDeaths.StageKeepsNaT` | frontend/etl/transform_utils.py:224-237 | A record dated `NaT` survives the sort and the repair, still dated `NaT`, with its country and code. |
| `CasesDeaths.StageRepairsEachGroup` | frontend/etl/transform_utils.py:225-237 | Each code's metric series is the repaired series of that code in the sorted input. |
| `CasesDeaths.StageNeverDecreases` | frontend/etl/transform_utils.py:224-237 | Within one code, a present metric is never followed by an absent or smaller one. |
| `Vaccinations.Metrics.Set` | frontend/etl/transform_utils.py:264 | Writing one field changes that field only. |
| `Vaccinations.Resolved` | frontend/etl/transform_utils.py:255-258 | Dropping rows without a code never adds rows. |
| `Vaccinations.KeyLeTotalPreorder` | frontend/etl/transform_utils.py:261 | (iso3, date) order with NaT last is a total preorder. |
| `Vaccinations.FillField` | frontend/etl/transform_utils.py:264-266 | Filling one column keeps every row's date, country and code. |
| `Vaccinations.FillFieldsKeepRows` | frontend/etl/transform_utils.py:262-266 | Filling any run of columns keeps every row's date, country and code in place. |
| `Vaccinations.FillByGroup` | frontend/etl/transform_utils.py:262-266 | The loop over the four columns fills them in order. |
| `Vaccinations.TransformVaccinations` | frontend/etl/transform_utils.py:242-270 | It fails on a missing column or when no date normalizes to a day or `NaT`; otherwise it resolves, sorts and fills. |
| `Vaccinations.ResolvedMember` | frontend/etl/transform_utils.py:253-258 | The kept rows are exactly the rows whose country resolves, each with its code, its date after `.dt.date` (`NaT` for `None` or `NaT`) and raw country. |
| `Vaccinations.FillFieldOthers` | frontend/etl/transform_utils.py:262-266 | Filling one column leaves the other columns and the codes alone. |
| `Vaccinations.FillAllGroups` | frontend/etl/transform_utils.py:262-266 | After the loop, each code's series of each column is the forward fill of the input series. |
| `Vaccinations.StageFillsEachGroup` | frontend/etl/transform_utils.py:261-266 | Each code's series of each column is the forward fill of that series in the sorted rows: no fill crosses codes, and there is no back-fill. |
| `Vaccinations.Stage` | frontend/etl/transform_utils.py:242-270 | Reference definition of the vaccination transform: fail on a missing column or when `.dt.date` raises, otherwise resolve, drop unresolved rows, sort, and forward-fill each column per code. `Vaccinations.StageRows`, `Vaccinations.StageSorted` and `Vaccinations.StageFillsEachGroup` state its properties. |
| `Vaccinations.StageRows` | frontend/etl/transform_utils.py:253-261 | The sorted rows, before the fill, are a permutation of the resolved rows, and are exactly the input rows whose country resolves, each with its code, its date and its raw country. |
| `Vaccinations.StageRowKeys` | frontend/etl/transform_utils.py:253-266 | The stage's output has one row per input row whose country resolves. A (date, country, code) key is in the output exactly when some input row resolves to that code with that date and raw country. |
| `Vaccinations.StageSorted` | frontend/etl/transform_utils.py:261 | The output is sorted by (iso3, date), with NaT last. |
| `Merge.FlatMapMember` | frontend/etl/run_etl.py:56-72 | A joined row comes from some left row. |
| `Merge.MatchesOf` | frontend/etl/run_etl.py:58 | The matches of a row are exactly the rows with the same (date, country, iso3). |
| `Merge.PairAll` | frontend/etl/run_etl.py:56-60 | A row matched several times gives one row per pair. |
| `Merge.Unmatched` | frontend/etl/run_etl.py:59 | The right-only rows are exactly the deaths rows whose key no cases row has. |
| `Merge.LeftSideRows` | frontend/etl/run_etl.py:56-60 | A row of the cases side pairs a cases row with a matching deaths row, or stands alone. |
| `Merge.OuterJoinMember` | frontend/etl/run_etl.py:56-60 | An outer-join row pairs two rows with equal keys, or is a one-sided row whose key the other side lacks. |
| `Merge.OuterJoinKeepsBothSides` | frontend/etl/run_etl.py:56-60 | Every cases row and every deaths row is represented, with its own metric. |
| `Merge.OneSidedKeys` | frontend/etl/run_etl.py:56-60 | A key present on only one side has the other metric absent. |
| `Merge.LeftJoinRows` | frontend/etl/run_etl.py:68-72 | A left-join row is a cases/deaths row extended with the figures of a matching vaccination row, or with none. |
| `Merge.LeftJoinKeepsKey` | frontend/etl/run_etl.py:68-72 | The left join adds no key of its own. |
| `Merge.LeftJoinKeepsEachRow` | frontend/etl/run_etl.py:68-72 | Every cases/deaths row is represented in the left join, with its key and both metrics. |
| `Merge.OuterJoinKeepsKey` | frontend/etl/run_etl.py:56-60 | Every outer-join key comes from a cases or a deaths row. |
| `Merge.LeftJoinKeepsRows` | frontend/etl/run_etl.py:68-72 | The left join is at least as long as the cases/deaths table. |
| `Merge.LeftSideKeepsRows` | frontend/etl/run_etl.py:56-60 | The outer join is at least as long as the cases table. |
| `Merge.OuterJoin` | frontend/etl/run_etl.py:56-60 | Reference definition of `merge(how="outer")` on (date, country, iso3): one row per matching pair in cases order, then the deaths rows no cases row matches. `Merge.OuterJoinMember`, `Merge.OuterJoinKeepsBothSides` and `Merge.OuterJoinKeepsKey` state its properties. |
| `Merge.LeftJoin` | frontend/etl/run_etl.py:68-72 | Reference definition of `merge(how="left")`: each cases/deaths row once per matching vaccination row, or once with no figures. `Merge.LeftJoinRows`, `Merge.LeftJoinKeepsEachRow` and `Merge.LeftJoinKeepsRows` state its properties. |
| `Validation.FirstMissing` | frontend/etl/transform_utils.py:279-283 | Nothing is reported exactly when all required columns are present; otherwise the first missing one in check order is reported. |
| `Validation.ValidateData` | frontend/etl/transform_utils.py:273-296 | True exactly when the table is not empty and has `date`, `iso3` and `country`. |
| `Validation.ValidationExamples` | tests/test_etl.py:142-161 | A well-formed table passes, an empty one fails, and one without `iso3` fails at `iso3`. |
| `Pipeline.MergedLeTotalPreorder` | frontend/etl/run_etl.py:81 | (iso3, date) order on merged rows, with `NaT` last, is a total preorder. |
| `Pipeline.Merged` | frontend/etl/run_etl.py:52-72 | Reference definition: both cases/deaths stages, the outer join, the vaccination stage and the left join, or nothing when a file is unreadable or a transform raises. `Pipeline.MergedNonEmpty`, `Pipeline.JoinsKeepRows`, `Pipeline.RecordReachesMerge` and `Pipeline.MergeKeysFromInputs` state its properties. |
| `Pipeline.Run` | frontend/etl/run_etl.py:26-101 | Reference definition of the run: the table sorted by (iso3, date) that it publishes, or nothing when it returns `False`. The lemmas below state when it publishes and what. |
| `Pipeline.RunEtl` | frontend/etl/run_etl.py:26-101 | The step-by-step run publishes `Run(...)`, and returns `True` exactly when it publishes. |
| `Pipeline.MissingFileFails` | frontend/etl/run_etl.py:37-47 | A missing input file fails the run. |
| `Pipeline.TransformFailureFails` | frontend/etl/run_etl.py:99-101 | A read or transform that raises fails the run. |
| `Pipeline.ValidationNeverFails` | frontend/etl/run_etl.py:68-81 | Once every transform succeeds, `validate_data` never returns `False`. The sorted merge is published exactly when every merged date is a day, or every merged date is `NaT` and no vaccination row resolves; the run fails otherwise. |
| `Pipeline.RecordReachesMerge` | frontend/etl/run_etl.py:52-72 | Every cases or deaths record lends its date, `NaT` included, to some row of the merged table. |
| `Pipeline.NaTRecordFails` | frontend/etl/run_etl.py:52-81 | A cases or deaths record dated `NaT` fails the run when some vaccination row resolves or some other record has a day. |
| `Pipeline.AllNaTPublishes` | frontend/etl/run_etl.py:52-84 | When every cases and deaths record is dated `NaT` and no vaccination row resolves, the run publishes, and every published date is `NaT`. |
| `Pipeline.PermutationKeepsDating` | frontend/etl/run_etl.py:81 | Sorting keeps "every date is a day" and "every date is `NaT`". |
| `Pipeline.BlankCasesDateFails` | frontend/etl/run_etl.py:52-81 | Under `normalize_date`, a blank date cell in a cases column whose name resolves fails the run, unless the vaccination table is loaded and no vaccination row resolves. |
| `Pipeline.MergedNonEmpty` | frontend/etl/run_etl.py:52-72 | A merge that succeeds has at least one row. |
| `Pipeline.JoinsKeepRows` | frontend/etl/run_etl.py:56-72 | Every cases row reaches the merged table with its key and its value, and the merged table is at least as long as the cases table. |
| `Pipeline.MergedColumnsValid` | frontend/etl/run_etl.py:75 | The merged table passes validation exactly when it has rows. |
| `Pipeline.PublishedSorted` | frontend/etl/run_etl.py:81-84 | The published table is sorted by (iso3, date) and holds exactly the merged rows. Either every published date is a day, or every one is `NaT`. |
| `Pipeline.MergeKeysFromInputs` | frontend/etl/run_etl.py:56-72 | Every row of the two merges has the key of a cases or deaths record. |
| `Pipeline.PublishedKeysFromInputs` | frontend/etl/run_etl.py:56-84 | Every published row has the key of a reshaped cases or deaths record. |
| `Queries.Filter` | frontend/services/api/main.py:128 | A boolean mask never lengthens the table. |
| `Queries.FilterMember` | frontend/services/api/main.py:128 | The mask keeps exactly the rows it accepts. |
| `Queries.DistinctPairs` | frontend/services/api/main.py:106 | `drop_duplicates` yields each (iso3, name) pair of the table once, and no other. |
| `Queries.ByNameTotalPreorder` | frontend/services/api/main.py:106 | Order by name is a total preorder. |
| `Queries.ListCountries` | frontend/services/api/main.py:99-110 | Reference definition of `list_countries`: 503 without a table, otherwise the distinct (iso3, name) pairs sorted by name. `Queries.ListCountriesContents` states what it holds. |
| `Queries.ListCountriesContents` | frontend/services/api/main.py:99-110 | The listing holds each (iso3, name) pair of the table exactly once, sorted by name. |
| `Queries.MaxDate` | frontend/services/api/main.py:124-125 | The maximum is a date of the table, and no date is later. |
| `Queries.MinDate` | frontend/services/api/main.py:232 | The minimum is a date of the table, and no date is earlier. |
| `Queries.SummaryNotFound` | frontend/services/api/main.py:128-130 | A date with no rows gives 404, not zeros, and any other date gives a summary. |
| `Queries.DefaultDateIsLatest` | frontend/services/api/main.py:124-125 | Without a date, the summary is that of the latest date, which always has rows. |
| `Queries.GlobalSummary` | frontend/services/api/main.py:113-148 | Reference definition of `global_summary`: 503 without a table; the given date or the latest; 404 for a date with no rows; otherwise the four sums and the count of affected rows. `Queries.SummaryNotFound` and `Queries.DefaultDateIsLatest` state its outcomes. |
| `Queries.Sum` | frontend/services/api/main.py:133-146 | A column's `sum()`, absent figures counting 0, so an all-absent column sums to 0. `Queries.SumAppend` and `Queries.SumSkipsAbsent` state its properties. |
| `Queries.Affected` | frontend/services/api/main.py:147 | `(confirmed_cases > 0).sum()`, never more than the number of rows. |
| `Queries.SumAppend` | frontend/services/api/main.py:133-146 | A sum over two runs of rows is the sum of their sums. |
| `Queries.SumSkipsAbsent` | frontend/services/api/main.py:133-146 | Rows with an absent figure add nothing to a total. |
| `Queries.AffectedCounts` | frontend/services/api/main.py:147 | `countries_affected` counts the rows with `confirmed_cases > 0`. |
| `Queries.BuildPoints` | frontend/services/api/main.py:185-195 | The append loop builds one point per row, in order, with absent figures left null. |
| `Queries.CountryTimeseries` | frontend/services/api/main.py:151-201 | The endpoint answers `CountryTimeseriesAnswer`, whatever `metric` is. |
| `Queries.CountryTimeseriesAnswer` | frontend/services/api/main.py:151-201 | Reference definition of `country_timeseries`: 503 without a table, 404 for an unknown code, otherwise the code's rows within the inclusive range in date order. `Queries.TimeseriesNotFound`, `Queries.SeriesRowsMember` and `Queries.TimeseriesPoints` state its outcomes. |
| `Queries.TimeseriesNotFound` | frontend/services/api/main.py:164-168 | An unknown code, after upper-casing, gives 404. |
| `Queries.SeriesRowsSorted` | frontend/services/api/main.py:175-180 | The selected rows are sorted by date and are the rows the two masks keep. |
| `Queries.SeriesRowsMember` | frontend/services/api/main.py:164-178 | A row is selected exactly when it has the code and its date is within the inclusive range. |
| `Queries.TimeseriesPoints` | frontend/services/api/main.py:180-201 | The answer carries the upper-cased code, and one point per selected row in date order. |
| `Queries.TimeseriesCaseInsensitive` | frontend/services/api/main.py:164-165 | Two spellings of a code that upper-case alike get the same answer, apart from the fallback name. |
| `Queries.DatesAtMostRows` | frontend/services/api/main.py:234 | There are no more distinct dates than rows. |
| `Queries.AvailableDates` | frontend/services/api/main.py:219-235 | Reference definition of `available_dates`: 503 without a table, otherwise the earliest date, the latest date and the number of distinct dates. `Queries.AvailableDatesRange` states its properties. |
| `Queries.AvailableDatesRange` | frontend/services/api/main.py:219-235 | The range runs from the earliest to the latest date. It counts 1 to `|rows|` distinct days, and exactly 1 when the two ends meet. |
| `Queries.UnavailableEverywhere` | frontend/services/api/main.py:103-224 | Every endpoint answers 503 exactly when the table is absent or empty. |
| `Queries.SummaryFixture` | frontend/tests/test_api.py:107-117 | The test table's summary for 2020-03-15 is 3000.0 cases, 80.0 deaths and 2 countries affected, and 1999-01-01 gives 404. |
| `Queries.DatesFixture` | frontend/tests/test_api.py:177-186 | The test table spans 2020-03-15 to 2020-03-16, two days. |
| `Queries.TwoDaySeries` | frontend/services/api/main.py:164-195 | In a four-row table where a code has two rows on two different days, the code gets both points in date order, and a range of the later day alone keeps one point. |
| `Queries.TimeseriesFixture` | frontend/tests/test_api.py:123-159 | `"USA"` and `"usa"` both find United States with two points, and 2020-03-16 to 2020-03-16 keeps one. |

## Left out

- File I/O is not modelled: the CSV reads, the parquet writes and the per-metric extracts, the output directory, the parquet load and its cache (`load_data`, `get_timeseries_df`), and logging. A source is given as `Pipeline.Source`: absent, unreadable, or loaded.
- `Pipeline.Run`: a successful run is modelled as publishing the sorted table. A write that fails after the merged table has been written (one of the per-metric writes) is not modelled.
- `Pipeline.Run`: which date columns the run accepts rests on pandas behaviour inferred from the code. `min()` raises over a column mixing dates and `NaT`. A join of a datetime column with a column of objects raises, except when one side has no rows. `min()` of an all-`NaT` datetime column is `NaT`.
- Queries: the endpoints are modelled over a table of dated rows (`Merge.PublishedRow`). The all-`NaT` table a run can publish (`Pipeline.AllNaTPublishes`) is not given to them.
- `DateNormalizer.NormalizeDate`: the permissive `pd.to_datetime(date_str)` fallback is a library heuristic, so the model treats it as failure.
- `DateNormalizer.NormalizeDate`: the model follows pandas 2.x, where `to_datetime` with a format is an exact `strptime` match. pandas 1.x took a looser ISO path for `"%Y-%m-%d"` that also accepted partial strings such as `"2020-01"`, which the model leaves unparsed.
- `DateNormalizer.NormalizeDate`: digits are ASCII only. `strptime`'s `\d` also accepts other Unicode decimal digits; the model leaves such strings unparsed.
- `DateNormalizer.NormalizeDate`: a `%d` field with a leading space (such as `" 5"`), which `strptime` accepts, is not modelled.
- `DateNormalizer.NormalizeDate`: `"today"` and `"now"`, which pandas reads as the current date, would need a clock. The model treats them as unparsed.
- `Text.Lower` and `Text.Upper` map only ASCII letters. Python's full Unicode case mapping is not modelled.
- `Iso3Mapping.GetIso3Code`: the test labels `"Atlantis"` and the rest of the table are not evaluated alias by alias. Only the labels whose aliases sit in the first 17 entries are proved. `GetIso3CodeNoneIff` states the general rule.
- The order of the outer join's rows (pandas sorts the keys) is not modelled. The published table is proved sorted by (iso3, date) and a permutation of the merge.
- Tie order in the single-column sorts of `list_countries` (by name) and `country_timeseries` (by date) is not promised by pandas. The model picks the stable order.
- Each metric column's name (`confirmed_cases`, `deaths`, `test_metric`) is fixed by position in the datatypes.
- Duplicate column labels in a wide table are not modelled.
- The `reset_index` branch for an index named `Date` is not modelled.
- The check `country not in df.columns`, which is always false, is not modelled.
- Float arithmetic is modelled as exact real arithmetic, so rounding in the summary sums is not modelled. NaN is `None`.
- The null-rate report in `validate_data` only logs, and is not modelled.
- The object-dtype date conversions in the endpoints change nothing for calendar dates, and are not modelled.
- `Vaccinations.Stage`: failure when no date normalizes to a day or `NaT` relies on `.dt` raising on a column without datetimes. That is pandas behaviour, inferred from the code.
- FastAPI routing, CORS, startup, `/health` and `/api/v1/metrics` are not modelled.
