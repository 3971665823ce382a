# Sales-order row validator, modelled in Dafny

`dq_pipeline.py` is a data-quality gate for a continuous-integration job. It
reads the Amazon sales-order export and validates the first hundred rows
against a pydantic model, `AmazonOrderModel`. It counts the rows that fail and
fails the job when that count is positive.

This project models that gate in four modules:

- `Wrappers` (`wrappers.dfy`): `Option` and `Result`.
- `Strptime` (`strptime.dfy`): `datetime.strptime(s, '%m-%d-%y')`, the parser
  behind `parse_amazon_date`. It is proved against a formatter: every date,
  written in any accepted style, parses back to itself. Every string the
  parser accepts is such a text.
- `OrderModel` (`order_model.dfy`): raw cells and rows, `parse_amazon_date`,
  and the schema as data. The schema holds six field specifications, each
  with a name, ordered aliases, a kind, constraints and a before-hook. One
  generic routine (`ValidateFields`) interprets it.
- `Pipeline` (`pipeline.dfy`): the counting loop of `run_validation`, as a
  method with a loop invariant, and the facts about the tally.

Pydantic's coercion of a raw cell to `str`, `int`, `float` or `datetime` is
not visible in the source. It is a parameter, `Coercion`, holding one function
per target type. The only facts assumed of it are in `KeepsNativeValues`: a
value that already has the field's type is accepted unchanged. Only the lemmas
that need this fact require it.

Decisions the source leaves to its libraries:

- Alias resolution follows `AliasChoices`: the first alias in declared order
  that the row has supplies the value. A row with none of a field's aliases
  fails that field, since no field has a default. Columns that are no field's
  alias are ignored.
- `check_currency` runs after `str` coercion. It is modelled as a constraint
  that admits the literal "INR" only.
- The `%m`, `%d` and `%y` fields follow the regular expressions of Python's
  `_strptime` module. So a one-digit month or day is accepted ("8-6-22"), and
  so is a day with a leading space ("08- 6-22"). Any characters left over make
  the parse fail.
- The century pivot is the one in `_strptime`: a two-digit year of 68 or less
  means 20yy, and a larger one means 19yy. It is Python's own code, not the C
  library's.
- A day past the end of its month (such as "02-29-23") makes `datetime()`
  raise. The bare `except` catches that too, so the string is passed through.
- A date string the hook cannot read is passed through. Whether the row then
  fails depends on pydantic's own `datetime` coercion of that text
  (`DateFallbackDefersToCoercion`). The model does not claim such a row is
  valid.

## Model

| member | source | states |
|---|---|---|
| `Strptime.Parse` | dq_pipeline.py:12 | whatever `strptime(s, '%m-%d-%y')` returns is a real calendar date whose year lies in the window 1969-2068 that a two-digit year can denote |
| `Strptime.ParseFormat` | dq_pipeline.py:12 | every calendar date of the pivot window, written with or without leading zeros or with a space-padded day, parses back to exactly that date |
| `Strptime.ParseSound` | dq_pipeline.py:12 | every string the parser accepts is the date it returns, written in one of the accepted styles |
| `Strptime.ParseAcceptsExactlyFormattedDates` | dq_pipeline.py:11-14 | the parser succeeds if and only if the string is some date written in an accepted style; every other string is refused |
| `Strptime.FormatDeterminesDate` | dq_pipeline.py:12 | two accepted texts that are equal denote the same date, so the parse is unambiguous |
| `Strptime.ParseAcceptsExamples` | dq_pipeline.py:12 | "08-06-22" and "8-6-22" are 6 August 2022, and "02-29-24" is a leap day |
| `Strptime.ParseRefusesExamples` | dq_pipeline.py:11-14 | 29 February of a non-leap year, 31 April, month 13, a four-digit year and "not-a-date" are refused |
| `OrderModel.ParseAmazonDate` | dq_pipeline.py:9-15 | a value that is not a string is returned unchanged; otherwise the result is the input or a datetime, and the hook never fails |
| `OrderModel.ParseAmazonDateReadsFormattedDates` | dq_pipeline.py:10-12 | a string holding a date in the `%m-%d-%y` format becomes that datetime |
| `OrderModel.ParseAmazonDateFallback` | dq_pipeline.py:10-15 | a string comes back unchanged if and only if it is not a date in the `%m-%d-%y` format |
| `OrderModel.ParseAmazonDateIdempotent` | dq_pipeline.py:9-15 | running the hook on its own output changes nothing |
| `OrderModel.Lookup` | dq_pipeline.py:19-24 | no value exactly when the row has none of the aliases; otherwise the value of one of the aliases the row has |
| `OrderModel.LookupTakesFirstPresent` | dq_pipeline.py:19-24 | alias priority: the first declared alias that the row has supplies the value, whatever later aliases hold |
| `OrderModel.AliasPriorityExamples` | dq_pipeline.py:19-23 | "Order ID" is read before "Order_ID", and "ship-country" before "ship_country" |
| `OrderModel.Coerce` | dq_pipeline.py:19-24 | a coerced value has the field's declared type |
| `OrderModel.FirstViolation` | dq_pipeline.py:19-21 | no violation exactly when the value meets every constraint; otherwise the error kind of a constraint it breaks |
| `OrderModel.ValidateField` | dq_pipeline.py:19-30 | a field is `Missing` exactly when the row has none of its aliases; an accepted value has the field's type and meets all its constraints |
| `OrderModel.ValidateFields` | dq_pipeline.py:18-30 | the row is valid if and only if every field is, with one typed value per field; otherwise every failing field's error is reported and every reported error belongs to a failing field |
| `OrderModel.ValidateFieldSeesOnlyLookup` | dq_pipeline.py:19-30 | a field's outcome depends on the row only through the cell its aliases select |
| `OrderModel.ValidateFieldsSeesOnlyLookups` | dq_pipeline.py:18-30 | two rows whose aliases select the same cells for every field get the same verdict |
| `OrderModel.OrderIdFieldMatches` | dq_pipeline.py:19 | the `Order_ID` field succeeds if and only if its cell coerces to text of length at least 1 |
| `OrderModel.QtyFieldMatches` | dq_pipeline.py:20 | the `Qty` field succeeds if and only if its cell coerces to an integer that is at least 0 |
| `OrderModel.AmountFieldMatches` | dq_pipeline.py:21 | the `Amount` field succeeds if and only if its cell coerces to a number that is at least 0 |
| `OrderModel.CurrencyFieldMatches` | dq_pipeline.py:22-30 | the `currency` field succeeds if and only if its cell coerces to exactly the text "INR" |
| `OrderModel.ShipCountryFieldMatches` | dq_pipeline.py:23 | the `ship_country` field succeeds if and only if its cell coerces to text |
| `OrderModel.DateFieldMatches` | dq_pipeline.py:24 | the `Date` field succeeds if and only if its cell, after `parse_amazon_date`, coerces to a datetime |
| `OrderModel.ValidateRow` | dq_pipeline.py:18-30 | `AmazonOrderModel(**row)`: a valid row yields one value per declared field and a rejection names at least one error; what makes a row valid is stated by `ValidateRowMatchesDeclaration` and the per-field lemmas (`OrderIdFieldMatches` … `DateFieldMatches`) |
| `OrderModel.ValidateRowMatchesDeclaration` | dq_pipeline.py:18-30 | the generic validator accepts a row if and only if the row meets the class declaration written out field by field (`AcceptedOrder`) |
| `OrderModel.AmazonOrderModelAliasesDisjoint` | dq_pipeline.py:19-24 | no column header is an alias of two fields |
| `OrderModel.RekeyKeepsVerdict` | dq_pipeline.py:19-24 | moving a field's cell from one of its aliases to another, when the row has no other alias of that field, leaves the verdict unchanged |
| `OrderModel.ExtraColumnIgnored` | dq_pipeline.py:48 | adding a column that is no field's alias leaves the verdict unchanged |
| `OrderModel.FailureReported` | dq_pipeline.py:18-30 | a failing field makes the row invalid, and the verdict lists that field's error |
| `OrderModel.MissingFieldRejected` | dq_pipeline.py:19-24 | every field is required: a row with none of a field's aliases is invalid with `Missing` for that field |
| `OrderModel.OrderIdMinLength` | dq_pipeline.py:19 | a text order id is accepted if and only if it is non-empty; the empty id makes the row invalid with `TooShort` |
| `OrderModel.QtyAtLeastZero` | dq_pipeline.py:20 | an integer quantity is accepted if and only if it is at least 0, so 0 is accepted; a negative one makes the row invalid with `BelowMinimum` |
| `OrderModel.AmountAtLeastZero` | dq_pipeline.py:21 | a float amount is accepted if and only if it is at least 0.0; a negative one makes the row invalid with `BelowMinimum` |
| `OrderModel.CurrencyOnlyInr` | dq_pipeline.py:26-30 | a text currency is accepted if and only if it is exactly "INR", case included; any other makes the row invalid with `NotAllowed` |
| `OrderModel.ValidRowIsInInr` | dq_pipeline.py:22-30 | whatever the coercion, a valid row has a currency cell that coerces to "INR" |
| `OrderModel.DateParsedByHook` | dq_pipeline.py:24 | a date cell in the `%m-%d-%y` format is accepted as the date it denotes |
| `OrderModel.DateFallbackDefersToCoercion` | dq_pipeline.py:24 | a date text the hook cannot read is accepted or refused only by pydantic's own datetime coercion of that text |
| `OrderModel.ExampleRowValid` | dq_pipeline.py:18-30 | a row of the export's shape, with quantity 0 and amount 0.0, is valid |
| `OrderModel.EveryFaultReported` | dq_pipeline.py:18-30 | a row with an empty order id and currency "USD" is invalid, and both failures are reported |
| `Pipeline.Head` | dq_pipeline.py:43 | the gate looks at the first 100 rows, or at all of them when there are fewer, in their order |
| `Pipeline.Count` | dq_pipeline.py:45-50 | the count of failing rows never exceeds the number of rows |
| `Pipeline.CountIsPositions` | dq_pipeline.py:45-50 | the count equals the number of positions that hold a failing row |
| `Pipeline.CountZeroIffNoneFails` | dq_pipeline.py:45-50 | the count is zero if and only if no row fails |
| `Pipeline.CountAppend` | dq_pipeline.py:45-50 | the count of a batch is the sum of the counts of its parts |
| `Pipeline.CountIgnoresOrder` | dq_pipeline.py:45-50 | rows in a different order give the same count |
| `Pipeline.CountInvalidIsInvalidPositions` | dq_pipeline.py:45-50 | the tally equals the number of positions whose row the validator rejects |
| `Pipeline.CountInvalidSplits` | dq_pipeline.py:46-50 | row independence: inside any batch a row adds one exactly when it is rejected on its own |
| `Pipeline.CountInvalidStep` | dq_pipeline.py:46-50 | one more row adds one to the tally exactly when the validator rejects it |
| `Pipeline.CountInvalidZeroIffAllValid` | dq_pipeline.py:52-55 | the tally is zero if and only if every row is valid |
| `Pipeline.CountInvalidIgnoresOrder` | dq_pipeline.py:46-50 | validating the rows in another order gives the same tally |
| `Pipeline.RowsAfterLimitIgnored` | dq_pipeline.py:43 | rows after the hundredth do not change the tally |
| `Pipeline.RunValidation` | dq_pipeline.py:43-57 | the loop returns the number of invalid rows among the first 100, which is at most 100; the run fails if and only if that number is positive, which holds if and only if one of those rows is invalid |

## Left out

- Reading the CSV, the check that the file exists, the console messages and
  the exit codes are not modelled. `RunValidation` returns the count and
  `failed`, which stands for exit status 1.
- Pydantic's coercion rules are not modelled; they are the `Coercion`
  parameter. These rules cover numeric text to `int` or `float`, floats to
  `int`, NaN from blank cells, and the parsing of date text that
  `parse_amazon_date` passes through.
- `Amount` is a real number. Floating-point rounding, infinities and NaN
  comparisons are not modelled; a blank cell is the separate value `Nan`.
- The datetime's time of day is always midnight and is not represented.
- Non-ASCII digits, which Python's `\d` in the `%d` and `%y` patterns also
  accepts, are not modelled; the model accepts ASCII digits only.
- The source discards the failure reason in its bare `except`. The model
  keeps the list of failing fields in the verdict, and the tally ignores it.
  Pydantic's own error messages and error types are not modelled.
- Errors other than pydantic's validation error, which the bare `except`
  would also count, cannot arise in the model.
- A strict/lenient schema switch, and defaults for `Amount` and `currency`,
  are not in the source and are not modelled.
