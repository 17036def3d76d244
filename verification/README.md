# Personal ledger: the record store and its input rules

A Dafny model of a command-line personal ledger. The ledger keeps income (收入)
and expense (支出) records, each with a date, a category, an amount and a
description. The model covers:

- `Account` in account.py:
  - the ordered record list;
  - the month index (`date_index`, keyed by "YYYY-MM") and the category index
    (`category_index`), both derived from that list;
  - the index build run after loading;
  - `add_record`;
  - `query_records`, including the month walk between two dates;
  - `calculate_total`;
  - the per-object decisions of `load_records`;
  - the date text written by `save_records`.
- The input rules of main.py:
  - `get_valid_date` (strip, `strptime("%Y-%m-%d")`, then the explicit month
    and day checks);
  - the positivity rule of `get_valid_number`;
  - the checks on the "add a record" path: category and description.

Everything is functional. The account is an immutable value. Each operation
returns the new account, or an error value where Python raises. `Consistent`
says the indexes are what a replay of the record list gives, and every
operation that changes the account is proved to preserve it.

Modules, one per file:

- `Results`: option and result types.
- `Calendar`: `datetime.date` and its year-month keys.
- `Records`: the `Record` datatype of record.py and the two category names.
- `Selection`: an order-preserving filter and its laws. Indexes, queries and
  totals are all specified with it.
- `Ledger`: account state, index build, `add_record`.
- `Queries`: `query_records`.
- `Totals`: `calculate_total`.
- `DateText`: `strftime`/`strptime` for dates.
- `Persistence`: load and save.
- `Menu`: the input rules of main.py.
- `Scenarios`: worked cases of the ledger's behaviour.
- `Sequences`: sequence-splitting facts used by the proofs.

Behaviour of the code worth noting:

- **A date field that is not a string aborts the whole load.** So does an
  object whose keys do not fit `Record(**data)`. Python raises `TypeError`
  there, which the per-record `except ValueError` does not catch. The outer
  `except Exception` then returns an empty list, discarding records already
  read (account.py:67-86). Only a missing date, or one `strptime` rejects, is
  skipped.
- **When both dates are given, the query ignores the category.** Its candidates
  are re-drawn from the month index (account.py:182-199). The model keeps this
  behaviour.
- **A month walk ending in December 9999 fails.** It has to build
  `date(10000, 1, 1)`, which raises (account.py:189-194). `Query` returns
  `Err(YearOutOfRange)` there.
- **The order of months in the two-bound query is not fixed.** The months come
  from a Python `set`, so the order in which their buckets are concatenated is
  unspecified. The model gathers them in calendar order, but its contracts for
  that case state the result only up to order (as a multiset).

## Model

| member | source | states |
|---|---|---|
| `Calendar.IsLeap` | main.py:65 | A year is leap when it is divisible by 4 but not by 100, or divisible by 400, and in no other case. |
| `Calendar.DaysInMonth` | main.py:61-70 | The month table gives 28 to 31 days, and gives 29 exactly for February of a leap year. |
| `Calendar.YearLength` | main.py:63-67 | The month table adds up to 366 days in a year the leap rule calls leap and 365 otherwise. |
| `Calendar.NextMonth` | account.py:189-194 | The step after a valid month is a valid month, exactly one calendar month later (December is followed by January of the next year). |
| `Menu.CalendarCheck` | main.py:55-70 | The if-chain of explicit checks accepts a (month, day) exactly when the month is 1..12 and the day is 1..the month table's length, for every year from 1 on. |
| `DateText.ParseDate` | account.py:69 | An accepted text is 8 to 10 characters long, has four digits and a '-' before the month, and its year is the number those four digits spell. |
| `DateText.ParseFormat` | account.py:97 | Parsing the "YYYY-MM-DD" text of any date gives that date back. |
| `DateText.FormatParse` | account.py:69 | A ten-character text that parses, with no space before the day, is exactly the formatted text of the date it denotes. |
| `DateText.MonthKeyTextOfDate` | account.py:40 | The "YYYY-MM" key text of a date is the first seven characters of its "YYYY-MM-DD" text, and two months have the same key text only if they are the same month. |
| `Selection.Select` | account.py:204-206 | The filter keeps exactly the records that are in the list and meet the criterion, and never returns more records than it was given. |
| `Ledger.Empty` | account.py:34-36 | No month buckets and two empty category buckets are the consistent indexes of an empty list. |
| `Ledger.IndexRecord` | account.py:38-47 | One step of the index build appends the record to the list and keeps the indexes consistent. |
| `Ledger.BuildIndexes` | account.py:31-47 | The build leaves the record list as loaded, and its indexes equal a replay of that list. |
| `Ledger.IndexedRecord` | account.py:34-47 | In consistent indexes, a record is in a month bucket exactly when it is in the list and dated in that month. It is in a category bucket exactly when it is in the list with that category. So it is in some category bucket exactly when its category is 收入 or 支出. |
| `Ledger.ConsistentUnique` | account.py:31-47 | Two consistent accounts with the same record list are equal, indexes included. |
| `Ledger.AddRecord` | account.py:129-146 | Refused exactly for an unrecognised category (checked first) or an amount ≤ 0, and then nothing changes. Otherwise, it appends one record at the end of the list, appends it to the end of its month bucket (created if absent) and to its category bucket, leaves every other bucket as it was, and keeps the indexes consistent. |
| `Ledger.AddMatchesRebuild` | account.py:135-146 | After a successful add, the account equals a full index rebuild over the new record list. |
| `Queries.MonthKeys` | account.py:184-194 | With start at or before end, the walk yields every month from start's through end's, each once, in calendar order. With start after end it yields nothing. It fails exactly when it must step past December 9999. |
| `Queries.Query` | account.py:172-208 | Every returned record lies within the given bounds. Two crossed bounds give an empty result. The query fails only for a two-bound walk ending in December 9999. |
| `Queries.QueryWithoutBothBounds` | account.py:172-206 | Without both bounds, the result is the list narrowed by a given, recognised category, then filtered by the bound, in list order. With no bounds it is the narrowed list itself. None, "" or an unrecognised category narrow nothing. |
| `Queries.QueryBothBounds` | account.py:182-206 | With both bounds, the result holds each record of the whole list that lies within the bounds, as often as it occurs there, whatever the category. |
| `Queries.RangeWithinWalk` | account.py:184-199 | Every record within two bounds is dated in one of the months the walk visits, so the buckets gathered never miss one. |
| `Totals.CalculateTotal` | account.py:217-225 | The loop returns income minus expense over the records in scope: all records when no category is given, else those of exactly that category. |
| `Totals.RunningTotalIsTotal` | account.py:218-224 | The loop's per-record accumulation equals the income-minus-expense definition of the total. |
| `Totals.TotalSplitsByCategory` | account.py:219-224 | The overall total is the income total plus the expense total. |
| `Totals.TotalOfUnrecognisedCategory` | account.py:219-224 | A given category other than 收入 and 支出 totals zero. |
| `Totals.TotalSigns` | account.py:221-224 | With positive amounts, the income total is ≥ 0 and the expense total is ≤ 0. Each is nonzero exactly when a record of that category exists. |
| `Persistence.Decode` | account.py:66-77 | An object is skipped exactly when it has no date or `strptime` rejects its date. It aborts the load exactly when its date is not text, or parses but its keys do not fit a record. Otherwise it is kept as the record of the parsed date with its own category, amount and description. |
| `Persistence.LoadItems` | account.py:64-79 | The loading loop aborts exactly when some object has a non-text date, or a parsable date but keys that do not fit a record. Otherwise it keeps at most one record per object. |
| `Persistence.Load` | account.py:50-86 | An absent or unreadable file loads no records, and so does one where the loop aborts. Otherwise the load is exactly what the per-object loop kept. |
| `Persistence.Save` | account.py:95-103 | Saving writes one object per record, in order, and each object decodes back to its own record. |
| `Persistence.SaveLoad` | account.py:64-103 | Loading what was saved gives back the same records in the same order. |
| `Persistence.Open` | account.py:22-29 | Opening a file gives the loaded records with consistent indexes. |
| `Persistence.ReopenAfterSave` | account.py:27-29 | Reopening the file written from a consistent account reproduces that account, indexes included. |
| `Persistence.LoadItemsConcat` | account.py:64-77 | Loading two runs of objects is loading each run and concatenating, so kept records keep their relative order. |
| `Persistence.DropUndated` | account.py:66-77 | An object with no date, or an unparsable one, changes nothing about what the other objects load. |
| `Menu.Strip` | main.py:43 | Stripping leaves no whitespace at either end, and the result is empty exactly when the line is all whitespace. |
| `Menu.StripKeepsMiddle` | main.py:43 | What stripping keeps is the line itself minus a leading and a trailing run of whitespace. |
| `Menu.AcceptDateLine` | main.py:43-72 | A date is accepted only from a line that is not blank. |
| `Menu.DateChecksAddNothing` | main.py:50-72 | A line is accepted exactly when its stripped text parses: the explicit checks never reject a date `strptime` accepted. |
| `Menu.FirstAccepted` | main.py:42-79 | The prompt loop returns the first accepted attempt; every earlier attempt was rejected. It is still prompting exactly when no attempt was accepted. |
| `Menu.ValidDateFirst` | main.py:36-79 | `get_valid_date` returns the date of the first line accepted, after rejecting every earlier line. It is still prompting exactly when no line typed was accepted. |
| `Menu.ValidNumber` | main.py:88-93 | The amount returned is positive and is one of the numbers typed. None is returned exactly when every number typed is ≤ 0. |
| `Menu.ValidNumberFirst` | main.py:81-93 | The amount returned is the first positive number typed: every number typed before it was ≤ 0. |
| `Menu.Description` | main.py:113-115 | The stored description is never empty and has no whitespace at its ends. A blank line gives "无". Any other line gives its stripped text. |
| `Menu.MenuAdd` | main.py:102-117 | The add path stops for an empty category or one that is neither 收入 nor 支出, before asking for an amount. It adds exactly when a date, a recognised category and a positive amount were obtained. The record added is appended at the end and carries exactly that date, that category, that amount and the description rule's text. The indexes stay consistent. |
| `Scenarios.TotalOfIncomeAndExpense` | account.py:217-225 | Income 500 and expense 200 total 300, and -200 for the expense category alone. |
| `Scenarios.QueryByCategory` | account.py:175-176 | With one income and one expense recorded, a query by the income category returns exactly the income record. |
| `Scenarios.QueryFebruaryToApril` | account.py:182-206 | Records of 15 January and 10 March: a query from 1 February to 1 April returns only the March record. |
| `Scenarios.RejectedAdds` | account.py:129-132 | An add with category "Gift", or with amount 0 or -5, is refused and leaves the account unchanged. |
| `Scenarios.LoadSkipsUndated` | account.py:75-77 | A file with one well-formed object and one without a date loads exactly the one record. |

## Left out

- File I/O is not modelled: `os.path.exists`, `open`, `json.load`/`json.dump`, `os.makedirs` and the `.bak` copy. A file that is absent or is not valid JSON is `None` in `Persistence.Load`. The `.bak` file is a copy of the file just written, not of the previous content, and has no effect on the record store.
- `print` logging and the warnings printed for skipped objects are not modelled.
- Save failures, swallowed by `except Exception`, are not modelled.
- The `profile` timing decorator only measures time and prints.
- app.py (the dashboard) is not part of this model. It does not use the record store.
- The interactive loop of main.py is modelled only through its inputs: `input()`, the menu dispatch, and the query and total menu choices are not modelled. The query choice parses its dates with `strptime` outside any handler (main.py:122-125), so a malformed date there ends the program. The total choice (main.py:133-136) parses nothing. Input lines and already-converted numbers are parameters.
- `get_valid_number`'s `float()` conversion is not modelled, so amounts are exact `real`s. Float rounding, NaN and infinity are outside the model.
- `KeyboardInterrupt` is not modelled. A Ctrl-C at the date prompt itself (main.py:43, before the `try` of main.py:48) propagates out of `get_valid_date` and `main`. Only an interrupt while main.py:49-72 runs reaches the handler at main.py:75-77, which returns `None`; the add path would then pass `None` on to `add_record`. The model's `AwaitingDate` stands for "no date obtained yet".
- `Persistence.Decode`: an object's JSON value types are not modelled. Category, amount and description are kept as given. An object that is not a JSON object at all, or a file whose top level is not a list, is not modelled either.
- `DateText.ParseDate`: `strptime`'s `\d` also matches non-ASCII Unicode digits. The model accepts ASCII digits only.
- `DateText.FormatDate`: the year is assumed to be zero-padded to four digits. Some C libraries print years below 1000 without padding, and such dates would then not load back.
- `Selection.Select`: its contract states membership only. Order and multiplicity come from its definition (a filter in list order), which the other lemmas use.
- `Queries.QueryBothBounds`: the result is stated as a multiset, because the month keys come from a Python `set` and bucket order is unspecified.
- `DateText.FormatParse`: requires a ten-character text with no space before the day. `strptime` also accepts unpadded forms such as "2024-3-5", which format back as "2024-03-05".
