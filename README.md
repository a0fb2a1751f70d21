# Money Reckoner ledger engine, modelled in Dafny

This project models the core of the Money Reckoner, a personal ledger. Bank
statement text (Santander current account and Santander credit card) is pasted
in and parsed into statement entries. The entries are kept in one ledger list
ordered by date, then entry type, then statement sequence number. The ledger is
written to and read back from a versioned text file ("Money Reckoner 1.30"). It
is also grouped into weekly and monthly spending summaries.

The model follows the three core files:

- `StatementData.py`: entry types, entries, summaries, the comparison and equality of entries, the field formatters, and the CSV line formats. It is modelled by `StatementData.dfy` and `StatementCodec.dfy`.
- `Database.py`: ordered insertion, reading and writing the ledger file, and the weekly and monthly summaries. It is modelled by `Database.dfy`. The module-level lists and flag of the source become the fields of the class `Database.Ledger`, and its loops become methods with invariants. Each method is proved equal to a specification function, and the properties are proved about those functions.
- `Parsers.py`: recognising a statement, parsing both Santander layouts, week numbers, and the inclusion rules. It is modelled by `Parsers.dfy`.

The Python library behaviour these files rely on is modelled in supporting modules:

- `Text.dfy`: `str.strip`, `split`, `__contains__`, `lower` and `replace`.
- `Numerals.dfy`: `int()`, `'{}'`, `'{:02d}'` and `'{:,.2f}'` formatting, and `locale.atof`.
- `Dates.dfy`: `datetime.date`, `toordinal`, `weekday` and the `timedelta` subtraction.
- `Csv.dfy`: `csv.reader` on one line.
- `Outcomes.dfy`: exceptions as values.

Modelling conventions:

- Money is an integer number of pence. `amount < 0` is a debit.
- A date is a `Date(year, month, day)` value that Python's `datetime.date` accepts. Its ordinal is `toordinal()`, and its weekday is `weekday()`, with Monday as 0.
- An exception is a `Raise(fault)` result, where the fault is `ValueError`, `OverflowError`, `IndexError` or `csv.Error`. A `try … except ValueError` becomes a function that turns `ValueError` into the caller's failure value and lets the other faults through.
- A file is the sequence of its lines, each with its line end, as `readlines()` gives them. Writing a file produces that sequence.

The model follows the code as written, including where it departs from its evident intent:

- Entries are compared on date, type and sequence number only. The week number does not take part, and the sequence number is not inverted for any account.
- The exclusion keywords of the weekly total are matched case-sensitively.
- No lower bound is imposed on amounts.
- Reading accepts the 1.10, 1.20 and 1.30 headers only. Writing uses the 1.30 header.

## Model

| member | source | states |
|---|---|---|
| StatementData.EnumValueInjective | StatementData.py:14-18 | distinct entry types have distinct enum values, so `__lt__` on values is a strict order of types |
| StatementData.FromStrName | StatementData.py:20-43 | `from_str(str(t))` gives back `t` for every entry type, `None` included |
| StatementData.FromStrIgnoresCase | StatementData.py:35-43 | `from_str` gives the same type for a text and its lower-case form |
| StatementData.NewEntry | StatementData.py:137-160 | a fresh entry has no type, zero money, date 2000-01-01, zero week and sequence numbers, an empty description and every flag false |
| StatementData.NewSummary | StatementData.py:50-59 | a fresh summary has an empty id, date 2000-01-01, zero total and transactions, and no entries |
| StatementData.Compare | StatementData.py:502-525 | the result is -1, 0 or 1, and it is 0 exactly when date, type and sequence number all agree (the `__eq__` identity) |
| StatementData.CompareAntisymmetric | StatementData.py:502-525 | swapping the arguments negates the result |
| StatementData.CompareIsKeyOrder | StatementData.py:502-525 | the comparison is the lexicographic order on (date ordinal, enum value, sequence number) |
| StatementData.CompareTransitive | StatementData.py:502-525 | "less than" is transitive |
| StatementData.CompareTransitiveLe | StatementData.py:502-525 | "at most" followed by "less than" gives "less than" |
| StatementData.CompareTransitiveLeRight | StatementData.py:502-525 | "less than" followed by "at most" gives "less than" |
| StatementData.CompareTransitiveLeLe | StatementData.py:502-525 | "at most" is transitive |
| StatementData.CompareSameIdentity | StatementData.py:175-178 | entries equal under `__eq__` compare alike against every third entry |
| StatementData.IsEqualIgnoresOtherFields | StatementData.py:495-499 | `is_equal_statement_entries` ignores description, week number, sequence number and all flags |
| StatementData.IdentityIsNotContent | StatementData.py:495-499 | the ordering identity and the content equality differ: two entries can be equal in content and still ordered apart, and two entries can share an identity and differ in amount |
| StatementCodec.DecodeFieldsV110 | StatementData.py:405-437 | a decoded 1.10 line had at least seven fields: the type is `from_str` of the stripped first field; amount and balance are `atof` of the second and third fields without `£` and commas; the date is the second space-separated word of the stripped fourth field; week and sequence numbers are `int` of the fifth and sixth; the description is the stripped seventh; the flags are not read |
| StatementCodec.DecodeFieldsV110Ok | StatementData.py:405-433 | conversely, seven fields that each decode to an entry's value give that entry, with the flags of the entry decoded into |
| StatementCodec.DecodeV110 | StatementData.py:405-437 | a decoded 1.10 line gives, from the seven parts of `split(',', 6)`, the type, amount, balance, date (second word of the fourth part), week and sequence numbers and description, and leaves the four flags as they were |
| StatementCodec.DecodeRecordV120 | StatementData.py:441-486 | a decoded record had at least nine fields; the type is `from_str` of the stripped first field; the amount is `atof` of the second field without `£`, commas and surrounding whitespace; the balance is `atof` of the cleaned third field, or 0 when that is empty; the date is the first space-separated word of the stripped fourth field; week and sequence numbers are `int` of the fifth and sixth; each inclusion flag is whether its stripped field is `*`; the description is the stripped ninth field; `user_excluded` is taken from a tenth field when there is one and is otherwise left alone; `is_new` is not read |
| StatementCodec.Catch | StatementData.py:435-437 | a successful decode gives the entry, a `ValueError` gives the failure value, and any other exception propagates |
| StatementCodec.FromCsv | StatementData.py:397-401 | a version other than 1.1, 1.2, 1.3 or 1.4 gives a falsy result without reading the line |
| StatementCodec.Field | StatementData.py:447-486 | indexing a token list succeeds exactly inside it, and `IndexError` is raised past its end |
| StatementCodec.CsvFieldsNoQuotes | StatementData.py:375-386 | for a description without double quotes, no written field contains a double quote |
| StatementCodec.DecodeDateWord | StatementData.py:463-464 | the `dd/mm/yyyy` word written by `date_str` decodes back to the same date |
| StatementCodec.DateTextWords | StatementData.py:234-238 | `date_str` is already stripped, and its first space-separated word is the `dd/mm/yyyy` part |
| StatementCodec.TypeFieldDecodes | StatementData.py:450 | the written type name reads back as the same type |
| StatementCodec.MoneyFieldDecodes | StatementData.py:453-460 | the written amount or balance is non-empty once cleaned, and `atof` reads it back as the same pence |
| StatementCodec.DateFieldDecodes | StatementData.py:463-464 | the written date field reads back as the same date |
| StatementCodec.FlagFieldDecodes | StatementData.py:473-476 | a written inclusion flag reads back as the same boolean |
| StatementCodec.DecodeRecordOk | StatementData.py:441-492 | conversely, nine or more fields that each decode to an entry's value give that entry, an empty balance field standing for 0, with `is_new` kept from the entry decoded into, and `user_excluded` too when there is no tenth field |
| StatementCodec.RenderedRecordDecodes | StatementData.py:441-492 | the ten fields `to_csv` writes decode to the entry that was written |
| StatementCodec.FromCsvOfRecord | StatementData.py:397-401 | for versions 1.2 to 1.4, a line that the csv reader splits into a record that decodes gives that entry |
| StatementCodec.ToCsvRoundTrip | StatementData.py:375-401 | `from_csv(to_csv(e))` gives back `e` for versions 1.2 to 1.4, with or without the line end, for a description without quotes or surrounding whitespace |
| StatementCodec.V110DescriptionKeepsCommas | StatementData.py:410-431 | in a 1.10 line the description keeps its commas, because only the first six commas split the line |
| Csv.ReadQuotedLine | StatementData.py:446-447 | the csv reader reads a line of quoted fields without inner quotes back into those fields, with or without its line end |
| Csv.ReadPlain | StatementData.py:446-447 | an unquoted line without commas, quotes or line breaks is one field, and the empty line is an empty record |
| Csv.ScanQuotedLine | StatementData.py:446-447 | scanning quoted fields saves all but the last field and holds the last one pending |
| Database.Position | Database.py:21-28 | the insertion point: the new entry is greater than every entry before it and at most the entry at it |
| Database.AddStatementEntry | Database.py:20-30 | the insertion loop returns exactly the added flag and list of `Insert` |
| Database.InsertPlacement | Database.py:20-30 | an added entry is spliced in before the first greater entry, after only smaller ones; otherwise the list is unchanged and holds an entry with the same identity |
| Database.InsertCount | Database.py:20-30 | an insertion adds exactly the new entry as a multiset, and a refusal changes nothing |
| Database.InsertKeepsOrder | Database.py:20-30 | insertion keeps a non-decreasing list non-decreasing |
| Database.InsertKeepsStrictOrder | Database.py:20-30 | insertion keeps a strictly increasing list strictly increasing, so the ledger never holds two entries with the same identity |
| Database.InsertAddedIffAbsent | Database.py:21-28 | in an ordered list, an entry is added exactly when no entry with its identity is present |
| Database.InsertAtEnd | Database.py:29-30 | an entry greater than all others is appended |
| Database.InsertAllOrdered | Database.py:120 | re-inserting a strictly ordered run one by one into an empty list rebuilds the run |
| Database.RunsFlatten | Database.py:99-124 | cutting the ledger into runs of equal key and concatenating them gives back the ledger |
| Database.RunsPartition | Database.py:99-124 | every run shares one key, and neighbouring runs have different keys |
| Database.RunsStrictlyOrdered | Database.py:99-124 | every run of a strictly ordered ledger is strictly ordered |
| Database.TotalAppend | Database.py:117-118 | a summary total over two parts is the sum of the parts' totals |
| Database.TotalExcluded | Database.py:117-118 | entries that are not included add nothing to a total |
| Database.WeeklyEntries | Database.py:93-124 | the weekly summaries' entry lists are exactly the runs of equal week number |
| Database.MonthlyEntries | Database.py:128-160 | the monthly summaries' entry lists are exactly the runs of equal month |
| Database.WeeklyPartition | Database.py:93-124 | the weekly summaries partition the ledger into non-empty, maximal, same-week runs, in order |
| Database.MonthlyPartition | Database.py:128-160 | the monthly summaries partition the ledger into non-empty, maximal, same-month runs, in order |
| Database.MonthKeyInjective | Database.py:135 | the `month\year` key of two entries is equal exactly when their month and year are |
| Database.MonthKeyParts | Database.py:135 | the `month\year` key splits at its backslash into the month and the year numerals |
| Database.WeeklyTotals | Database.py:117-119 | each weekly summary counts its entries, and its total is minus the sum of the amounts flagged for the weekly total |
| Database.MonthlyTotals | Database.py:153-155 | each monthly summary counts its entries, and its total is minus the sum of the amounts flagged for the monthly total |
| Database.WeeklyKeys | Database.py:96-114 | a weekly summary's id is its week number and its date the Monday on or before its first entry; a first week numbered 0 keeps the empty id and 2000-01-01 |
| Database.MonthlyKeys | Database.py:135-150 | a monthly summary's id is `month\year` of its entries and its date the first of that month |
| Database.WeeklyStep | Database.py:99-120 | one pass of the weekly loop extends the summaries of a prefix to the summaries of the prefix one entry longer |
| Database.MonthlyStep | Database.py:134-156 | one pass of the monthly loop extends the summaries of a prefix to the summaries of the prefix one entry longer |
| Database.Accumulate | Database.py:116-120 | accumulating an entry subtracts its amount when it is included, counts one more transaction and inserts it in order, keeping the id and date |
| Database.WeeklyVisit | Database.py:100-120 | the body of the weekly loop: the closed summaries plus the open one are the summaries of the prefix read so far |
| Database.CollectWeekly | Database.py:93-124 | the weekly loop computes `WeeklySummaries` of the ledger |
| Database.MonthlyVisit | Database.py:134-156 | the body of the monthly loop: the closed summaries plus the open one are the summaries of the prefix read so far |
| Database.CollectMonthly | Database.py:128-160 | the monthly loop computes `MonthlySummaries` of the ledger |
| Database.HeaderVersion | Database.py:42-49 | a header line without its last character is recognised exactly when it names version 1.10, 1.20 or 1.30, and it gives that version |
| Database.ReadNeedsHeader | Database.py:42-49 | a successful read implies the file starts with a recognised header |
| Database.LoadLinesKeeps | Database.py:52-59 | loading lines keeps the ledger strictly ordered and never drops an entry, even when loading stops early |
| Database.LoadOne | Database.py:53-56 | a line that decodes to an entry beyond the ledger's last one appends it and loading goes on |
| Database.LoadLine | Database.py:53-59 | one pass of the load loop: either it moves on to the next line with the same outcome ahead, or it stops with the final outcome |
| Database.WriteLine | Database.py:80-82 | one pass of the write loop extends the file lines of a prefix by that entry's line |
| Database.WriteReadRoundTrip | Database.py:74-82 | reading back the written file of a strictly ordered ledger succeeds and gives the same entries, with `is_new` cleared, provided no description holds a double quote, a carriage return or a line feed, or has surrounding whitespace |
| Database.Ledger.constructor | Database.py:9-14 | the ledger starts empty and clean, with no summaries |
| Database.Ledger.NextSeqNo | Parsers.py:74 | the sequence counter moves up by one and its new value is returned; nothing else changes |
| Database.Ledger.SetDirty | Parsers.py:27 | the ledger is marked dirty; nothing else changes |
| Database.Ledger.Add | Database.py:20-30 | the ledger list becomes the ordered insertion of the entry, and the add result is reported |
| Database.Ledger.ReadFile | Database.py:35-62 | the entries and result become those of reading the lines onto the current ledger; the summaries, flag and counter are untouched |
| Database.Ledger.WriteFile | Database.py:74-82 | the written lines are the 1.30 header followed by each entry's line |
| Database.Ledger.GenerateWeeklySummaries | Database.py:93-124 | the weekly summaries are replaced by `WeeklySummaries` of the ledger, and nothing else changes |
| Database.Ledger.GenerateMonthlySummaries | Database.py:128-160 | the monthly summaries are replaced by `MonthlySummaries` of the ledger, and nothing else changes |
| Parsers.EpochIsMonday | Parsers.py:154 | 5 January 2015 is a Monday |
| Parsers.WeeksTowardZero | Parsers.py:155 | `int(x / 7)` truncates toward zero, for negative day counts as well as positive ones |
| Parsers.WeekNoExamples | Parsers.py:153-155 | week 0 runs from 30 December 2014 to 11 January 2015 |
| Parsers.WeekNoFromEpoch | Parsers.py:153-155 | on or after the epoch, the week number is the number of whole weeks since 5 January 2015 |
| Parsers.WeekZeroSpan | Parsers.py:153-155 | week 0 is exactly the 13 days within six days of the epoch, because of truncation toward zero |
| Parsers.WeekNoMonotone | Parsers.py:153-155 | a later date never has a smaller week number |
| Parsers.WeekNoMonday | Parsers.py:153-155 | on or after the epoch, the Monday starting an entry's week is the epoch plus seven days per week number |
| Parsers.ContainsAnyIff | Parsers.py:158-168 | a description matches the exclusion list exactly when it contains one of the keywords |
| Parsers.WeeklyIncludedIff | Parsers.py:158-169 | an entry counts weekly exactly when it is a debit and its description contains none of the ten keywords |
| Parsers.IncludedOnlyDebits | Parsers.py:158-173 | only debits count weekly, and an entry counts monthly exactly when it is a current-account debit |
| Parsers.Amount | Parsers.py:68-71 | the amount is the money column when it is non-empty, and otherwise minus the next column; a missing column raises `IndexError` and a bad number `ValueError` |
| Parsers.Described | Parsers.py:59-66 | a parsed entry's flags are computed before its amount is set, so both inclusion flags are false |
| Parsers.DecodeCurrentAccountRow | Parsers.py:51-71 | a decoded current-account row has the row's date, description, cleaned balance and signed amount, the current-account type, the date's week number, and all flags false; a short row raises `IndexError` |
| Parsers.DecodeCreditCardRow | Parsers.py:111-130 | a decoded credit-card row has the row's date, description and signed amount, zero balance, the credit-card type, the date's week number, and all flags false; a short row raises `IndexError` |
| Parsers.DecodeRow | Parsers.py:47-142 | one row of either Santander parser (current account at lines 47-83, credit card at lines 103-142): a credit-card line shorter than 10 characters, or a line whose first field is not three `/`-separated parts, ends the statement; a `ValueError` is caught and also ends it; only `IndexError` and `OverflowError` escape; a decoded row is of the account's type |
| Parsers.OverWideDateRow | Parsers.py:50-58 | a row whose date has a part wider than a C `int` raises `OverflowError`, which the parser does not catch |
| Parsers.ShortCurrentAccountRow | Parsers.py:58-61 | a current-account row with a valid date and fewer than five fields raises `IndexError` out of the parser |
| Parsers.MergeCounts | Parsers.py:73-79 | every decoded row is counted and takes the next sequence number; the ledger grows by that entry exactly when it is new |
| Parsers.MergeKeepsOrder | Parsers.py:76 | merging a row keeps the ledger strictly ordered |
| Parsers.SkipToHeader | Parsers.py:40-46 | lines before the header are ignored |
| Parsers.NoHeaderNoChange | Parsers.py:36-86 | a statement without its header line changes nothing and reports nothing new |
| Parsers.ScanKeepsOrder | Parsers.py:40-83 | parsing keeps the ledger strictly ordered |
| Parsers.ScanCounts | Parsers.py:73-79 | the sequence counter moves once per decoded row, the ledger grows by the new entries, and no entry is lost |
| Parsers.ScanNewcomers | Parsers.py:59-79 | every entry added by parsing is marked new, has both flags false, and has the account's type |
| Parsers.ClassifiedRows | Parsers.py:59-66 | every row the parser decodes is of the account's type, with both flags false |
| Parsers.ParseEffect | Parsers.py:33-86 | a statement parse keeps the ledger ordered, advances the counter by the rows read, only adds new entries of the account's type, and reports true exactly when the ledger grew |
| Parsers.ParseSantander | Parsers.py:33-145 | the loop of either Santander parser leaves the ledger, counter and result of `ParseLines` |
| Parsers.ReadLine | Parsers.py:40-83 | one pass of a parser loop: header, skipped line, merged row, or the stop on a failed row |
| Parsers.TakeRow | Parsers.py:47-79 | a data line is decoded and, when it gives an entry, merged; otherwise nothing changes |
| Parsers.MergeRow | Parsers.py:73-79 | the row takes the next sequence number, is marked new and is inserted, and the counts move as `Merge` says |
| Parsers.RecogniseFirst | Parsers.py:15-24 | the statement kind is that of the first line holding a marker, and none is found exactly when no line holds one |
| Parsers.ParseStatement | Parsers.py:9-30 | the ledger and result are those of `StatementResult`, and the ledger is marked dirty exactly when the result is true |
| Parsers.UnrecognisedChangesNothing | Parsers.py:9-30 | text without any statement marker changes nothing and returns false |
| Parsers.StatementReportsGrowth | Parsers.py:26-30 | for a Santander statement, a true result means exactly that the ledger grew, no entry is lost, and every added entry is new with both flags false |
| Dates.MakeDate | Parsers.py:58 | `datetime.date(y, m, d)` succeeds exactly when the date exists; it raises `OverflowError` exactly when a part does not fit a C `int`, and `ValueError` otherwise |
| Dates.FirstOfMonth | Database.py:150 | the first day of the entry's month and year |
| Dates.OrdinalOrder | StatementData.py:506-509 | date order is ordinal order, and equal ordinals mean equal dates |
| Dates.OrdinalIncreasing | StatementData.py:506-509 | a calendar-earlier date has a smaller ordinal |
| Dates.OrdinalPositive | Parsers.py:155 | every ordinal is at least 1 |
| Dates.PrevDaySpec | Database.py:114 | the day before a date has the ordinal one less, across months and years |
| Dates.MinusDays | Database.py:114 | subtracting `k` days moves the ordinal down by `k` |
| Dates.MondayOnOrBefore | Database.py:114 | `date - timedelta(days=date.weekday())` is a Monday at most six days before the date |
| Dates.MondayIsLatest | Database.py:114 | no Monday between that day and the date is later |
| Dates.DayName | StatementData.py:236-238 | the weekday names are three letters with no space, slash or quote |
| Numerals.IntToStringRoundTrip | StatementData.py:466-470 | `int('{}'.format(i))` gives back `i` for every integer, negative ones included |
| Numerals.ZeroPad2RoundTrip | StatementData.py:237 | `int('{:02d}'.format(n))` gives back `n` |
| Numerals.ZeroPad2Value | StatementData.py:237 | `'{:02d}'` writes the digits of `n` |
| Numerals.GroupedValue | StatementData.py:203 | removing the thousands commas of `'{:,}'` leaves the digits of the number |
| Numerals.PoundsDigits | StatementData.py:203 | `'{:,.2f}'` of pence is the grouped pounds, a point and two pence digits |
| Numerals.MoneyTextDigits | StatementData.py:200-205 | removing `£` and commas from `amount_str` leaves an optional minus and the plain pounds and pence |
| Numerals.PlainPoundsSpec | StatementData.py:203 | the plain pounds-and-pence text begins and ends with a digit and reads back as the same pence |
| Numerals.MoneyRoundTrip | StatementData.py:200-205 | `atof` of `amount_str` with `£` and commas removed, stripped or not, gives back the amount in pence |
| Text.StripSpec | StatementData.py:413 | `strip` leaves no whitespace at either end |
| Text.StripStripped | StatementData.py:413 | `strip` of a stripped text changes nothing |
| Text.SplitJoin | Parsers.py:12 | splitting joined parts without the separator gives back the parts |
| Text.JoinSplit | Parsers.py:12 | joining the split parts gives back the text, and no part holds the separator |
| Text.SplitMaxJoin | StatementData.py:410 | `split(',', 6)` of seven joined parts whose first six hold no comma gives back the parts |
| Text.ContainsSpec | Parsers.py:158-168 | `__contains__` holds exactly when the substring occurs at some position |
| Text.LowerIdempotent | StatementData.py:36-43 | lower-casing twice is lower-casing once |
| Text.RemoveAppend | StatementData.py:415 | `replace(c, '')` distributes over concatenation |

## Left out

- The entry type is one field. In `Parsers.py` the parsers assign `entry_type`, while `StatementData.py` reads and writes `_type`. The model treats both as the same field, which is what the parsers evidently mean.
- `Text.Lower` lower-cases ASCII letters only. Python's `lower` covers all of Unicode, but the three names `from_str` compares with are ASCII.
- `Numerals.ParseMoney` models `locale.atof` for a sign, digits and an optional point with at most two decimals. Exponents, `inf`, `nan`, underscores, more decimals and locale grouping are rejected as `ValueError`. Non-ASCII decimal digits, which `float` accepts, are rejected too. Amounts are exact pence rather than floats.
- `Numerals.ParseInt` models `int()` for surrounding whitespace, an optional sign and ASCII digits. Underscores and non-ASCII digits are rejected, where `int()` accepts them.
- `Csv.ReadRecord` models `csv.reader` on a single line with the default dialect. It does not model multi-line quoted fields or the reader's other options. It does not model the `csv.Error` raised for a field longer than `field_size_limit()` (131072 characters by default), so `StatementCodec.ToCsvRoundTrip` and `Database.WriteReadRoundTrip` also hold in the source only for descriptions within that limit.
- Entries are values. The ledger list and the summary buckets share entry objects in the source. The model copies them, so aliasing is not modelled. Nothing in the core mutates an entry after it is stored.
- `Parsers.MergeRow` marks a row as new before inserting it, where the source marks it after `add_statement_entry` succeeds. The two are equivalent because the comparison ignores `is_new`, and a refused row is discarded.
- File access is a sequence of lines. `open`, `readlines`, `write`, and the `FileNotFoundError` and `RuntimeError` handlers of `read_file` and `write_file` are not modelled. An unrecognised header is the result `Ok(false)` with nothing loaded. A file without a first line raises `IndexError`.
- `Database.Ledger.WriteFile` returns the lines written. The source's `write_file` returns `None` on success.
- Logging (`Logger.py`) is left out, because it only records messages.
- `Main.py` (the user interface), `Data.py` and `StatementEntry.py` are not part of this model.
- `Database.py` does not define `next_seq_no`, `set_dirty` or `get_is_dirty`, although `Parsers.py` calls the first two. They are modelled as a counter field and a flag field of `Database.Ledger`.
- A decoder that fails part-way has already assigned some fields of its entry in the source. That entry is fresh and is discarded on failure, so the partial state is never observable; the model returns a result value instead.
- A first weekly summary whose entries have week number 0 keeps the default id `""` and date 2000-01-01, because `week_no` starts at 0 in the source. This is modelled as written (see `Database.WeeklyKeys`).
- The monthly grouping is proved on the pair (month, year). `Database.MonthKeyInjective` shows that this pair is equivalent to the source's `month\year` text key.
- The loop bodies are written as separate methods (`Database.WeeklyVisit`, `Database.MonthlyVisit`, `Database.LoadLine`, `Database.WriteLine`, `Parsers.ReadLine`, `Parsers.TakeRow`, `Parsers.MergeRow`), each with the contract of one pass.
- The parsers decode each line through a pure classified view of the statement lines. The result is the same as decoding inside the loop, because decoding reads nothing else.
- The CashPlus parser is a stub in the source that returns `True`. It is modelled as that: the statement counts as new data and the ledger is marked dirty.
- The display getters of `StatementSummary` and `StatementEntry` that `to_csv` does not use are left out, and so is `included_summary`. They only format values.
- `from_csv` accepts version 1.4, but `read_file` never passes it because it recognises no 1.40 header. Both behaviours are modelled as written.
- `Parsers.DecodeCurrentAccountRow`: the `float` money of the source is exact pence here, so rounding of amounts with more than two decimals is not modelled.
- A debit column of `£0.00` gives the float `-0.0` in the source, which `amount_str` renders as `£-0.00` because `-0.0 < 0` is false. In the model the amount is the integer 0, which is written as `£0.00`. Both read back as zero.
- The entry's `_index` field, its position in the ledger list, is left out. The core sets it to -1 and never reads it.
- A description holding a carriage return or a line feed is written inside one line by `write_file`, but `readlines` in text mode splits it into several lines. The model reads exactly the lines written. `Database.WriteReadRoundTrip` therefore requires descriptions without line breaks (`Database.SingleLine`), and what the source reads back from such a file is not modelled.
