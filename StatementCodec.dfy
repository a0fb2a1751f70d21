/** The entry's line formats: `to_csv` (the file format written since
    version 1.30), `from_csv` and its two decoders, `from_csv_v1_10` for the
    unquoted format of version 1.10 and `from_csv_v1_20` for the quoted format
    of versions 1.20 to 1.40. A decoder fills in the fields of an existing
    entry, so the fields it does not read keep the entry's values. */
module StatementCodec {
  import opened Outcomes
  import opened Text
  import opened Numerals
  import opened Dates
  import opened Csv
  import opened StatementData

  /** `'*'` for a set inclusion flag, empty otherwise. */
  function FlagText(b: bool): string
  {
    if b then "*" else ""
  }

  /** `'{}'.format(b)` for a boolean. */
  function BoolText(b: bool): string
  {
    if b then "True" else "False"
  }

  /** The ten fields of `to_csv`, in order. */
  function CsvFields(e: Entry): (fs: seq<string>)
    ensures |fs| == 10
  {
    [TypeName(e.entryType), MoneyText(e.amount), MoneyText(e.balance), DateText(e.date),
     IntToString(e.weekNo), IntToString(e.seqNo), FlagText(e.includedWeekly),
     FlagText(e.includedMonthly), e.description, BoolText(e.userExcluded)]
  }

  /** `to_csv`: the ten fields, each in double quotes, separated by commas. */
  function ToCsv(e: Entry): string
  {
    QuotedLine(CsvFields(e))
  }

  /** `ts[i]`, or `IndexError` past the end. */
  function Field(ts: seq<string>, i: nat): (r: Result<string>)
    ensures r.Ok? <==> i < |ts|
    ensures r.Ok? ==> r.value == ts[i]
    ensures r.Raise? ==> r.fault == IndexError
  {
    if i < |ts| then Ok(ts[i]) else Raise(IndexError)
  }

  /** `int(s)`. */
  function Int(s: string): Result<int>
  {
    OrValueError(ParseInt(s))
  }

  /** `locale.atof(s)`, in pence. */
  function Money(s: string): (r: Result<int>)
    ensures r.Raise? ==> r.fault == ValueError
  {
    OrValueError(ParseMoney(s))
  }

  /** `s.replace('£', '').replace(',', '')`. */
  function CleanMoney(s: string): string
  {
    Remove(Remove(s, '£'), ',')
  }

  /** `ds = word.split('/')` then `datetime.date(int(ds[2]), int(ds[1]), int(ds[0]))`,
      evaluated left to right. */
  function DecodeDate(word: string): Result<CalendarDate>
  {
    var ds := Split(word, '/');
    var ys :- Field(ds, 2);
    var y :- Int(ys);
    var ms :- Field(ds, 1);
    var m :- Int(ms);
    var dds :- Field(ds, 0);
    var d :- Int(dds);
    MakeDate(y, m, d)
  }

  /** The body of `from_csv_v1_10` up to its `except ValueError`: the line is
      cut at its first six commas. */
  function DecodeV110(base: Entry, line: string): (r: Result<Entry>)
    ensures r.Ok? ==> r.value.includedWeekly == base.includedWeekly && r.value.includedMonthly == base.includedMonthly
    ensures r.Ok? ==> r.value.isNew == base.isNew && r.value.userExcluded == base.userExcluded
    ensures r.Ok? ==> var ts := SplitMax(line, ',', 6);
      |ts| == 7 && r.value.entryType == FromStr(Strip(ts[0])) && r.value.description == Strip(ts[6])
      && Money(CleanMoney(ts[1])) == Ok(r.value.amount) && Money(CleanMoney(ts[2])) == Ok(r.value.balance)
      && |Split(Strip(ts[3]), ' ')| >= 2 && DecodeDate(Split(Strip(ts[3]), ' ')[1]) == Ok(r.value.date)
      && Int(ts[4]) == Ok(r.value.weekNo) && Int(ts[5]) == Ok(r.value.seqNo)
  {
    DecodeFieldsV110(base, SplitMax(line, ',', 6))
  }

  /** The fields of a version 1.10 line, read in order. */
  function DecodeFieldsV110(base: Entry, ts: seq<string>): (r: Result<Entry>)
    requires |ts| >= 1
    ensures r.Ok? ==> r.value.includedWeekly == base.includedWeekly && r.value.includedMonthly == base.includedMonthly
    ensures r.Ok? ==> r.value.isNew == base.isNew && r.value.userExcluded == base.userExcluded
    ensures r.Ok? ==> |ts| >= 7 && r.value.description == Strip(ts[6]) && r.value.entryType == FromStr(Strip(ts[0]))
    ensures r.Ok? ==> Money(CleanMoney(ts[1])) == Ok(r.value.amount) && Money(CleanMoney(ts[2])) == Ok(r.value.balance)
    ensures r.Ok? ==> |Split(Strip(ts[3]), ' ')| >= 2 && DecodeDate(Split(Strip(ts[3]), ' ')[1]) == Ok(r.value.date)
    ensures r.Ok? ==> Int(ts[4]) == Ok(r.value.weekNo) && Int(ts[5]) == Ok(r.value.seqNo)
  {
    var entryType := FromStr(Strip(ts[0]));
    var a :- Field(ts, 1);
    var amount :- Money(CleanMoney(a));
    var b :- Field(ts, 2);
    var balance :- Money(CleanMoney(b));
    var c :- Field(ts, 3);
    var word :- Field(Split(Strip(c), ' '), 1);
    var date :- DecodeDate(word);
    var w :- Field(ts, 4);
    var weekNo :- Int(w);
    var s :- Field(ts, 5);
    var seqNo :- Int(s);
    var d :- Field(ts, 6);
    Ok(base.(entryType := entryType, amount := amount, balance := balance, date := date,
             weekNo := weekNo, seqNo := seqNo, description := Strip(d)))
  }

  /** Seven fields that each decode to an entry's value give that entry,
      with the four flags kept from the entry decoded into. */
  lemma DecodeFieldsV110Ok(base: Entry, ts: seq<string>, e: Entry)
    requires |ts| == 7 && FromStr(Strip(ts[0])) == e.entryType
    requires Money(CleanMoney(ts[1])) == Ok(e.amount) && Money(CleanMoney(ts[2])) == Ok(e.balance)
    requires |Split(Strip(ts[3]), ' ')| >= 2 && DecodeDate(Split(Strip(ts[3]), ' ')[1]) == Ok(e.date)
    requires Int(ts[4]) == Ok(e.weekNo) && Int(ts[5]) == Ok(e.seqNo) && Strip(ts[6]) == e.description
    ensures DecodeFieldsV110(base, ts) == Ok(e.(includedWeekly := base.includedWeekly, includedMonthly := base.includedMonthly,
                                                isNew := base.isNew, userExcluded := base.userExcluded))
  {
  }

  /** The body of `from_csv_v1_20` after the line is tokenised, up to its
      `except ValueError`. */
  function DecodeRecordV120(base: Entry, ts: seq<string>): (r: Result<Entry>)
    ensures r.Ok? ==> |ts| >= 9 && r.value.isNew == base.isNew
    ensures r.Ok? ==> r.value.userExcluded == (if |ts| > 9 then ts[9] == "True" else base.userExcluded)
    ensures r.Ok? && Strip(CleanMoney(ts[2])) == "" ==> r.value.balance == 0
    ensures r.Ok? && Strip(CleanMoney(ts[2])) != "" ==> Money(Strip(CleanMoney(ts[2]))) == Ok(r.value.balance)
    ensures r.Ok? ==> r.value.entryType == FromStr(Strip(ts[0])) && Money(Strip(CleanMoney(ts[1]))) == Ok(r.value.amount)
    ensures r.Ok? ==> DecodeDate(Split(Strip(ts[3]), ' ')[0]) == Ok(r.value.date)
    ensures r.Ok? ==> Int(ts[4]) == Ok(r.value.weekNo) && Int(ts[5]) == Ok(r.value.seqNo)
    ensures r.Ok? ==> r.value.includedWeekly == (Strip(ts[6]) == "*") && r.value.includedMonthly == (Strip(ts[7]) == "*")
    ensures r.Ok? ==> r.value.description == Strip(ts[8])
  {
    var f0 :- Field(ts, 0);
    var entryType := FromStr(Strip(f0));
    var f1 :- Field(ts, 1);
    var amount :- Money(Strip(CleanMoney(f1)));
    var f2 :- Field(ts, 2);
    var b := Strip(CleanMoney(f2));
    var balance :- if |b| > 0 then Money(b) else Ok(0);
    var f3 :- Field(ts, 3);
    var date :- DecodeDate(Split(Strip(f3), ' ')[0]);
    var f4 :- Field(ts, 4);
    var weekNo :- Int(f4);
    var f5 :- Field(ts, 5);
    var seqNo :- Int(f5);
    var f6 :- Field(ts, 6);
    var f7 :- Field(ts, 7);
    var f8 :- Field(ts, 8);
    Ok(base.(entryType := entryType, amount := amount, balance := balance, date := date,
             weekNo := weekNo, seqNo := seqNo, includedWeekly := Strip(f6) == "*",
             includedMonthly := Strip(f7) == "*", description := Strip(f8),
             userExcluded := if |ts| > 9 then ts[9] == "True" else base.userExcluded))
  }

  /** The `except ValueError` of the decoders: a `ValueError` becomes the
      result `False` (here `None`), any other exception propagates. */
  function Catch(r: Result<Entry>): (c: Result<Option<Entry>>)
    ensures r.Ok? ==> c == Ok(Some(r.value))
    ensures r.Raise? && r.fault == ValueError ==> c == Ok(None)
    ensures r.Raise? && r.fault != ValueError ==> c == Raise(r.fault)
  {
    match r
    case Ok(e) => Ok(Some(e))
    case Raise(f) => if f == ValueError then Ok(None) else Raise(f)
  }

  /** `from_csv_v1_10`. */
  function FromCsvV110(base: Entry, line: string): Result<Option<Entry>>
  {
    Catch(DecodeV110(base, line))
  }

  /** `from_csv_v1_20`: `csv.Error` raised by the tokeniser is not a
      `ValueError` and propagates. */
  function FromCsvV120(base: Entry, line: string): Result<Option<Entry>>
  {
    var ts :- ReadRecord(line);
    Catch(DecodeRecordV120(base, ts))
  }

  /** `from_csv(line, ver)`, with the version in hundredths (`1.1` is 110).
      Versions other than 1.1, 1.2, 1.3 and 1.4 give a falsy result. */
  function FromCsv(base: Entry, line: string, ver: nat): (r: Result<Option<Entry>>)
    ensures ver != 110 && ver != 120 && ver != 130 && ver != 140 ==> r == Ok(None)
  {
    if ver == 110 then FromCsvV110(base, line)
    else if ver == 120 || ver == 130 || ver == 140 then FromCsvV120(base, line)
    else Ok(None)
  }

  // ---------------------------------------------------------------------
  // Round trip of the quoted format

  /** What the round trip needs of an entry: a description that holds no
      double quote and has no surrounding whitespace. */
  predicate CsvSafe(e: Entry)
  {
    '"' !in e.description && IsStripped(e.description)
  }

  lemma NoQuoteInDigits(s: string)
    requires AllDigits(s)
    ensures '"' !in s && '/' !in s && ' ' !in s
  {
  }

  lemma NoQuoteInMoney(p: int)
    ensures '"' !in MoneyText(p)
  {
    var q: nat := if p < 0 then -p else p;
    GroupedChars(q / 100);
    NoQuoteInDigits(ZeroPad2(q % 100));
    assert '"' !in Grouped(q / 100);
  }

  lemma NoQuoteInInt(i: int)
    ensures '"' !in IntToString(i)
  {
    NatToStringDigits(if i < 0 then -i else i);
    NoQuoteInDigits(NatToString(if i < 0 then -i else i));
  }

  lemma NoQuoteInDate(d: CalendarDate)
    ensures '"' !in DateText(d)
  {
    NoQuoteInDigits(ZeroPad2(d.day));
    NoQuoteInDigits(ZeroPad2(d.month));
    NoQuoteInDigits(ZeroPad2(d.year));
  }

  lemma NoQuotesTen(f0: string, f1: string, f2: string, f3: string, f4: string,
                    f5: string, f6: string, f7: string, f8: string, f9: string)
    requires '"' !in f0 && '"' !in f1 && '"' !in f2 && '"' !in f3 && '"' !in f4
    requires '"' !in f5 && '"' !in f6 && '"' !in f7 && '"' !in f8 && '"' !in f9
    ensures NoQuotes([f0, f1, f2, f3, f4, f5, f6, f7, f8, f9])
  {
  }

  lemma NoQuoteInLabels(e: Entry)
    ensures '"' !in TypeName(e.entryType) && '"' !in BoolText(e.userExcluded)
    ensures '"' !in FlagText(e.includedWeekly) && '"' !in FlagText(e.includedMonthly)
  {
  }

  lemma CsvFieldsNoQuotes(e: Entry)
    requires CsvSafe(e)
    ensures NoQuotes(CsvFields(e))
  {
    NoQuoteInLabels(e);
    NoQuoteInMoney(e.amount);
    NoQuoteInMoney(e.balance);
    NoQuoteInDate(e.date);
    NoQuoteInInt(e.weekNo);
    NoQuoteInInt(e.seqNo);
    NoQuotesTen(TypeName(e.entryType), MoneyText(e.amount), MoneyText(e.balance), DateText(e.date),
                IntToString(e.weekNo), IntToString(e.seqNo), FlagText(e.includedWeekly),
                FlagText(e.includedMonthly), e.description, BoolText(e.userExcluded));
  }

  /** The word before the day name splits back into day, month and year. */
  lemma DecodeDateWord(d: CalendarDate)
    ensures DecodeDate(DateWord(d)) == Ok(d)
  {
    var dd, mm, yy := ZeroPad2(d.day), ZeroPad2(d.month), ZeroPad2(d.year);
    NoQuoteInDigits(dd);
    NoQuoteInDigits(mm);
    NoQuoteInDigits(yy);
    JoinThree(dd, mm, yy, '/');
    SplitJoin([dd, mm, yy], '/');
    ZeroPad2RoundTrip(d.day);
    ZeroPad2RoundTrip(d.month);
    ZeroPad2RoundTrip(d.year);
  }

  lemma JoinTwo(a: string, b: string, c: char)
    ensures Join([a, b], c) == a + [c] + b
  {
    assert [a, b][1..] == [b];
  }

  lemma JoinThree(a: string, b: string, d: string, c: char)
    ensures Join([a, b, d], c) == a + [c] + b + [c] + d
  {
    assert [a, b, d][1..] == [b, d];
    JoinTwo(b, d, c);
  }

  /** The rendered date is already stripped and its first word is the
      `dd/mm/yyyy` part. */
  lemma DateTextWords(d: CalendarDate)
    ensures Strip(DateText(d)) == DateText(d)
    ensures Split(Strip(DateText(d)), ' ')[0] == DateWord(d)
  {
    var w := DateWord(d);
    var n := DayName(Weekday(d));
    var t := DateText(d);
    assert t[0] == w[0] && t[|t| - 1] == n[2];
    assert !IsSpace(t[0]);
    StripStripped(t);
    NoQuoteInDigits(ZeroPad2(d.day));
    NoQuoteInDigits(ZeroPad2(d.month));
    NoQuoteInDigits(ZeroPad2(d.year));
    assert ' ' !in w;
    JoinTwo(w, n, ' ');
    SplitJoin([w, n], ' ');
  }

  /** A record of nine or more fields whose fields read back as the values
      of `e` decodes to `e`, apart from `is_new`, which decoding leaves as it
      was, and, in a nine-field record, `user_excluded`. An empty balance
      field reads as 0. */
  lemma DecodeRecordOk(base: Entry, ts: seq<string>, e: Entry)
    requires |ts| >= 9
    requires FromStr(Strip(ts[0])) == e.entryType
    requires ParseMoney(Strip(CleanMoney(ts[1]))) == Some(e.amount)
    requires if Strip(CleanMoney(ts[2])) == "" then e.balance == 0
             else ParseMoney(Strip(CleanMoney(ts[2]))) == Some(e.balance)
    requires DecodeDate(Split(Strip(ts[3]), ' ')[0]) == Ok(e.date)
    requires ParseInt(ts[4]) == Some(e.weekNo) && ParseInt(ts[5]) == Some(e.seqNo)
    requires (Strip(ts[6]) == "*") == e.includedWeekly && (Strip(ts[7]) == "*") == e.includedMonthly
    requires Strip(ts[8]) == e.description && (|ts| > 9 ==> (ts[9] == "True") == e.userExcluded)
    ensures DecodeRecordV120(base, ts)
            == Ok(e.(isNew := base.isNew, userExcluded := if |ts| > 9 then e.userExcluded else base.userExcluded))
  {
  }

  /** The record of `to_csv` holds the rendered values of the entry. */
  lemma CsvFieldsAre(e: Entry, ts: seq<string>)
    requires ts == CsvFields(e)
    ensures |ts| == 10 && ts[0] == TypeName(e.entryType)
    ensures ts[1] == MoneyText(e.amount) && ts[2] == MoneyText(e.balance) && ts[3] == DateText(e.date)
    ensures ts[4] == IntToString(e.weekNo) && ts[5] == IntToString(e.seqNo)
    ensures ts[6] == FlagText(e.includedWeekly) && ts[7] == FlagText(e.includedMonthly)
    ensures ts[8] == e.description && ts[9] == BoolText(e.userExcluded)
  {
    TenFields(TypeName(e.entryType), MoneyText(e.amount), MoneyText(e.balance), DateText(e.date),
              IntToString(e.weekNo), IntToString(e.seqNo), FlagText(e.includedWeekly),
              FlagText(e.includedMonthly), e.description, BoolText(e.userExcluded));
  }

  lemma TenFields(f0: string, f1: string, f2: string, f3: string, f4: string,
                  f5: string, f6: string, f7: string, f8: string, f9: string)
    ensures var ts := [f0, f1, f2, f3, f4, f5, f6, f7, f8, f9];
      |ts| == 10 && ts[0] == f0 && ts[1] == f1 && ts[2] == f2 && ts[3] == f3 && ts[4] == f4
      && ts[5] == f5 && ts[6] == f6 && ts[7] == f7 && ts[8] == f8 && ts[9] == f9
  {
  }

  /** A record of the rendered values of `e` decodes to `e`, `is_new` apart. */
  lemma RenderedRecordDecodes(base: Entry, e: Entry, ts: seq<string>)
    requires CsvSafe(e)
    requires |ts| == 10 && ts[0] == TypeName(e.entryType)
    requires ts[1] == MoneyText(e.amount) && ts[2] == MoneyText(e.balance) && ts[3] == DateText(e.date)
    requires ts[4] == IntToString(e.weekNo) && ts[5] == IntToString(e.seqNo)
    requires ts[6] == FlagText(e.includedWeekly) && ts[7] == FlagText(e.includedMonthly)
    requires ts[8] == e.description && ts[9] == BoolText(e.userExcluded)
    ensures DecodeRecordV120(base, ts) == Ok(e.(isNew := base.isNew))
  {
    TypeFieldDecodes(e.entryType);
    MoneyFieldDecodes(e.amount);
    MoneyFieldDecodes(e.balance);
    DateFieldDecodes(e.date);
    IntToStringRoundTrip(e.weekNo);
    IntToStringRoundTrip(e.seqNo);
    FlagFieldDecodes(e.includedWeekly);
    FlagFieldDecodes(e.includedMonthly);
    StripStripped(e.description);
    DecodeRecordOk(base, ts, e);
  }

  lemma TypeFieldDecodes(t: EntryType)
    ensures FromStr(Strip(TypeName(t))) == t
  {
    StripStripped(TypeName(t));
    FromStrName(t);
  }

  lemma MoneyFieldDecodes(p: int)
    ensures |Strip(CleanMoney(MoneyText(p)))| > 0 && ParseMoney(Strip(CleanMoney(MoneyText(p)))) == Some(p)
  {
    MoneyRoundTrip(p);
    assert ParseMoney("") == None by {
      StripStripped("");
    }
  }

  lemma DateFieldDecodes(d: CalendarDate)
    ensures DecodeDate(Split(Strip(DateText(d)), ' ')[0]) == Ok(d)
  {
    DateTextWords(d);
    DecodeDateWord(d);
  }

  lemma FlagFieldDecodes(b: bool)
    ensures (Strip(FlagText(b)) == "*") == b
  {
    StripStripped("*");
    StripStripped("");
  }

  /** `from_csv` of a line written by `to_csv`, with or without its line end,
      restores every field of the entry except `is_new`, for every quoted
      version. */
  lemma ToCsvRoundTrip(base: Entry, e: Entry, ver: nat)
    requires CsvSafe(e) && (ver == 120 || ver == 130 || ver == 140)
    ensures FromCsv(base, ToCsv(e), ver) == Ok(Some(e.(isNew := base.isNew)))
    ensures FromCsv(base, ToCsv(e) + "\n", ver) == Ok(Some(e.(isNew := base.isNew)))
  {
    var ts := CsvFields(e);
    CsvFieldsNoQuotes(e);
    ReadQuotedLine(ts);
    CsvFieldsAre(e, ts);
    RenderedRecordDecodes(base, e, ts);
    FromCsvOfRecord(base, ToCsv(e), ts, e.(isNew := base.isNew), ver);
    FromCsvOfRecord(base, ToCsv(e) + "\n", ts, e.(isNew := base.isNew), ver);
  }

  lemma FromCsvOfRecord(base: Entry, line: string, ts: seq<string>, e: Entry, ver: nat)
    requires ver == 120 || ver == 130 || ver == 140
    requires ReadRecord(line) == Ok(ts) && DecodeRecordV120(base, ts) == Ok(e)
    ensures FromCsv(base, line, ver) == Ok(Some(e))
  {
  }

  /** The version 1.10 description is everything after the sixth comma,
      commas included, and the type is read from the first field. */
  lemma V110DescriptionKeepsCommas(base: Entry, parts: seq<string>)
    requires |parts| == 7
    requires forall i :: 0 <= i < 6 ==> ',' !in parts[i]
    requires DecodeV110(base, Join(parts, ',')).Ok?
    ensures DecodeV110(base, Join(parts, ',')).value.description == Strip(parts[6])
    ensures DecodeV110(base, Join(parts, ',')).value.entryType == FromStr(Strip(parts[0]))
  {
    SplitMaxJoin(parts, ',', 6);
  }
}
