/** The statement parsers: text pasted from a bank's web page is recognised
    by a marker line, and the rows of a Santander current-account or
    credit-card statement are turned into entries and merged into the
    ledger. Also the week number of a date and the two inclusion rules. */
module Parsers {
  import opened Outcomes
  import opened Text
  import opened Dates
  import opened StatementData
  import opened StatementCodec
  import opened Database

  // ---------------------------------------------------------------------
  // Week numbers

  /** The ordinal of Monday 5 January 2015, the first day of week 0. */
  const EpochOrdinal := 735603

  lemma EpochIsMonday()
    ensures Ordinal(Date(2015, 1, 5)) == EpochOrdinal && Weekday(Date(2015, 1, 5)) == 0
  {
  }

  /** Python's `int(days / 7)`: the quotient rounded toward zero. */
  function WeeksTowardZero(days: int): (w: int)
    ensures days >= 0 ==> 0 <= w && 7 * w <= days < 7 * w + 7
    ensures days < 0 ==> w <= 0 && 7 * w - 7 < days <= 7 * w
  {
    if days >= 0 then days / 7 else -((-days) / 7)
  }

  /** `calculate_week_no`: whole weeks from Monday 5 January 2015, rounded
      toward zero. */
  function CalculateWeekNo(d: CalendarDate): int
  {
    WeeksTowardZero(Ordinal(d) - EpochOrdinal)
  }

  /** The epoch's own week and its neighbours. */
  lemma WeekNoExamples()
    ensures CalculateWeekNo(Date(2015, 1, 5)) == 0
    ensures CalculateWeekNo(Date(2015, 1, 11)) == 0
    ensures CalculateWeekNo(Date(2015, 1, 12)) == 1
    ensures CalculateWeekNo(Date(2014, 12, 30)) == 0
    ensures CalculateWeekNo(Date(2014, 12, 29)) == -1
  {
  }

  /** From the epoch on, the week number is the floor of the days elapsed
      over seven. */
  lemma WeekNoFromEpoch(d: CalendarDate)
    requires Ordinal(d) >= EpochOrdinal
    ensures CalculateWeekNo(d) == (Ordinal(d) - EpochOrdinal) / 7
  {
    var days := Ordinal(d) - EpochOrdinal;
    var w := CalculateWeekNo(d);
    assert 7 * w <= days < 7 * w + 7;
    assert days == 7 * (days / 7) + days % 7;
  }

  /** Before the epoch the quotient is rounded up, toward zero: week 0 runs
      over the thirteen days from 30 December 2014 to 11 January 2015. */
  lemma WeekZeroSpan(d: CalendarDate)
    ensures CalculateWeekNo(d) == 0 <==> EpochOrdinal - 6 <= Ordinal(d) <= EpochOrdinal + 6
  {
    var days := Ordinal(d) - EpochOrdinal;
    var w := CalculateWeekNo(d);
    if days >= 7 {
      assert w >= 1;
    } else if days <= -7 {
      assert w <= -1;
    }
  }

  /** A later date never has a smaller week number. */
  lemma WeekNoMonotone(a: CalendarDate, b: CalendarDate)
    requires a == b || Before(a, b)
    ensures CalculateWeekNo(a) <= CalculateWeekNo(b)
  {
    OrdinalOrder(a, b);
  }

  /** From the epoch on, week `w` starts on the Monday `7 * w` days after the
      epoch: the Monday a weekly summary of that week is dated. */
  lemma WeekNoMonday(d: CalendarDate)
    requires Ordinal(d) >= EpochOrdinal
    ensures Ordinal(MondayOnOrBefore(d)) == EpochOrdinal + 7 * CalculateWeekNo(d)
  {
    assert Weekday(MondayOnOrBefore(d)) == 0;
    SameMonday(Ordinal(d), Ordinal(MondayOnOrBefore(d)), CalculateWeekNo(d));
  }

  /** The only Monday in the six days up to ordinal `o` is the start of
      the week `w` that `o` falls in. */
  lemma SameMonday(o: int, m: int, w: int)
    requires (m + 6) % 7 == 0 && o - 6 <= m <= o
    requires 7 * w <= o - EpochOrdinal < 7 * w + 7
    ensures m == EpochOrdinal + 7 * w
  {
    var s := EpochOrdinal + 7 * w;
    assert s + 6 == 7 * (105087 + w);
    MondaysApart(m, s);
    MondaysApart(s, m);
  }

  // ---------------------------------------------------------------------
  // Inclusion rules

  /** The description fragments that keep an entry out of the weekly totals. */
  const WeeklyExclusions: seq<string> := [
    "LEEDS BUILDING SOC", "CASHPLUS", "EDF ENERGY", "WILTSHIRE COUNCIL", "BT GROUP PLC",
    "CAMELOT LOTTERY", "BRISTOLWESSEXWATER", "SANTANDERCARDS", "WINDOW PAYNE", "INITIAL BALANCE"]

  /** Whether `s` holds any of `keys`, tried in order. */
  predicate ContainsAny(s: string, keys: seq<string>)
    decreases |keys|
  {
    |keys| > 0 && (Contains(s, keys[0]) || ContainsAny(s, keys[1..]))
  }

  lemma {:induction false} ContainsAnyIff(s: string, keys: seq<string>)
    ensures ContainsAny(s, keys) <==> exists k :: k in keys && Contains(s, k)
    decreases |keys|
  {
    if |keys| > 0 {
      ContainsAnyIff(s, keys[1..]);
      if Contains(s, keys[0]) {
        assert keys[0] in keys;
      } else if exists k :: k in keys && Contains(s, k) {
        var k :| k in keys && Contains(s, k);
        assert k in keys[1..];
      }
    }
  }

  /** `is_weekly_included`: the ten `not ... in description` tests, then the
      sign of the amount. */
  predicate IsWeeklyIncluded(e: Entry)
  {
    !ContainsAny(e.description, WeeklyExclusions) && e.amount < 0
  }

  /** `is_monthly_included`. */
  predicate IsMonthlyIncluded(e: Entry)
  {
    e.amount < 0 && e.entryType == SantanderCurrentAccount
  }

  /** An entry counts in the weekly totals exactly when it is a debit whose
      description holds none of the excluded fragments, matched case by case. */
  lemma WeeklyIncludedIff(e: Entry)
    ensures IsWeeklyIncluded(e) <==>
      e.amount < 0 && forall k :: k in WeeklyExclusions ==> !Contains(e.description, k)
  {
    ContainsAnyIff(e.description, WeeklyExclusions);
  }

  /** Only debits are ever included, and monthly only on the current account. */
  lemma IncludedOnlyDebits(e: Entry)
    ensures IsWeeklyIncluded(e) ==> e.amount < 0
    ensures IsMonthlyIncluded(e) <==> e.amount < 0 && e.entryType == SantanderCurrentAccount
  {
  }

  // ---------------------------------------------------------------------
  // One statement row

  /** The two Santander statements with a row parser. */
  datatype Account = CurrentAccount | CreditCard

  function AccountType(a: Account): EntryType
  {
    match a
    case CurrentAccount => SantanderCurrentAccount
    case CreditCard => SantanderCreditCard
  }

  /** The column header line after which the rows start. */
  function Header(a: Account): string
  {
    match a
    case CurrentAccount => "Date\tDescription\tMoney in\tMoney out\tBalance"
    case CreditCard => "Date\tCard no.\tDescription\tMoney in\tMoney out"
  }

  /** The signed amount of a row from its money-in column `ts[col]` and its
      money-out column `ts[col + 1]`: an empty money-in column means a debit
      of the money-out amount. */
  function Amount(ts: seq<string>, col: nat): (r: Result<int>)
    ensures r.Ok? ==> col < |ts|
    ensures col < |ts| && |ts[col]| > 0 ==> r == Money(CleanMoney(ts[col]))
    ensures col + 1 < |ts| && |ts[col]| == 0 ==> var m := Money(CleanMoney(ts[col + 1]));
              (r.Ok? <==> m.Ok?) && (r.Ok? ==> m.value == -r.value)
    ensures col >= |ts| || (|ts[col]| == 0 && col + 1 >= |ts|) ==> r == Raise(IndexError)
    ensures col < |ts| && (|ts[col]| > 0 || col + 1 < |ts|) && r.Raise? ==> r.fault == ValueError
  {
    if col >= |ts| then Raise(IndexError)
    else if |ts[col]| > 0 then Money(CleanMoney(ts[col]))
    else if col + 1 >= |ts| then Raise(IndexError)
    else
      match Money(CleanMoney(ts[col + 1]))
      case Ok(v) => Ok(-v)
      case Raise(f) => Raise(f)
  }

  /** A fresh entry of account `a` with its date, week number, balance and
      description set, and both inclusion flags worked out while its amount
      is still the default 0, as the parsers do. */
  function Described(a: Account, date: CalendarDate, balance: int, description: string): (e: Entry)
    ensures e.amount == 0 && !e.includedWeekly && !e.includedMonthly && !e.isNew && !e.userExcluded
  {
    var e := NewEntry().(entryType := AccountType(a), balance := balance, date := date,
                          weekNo := CalculateWeekNo(date), description := description);
    e.(includedWeekly := IsWeeklyIncluded(e), includedMonthly := IsMonthlyIncluded(e))
  }

  /** A current-account row, `0 - date, 1 - description, 2 - credit,
      3 - debit, 4 - balance`, read in the order the parser reads it: the
      date, the balance column, then the amount. */
  function DecodeCurrentAccountRow(ts: seq<string>): (r: Result<Entry>)
    requires |ts| >= 1
    ensures r.Raise? ==> r.fault == IndexError || r.fault == ValueError || r.fault == OverflowError
    ensures DecodeDate(ts[0]).Ok? && |ts| < 5 ==> r == Raise(IndexError)
    ensures r.Ok? ==>
      |ts| >= 5 && DecodeDate(ts[0]) == Ok(r.value.date)
      && r.value.entryType == SantanderCurrentAccount && r.value.description == ts[1]
      && Money(CleanMoney(ts[4])) == Ok(r.value.balance) && Amount(ts, 2) == Ok(r.value.amount)
      && r.value.weekNo == CalculateWeekNo(r.value.date) && r.value.seqNo == 0
      && !r.value.includedWeekly && !r.value.includedMonthly && !r.value.isNew && !r.value.userExcluded
  {
    var date :- DecodeDate(ts[0]);
    var b :- Field(ts, 4);
    var balance :- Money(CleanMoney(b));
    var e := Described(CurrentAccount, date, balance, ts[1]);
    var amount :- Amount(ts, 2);
    Ok(e.(amount := amount))
  }

  /** A credit-card row, `0 - date, 1 - card no, 2 - description,
      3 - credit, 4 - debit`: the balance is never read and stays 0. */
  function DecodeCreditCardRow(ts: seq<string>): (r: Result<Entry>)
    requires |ts| >= 1
    ensures r.Raise? ==> r.fault == IndexError || r.fault == ValueError || r.fault == OverflowError
    ensures DecodeDate(ts[0]).Ok? && |ts| < 4 ==> r == Raise(IndexError)
    ensures r.Ok? ==>
      |ts| >= 4 && DecodeDate(ts[0]) == Ok(r.value.date)
      && r.value.entryType == SantanderCreditCard && r.value.description == ts[2]
      && r.value.balance == 0 && Amount(ts, 3) == Ok(r.value.amount)
      && r.value.weekNo == CalculateWeekNo(r.value.date) && r.value.seqNo == 0
      && !r.value.includedWeekly && !r.value.includedMonthly && !r.value.isNew && !r.value.userExcluded
  {
    var date :- DecodeDate(ts[0]);
    var description :- Field(ts, 2);
    var e := Described(CreditCard, date, 0, description);
    var amount :- Amount(ts, 3);
    Ok(e.(amount := amount))
  }

  /** The body of a parser's `try` for one row after the header: `None` ends
      the statement (a credit-card line shorter than ten characters, a first
      column that is not three `/` parts, or a `ValueError`); an `IndexError`
      from a missing column and an `OverflowError` from an over-wide date are
      not caught. */
  function DecodeRow(a: Account, line: string): (r: Result<Option<Entry>>)
    ensures a == CreditCard && |line| < 10 ==> r == Ok(None)
    ensures |Split(Split(line, '\t')[0], '/')| != 3 ==> r == Ok(None)
    ensures r.Raise? ==> r.fault == IndexError || r.fault == OverflowError
    ensures r.Ok? && r.value.Some? ==> RowOf(a, r.value.value)
  {
    if a == CreditCard && |line| < 10 then Ok(None)
    else
      var ts := Split(line, '\t');
      if |Split(ts[0], '/')| != 3 then Ok(None)
      else if a == CurrentAccount then Catch(DecodeCurrentAccountRow(ts))
      else Catch(DecodeCreditCardRow(ts))
  }

  /** What every decoded row has in common: the account's type, no sequence
      number yet, not marked new, and both inclusion flags off. */
  predicate RowOf(a: Account, e: Entry)
  {
    e.entryType == AccountType(a) && e.seqNo == 0 && !e.isNew && !e.includedWeekly && !e.includedMonthly
  }

  /** A current-account row with a good date but fewer than five columns
      raises `IndexError`, which ends the whole parse. */
  lemma ShortCurrentAccountRow(line: string)
    requires var ts := Split(line, '\t');
      |Split(ts[0], '/')| == 3 && DecodeDate(ts[0]).Ok? && |ts| < 5
    ensures DecodeRow(CurrentAccount, line) == Raise(IndexError)
  {
  }

  /** A row whose date has a part wider than a C `int` raises `OverflowError`,
      which the parser's `except ValueError` does not catch. */
  lemma OverWideDateRow(a: Account, line: string)
    requires a == CurrentAccount || |line| >= 10
    requires var w := Split(line, '\t')[0];
      |Split(w, '/')| == 3 && DecodeDate(w) == Raise(OverflowError)
    ensures DecodeRow(a, line) == Raise(OverflowError)
  {
  }

  // ---------------------------------------------------------------------
  // A whole statement

  /** A line as a parser sees it: its header line, or a row and what
      decoding it would give. */
  datatype Line = HeaderLine | Row(decoded: Result<Option<Entry>>)

  function Classify(a: Account, line: string): Line
  {
    if line == Header(a) then HeaderLine else Row(DecodeRow(a, line))
  }

  /** Every line of a statement classified, in order. */
  function Classified(a: Account, lines: seq<string>): (ls: seq<Line>)
    ensures |ls| == |lines|
  {
    Map((line: string) => Classify(a, line), lines)
  }

  /** `f` applied to each element. */
  function Map<A, B>(f: A -> B, s: seq<A>): (r: seq<B>)
    ensures |r| == |s|
    decreases |s|
  {
    if |s| == 0 then [] else [f(s[0])] + Map(f, s[1..])
  }

  lemma {:induction false} MapAt<A, B>(f: A -> B, s: seq<A>, i: nat)
    requires i < |s|
    ensures Map(f, s)[i] == f(s[i])
    decreases i
  {
    if i > 0 {
      MapAt(f, s[1..], i - 1);
    }
  }

  lemma ClassifiedAt(a: Account, lines: seq<string>, i: nat)
    requires i < |lines|
    ensures Classified(a, lines)[i] == Classify(a, lines[i])
  {
    MapAt((line: string) => Classify(a, line), lines, i);
  }

  /** A line other than the header is classified as a row. */
  lemma RowAt(a: Account, lines: seq<string>, i: nat)
    requires i < |lines| && lines[i] != Header(a)
    ensures Classified(a, lines)[i].Row?
  {
    ClassifiedAt(a, lines, i);
  }

  /** The header line is classified as such. */
  lemma HeaderAt(a: Account, lines: seq<string>, i: nat)
    requires i < |lines| && lines[i] == Header(a)
    ensures Classified(a, lines)[i] == HeaderLine
  {
    ClassifiedAt(a, lines, i);
  }

  /** The state of a parser between lines: the fault that ended it, if any,
      the ledger's entries, the sequence counter, the rows read and the rows
      that were new. */
  datatype Run = Run(fault: Option<Fault>, entries: seq<Entry>, seqNo: int, count: nat, newCount: nat)

  /** A parser over the remaining lines, `data` telling whether the header
      has been seen. The header line switches to data mode wherever it
      appears; a decoded row draws the next sequence number and is merged into
      the ledger, marked new (the mark does not take part in the merge's
      comparison, so setting it before the merge is the same as after). */
  function Scan(data: bool, ls: seq<Line>, st: Run): Run
    decreases |ls|
  {
    if |ls| == 0 then st
    else
      match ls[0]
      case HeaderLine => Scan(true, ls[1..], st)
      case Row(d) =>
        if !data then Scan(false, ls[1..], st)
        else
          match d
          case Raise(f) => st.(fault := Some(f))
          case Ok(None) => st
          case Ok(Some(e)) => Scan(true, ls[1..], Merge(st, e))
  }

  /** One decoded row taken into the ledger: it draws the next sequence
      number, is marked new, and is merged, counting as new if it was added. */
  function Merge(st: Run, e: Entry): Run
  {
    var merged := Insert(st.entries, e.(seqNo := st.seqNo + 1, isNew := true));
    Run(None, merged.1, st.seqNo + 1, st.count + 1, st.newCount + if merged.0 then 1 else 0)
  }

  /** A merge counts one row and draws one number; the ledger grows by one
      exactly when the row was new, loses nothing, and gains only the row. */
  lemma MergeCounts(st: Run, e: Entry)
    ensures var st' := Merge(st, e); var e' := e.(seqNo := st.seqNo + 1, isNew := true);
      st'.count == st.count + 1 && st'.seqNo == st.seqNo + 1
      && (st'.newCount == st.newCount + 1 ==> multiset(st'.entries) == multiset(st.entries) + multiset{e'})
      && (st'.newCount == st.newCount ==> st'.entries == st.entries)
      && (st'.newCount == st.newCount || st'.newCount == st.newCount + 1)
      && |st'.entries| == |st.entries| + (st'.newCount - st.newCount)
  {
    InsertCount(st.entries, e.(seqNo := st.seqNo + 1, isNew := true));
  }

  /** A Santander parser run over a whole statement from a ledger's entries
      and sequence counter. */
  function ParseLines(a: Account, lines: seq<string>, entries: seq<Entry>, seqNo: int): Run
  {
    Scan(false, Classified(a, lines), Run(None, entries, seqNo, 0, 0))
  }

  /** What a parser returns: the exception it let through, or whether any row
      was new. */
  function Outcome(run: Run): Result<bool>
  {
    if run.fault.Some? then Raise(run.fault.value) else Ok(run.newCount > 0)
  }

  /** `parse_santander_current_account_statement` and
      `parse_santander_credit_card_statement`. */
  method ParseSantander(db: Ledger, a: Account, lines: seq<string>) returns (r: Result<bool>)
    requires db.Valid()
    modifies db
    ensures db.Valid()
    ensures var run := ParseLines(a, lines, old(db.entries), old(db.seqNo));
      r == Outcome(run) && db.entries == run.entries && db.seqNo == run.seqNo
    ensures db.weekly == old(db.weekly) && db.monthly == old(db.monthly) && db.isDirty == old(db.isDirty)
  {
    ghost var ls := Classified(a, lines);
    var data := false;
    var count: nat := 0;
    var newCount: nat := 0;
    var i := 0;
    while i < |lines|
      invariant 0 <= i <= |lines| && db.Valid()
      invariant ParseLines(a, lines, old(db.entries), old(db.seqNo))
             == Scan(data, ls[i..], Run(None, db.entries, db.seqNo, count, newCount))
      invariant db.weekly == old(db.weekly) && db.monthly == old(db.monthly) && db.isDirty == old(db.isDirty)
    {
      var stop;
      data, count, newCount, stop := ReadLine(db, a, lines, i, data, count, newCount);
      if stop.Some? {
        if stop.value.Some? {
          return Raise(stop.value.value);
        }
        break;
      }
      i := i + 1;
    }
    return Ok(newCount > 0);
  }

  /** One pass of a parser's loop: the header line switches to data mode;
      in data mode the row is decoded and merged. `stop` is `None` when the
      loop goes on, `Some(None)` when it breaks, and `Some(Some(f))` when the
      exception `f` escapes. */
  method ReadLine(db: Ledger, a: Account, lines: seq<string>, i: nat, data: bool, count: nat, newCount: nat)
    returns (data': bool, count': nat, newCount': nat, stop: Option<Option<Fault>>)
    requires i < |lines| && db.Valid()
    modifies db
    ensures db.Valid()
    ensures var before := Scan(data, Classified(a, lines)[i..], Run(None, old(db.entries), old(db.seqNo), count, newCount));
      var after := Run(None, db.entries, db.seqNo, count', newCount');
      (stop.None? ==> before == Scan(data', Classified(a, lines)[i + 1..], after))
      && (stop.Some? ==> before == after.(fault := stop.value))
    ensures db.weekly == old(db.weekly) && db.monthly == old(db.monthly) && db.isDirty == old(db.isDirty)
  {
    ghost var ls := Classified(a, lines);
    ghost var cur := Run(None, db.entries, db.seqNo, count, newCount);
    data', count', newCount', stop := data, count, newCount, None;
    if lines[i] == Header(a) {
      HeaderAt(a, lines, i);
      ScanHeader(data, ls, i, cur);
      data' := true;
      return;
    }
    RowAt(a, lines, i);
    if data {
      var row;
      row, count', newCount' := TakeRow(db, a, lines, i, count, newCount);
      ScanRow(ls, i, cur, row);
      match row
      case Raise(f) =>
        stop := Some(Some(f));
      case Ok(None) =>
        stop := Some(None);
      case Ok(Some(_)) =>
    } else {
      ScanSkip(ls, i, cur);
    }
  }

  /** The `try` block of a parser for a row after the header: decode it
      and, if it is an entry, draw its sequence number, mark it new and merge
      it into the ledger, counting it and counting it as new if it was added. */
  method TakeRow(db: Ledger, a: Account, lines: seq<string>, i: nat, count: nat, newCount: nat)
    returns (row: Result<Option<Entry>>, count': nat, newCount': nat)
    requires i < |lines| && lines[i] != Header(a) && db.Valid()
    modifies db
    ensures Classified(a, lines)[i] == Row(row) && db.Valid()
    ensures row.Ok? && row.value.Some? ==>
      Run(None, db.entries, db.seqNo, count', newCount')
        == Merge(Run(None, old(db.entries), old(db.seqNo), count, newCount), row.value.value)
    ensures !(row.Ok? && row.value.Some?) ==>
      db.entries == old(db.entries) && db.seqNo == old(db.seqNo) && count' == count && newCount' == newCount
    ensures db.weekly == old(db.weekly) && db.monthly == old(db.monthly) && db.isDirty == old(db.isDirty)
  {
    row := DecodeRow(a, lines[i]);
    ClassifiedAt(a, lines, i);
    count', newCount' := count, newCount;
    if row.Ok? && row.value.Some? {
      count', newCount' := MergeRow(db, row.value.value, count, newCount);
    }
  }

  /** A decoded row taken into the ledger: counted, given the next sequence
      number, marked new, inserted, and counted as new if it was added. */
  method MergeRow(db: Ledger, e: Entry, count: nat, newCount: nat) returns (count': nat, newCount': nat)
    requires db.Valid()
    modifies db
    ensures db.Valid()
    ensures Run(None, db.entries, db.seqNo, count', newCount')
         == Merge(Run(None, old(db.entries), old(db.seqNo), count, newCount), e)
    ensures db.weekly == old(db.weekly) && db.monthly == old(db.monthly) && db.isDirty == old(db.isDirty)
  {
    ghost var before := Run(None, db.entries, db.seqNo, count, newCount);
    count' := count + 1;
    var n := db.NextSeqNo();
    var added := db.Add(e.(seqNo := n, isNew := true));
    MergeIs(before, e, n, added, db.entries);
    newCount' := newCount;
    if added {
      newCount' := newCount + 1;
    }
  }

  /** The header line switches a scan to data mode. */
  lemma ScanHeader(data: bool, ls: seq<Line>, i: nat, st: Run)
    requires i < |ls| && ls[i] == HeaderLine
    ensures Scan(data, ls[i..], st) == Scan(true, ls[i + 1..], st)
  {
    assert ls[i..][0] == ls[i] && ls[i..][1..] == ls[i + 1..];
  }

  /** Before the header a row is skipped. */
  lemma ScanSkip(ls: seq<Line>, i: nat, st: Run)
    requires i < |ls| && ls[i].Row?
    ensures Scan(false, ls[i..], st) == Scan(false, ls[i + 1..], st)
  {
    assert ls[i..][0] == ls[i] && ls[i..][1..] == ls[i + 1..];
  }

  /** In data mode a row ends the scan with its exception, ends it quietly,
      or is merged. */
  lemma ScanRow(ls: seq<Line>, i: nat, st: Run, row: Result<Option<Entry>>)
    requires i < |ls| && ls[i] == Row(row)
    ensures row.Raise? ==> Scan(true, ls[i..], st) == st.(fault := Some(row.fault))
    ensures row == Ok(None) ==> Scan(true, ls[i..], st) == st
    ensures row.Ok? && row.value.Some? ==> Scan(true, ls[i..], st) == Scan(true, ls[i + 1..], Merge(st, row.value.value))
  {
    assert ls[i..][0] == ls[i] && ls[i..][1..] == ls[i + 1..];
  }

  /** A merge is what the parsers do with a row: draw the number, insert. */
  lemma MergeIs(st: Run, e: Entry, n: int, added: bool, es: seq<Entry>)
    requires n == st.seqNo + 1 && (added, es) == Insert(st.entries, e.(seqNo := n, isNew := true))
    ensures Merge(st, e) == Run(None, es, n, st.count + 1, st.newCount + if added then 1 else 0)
  {
  }

  /** Merging keeps the ledger strictly ordered. */
  lemma MergeKeepsOrder(st: Run, e: Entry)
    requires StrictlyOrdered(st.entries)
    ensures StrictlyOrdered(Merge(st, e).entries)
  {
    var merged := Insert(st.entries, e.(seqNo := st.seqNo + 1, isNew := true));
    InsertKeepsStrictOrder(st.entries, e.(seqNo := st.seqNo + 1, isNew := true));
    assert Merge(st, e).entries == merged.1;
  }

  /** Rows before the first header line are skipped. */
  lemma {:induction false} SkipToHeader(pre: seq<Line>, rest: seq<Line>, st: Run)
    requires forall j :: 0 <= j < |pre| ==> pre[j].Row?
    ensures Scan(false, pre + rest, st) == Scan(false, rest, st)
    decreases |pre|
  {
    if |pre| > 0 {
      assert (pre + rest)[0] == pre[0];
      assert (pre + rest)[1..] == pre[1..] + rest;
      SkipToHeader(pre[1..], rest, st);
    } else {
      assert pre + rest == rest;
    }
  }

  /** Without its header line a statement leaves the ledger and the counter
      alone and reports nothing new. */
  lemma NoHeaderNoChange(a: Account, lines: seq<string>, entries: seq<Entry>, seqNo: int)
    requires forall j :: 0 <= j < |lines| ==> lines[j] != Header(a)
    ensures ParseLines(a, lines, entries, seqNo) == Run(None, entries, seqNo, 0, 0)
  {
    var ls := Classified(a, lines);
    forall j | 0 <= j < |ls|
      ensures ls[j].Row?
    {
      ClassifiedAt(a, lines, j);
    }
    SkipToHeader(ls, [], Run(None, entries, seqNo, 0, 0));
    assert ls + [] == ls;
  }

  /** A scan keeps the ledger strictly ordered. */
  lemma {:induction false} ScanKeepsOrder(data: bool, ls: seq<Line>, st: Run)
    requires StrictlyOrdered(st.entries)
    ensures StrictlyOrdered(Scan(data, ls, st).entries)
    decreases |ls|
  {
    if |ls| > 0 {
      if ls[0].HeaderLine? || !data {
        ScanKeepsOrder(ls[0].HeaderLine? || data, ls[1..], st);
      } else if ls[0].decoded.Ok? && ls[0].decoded.value.Some? {
        var e := ls[0].decoded.value.value;
        MergeKeepsOrder(st, e);
        ScanKeepsOrder(true, ls[1..], Merge(st, e));
      }
    }
  }

  /** Every row read draws one sequence number, and the ledger grows by
      exactly the rows that were new and loses nothing. */
  lemma {:induction false} ScanCounts(data: bool, ls: seq<Line>, st: Run)
    ensures var run := Scan(data, ls, st);
      run.count >= st.count && run.newCount >= st.newCount
      && run.seqNo == st.seqNo + (run.count - st.count)
      && |run.entries| == |st.entries| + (run.newCount - st.newCount)
      && multiset(st.entries) <= multiset(run.entries)
    decreases |ls|
  {
    if |ls| > 0 {
      if ls[0].HeaderLine? || !data {
        ScanCounts(ls[0].HeaderLine? || data, ls[1..], st);
      } else if ls[0].decoded.Ok? && ls[0].decoded.value.Some? {
        var e := ls[0].decoded.value.value;
        MergeCounts(st, e);
        ScanCounts(true, ls[1..], Merge(st, e));
      }
    }
  }

  /** Every entry a scan adds is one of this account's rows, marked new, with
      both inclusion flags off. */
  lemma {:induction false} ScanNewcomers(a: Account, data: bool, ls: seq<Line>, st: Run)
    requires forall j :: 0 <= j < |ls| && ls[j].Row? && ls[j].decoded.Ok? && ls[j].decoded.value.Some? ==>
               RowOf(a, ls[j].decoded.value.value)
    ensures forall x :: x in Scan(data, ls, st).entries && x !in st.entries ==>
              x.isNew && !x.includedWeekly && !x.includedMonthly && x.entryType == AccountType(a)
    decreases |ls|
  {
    if |ls| > 0 {
      if ls[0].HeaderLine? || !data {
        ScanNewcomers(a, ls[0].HeaderLine? || data, ls[1..], st);
      } else if ls[0].decoded.Ok? && ls[0].decoded.value.Some? {
        var e := ls[0].decoded.value.value;
        assert RowOf(a, e);
        MergeCounts(st, e);
        ScanNewcomers(a, true, ls[1..], Merge(st, e));
        NewcomersFrom(a, st.entries, e.(seqNo := st.seqNo + 1, isNew := true), Merge(st, e).entries,
                      Scan(true, ls[1..], Merge(st, e)).entries);
      }
    }
  }

  /** One merge step followed by the rest of a scan: whatever is in the end
      but not in the start was either the merged entry or added later. */
  lemma NewcomersFrom(a: Account, s: seq<Entry>, e: Entry, es: seq<Entry>, t: seq<Entry>)
    requires multiset(es) == multiset(s) + multiset{e} || es == s
    requires e.isNew && !e.includedWeekly && !e.includedMonthly && e.entryType == AccountType(a)
    requires forall x :: x in t && x !in es ==>
               x.isNew && !x.includedWeekly && !x.includedMonthly && x.entryType == AccountType(a)
    ensures forall x :: x in t && x !in s ==>
              x.isNew && !x.includedWeekly && !x.includedMonthly && x.entryType == AccountType(a)
  {
    forall x | x in t && x !in s
      ensures x.isNew && !x.includedWeekly && !x.includedMonthly && x.entryType == AccountType(a)
    {
      if x in es {
        assert x in multiset(es);
        assert x == e || x in multiset(s);
      }
    }
  }

  /** Every decoded row of a statement is one of the account's rows. */
  lemma ClassifiedRows(a: Account, lines: seq<string>)
    ensures var ls := Classified(a, lines);
      forall j :: 0 <= j < |ls| && ls[j].Row? && ls[j].decoded.Ok? && ls[j].decoded.value.Some? ==>
        RowOf(a, ls[j].decoded.value.value)
  {
    var ls := Classified(a, lines);
    forall j | 0 <= j < |ls| && ls[j].Row? && ls[j].decoded.Ok? && ls[j].decoded.value.Some?
      ensures RowOf(a, ls[j].decoded.value.value)
    {
      ClassifiedAt(a, lines, j);
    }
  }

  /** A parser keeps the ledger strictly ordered; each row it reads draws one
      sequence number; the ledger grows by exactly the rows that were new and
      loses none of its entries; the entries it adds are this account's,
      marked new, with both inclusion flags off; and when it ends without an
      exception it reports `True` exactly when the ledger grew. */
  lemma ParseEffect(a: Account, lines: seq<string>, entries: seq<Entry>, seqNo: int)
    requires StrictlyOrdered(entries)
    ensures var run := ParseLines(a, lines, entries, seqNo);
      StrictlyOrdered(run.entries)
      && run.seqNo == seqNo + run.count
      && |run.entries| == |entries| + run.newCount
      && multiset(entries) <= multiset(run.entries)
      && (forall x :: x in run.entries && x !in entries ==>
            x.isNew && !x.includedWeekly && !x.includedMonthly && x.entryType == AccountType(a))
      && (Outcome(run).Ok? ==> (Outcome(run).value <==> |run.entries| > |entries|))
  {
    var st := Run(None, entries, seqNo, 0, 0);
    ClassifiedRows(a, lines);
    ScanKeepsOrder(false, Classified(a, lines), st);
    ScanCounts(false, Classified(a, lines), st);
    ScanNewcomers(a, false, Classified(a, lines), st);
  }

  // ---------------------------------------------------------------------
  // Recognising a statement

  /** The statements `parse_statement` recognises. */
  datatype Statement = Santander(account: Account) | CashPlusStatement

  const CurrentAccountMarker := "09-01-28 43377166 - 123 CURRENT ACCOUNT"
  const CreditCardMarker := "xxxx xxxx xxxx 3878 - SANTANDER 1 2 3 CASHBACK CARD"
  const CashPlusMarker := "CashPlus Online Banking"

  /** The statement a line marks, the markers tried in the order above. */
  function MarkerIn(line: string): Option<Statement>
  {
    if Contains(line, CurrentAccountMarker) then Some(Santander(CurrentAccount))
    else if Contains(line, CreditCardMarker) then Some(Santander(CreditCard))
    else if Contains(line, CashPlusMarker) then Some(CashPlusStatement)
    else None
  }

  /** The statement the first marked line names. */
  function Recognise(lines: seq<string>): Option<Statement>
    decreases |lines|
  {
    if |lines| == 0 then None
    else if MarkerIn(lines[0]).Some? then MarkerIn(lines[0])
    else Recognise(lines[1..])
  }

  /** The statement recognised is the one marked by the first line that
      holds a marker, and none is recognised only when no line does. */
  lemma {:induction false} RecogniseFirst(lines: seq<string>)
    ensures Recognise(lines).None? <==> forall i :: 0 <= i < |lines| ==> MarkerIn(lines[i]).None?
    ensures Recognise(lines).Some? ==> exists i :: 0 <= i < |lines| && MarkerIn(lines[i]) == Recognise(lines)
                                          && forall j :: 0 <= j < i ==> MarkerIn(lines[j]).None?
    decreases |lines|
  {
    if |lines| > 0 && MarkerIn(lines[0]).None? {
      RecogniseFirst(lines[1..]);
      if Recognise(lines).Some? {
        var i :| 0 <= i < |lines[1..]| && MarkerIn(lines[1..][i]) == Recognise(lines[1..])
                 && forall j :: 0 <= j < i ==> MarkerIn(lines[1..][j]).None?;
        assert MarkerIn(lines[i + 1]) == Recognise(lines);
        assert forall j :: 0 <= j < i + 1 ==> MarkerIn(lines[j]).None? by {
          forall j | 0 <= j < i + 1
            ensures MarkerIn(lines[j]).None?
          {
            if j > 0 {
              assert lines[j] == lines[1..][j - 1];
            }
          }
        }
      } else {
        forall i | 0 <= i < |lines|
          ensures MarkerIn(lines[i]).None?
        {
          if i > 0 {
            assert lines[i] == lines[1..][i - 1];
          }
        }
      }
    }
  }

  /** What `parse_statement` returns, with the ledger's entries and counter
      after it: a Santander statement is parsed, a Cashplus statement is
      reported as new data without reading it, and text with no marker
      changes nothing. */
  function StatementResult(lines: seq<string>, entries: seq<Entry>, seqNo: int): (Result<bool>, seq<Entry>, int)
  {
    match Recognise(lines)
    case None => (Ok(false), entries, seqNo)
    case Some(CashPlusStatement) => (Ok(true), entries, seqNo)
    case Some(Santander(a)) =>
      var run := ParseLines(a, lines, entries, seqNo);
      (Outcome(run), run.entries, run.seqNo)
  }

  /** `parse_statement`: the text is split into lines, the first marked line
      picks the parser, and the ledger is marked dirty exactly when the
      parser reports new data. */
  method ParseStatement(db: Ledger, s: string) returns (r: Result<bool>)
    requires db.Valid()
    modifies db
    ensures db.Valid()
    ensures var (res, es, n) := StatementResult(Split(s, '\n'), old(db.entries), old(db.seqNo));
      r == res && db.entries == es && db.seqNo == n
    ensures db.isDirty == (old(db.isDirty) || r == Ok(true))
    ensures db.weekly == old(db.weekly) && db.monthly == old(db.monthly)
  {
    var lines := Split(s, '\n');
    var newData: Result<bool> := Ok(false);
    var i := 0;
    while i < |lines|
      invariant 0 <= i <= |lines|
      invariant Recognise(lines) == Recognise(lines[i..])
    {
      var line := lines[i];
      assert lines[i..][0] == line && lines[i..][1..] == lines[i + 1..];
      if Contains(line, CurrentAccountMarker) {
        newData := ParseSantander(db, CurrentAccount, lines);
        break;
      }
      if Contains(line, CreditCardMarker) {
        newData := ParseSantander(db, CreditCard, lines);
        break;
      }
      if Contains(line, CashPlusMarker) {
        // `parse_cash_plus_statement` is a stub that reports new data.
        newData := Ok(true);
        break;
      }
      i := i + 1;
    }
    if newData.Raise? {
      return newData;
    }
    if newData.value {
      db.SetDirty();
      return Ok(true);
    } else {
      return Ok(false);
    }
  }

  /** Text without any marker leaves the ledger, the counter and the dirty
      flag as they were and reports no new data. */
  lemma UnrecognisedChangesNothing(s: string, entries: seq<Entry>, seqNo: int)
    requires forall i :: 0 <= i < |Split(s, '\n')| ==> MarkerIn(Split(s, '\n')[i]).None?
    ensures StatementResult(Split(s, '\n'), entries, seqNo) == (Ok(false), entries, seqNo)
  {
    RecogniseFirst(Split(s, '\n'));
  }

  /** A Santander statement that ends without an exception reports new data
      exactly when the ledger grew, and only grows it by entries marked new. */
  lemma StatementReportsGrowth(lines: seq<string>, entries: seq<Entry>, seqNo: int)
    requires Recognise(lines).Some? && Recognise(lines).value.Santander?
    requires StrictlyOrdered(entries)
    ensures var (res, es, _) := StatementResult(lines, entries, seqNo);
      (res.Ok? ==> (res.value <==> |es| > |entries|))
      && multiset(entries) <= multiset(es)
      && forall x :: x in es && x !in entries ==> x.isNew && !x.includedWeekly && !x.includedMonthly
  {
    var a := Recognise(lines).value.account;
    ParseEffect(a, lines, entries, seqNo);
  }
}
