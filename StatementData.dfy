/** The entry model: account types, statement entries and summaries, the
    ledger order on entries and the separate content equality. */
module StatementData {
  import opened Text
  import opened Dates

  /** `StatementEntryType`. */
  datatype EntryType = NoType | SantanderCreditCard | SantanderCurrentAccount | CashPlus

  /** The enum's `value`, which `__lt__` compares. */
  function EnumValue(t: EntryType): (v: nat)
    ensures v < 4
  {
    match t
    case NoType => 0
    case SantanderCreditCard => 1
    case SantanderCurrentAccount => 2
    case CashPlus => 3
  }

  /** `str(t)`. */
  function TypeName(t: EntryType): string
  {
    match t
    case NoType => "None"
    case SantanderCreditCard => "Santander Credit Card"
    case SantanderCurrentAccount => "Santander Current Account"
    case CashPlus => "Cashplus"
  }

  /** `from_str(text)`: the type whose name matches `text` ignoring case, and
      `NONE` for any other text. */
  function FromStr(text: string): EntryType
  {
    var t := Lower(text);
    if t == Lower("Santander Credit Card") then SantanderCreditCard
    else if t == Lower("Santander Current Account") then SantanderCurrentAccount
    else if t == Lower("Cashplus") then CashPlus
    else NoType
  }

  lemma EnumValueInjective(a: EntryType, b: EntryType)
    ensures EnumValue(a) == EnumValue(b) <==> a == b
  {
  }

  /** Reading back a type's name gives the type, `NONE` included. */
  lemma FromStrName(t: EntryType)
    ensures FromStr(TypeName(t)) == t
  {
    // The four names have different lengths, and lowering keeps the length.
    var cc, ca, cp, no := Lower("Santander Credit Card"), Lower("Santander Current Account"), Lower("Cashplus"), Lower("None");
    assert |cc| == 21 && |ca| == 25 && |cp| == 8 && |no| == 4;
  }

  /** Matching ignores case. */
  lemma FromStrIgnoresCase(text: string)
    ensures FromStr(Lower(text)) == FromStr(text)
  {
    LowerIdempotent(text);
  }

  /** `StatementEntry`: one line of a bank statement. Money is in pence. */
  datatype Entry = Entry(
    entryType: EntryType,
    amount: int,
    balance: int,
    date: CalendarDate,
    weekNo: int,
    seqNo: int,
    includedWeekly: bool,
    includedMonthly: bool,
    description: string,
    isNew: bool,
    userExcluded: bool)

  /** `StatementEntry()` with its default arguments. */
  function NewEntry(): (e: Entry)
    ensures e.entryType == NoType && e.amount == 0 && e.balance == 0 && e.date == Date(2000, 1, 1)
    ensures e.weekNo == 0 && e.seqNo == 0 && e.description == ""
    ensures !e.includedWeekly && !e.includedMonthly && !e.isNew && !e.userExcluded
  {
    Entry(NoType, 0, 0, Date(2000, 1, 1), 0, 0, false, false, "", false, false)
  }

  /** `StatementSummary`: one weekly or monthly bucket of the ledger. */
  datatype Summary = Summary(id: string, date: CalendarDate, total: int, transactions: int, entries: seq<Entry>)

  /** `StatementSummary()` with its default arguments. */
  function NewSummary(): (s: Summary)
    ensures s.id == "" && s.date == Date(2000, 1, 1) && s.total == 0 && s.transactions == 0 && s.entries == []
  {
    Summary("", Date(2000, 1, 1), 0, 0, [])
  }

  /** `StatementEntry.__eq__`: same date, type and sequence number. */
  predicate SameIdentity(a: Entry, b: Entry)
  {
    a.date == b.date && a.entryType == b.entryType && a.seqNo == b.seqNo
  }

  /** `is_equal_statement_entries`: same type, date, amount and balance. */
  predicate IsEqualStatementEntries(a: Entry, b: Entry)
  {
    a.entryType == b.entryType && a.date == b.date && a.amount == b.amount && a.balance == b.balance
  }

  /** `compare_statement_entries`: date first, then the type's enum value,
      then the sequence number. */
  function Compare(a: Entry, b: Entry): (r: int)
    ensures -1 <= r <= 1
    ensures r == 0 <==> SameIdentity(a, b)
  {
    if Before(a.date, b.date) then -1
    else if Before(b.date, a.date) then 1
    else if a.entryType != b.entryType then (if EnumValue(a.entryType) < EnumValue(b.entryType) then -1 else 1)
    else if a.seqNo < b.seqNo then -1
    else if a.seqNo > b.seqNo then 1
    else 0
  }

  /** The comparison is antisymmetric. */
  lemma CompareAntisymmetric(a: Entry, b: Entry)
    ensures Compare(a, b) == -Compare(b, a)
  {
    EnumValueInjective(a.entryType, b.entryType);
  }

  /** The key the order sorts by: the day ordinal, the enum value and the
      sequence number. */
  function Key(e: Entry): (int, int, int)
  {
    (Ordinal(e.date), EnumValue(e.entryType), e.seqNo)
  }

  predicate KeyLess(x: (int, int, int), y: (int, int, int))
  {
    x.0 < y.0 || (x.0 == y.0 && (x.1 < y.1 || (x.1 == y.1 && x.2 < y.2)))
  }

  /** The comparison is the lexicographic order of the keys: less exactly when
      the key is less, and equal exactly when the keys are equal. */
  lemma CompareIsKeyOrder(a: Entry, b: Entry)
    ensures Compare(a, b) == -1 <==> KeyLess(Key(a), Key(b))
    ensures Compare(a, b) == 0 <==> Key(a) == Key(b)
  {
    OrdinalOrder(a.date, b.date);
    OrdinalOrder(b.date, a.date);
    EnumValueInjective(a.entryType, b.entryType);
  }

  /** The comparison is transitive. */
  lemma CompareTransitive(a: Entry, b: Entry, c: Entry)
    requires Compare(a, b) == -1 && Compare(b, c) == -1
    ensures Compare(a, c) == -1
  {
    CompareIsKeyOrder(a, b);
    CompareIsKeyOrder(b, c);
    CompareIsKeyOrder(a, c);
  }

  /** Equal-or-less followed by less is less. */
  lemma CompareTransitiveLe(a: Entry, b: Entry, c: Entry)
    requires Compare(a, b) <= 0 && Compare(b, c) == -1
    ensures Compare(a, c) == -1
  {
    CompareIsKeyOrder(a, b);
    CompareIsKeyOrder(b, c);
    CompareIsKeyOrder(a, c);
  }

  /** Less followed by equal-or-less is less. */
  lemma CompareTransitiveLeRight(a: Entry, b: Entry, c: Entry)
    requires Compare(a, b) == -1 && Compare(b, c) <= 0
    ensures Compare(a, c) == -1
  {
    CompareIsKeyOrder(a, b);
    CompareIsKeyOrder(b, c);
    CompareIsKeyOrder(a, c);
  }

  /** Equal-or-less is transitive. */
  lemma CompareTransitiveLeLe(a: Entry, b: Entry, c: Entry)
    requires Compare(a, b) <= 0 && Compare(b, c) <= 0
    ensures Compare(a, c) <= 0
  {
    CompareIsKeyOrder(a, b);
    CompareIsKeyOrder(b, c);
    CompareIsKeyOrder(a, c);
  }

  /** Entries with the same identity compare alike with every other entry. */
  lemma CompareSameIdentity(a: Entry, b: Entry, c: Entry)
    requires SameIdentity(a, b)
    ensures Compare(a, c) == Compare(b, c)
  {
  }

  /** Content equality looks at type, date, amount and balance only. */
  lemma IsEqualIgnoresOtherFields(a: Entry, b: Entry, description: string, weekNo: int, seqNo: int, flag: bool)
    ensures IsEqualStatementEntries(a, b) ==
            IsEqualStatementEntries(a.(description := description, weekNo := weekNo, seqNo := seqNo,
                                       includedWeekly := flag, includedMonthly := flag,
                                       isNew := flag, userExcluded := flag), b)
  {
  }

  /** The ledger's identity and content equality differ in both directions:
      two lines with equal content but different sequence numbers are
      distinct entries, and one identity can carry different amounts. */
  lemma IdentityIsNotContent(a: Entry)
    ensures IsEqualStatementEntries(a, a.(seqNo := a.seqNo + 1)) && Compare(a, a.(seqNo := a.seqNo + 1)) == -1
    ensures SameIdentity(a, a.(amount := a.amount + 1)) && !IsEqualStatementEntries(a, a.(amount := a.amount + 1))
  {
  }
}
