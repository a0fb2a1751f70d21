/** Python's `csv.reader` for the default dialect (delimiter `,`, quote
    character `"`, quotes doubled inside quoted fields, not strict), applied to
    a single line as `next(csv.reader([line]))` does, and the quoted-field
    writer that the entry model uses. The reader follows the character-level
    state machine of CPython's `_csv` module. */
module Csv {
  import opened Outcomes

  datatype State = StartRecord | StartField | InField | InQuotedField | QuoteInQuotedField | EatCrNl

  /** The parser state: the fields saved so far and the one being read. */
  datatype Reader = Reader(state: State, fields: seq<string>, field: string)

  predicate IsNewline(c: char)
  {
    c == '\n' || c == '\r'
  }

  /** Saves the pending field and moves to `next`. */
  function SaveField(r: Reader, next: State): (r': Reader)
    ensures r'.fields == r.fields + [r.field] && r'.field == "" && r'.state == next
  {
    Reader(next, r.fields + [r.field], "")
  }

  /** The reader at the start of a field meets `c`. */
  function FieldStart(r: Reader, c: char): Reader
  {
    if IsNewline(c) then SaveField(r, EatCrNl)
    else if c == '"' then r.(state := InQuotedField)
    else if c == ',' then SaveField(r, StartField)
    else Reader(InField, r.fields, r.field + [c])
  }

  /** One character of the line. */
  function Step(r: Reader, c: char): Result<Reader>
  {
    match r.state
    case StartRecord =>
      if IsNewline(c) then Ok(r.(state := EatCrNl)) else Ok(FieldStart(r, c))
    case StartField =>
      Ok(FieldStart(r, c))
    case InField =>
      if IsNewline(c) then Ok(SaveField(r, EatCrNl))
      else if c == ',' then Ok(SaveField(r, StartField))
      else Ok(r.(field := r.field + [c]))
    case InQuotedField =>
      if c == '"' then Ok(r.(state := QuoteInQuotedField))
      else Ok(r.(field := r.field + [c]))
    case QuoteInQuotedField =>
      if c == '"' then Ok(Reader(InQuotedField, r.fields, r.field + [c]))
      else if c == ',' then Ok(SaveField(r, StartField))
      else if IsNewline(c) then Ok(SaveField(r, EatCrNl))
      else Ok(Reader(InField, r.fields, r.field + [c]))
    case EatCrNl =>
      // "new-line character seen in unquoted field"
      if IsNewline(c) then Ok(r) else Raise(CsvError)
  }

  /** The end-of-line event that follows the last character. */
  function EndOfLine(r: Reader): Reader
  {
    match r.state
    case StartRecord => r
    case StartField => SaveField(r, StartRecord)
    case InField => SaveField(r, StartRecord)
    case InQuotedField => r
    case QuoteInQuotedField => SaveField(r, StartRecord)
    case EatCrNl => r.(state := StartRecord)
  }

  function Scan(r: Reader, s: string): Result<Reader>
    decreases |s|
  {
    if |s| == 0 then Ok(r)
    else
      var r' :- Step(r, s[0]);
      Scan(r', s[1..])
  }

  /** `next(csv.reader([line]))`: the fields of the record. A quoted field
      still open at the end of the input is saved as it stands. */
  function ReadRecord(line: string): Result<seq<string>>
  {
    var r :- Scan(Reader(StartRecord, [], ""), line);
    var e := EndOfLine(r);
    Ok(if e.state == InQuotedField then e.fields + [e.field] else e.fields)
  }

  function Quote(f: string): string
  {
    "\"" + f + "\""
  }

  /** Fields each wrapped in double quotes and separated by commas, with no
      escaping of quotes inside them: the `'"{}","{}",…'` format. */
  function QuotedLine(fs: seq<string>): string
  {
    if |fs| == 0 then ""
    else if |fs| == 1 then Quote(fs[0])
    else Quote(fs[0]) + "," + QuotedLine(fs[1..])
  }

  predicate NoQuotes(fs: seq<string>)
  {
    forall i :: 0 <= i < |fs| ==> '"' !in fs[i]
  }

  lemma {:induction false} ScanAppend(r: Reader, a: string, b: string)
    requires Scan(r, a).Ok?
    ensures Scan(r, a + b) == Scan(Scan(r, a).value, b)
    decreases |a|
  {
    if |a| > 0 {
      var r' := Step(r, a[0]).value;
      assert (a + b)[0] == a[0];
      assert (a + b)[1..] == a[1..] + b;
      ScanAppend(r', a[1..], b);
    } else {
      assert a + b == b;
    }
  }

  /** Inside a quoted field every character other than a quote is kept. */
  lemma {:induction false} ScanInQuoted(r: Reader, f: string)
    requires r.state == InQuotedField && '"' !in f
    ensures Scan(r, f) == Ok(r.(field := r.field + f))
    decreases |f|
  {
    if |f| > 0 {
      var r' := r.(field := r.field + [f[0]]);
      assert Step(r, f[0]) == Ok(r');
      assert '"' !in f[1..];
      ScanInQuoted(r', f[1..]);
      assert r.field + [f[0]] + f[1..] == r.field + f;
    } else {
      assert r.field + f == r.field;
    }
  }

  /** A quoted field read from the start of a field leaves the reader just
      after its closing quote, holding the field's text. */
  lemma ScanQuote(r: Reader, f: string)
    requires r.state == StartRecord || r.state == StartField
    requires r.field == "" && '"' !in f
    ensures Scan(r, Quote(f)) == Ok(Reader(QuoteInQuotedField, r.fields, f))
  {
    var open := r.(state := InQuotedField);
    assert Scan(r, "\"") == Ok(open);
    ScanInQuoted(open, f);
    assert open.field + f == f;
    assert Scan(open.(field := f), "\"") == Ok(Reader(QuoteInQuotedField, r.fields, f));
    ScanAppend(r, "\"", f);
    ScanAppend(r, "\"" + f, "\"");
  }

  /** A quoted line leaves every field but the last saved and the last one pending. */
  lemma {:induction false} ScanQuotedLine(r: Reader, fs: seq<string>)
    requires |fs| >= 1 && NoQuotes(fs)
    requires r.state == StartRecord || r.state == StartField
    requires r.field == ""
    ensures Scan(r, QuotedLine(fs)) == Ok(Reader(QuoteInQuotedField, r.fields + fs[..|fs| - 1], fs[|fs| - 1]))
    decreases |fs|
  {
    ScanQuote(r, fs[0]);
    if |fs| == 1 {
      assert r.fields + fs[..0] == r.fields;
    } else {
      var after := Reader(QuoteInQuotedField, r.fields, fs[0]);
      var next := Reader(StartField, r.fields + [fs[0]], "");
      assert Scan(after, ",") == Ok(next);
      ScanAppend(r, Quote(fs[0]), ",");
      ScanQuotedLine(next, fs[1..]);
      ScanAppend(r, Quote(fs[0]) + ",", QuotedLine(fs[1..]));
      assert Quote(fs[0]) + "," + QuotedLine(fs[1..]) == QuotedLine(fs);
      assert r.fields + [fs[0]] + fs[1..][..|fs[1..]| - 1] == r.fields + fs[..|fs| - 1];
    }
  }

  /** Reading back a written line, with or without its line end, gives the
      fields, provided no field contains a double quote. */
  lemma ReadQuotedLine(fs: seq<string>)
    requires |fs| >= 1 && NoQuotes(fs)
    ensures ReadRecord(QuotedLine(fs)) == Ok(fs)
    ensures ReadRecord(QuotedLine(fs) + "\n") == Ok(fs)
  {
    ScanQuotedLine(Reader(StartRecord, [], ""), fs);
    assert [] + fs[..|fs| - 1] == fs[..|fs| - 1];
    ReadAfterClosingQuote(QuotedLine(fs), fs);
  }

  /** A line that leaves the reader just after a closing quote ends the record,
      with or without a line end after it. */
  lemma ReadAfterClosingQuote(line: string, fs: seq<string>)
    requires |fs| >= 1
    requires Scan(Reader(StartRecord, [], ""), line) == Ok(Reader(QuoteInQuotedField, fs[..|fs| - 1], fs[|fs| - 1]))
    ensures ReadRecord(line) == Ok(fs)
    ensures ReadRecord(line + "\n") == Ok(fs)
  {
    var start := Reader(StartRecord, [], "");
    var last := Reader(QuoteInQuotedField, fs[..|fs| - 1], fs[|fs| - 1]);
    LastSplit(fs);
    assert EndOfLine(last) == Reader(StartRecord, fs, "");
    var eaten := Reader(EatCrNl, fs, "");
    assert Scan(last, "\n") == Ok(eaten);
    ScanAppend(start, line, "\n");
  }

  lemma LastSplit(fs: seq<string>)
    requires |fs| >= 1
    ensures fs[..|fs| - 1] + [fs[|fs| - 1]] == fs
  {
  }

  /** A line that is not quoted and holds no quote, line break or comma is
      read as one field holding the line; the empty line is an empty record. */
  lemma ReadPlain(s: string)
    requires '"' !in s && ',' !in s && '\n' !in s && '\r' !in s
    ensures ReadRecord(s) == Ok(if |s| == 0 then [] else [s])
  {
    var start := Reader(StartRecord, [], "");
    if |s| > 0 {
      var first := Reader(InField, [], [s[0]]);
      assert "" + [s[0]] == [s[0]];
      assert Step(start, s[0]) == Ok(first);
      assert Scan(start, s) == Scan(first, s[1..]);
      ScanPlain(first, s[1..]);
      assert [s[0]] + s[1..] == s;
      assert EndOfLine(first.(field := s)) == Reader(StartRecord, [s], "");
    } else {
      assert Scan(start, s) == Ok(start);
    }
  }

  lemma {:induction false} ScanPlain(r: Reader, s: string)
    requires r.state == InField && '"' !in s && ',' !in s && '\n' !in s && '\r' !in s
    ensures Scan(r, s) == Ok(r.(field := r.field + s))
    decreases |s|
  {
    if |s| > 0 {
      var r' := r.(field := r.field + [s[0]]);
      assert Step(r, s[0]) == Ok(r');
      ScanPlain(r', s[1..]);
      assert r.field + [s[0]] + s[1..] == r.field + s;
    } else {
      assert r.field + s == r.field;
    }
  }
}
