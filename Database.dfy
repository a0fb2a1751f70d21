/** The ledger store: the ordered insertion with duplicate suppression
    (`add_statement_entry`), the weekly and monthly run groupings, and the
    file format's header dispatch and line loop (`read_file`, `write_file`),
    over a sequence of lines rather than a file. */
module Database {
  import opened Outcomes
  import opened Text
  import opened Numerals
  import opened Dates
  import opened StatementData
  import opened StatementCodec

  // ---------------------------------------------------------------------
  // Ordered insertion

  /** Non-decreasing under `compare_statement_entries`. */
  predicate Ordered(s: seq<Entry>)
  {
    forall i, j :: 0 <= i < j < |s| ==> Compare(s[i], s[j]) <= 0
  }

  /** Strictly increasing: ordered, and no two entries share an identity. */
  predicate StrictlyOrdered(s: seq<Entry>)
  {
    forall i, j :: 0 <= i < j < |s| ==> Compare(s[i], s[j]) == -1
  }

  /** Where the scan of `add_statement_entry` stops: the first entry that
      `e` does not compare greater than, or the end. */
  function Position(s: seq<Entry>, e: Entry): (k: nat)
    ensures k <= |s|
    ensures forall j :: 0 <= j < k ==> Compare(e, s[j]) == 1
    ensures k < |s| ==> Compare(e, s[k]) <= 0
    decreases |s|
  {
    if |s| == 0 || Compare(e, s[0]) <= 0 then 0
    else
      var k := Position(s[1..], e);
      assert forall j :: 1 <= j < k + 1 ==> s[1..][j - 1] == s[j];
      k + 1
  }

  /** The stopping point is the only index with those two properties. */
  lemma PositionIs(s: seq<Entry>, e: Entry, n: nat)
    requires n <= |s| && forall j :: 0 <= j < n ==> Compare(e, s[j]) == 1
    requires n < |s| ==> Compare(e, s[n]) <= 0
    ensures Position(s, e) == n
  {
  }

  /** `add_statement_entry(entries, e)` as a value: whether `e` was added,
      and the list afterwards. An entry with the identity of the one the
      scan stops at is dropped; otherwise `e` goes in at that place. */
  function Insert(s: seq<Entry>, e: Entry): (r: (bool, seq<Entry>))
    ensures |r.1| > 0 && |r.1| >= |s|
  {
    var k := Position(s, e);
    if k < |s| && Compare(e, s[k]) == 0 then (false, s) else (true, s[..k] + [e] + s[k..])
  }

  /** `add_statement_entry`: the index loop over the list. */
  method AddStatementEntry(entries: seq<Entry>, e: Entry) returns (added: bool, result: seq<Entry>)
    ensures (added, result) == Insert(entries, e)
  {
    var n := 0;
    while n < |entries|
      invariant 0 <= n <= |entries|
      invariant forall j :: 0 <= j < n ==> Compare(e, entries[j]) == 1
    {
      var r := Compare(e, entries[n]);
      if r == -1 {
        PositionIs(entries, e, n);
        return true, entries[..n] + [e] + entries[n..];
      } else if r == 0 {
        PositionIs(entries, e, n);
        return false, entries;
      }
      n := n + 1;
    }
    PositionIs(entries, e, n);
    assert entries[..n] + [e] + entries[n..] == entries + [e];
    return true, entries + [e];
  }

  /** Where the entry goes: after every entry it compares greater than and
      before the first one it compares less than (or at the end); the other
      entries keep their order. A refused entry meets one with its identity
      first, and the list is unchanged. */
  lemma InsertPlacement(s: seq<Entry>, e: Entry)
    ensures var (added, r) := Insert(s, e);
      exists k :: 0 <= k <= |s| && (forall j :: 0 <= j < k ==> Compare(e, s[j]) == 1)
        && (added ==> r == s[..k] + [e] + s[k..] && (k < |s| ==> Compare(e, s[k]) == -1))
        && (!added ==> r == s && k < |s| && SameIdentity(e, s[k]))
  {
    var k := Position(s, e);
    assert 0 <= k <= |s|;
  }

  /** An added entry grows the list by one, as a multiset too; a refused one
      leaves it as it was. */
  lemma InsertCount(s: seq<Entry>, e: Entry)
    ensures var (added, r) := Insert(s, e);
      (added ==> |r| == |s| + 1 && multiset(r) == multiset(s) + multiset{e})
      && (!added ==> r == s)
  {
    var k := Position(s, e);
    if !(k < |s| && Compare(e, s[k]) == 0) {
      SpliceCount(s, e, k);
    }
  }

  lemma SpliceCount(s: seq<Entry>, e: Entry, k: nat)
    requires k <= |s|
    ensures |s[..k] + [e] + s[k..]| == |s| + 1
    ensures multiset(s[..k] + [e] + s[k..]) == multiset(s) + multiset{e}
  {
    assert s == s[..k] + s[k..];
    assert multiset(s) == multiset(s[..k]) + multiset(s[k..]);
  }

  /** Insertion keeps the list ordered. */
  lemma InsertKeepsOrder(s: seq<Entry>, e: Entry)
    requires Ordered(s)
    ensures Ordered(Insert(s, e).1)
  {
    var k := Position(s, e);
    if !(k < |s| && Compare(e, s[k]) == 0) {
      var r := s[..k] + [e] + s[k..];
      forall i, j | 0 <= i < j < |r|
        ensures Compare(r[i], r[j]) <= 0
      {
        InsertedAt(s, e, k, i);
        InsertedAt(s, e, k, j);
        if j == k {
          CompareAntisymmetric(e, s[i]);
        } else if i == k {
          if j - 1 > k {
            CompareTransitiveLeRight(e, s[k], s[j - 1]);
          }
        }
      }
    }
  }

  /** Insertion keeps the list strictly ordered. */
  lemma InsertKeepsStrictOrder(s: seq<Entry>, e: Entry)
    requires StrictlyOrdered(s)
    ensures StrictlyOrdered(Insert(s, e).1)
  {
    var k := Position(s, e);
    if !(k < |s| && Compare(e, s[k]) == 0) {
      var r := s[..k] + [e] + s[k..];
      forall i, j | 0 <= i < j < |r|
        ensures Compare(r[i], r[j]) == -1
      {
        InsertedAt(s, e, k, i);
        InsertedAt(s, e, k, j);
        if j == k {
          CompareAntisymmetric(e, s[i]);
        } else if i == k {
          if j - 1 > k {
            CompareTransitive(e, s[k], s[j - 1]);
          }
        }
      }
    }
  }

  /** The elements of `s[..k] + [e] + s[k..]` by index. */
  lemma InsertedAt(s: seq<Entry>, e: Entry, k: nat, i: nat)
    requires k <= |s| && i <= |s|
    ensures var r := s[..k] + [e] + s[k..];
      r[i] == if i < k then s[i] else if i == k then e else s[i - 1]
  {
  }

  /** In an ordered list an entry is added exactly when no entry has its
      identity. */
  lemma InsertAddedIffAbsent(s: seq<Entry>, e: Entry)
    requires Ordered(s)
    ensures Insert(s, e).0 <==> forall j :: 0 <= j < |s| ==> !SameIdentity(e, s[j])
  {
    var k := Position(s, e);
    if Insert(s, e).0 {
      forall j | 0 <= j < |s|
        ensures !SameIdentity(e, s[j])
      {
        if k <= j {
          CompareTransitiveLeRight(e, s[k], s[j]);
        }
      }
    }
  }

  /** An entry greater than every entry of the list is appended. */
  lemma InsertAtEnd(s: seq<Entry>, e: Entry)
    requires forall j :: 0 <= j < |s| ==> Compare(s[j], e) == -1
    ensures Insert(s, e) == (true, s + [e])
  {
    forall j | 0 <= j < |s|
      ensures Compare(e, s[j]) == 1
    {
      CompareAntisymmetric(s[j], e);
    }
    PositionIs(s, e, |s|);
    assert s[..|s|] + [e] + s[|s|..] == s + [e];
  }

  /** The entries in order of insertion, each added with `add_statement_entry`
      to the list built so far. */
  function InsertAll(s: seq<Entry>): (r: seq<Entry>)
    ensures |s| > 0 ==> |r| > 0
    decreases |s|
  {
    if |s| == 0 then [] else Insert(InsertAll(s[..|s| - 1]), s[|s| - 1]).1
  }

  /** Inserting a strictly ordered list one by one rebuilds it. */
  lemma {:induction false} InsertAllOrdered(s: seq<Entry>)
    requires StrictlyOrdered(s)
    ensures InsertAll(s) == s
    decreases |s|
  {
    if |s| > 0 {
      var p := s[..|s| - 1];
      assert StrictlyOrdered(p);
      InsertAllOrdered(p);
      InsertAtEnd(p, s[|s| - 1]);
      assert p + [s[|s| - 1]] == s;
    }
  }

  // ---------------------------------------------------------------------
  // Runs and summary buckets

  /** The maximal consecutive runs of entries with equal keys, built the way
      the summary loops build them: each entry extends the last run when its
      key equals the previous entry's key, and starts a new run otherwise. */
  function Runs<K(==)>(s: seq<Entry>, key: Entry -> K): (rs: seq<seq<Entry>>)
    ensures |rs| == 0 <==> |s| == 0
    ensures forall r :: r in rs ==> |r| > 0
    decreases |s|
  {
    if |s| == 0 then []
    else
      var rs := Runs(s[..|s| - 1], key);
      var x := s[|s| - 1];
      Extend(rs, x, |rs| > 0 && key(x) == key(s[|s| - 2]))
  }

  /** One entry more: appended to the last run, or starting a new one. */
  function Extend(rs: seq<seq<Entry>>, x: Entry, same: bool): (rs': seq<seq<Entry>>)
    requires same ==> |rs| > 0
    requires forall r :: r in rs ==> |r| > 0
    ensures |rs'| > 0 && forall r :: r in rs' ==> |r| > 0
  {
    if same then rs[..|rs| - 1] + [rs[|rs| - 1] + [x]] else rs + [[x]]
  }

  function Flatten(rs: seq<seq<Entry>>): seq<Entry>
    decreases |rs|
  {
    if |rs| == 0 then [] else Flatten(rs[..|rs| - 1]) + rs[|rs| - 1]
  }

  function Last<T>(s: seq<T>): T
    requires |s| > 0
  {
    s[|s| - 1]
  }

  /** Extending the runs extends their concatenation by the entry, which
      ends the last run. */
  lemma ExtendFlatten(rs: seq<seq<Entry>>, x: Entry, same: bool)
    requires same ==> |rs| > 0
    requires forall r :: r in rs ==> |r| > 0
    ensures Flatten(Extend(rs, x, same)) == Flatten(rs) + [x]
    ensures Last(Last(Extend(rs, x, same))) == x
  {
    if same {
      var front := rs[..|rs| - 1];
      var last := rs[|rs| - 1];
      FlattenSnoc(front, last + [x]);
      ButLast(rs);
      FlattenSnoc(front, last);
    } else {
      FlattenSnoc(rs, [x]);
    }
  }

  lemma ButLast<T>(s: seq<T>)
    requires |s| > 0
    ensures s == s[..|s| - 1] + [s[|s| - 1]]
  {
  }

  lemma FlattenSnoc(rs: seq<seq<Entry>>, r: seq<Entry>)
    ensures Flatten(rs + [r]) == Flatten(rs) + r
  {
    assert (rs + [r])[..|rs|] == rs;
  }

  /** The runs partition the ledger: concatenated in order they give it
      back, and the last run ends with the ledger's last entry. */
  lemma {:induction false} RunsFlatten<K>(s: seq<Entry>, key: Entry -> K)
    ensures Flatten(Runs(s, key)) == s
    ensures |s| > 0 ==> Last(Last(Runs(s, key))) == Last(s)
    decreases |s|
  {
    if |s| > 0 {
      var p := s[..|s| - 1];
      var rs := Runs(p, key);
      RunsFlatten(p, key);
      ExtendFlatten(rs, Last(s), |rs| > 0 && key(Last(s)) == key(s[|s| - 2]));
      assert p + [Last(s)] == s;
    }
  }

  /** Every entry of a run has the run's key. */
  predicate Uniform<K(==)>(rs: seq<seq<Entry>>, key: Entry -> K)
  {
    forall i, j :: 0 <= i < |rs| && 0 <= j < |rs[i]| ==> key(rs[i][j]) == key(rs[i][0])
  }

  /** Neighbouring runs have different keys. */
  predicate Maximal<K(==)>(rs: seq<seq<Entry>>, key: Entry -> K)
    requires forall r :: r in rs ==> |r| > 0
  {
    forall i :: 0 <= i < |rs| - 1 ==> key(rs[i][0]) != key(rs[i + 1][0])
  }

  lemma ExtendUniform<K>(rs: seq<seq<Entry>>, x: Entry, key: Entry -> K, same: bool)
    requires same ==> |rs| > 0
    requires forall r :: r in rs ==> |r| > 0
    requires Uniform(rs, key) && Maximal(rs, key)
    requires same ==> key(x) == key(Last(Last(rs)))
    requires !same && |rs| > 0 ==> key(x) != key(Last(Last(rs)))
    ensures Uniform(Extend(rs, x, same), key) && Maximal(Extend(rs, x, same), key)
  {
    var rs' := Extend(rs, x, same);
    if |rs| > 0 {
      var last := Last(rs);
      assert key(Last(last)) == key(last[0]) by {
        assert last == rs[|rs| - 1];
      }
    }
    if same {
      assert forall i :: 0 <= i < |rs| - 1 ==> rs'[i] == rs[i];
    } else {
      assert forall i :: 0 <= i < |rs| ==> rs'[i] == rs[i];
    }
  }

  /** The runs are uniform and maximal: every entry of a run has the run's
      key, and neighbouring runs have different keys. */
  lemma {:induction false} RunsPartition<K>(s: seq<Entry>, key: Entry -> K)
    ensures Uniform(Runs(s, key), key) && Maximal(Runs(s, key), key)
    decreases |s|
  {
    if |s| > 0 {
      var p := s[..|s| - 1];
      var rs := Runs(p, key);
      var same := |rs| > 0 && key(Last(s)) == key(s[|s| - 2]);
      RunsPartition(p, key);
      if |rs| > 0 {
        RunsFlatten(p, key);
        assert Last(p) == s[|s| - 2];
      }
      ExtendUniform(rs, Last(s), key, same);
      assert Runs(s, key) == Extend(rs, Last(s), same);
    }
  }


  /** Each run is a slice of a strictly ordered ledger, so it is strictly
      ordered too. */
  lemma {:induction false} RunsStrictlyOrdered<K>(s: seq<Entry>, key: Entry -> K)
    requires StrictlyOrdered(s)
    ensures forall r :: r in Runs(s, key) ==> StrictlyOrdered(r)
    decreases |s|
  {
    if |s| > 0 {
      var p := s[..|s| - 1];
      var x := Last(s);
      var rs := Runs(p, key);
      var same := |rs| > 0 && key(x) == key(s[|s| - 2]);
      assert StrictlyOrdered(p);
      RunsStrictlyOrdered(p, key);
      if same {
        LastRunBefore(s, key);
      }
      ExtendStrictlyOrdered(rs, x, same);
    }
  }

  /** Every entry of the last run so far comes before the next entry. */
  lemma LastRunBefore<K>(s: seq<Entry>, key: Entry -> K)
    requires StrictlyOrdered(s) && |s| > 0 && |Runs(s[..|s| - 1], key)| > 0
    ensures forall y :: y in Last(Runs(s[..|s| - 1], key)) ==> Compare(y, Last(s)) == -1
  {
    var p := s[..|s| - 1];
    var rs := Runs(p, key);
    RunsFlatten(p, key);
    FlattenHolds(rs, Last(rs));
    forall y | y in Last(rs)
      ensures Compare(y, Last(s)) == -1
    {
      var i :| 0 <= i < |p| && p[i] == y;
      assert s[i] == y;
    }
  }

  lemma ExtendStrictlyOrdered(rs: seq<seq<Entry>>, x: Entry, same: bool)
    requires same ==> |rs| > 0
    requires forall r :: r in rs ==> |r| > 0 && StrictlyOrdered(r)
    requires same ==> forall y :: y in Last(rs) ==> Compare(y, x) == -1
    ensures forall r :: r in Extend(rs, x, same) ==> StrictlyOrdered(r)
  {
    if same {
      var last := Last(rs);
      assert last in rs;
      forall i, j | 0 <= i < j < |last + [x]|
        ensures Compare((last + [x])[i], (last + [x])[j]) == -1
      {
        if j == |last| {
          assert last[i] in last;
        }
      }
      assert forall r :: r in rs[..|rs| - 1] ==> r in rs;
    }
  }

  /** A member of a run is an entry of the flattened runs. */
  lemma {:induction false} FlattenHolds(rs: seq<seq<Entry>>, r: seq<Entry>)
    requires r in rs
    ensures forall y :: y in r ==> y in Flatten(rs)
    decreases |rs|
  {
    if rs[|rs| - 1] != r {
      assert r in rs[..|rs| - 1];
      FlattenHolds(rs[..|rs| - 1], r);
    }
  }

  /** `-amount` summed over the entries a flag includes: what a bucket's
      `total -= se.amount` accumulates. */
  function Total(s: seq<Entry>, included: Entry -> bool): int
    decreases |s|
  {
    if |s| == 0 then 0
    else Total(s[..|s| - 1], included) - (if included(s[|s| - 1]) then s[|s| - 1].amount else 0)
  }

  /** The total of two lists one after the other is the sum of their totals. */
  lemma {:induction false} TotalAppend(a: seq<Entry>, b: seq<Entry>, included: Entry -> bool)
    ensures Total(a + b, included) == Total(a, included) + Total(b, included)
    decreases |b|
  {
    if |b| == 0 {
      assert a + b == a;
    } else {
      var b' := b[..|b| - 1];
      TotalAppend(a, b', included);
      assert (a + b)[..|a + b| - 1] == a + b';
    }
  }

  /** Entries the flag leaves out do not count. */
  lemma {:induction false} TotalExcluded(s: seq<Entry>, included: Entry -> bool)
    requires forall j :: 0 <= j < |s| ==> !included(s[j])
    ensures Total(s, included) == 0
    decreases |s|
  {
    if |s| > 0 {
      TotalExcluded(s[..|s| - 1], included);
    }
  }

  function WeekKey(e: Entry): int
  {
    e.weekNo
  }

  /** `f'{month}\\{year}'`. */
  function MonthKey(e: Entry): string
  {
    IntToString(e.date.month) + "\\" + IntToString(e.date.year)
  }

  function IncludedWeekly(e: Entry): bool
  {
    e.includedWeekly
  }

  function IncludedMonthly(e: Entry): bool
  {
    e.includedMonthly
  }

  /** The bucket a run becomes: its entries added one by one, every entry
      counted as a transaction, the included ones summed into the total. */
  function Bucket(run: seq<Entry>, id: string, date: CalendarDate, included: Entry -> bool): Summary
  {
    Summary(id, date, Total(run, included), |run|, InsertAll(run))
  }

  /** The weekly bucket of a run: its week number as id and the Monday of
      its first entry's week as date, except that the first run keeps the
      blank summary's id and date when its week number is 0, the value the
      loop's `week_no` starts from. */
  function WeeklyBucket(run: seq<Entry>, first: bool): Summary
    requires |run| > 0
  {
    if first && run[0].weekNo == 0 then Bucket(run, "", Date(2000, 1, 1), IncludedWeekly)
    else Bucket(run, IntToString(run[0].weekNo), MondayOnOrBefore(run[0].date), IncludedWeekly)
  }

  /** The monthly bucket of a run: `month\year` as id, day 1 of that month as date. */
  function MonthlyBucket(run: seq<Entry>): Summary
    requires |run| > 0
  {
    Bucket(run, MonthKey(run[0]), FirstOfMonth(run[0].date), IncludedMonthly)
  }

  /** What `generate_weekly_summaries` leaves in `weekly_summaries`. */
  function WeeklySummaries(s: seq<Entry>): (ws: seq<Summary>)
    ensures |ws| == |Runs(s, WeekKey)|
  {
    WeeklyBuckets(Runs(s, WeekKey))
  }

  /** One bucket per run, in order; only the first may keep the loop's
      starting bucket. */
  function WeeklyBuckets(rs: seq<seq<Entry>>): (ws: seq<Summary>)
    requires forall r :: r in rs ==> |r| > 0
    ensures |ws| == |rs|
  {
    seq(|rs|, i requires 0 <= i < |rs| => WeeklyBucket(rs[i], i == 0))
  }

  /** What `generate_monthly_summaries` leaves in `monthly_summaries`. */
  function MonthlySummaries(s: seq<Entry>): (ms: seq<Summary>)
    ensures |ms| == |Runs(s, MonthOf)|
  {
    MonthlyBuckets(Runs(s, MonthOf))
  }

  /** One bucket per run, in order. */
  function MonthlyBuckets(rs: seq<seq<Entry>>): (ms: seq<Summary>)
    requires forall r :: r in rs ==> |r| > 0
    ensures |ms| == |rs|
  {
    seq(|rs|, i requires 0 <= i < |rs| => MonthlyBucket(rs[i]))
  }

  // ---------------------------------------------------------------------
  // What the summaries say

  /** One entry added to a bucket, as the loop body does it. */
  function AddToBucket(b: Summary, x: Entry, included: Entry -> bool): Summary
  {
    b.(total := b.total - (if included(x) then x.amount else 0),
       transactions := b.transactions + 1,
       entries := Insert(b.entries, x).1)
  }

  lemma BucketSnoc(run: seq<Entry>, x: Entry, id: string, date: CalendarDate, included: Entry -> bool)
    ensures Bucket(run + [x], id, date, included) == AddToBucket(Bucket(run, id, date, included), x, included)
  {
    assert (run + [x])[..|run|] == run;
  }

  lemma BucketSingle(x: Entry, id: string, date: CalendarDate, included: Entry -> bool)
    ensures Bucket([x], id, date, included) == AddToBucket(Summary(id, date, 0, 0, []), x, included)
  {
    assert [x][..0] == [];
    assert InsertAll([x]) == Insert([], x).1;
    assert Total([x], included) == 0 - (if included(x) then x.amount else 0);
  }

  /** The entries of each bucket. */
  function EntriesOf(ss: seq<Summary>): seq<seq<Entry>>
  {
    seq(|ss|, i requires 0 <= i < |ss| => ss[i].entries)
  }

  /** Over a strictly ordered ledger each bucket holds exactly its run. */
  lemma WeeklyEntries(s: seq<Entry>)
    requires StrictlyOrdered(s)
    ensures EntriesOf(WeeklySummaries(s)) == Runs(s, WeekKey)
  {
    var rs := Runs(s, WeekKey);
    RunsStrictlyOrdered(s, WeekKey);
    forall i | 0 <= i < |rs|
      ensures WeeklySummaries(s)[i].entries == rs[i]
    {
      assert rs[i] in rs;
      InsertAllOrdered(rs[i]);
    }
  }

  lemma MonthlyEntries(s: seq<Entry>)
    requires StrictlyOrdered(s)
    ensures EntriesOf(MonthlySummaries(s)) == Runs(s, MonthOf)
  {
    var rs := Runs(s, MonthOf);
    RunsStrictlyOrdered(s, MonthOf);
    forall i | 0 <= i < |rs|
      ensures MonthlySummaries(s)[i].entries == rs[i]
    {
      assert rs[i] in rs;
      InsertAllOrdered(rs[i]);
    }
  }

  /** The weekly buckets of a ledger with no two entries of the same identity
      split it into its maximal runs of equal week number: the buckets'
      entries in order give back the ledger, no bucket is empty, every entry
      of a bucket has the bucket's week number, and neighbouring buckets have
      different week numbers. */
  lemma WeeklyPartition(s: seq<Entry>)
    requires StrictlyOrdered(s)
    ensures var es := EntriesOf(WeeklySummaries(s));
      Flatten(es) == s && (forall r :: r in es ==> |r| > 0) && Uniform(es, WeekKey) && Maximal(es, WeekKey)
  {
    WeeklyEntries(s);
    RunsFlatten(s, WeekKey);
    RunsPartition(s, WeekKey);
  }

  /** The monthly buckets split a ledger with no two entries of the same
      identity into its maximal runs of one month of one year. */
  lemma MonthlyPartition(s: seq<Entry>)
    requires StrictlyOrdered(s)
    ensures var es := EntriesOf(MonthlySummaries(s));
      Flatten(es) == s && (forall r :: r in es ==> |r| > 0) && Uniform(es, MonthOf) && Maximal(es, MonthOf)
  {
    MonthlyEntries(s);
    RunsFlatten(s, MonthOf);
    RunsPartition(s, MonthOf);
  }

  /** The month and year of an entry's date. */
  function MonthOf(e: Entry): (int, int)
  {
    (e.date.month, e.date.year)
  }

  /** No `-` or digit is a backslash. */
  lemma NoBackslashInInt(i: int)
    ensures '\\' !in IntToString(i)
  {
    var d := NatToString(if i < 0 then -i else i);
    NatToStringDigits(if i < 0 then -i else i);
    assert forall j :: 0 <= j < |d| ==> IsDigit(d[j]);
  }

  /** Two entries have the same month key exactly when they fall in the same
      month of the same year. */
  lemma MonthKeyInjective(a: Entry, b: Entry)
    ensures MonthKey(a) == MonthKey(b) <==> a.date.month == b.date.month && a.date.year == b.date.year
  {
    if MonthKey(a) == MonthKey(b) {
      MonthKeyParts(a);
      MonthKeyParts(b);
      IntToStringRoundTrip(a.date.month);
      IntToStringRoundTrip(b.date.month);
      IntToStringRoundTrip(a.date.year);
      IntToStringRoundTrip(b.date.year);
    }
  }

  lemma MonthKeyParts(a: Entry)
    ensures Split(MonthKey(a), '\\') == [IntToString(a.date.month), IntToString(a.date.year)]
  {
    var m, y := IntToString(a.date.month), IntToString(a.date.year);
    NoBackslashInInt(a.date.month);
    NoBackslashInInt(a.date.year);
    JoinTwo(m, y, '\\');
    SplitJoin([m, y], '\\');
  }

  /** A bucket counts every one of its entries as a transaction and totals
      `-amount` over those its flag includes, whatever `user_excluded` says. */
  lemma WeeklyTotals(s: seq<Entry>)
    requires StrictlyOrdered(s)
    ensures var ws := WeeklySummaries(s);
      forall i :: 0 <= i < |ws| ==>
        ws[i].transactions == |ws[i].entries| && ws[i].total == Total(ws[i].entries, IncludedWeekly)
  {
    WeeklyEntries(s);
    var ws := WeeklySummaries(s);
    assert forall i :: 0 <= i < |ws| ==> ws[i].entries == EntriesOf(ws)[i];
  }

  lemma MonthlyTotals(s: seq<Entry>)
    requires StrictlyOrdered(s)
    ensures var ms := MonthlySummaries(s);
      forall i :: 0 <= i < |ms| ==>
        ms[i].transactions == |ms[i].entries| && ms[i].total == Total(ms[i].entries, IncludedMonthly)
  {
    MonthlyEntries(s);
    var ms := MonthlySummaries(s);
    assert forall i :: 0 <= i < |ms| ==> ms[i].entries == EntriesOf(ms)[i];
  }

  /** A weekly bucket is named by its week number and dated by the Monday on
      or before its first entry, a Monday at most six days earlier; only the
      first bucket, when its week number is 0, keeps the blank name and the
      date 2000-01-01. */
  lemma WeeklyKeys(s: seq<Entry>)
    requires StrictlyOrdered(s)
    ensures var ws := WeeklySummaries(s);
      forall i :: 0 <= i < |ws| ==>
        var first := ws[i].entries[0];
        if i == 0 && first.weekNo == 0 then ws[i].id == "" && ws[i].date == Date(2000, 1, 1)
        else (ws[i].id == IntToString(first.weekNo) && Weekday(ws[i].date) == 0
              && Ordinal(first.date) - 6 <= Ordinal(ws[i].date) <= Ordinal(first.date))
  {
    WeeklyEntries(s);
    var ws := WeeklySummaries(s);
    assert forall i :: 0 <= i < |ws| ==> ws[i].entries == EntriesOf(ws)[i];
  }

  /** A monthly bucket is named `month\year` after its entries and dated the
      first of that month. */
  lemma MonthlyKeys(s: seq<Entry>)
    requires StrictlyOrdered(s)
    ensures var ms := MonthlySummaries(s);
      forall i :: 0 <= i < |ms| ==>
        var d := ms[i].entries[0].date;
        ms[i].id == IntToString(d.month) + "\\" + IntToString(d.year) && ms[i].date == Date(d.year, d.month, 1)
  {
    MonthlyEntries(s);
    var ms := MonthlySummaries(s);
    assert forall i :: 0 <= i < |ms| ==> ms[i].entries == EntriesOf(ms)[i];
  }

  // ---------------------------------------------------------------------
  // One loop iteration of the summary generators

  lemma RunsSnoc<K>(s: seq<Entry>, i: nat, key: Entry -> K)
    requires 0 < i < |s|
    ensures Runs(s[..i + 1], key) == Extend(Runs(s[..i], key), s[i], key(s[i]) == key(s[i - 1]))
  {
    var t := s[..i + 1];
    assert t[..i] == s[..i];
    assert t[i - 1] == s[i - 1];
  }

  lemma WeeklyFirst(s: seq<Entry>)
    requires |s| > 0
    ensures WeeklySummaries(s[..1]) ==
      [if s[0].weekNo == 0 then AddToBucket(NewSummary(), s[0], IncludedWeekly)
       else AddToBucket(Summary(IntToString(s[0].weekNo), MondayOnOrBefore(s[0].date), 0, 0, []), s[0], IncludedWeekly)]
  {
    assert s[..1] == [s[0]];
    assert Runs([s[0]], WeekKey) == [[s[0]]];
    BucketSingle(s[0], "", Date(2000, 1, 1), IncludedWeekly);
    BucketSingle(s[0], IntToString(s[0].weekNo), MondayOnOrBefore(s[0].date), IncludedWeekly);
  }

  lemma WeeklyNext(s: seq<Entry>, i: nat)
    requires 0 < i < |s|
    ensures var ws := WeeklySummaries(s[..i]);
      var x := s[i];
      |ws| > 0 &&
      WeeklySummaries(s[..i + 1]) ==
        if x.weekNo == s[i - 1].weekNo then ws[..|ws| - 1] + [AddToBucket(ws[|ws| - 1], x, IncludedWeekly)]
        else ws + [AddToBucket(Summary(IntToString(x.weekNo), MondayOnOrBefore(x.date), 0, 0, []), x, IncludedWeekly)]
  {
    RunsSnoc(s, i, WeekKey);
    var rs := Runs(s[..i], WeekKey);
    if s[i].weekNo == s[i - 1].weekNo {
      WeeklyExtendSame(rs, s[i]);
    } else {
      WeeklyExtendNew(rs, s[i]);
    }
  }

  lemma WeeklyExtendSame(rs: seq<seq<Entry>>, x: Entry)
    requires |rs| > 0 && forall r :: r in rs ==> |r| > 0
    ensures var ws := WeeklyBuckets(rs);
      WeeklyBuckets(Extend(rs, x, true)) == ws[..|ws| - 1] + [AddToBucket(ws[|ws| - 1], x, IncludedWeekly)]
  {
    var rs' := Extend(rs, x, true);
    var last := rs[|rs| - 1];
    assert last in rs;
    BucketSnoc(last, x, IntToString(last[0].weekNo), MondayOnOrBefore(last[0].date), IncludedWeekly);
    BucketSnoc(last, x, "", Date(2000, 1, 1), IncludedWeekly);
    assert (last + [x])[0] == last[0];
    assert rs'[..|rs| - 1] == rs[..|rs| - 1];
  }

  lemma WeeklyExtendNew(rs: seq<seq<Entry>>, x: Entry)
    requires |rs| > 0 && forall r :: r in rs ==> |r| > 0
    ensures WeeklyBuckets(Extend(rs, x, false)) ==
      WeeklyBuckets(rs) + [AddToBucket(Summary(IntToString(x.weekNo), MondayOnOrBefore(x.date), 0, 0, []), x, IncludedWeekly)]
  {
    var rs' := Extend(rs, x, false);
    BucketSingle(x, IntToString(x.weekNo), MondayOnOrBefore(x.date), IncludedWeekly);
    assert rs'[..|rs|] == rs;
  }

  lemma MonthlyFirst(s: seq<Entry>)
    requires |s| > 0
    ensures MonthlySummaries(s[..1]) ==
      [AddToBucket(Summary(MonthKey(s[0]), FirstOfMonth(s[0].date), 0, 0, []), s[0], IncludedMonthly)]
  {
    assert s[..1] == [s[0]];
    assert Runs([s[0]], MonthOf) == [[s[0]]];
    BucketSingle(s[0], MonthKey(s[0]), FirstOfMonth(s[0].date), IncludedMonthly);
  }

  lemma MonthlyNext(s: seq<Entry>, i: nat)
    requires 0 < i < |s|
    ensures var ms := MonthlySummaries(s[..i]);
      var x := s[i];
      |ms| > 0 &&
      MonthlySummaries(s[..i + 1]) ==
        if MonthOf(x) == MonthOf(s[i - 1]) then ms[..|ms| - 1] + [AddToBucket(ms[|ms| - 1], x, IncludedMonthly)]
        else ms + [AddToBucket(Summary(MonthKey(x), FirstOfMonth(x.date), 0, 0, []), x, IncludedMonthly)]
  {
    RunsSnoc(s, i, MonthOf);
    var rs := Runs(s[..i], MonthOf);
    if MonthOf(s[i]) == MonthOf(s[i - 1]) {
      MonthlyExtendSame(rs, s[i]);
    } else {
      MonthlyExtendNew(rs, s[i]);
    }
  }

  lemma MonthlyExtendSame(rs: seq<seq<Entry>>, x: Entry)
    requires |rs| > 0 && forall r :: r in rs ==> |r| > 0
    ensures var ms := MonthlyBuckets(rs);
      MonthlyBuckets(Extend(rs, x, true)) == ms[..|ms| - 1] + [AddToBucket(ms[|ms| - 1], x, IncludedMonthly)]
  {
    var rs' := Extend(rs, x, true);
    MonthlyLastBucket(rs, x);
    MonthlyEarlierBuckets(rs, x);
    ReplaceLast(MonthlyBuckets(rs'), MonthlyBuckets(rs), AddToBucket(MonthlyBuckets(rs)[|rs| - 1], x, IncludedMonthly));
  }

  lemma MonthlyLastBucket(rs: seq<seq<Entry>>, x: Entry)
    requires |rs| > 0 && forall r :: r in rs ==> |r| > 0
    ensures MonthlyBuckets(Extend(rs, x, true))[|rs| - 1] == AddToBucket(MonthlyBuckets(rs)[|rs| - 1], x, IncludedMonthly)
  {
    var last := rs[|rs| - 1];
    assert last in rs;
    MonthlyBucketSnoc(last, x);
  }

  lemma MonthlyEarlierBuckets(rs: seq<seq<Entry>>, x: Entry)
    requires |rs| > 0 && forall r :: r in rs ==> |r| > 0
    ensures forall j :: 0 <= j < |rs| - 1 ==> MonthlyBuckets(Extend(rs, x, true))[j] == MonthlyBuckets(rs)[j]
  {
    var rs' := Extend(rs, x, true);
    assert forall j :: 0 <= j < |rs| - 1 ==> rs'[j] == rs[j];
  }

  /** A list that agrees with another but in its last element. */
  lemma ReplaceLast<T>(a: seq<T>, b: seq<T>, v: T)
    requires |a| == |b| > 0 && a[|a| - 1] == v
    requires forall j :: 0 <= j < |b| - 1 ==> a[j] == b[j]
    ensures a == b[..|b| - 1] + [v]
  {
  }

  lemma MonthlyBucketSnoc(run: seq<Entry>, x: Entry)
    requires |run| > 0
    ensures MonthlyBucket(run + [x]) == AddToBucket(MonthlyBucket(run), x, IncludedMonthly)
  {
    BucketSnoc(run, x, MonthKey(run[0]), FirstOfMonth(run[0].date), IncludedMonthly);
    assert (run + [x])[0] == run[0];
  }

  lemma MonthlyExtendNew(rs: seq<seq<Entry>>, x: Entry)
    requires |rs| > 0 && forall r :: r in rs ==> |r| > 0
    ensures MonthlyBuckets(Extend(rs, x, false)) ==
      MonthlyBuckets(rs) + [AddToBucket(Summary(MonthKey(x), FirstOfMonth(x.date), 0, 0, []), x, IncludedMonthly)]
  {
    var rs' := Extend(rs, x, false);
    BucketSingle(x, MonthKey(x), FirstOfMonth(x.date), IncludedMonthly);
    assert rs'[..|rs|] == rs;
  }

  /** The buckets so far are the finished ones and the open one. */
  lemma LoopBuckets(ws: seq<Summary>, done: seq<Summary>, open: Summary)
    requires ws == done + [open]
    ensures |ws| > 0 && ws[..|ws| - 1] == done && ws[|ws| - 1] == open
  {
  }

  /** One iteration of the weekly loop: from the finished buckets `done`, the
      open bucket `open` and the week number `weekNo` before entry `i`, the
      buckets `done'` and the bucket `base` that entry `i` is then added to
      give the buckets of the first `i + 1` entries. */
  lemma WeeklyStep(s: seq<Entry>, i: nat, done: seq<Summary>, open: Summary, weekNo: int,
                   done': seq<Summary>, base: Summary)
    requires i < |s|
    requires i == 0 ==> done == [] && open == NewSummary() && weekNo == 0
    requires i > 0 ==> weekNo == s[i - 1].weekNo && |open.entries| > 0 && done + [open] == WeeklySummaries(s[..i])
    requires weekNo != s[i].weekNo ==>
      done' == (if |open.entries| > 0 then done + [open] else done)
      && base == Summary(IntToString(s[i].weekNo), MondayOnOrBefore(s[i].date), 0, 0, [])
    requires weekNo == s[i].weekNo ==> done' == done && base == open
    ensures done' + [AddToBucket(base, s[i], IncludedWeekly)] == WeeklySummaries(s[..i + 1])
  {
    if i == 0 {
      WeeklyFirst(s);
    } else {
      WeeklyNext(s, i);
      LoopBuckets(WeeklySummaries(s[..i]), done, open);
    }
  }

  /** One iteration of the monthly loop. */
  lemma MonthlyStep(s: seq<Entry>, i: nat, done: seq<Summary>, open: Summary, month: string,
                    done': seq<Summary>, base: Summary)
    requires i < |s|
    requires i == 0 ==> done == [] && open == NewSummary() && month == ""
    requires i > 0 ==> month == MonthKey(s[i - 1]) && |open.entries| > 0 && done + [open] == MonthlySummaries(s[..i])
    requires month != MonthKey(s[i]) ==>
      done' == (if |open.entries| > 0 then done + [open] else done)
      && base == Summary(MonthKey(s[i]), FirstOfMonth(s[i].date), 0, 0, [])
    requires month == MonthKey(s[i]) ==> done' == done && base == open
    ensures done' + [AddToBucket(base, s[i], IncludedMonthly)] == MonthlySummaries(s[..i + 1])
  {
    if i == 0 {
      assert |MonthKey(s[0])| > 0;
      MonthlyFirst(s);
    } else {
      MonthKeyInjective(s[i], s[i - 1]);
      MonthlyNext(s, i);
      LoopBuckets(MonthlySummaries(s[..i]), done, open);
    }
  }

  // ---------------------------------------------------------------------
  // The file format

  const Header110 := "Money Reckoner 1.10"
  const Header120 := "Money Reckoner 1.20"
  const Header130 := "Money Reckoner 1.30"

  /** The version a first line announces, its line end dropped; only the
      three headers the reader knows are accepted. */
  function HeaderVersion(line: string): (v: Option<nat>)
    ensures v.Some? <==> DropLast(line) in {Header110, Header120, Header130}
    ensures v.Some? ==> v.value in {110, 120, 130}
  {
    var h := DropLast(line);
    if h == Header110 then Some(110)
    else if h == Header120 then Some(120)
    else if h == Header130 then Some(130)
    else None
  }

  /** The per-line loop of `read_file` from `lines` on, over the ledger
      `acc`: each line is decoded into a fresh entry and added; a line that
      does not decode ends the load with `False`, and an exception other than
      `ValueError` propagates. Entries added before the stop stay. */
  function LoadLines(acc: seq<Entry>, lines: seq<string>, ver: nat): (Result<bool>, seq<Entry>)
    decreases |lines|
  {
    if |lines| == 0 then (Ok(true), acc)
    else
      match FromCsv(NewEntry(), lines[0], ver)
      case Raise(f) => (Raise(f), acc)
      case Ok(None) => (Ok(false), acc)
      case Ok(Some(e)) => LoadLines(Insert(acc, e).1, lines[1..], ver)
  }

  /** `read_file` on the lines of a file (as `readlines` gives them, line
      ends kept): what it returns or raises, and the ledger afterwards. An
      empty file raises `IndexError`, which no handler catches; an unknown
      header is the caught `RuntimeError` and gives `False`. */
  function ReadLines(acc: seq<Entry>, lines: seq<string>): (Result<bool>, seq<Entry>)
  {
    if |lines| == 0 then (Raise(IndexError), acc)
    else
      match HeaderVersion(lines[0])
      case None => (Ok(false), acc)
      case Some(v) => LoadLines(acc, lines[1..], v)
  }

  /** A file is read in full only when its first line is one of the three
      known headers. */
  lemma ReadNeedsHeader(acc: seq<Entry>, lines: seq<string>)
    requires ReadLines(acc, lines).0 == Ok(true)
    ensures |lines| > 0 && DropLast(lines[0]) in {Header110, Header120, Header130}
  {
  }

  /** Loading keeps the ledger strictly ordered and keeps every entry it
      already held, whatever line stops it. */
  lemma {:induction false} LoadLinesKeeps(acc: seq<Entry>, lines: seq<string>, ver: nat)
    requires StrictlyOrdered(acc)
    ensures StrictlyOrdered(LoadLines(acc, lines, ver).1)
    ensures multiset(acc) <= multiset(LoadLines(acc, lines, ver).1)
    decreases |lines|
  {
    if |lines| > 0 {
      match FromCsv(NewEntry(), lines[0], ver)
      case Raise(f) =>
      case Ok(None) =>
      case Ok(Some(e)) =>
        InsertKeepsStrictOrder(acc, e);
        InsertCount(acc, e);
        LoadLinesKeeps(Insert(acc, e).1, lines[1..], ver);
    }
  }

  /** The lines `write_file` writes: the 1.30 header, then one `to_csv` line
      per entry in ledger order. */
  function FileLines(entries: seq<Entry>): (lines: seq<string>)
    ensures |lines| == |entries| + 1
  {
    [Header130 + "\n"] + BodyLines(entries)
  }

  function BodyLines(entries: seq<Entry>): (lines: seq<string>)
    ensures |lines| == |entries|
  {
    seq(|entries|, i requires 0 <= i < |entries| => ToCsv(entries[i]) + "\n")
  }

  lemma BodyLinesSnoc(entries: seq<Entry>, e: Entry)
    ensures BodyLines(entries + [e]) == BodyLines(entries) + [ToCsv(e) + "\n"]
  {
  }

  lemma FileLinesSnoc(a: seq<Entry>, e: Entry, lines: seq<string>, line: string)
    requires lines == FileLines(a) && line == ToCsv(e) + "\n"
    ensures lines + [line] == FileLines(a + [e])
  {
    BodyLinesSnoc(a, e);
  }

  /** The entries as a fresh read gives them back: `is_new` is not part of
      the file. */
  function Reloaded(entries: seq<Entry>): (r: seq<Entry>)
    ensures |r| == |entries|
  {
    seq(|entries|, i requires 0 <= i < |entries| => entries[i].(isNew := false))
  }

  /** An entry whose description holds no line break is written inside one
      file line. `readlines` on a file opened in text mode ends a line at a
      carriage return as well as at a line feed, so only then does it give
      back the lines `write_file` wrote. */
  predicate SingleLine(e: Entry)
  {
    '\n' !in e.description && '\r' !in e.description
  }

  /** Reading back what `write_file` wrote, into an empty ledger, restores the
      ledger (apart from `is_new`), provided it is strictly ordered and no
      description holds a double quote, a line break or surrounding
      whitespace. */
  lemma WriteReadRoundTrip(entries: seq<Entry>)
    requires StrictlyOrdered(entries)
    requires forall i :: 0 <= i < |entries| ==> CsvSafe(entries[i]) && SingleLine(entries[i])
    ensures ReadLines([], FileLines(entries)) == (Ok(true), Reloaded(entries))
  {
    assert DropLast(Header130 + "\n") == Header130;
    assert FileLines(entries)[1..] == BodyLines(entries);
    assert Reloaded(entries[..0]) == [];
    LoadWritten(entries, 0);
    assert BodyLines(entries)[0..] == BodyLines(entries);
    assert entries[..|entries|] == entries;
  }

  lemma {:induction false} LoadWritten(entries: seq<Entry>, k: nat)
    requires k <= |entries| && StrictlyOrdered(entries)
    requires forall i :: 0 <= i < |entries| ==> CsvSafe(entries[i])
    ensures LoadLines(Reloaded(entries[..k]), BodyLines(entries)[k..], 130) == (Ok(true), Reloaded(entries))
    decreases |entries| - k
  {
    var acc := Reloaded(entries[..k]);
    var ls := BodyLines(entries)[k..];
    if k == |entries| {
      assert entries[..k] == entries;
    } else {
      var e := entries[k];
      var e' := e.(isNew := false);
      ToCsvRoundTrip(NewEntry(), e, 130);
      BodyLinesAt(entries, k);
      ReloadedBefore(entries, k);
      ReloadedSnoc(entries, k);
      LoadOne(acc, ls, e', 130);
      LoadWritten(entries, k + 1);
    }
  }

  /** A first line that decodes to an entry sorting after everything read so
      far is appended, and reading goes on with the next line. */
  lemma LoadOne(acc: seq<Entry>, lines: seq<string>, e: Entry, ver: nat)
    requires |lines| > 0 && FromCsv(NewEntry(), lines[0], ver) == Ok(Some(e))
    requires forall j :: 0 <= j < |acc| ==> Compare(acc[j], e) == -1
    ensures LoadLines(acc, lines, ver) == LoadLines(acc + [e], lines[1..], ver)
  {
    InsertAtEnd(acc, e);
  }

  /** Line `k` of the body is entry `k`'s record and the lines after it are
      those of the later entries. */
  lemma BodyLinesAt(entries: seq<Entry>, k: nat)
    requires k < |entries|
    ensures var ls := BodyLines(entries)[k..];
      |ls| > 0 && ls[0] == ToCsv(entries[k]) + "\n" && ls[1..] == BodyLines(entries)[k + 1..]
  {
  }

  /** Every entry read back before entry `k` sorts before it. */
  lemma ReloadedBefore(entries: seq<Entry>, k: nat)
    requires k < |entries| && StrictlyOrdered(entries)
    ensures var acc := Reloaded(entries[..k]);
      forall j :: 0 <= j < |acc| ==> Compare(acc[j], entries[k].(isNew := false)) == -1
  {
    var acc := Reloaded(entries[..k]);
    forall j | 0 <= j < |acc|
      ensures Compare(acc[j], entries[k].(isNew := false)) == -1
    {
      assert acc[j] == entries[j].(isNew := false);
      assert Compare(entries[j], entries[k]) == -1;
    }
  }

  lemma ReloadedSnoc(entries: seq<Entry>, k: nat)
    requires k < |entries|
    ensures Reloaded(entries[..k]) + [entries[k].(isNew := false)] == Reloaded(entries[..k + 1])
  {
  }

  /** The body of `generate_weekly_summaries`'s loop for entry `s[i]`: a
      week number other than the previous one closes the open bucket (when it
      holds entries) and opens one named by the week number and dated the
      Monday of the entry's week; the entry is then accumulated into the open
      bucket. The buckets finished so far and the open one are always those
      of the entries seen so far. */
  method WeeklyVisit(s: seq<Entry>, i: nat, done: seq<Summary>, summary: Summary, weekNo: int)
    returns (done': seq<Summary>, summary': Summary, weekNo': int)
    requires i < |s|
    requires i == 0 ==> done == [] && summary == NewSummary() && weekNo == 0
    requires i > 0 ==> weekNo == s[i - 1].weekNo && |summary.entries| > 0 && done + [summary] == WeeklySummaries(s[..i])
    ensures weekNo' == s[i].weekNo && |summary'.entries| > 0 && done' + [summary'] == WeeklySummaries(s[..i + 1])
  {
    var se := s[i];
    done', summary', weekNo' := done, summary, weekNo;
    if weekNo != se.weekNo {
      weekNo' := se.weekNo;
      if |summary.entries| > 0 {
        done' := done + [summary];
      }
      summary' := NewSummary();
      summary' := summary'.(id := IntToString(weekNo'));
      summary' := summary'.(date := MondayOnOrBefore(se.date));
    }
    ghost var base := summary';
    summary' := Accumulate(summary', se, se.includedWeekly);
    assert summary' == AddToBucket(base, se, IncludedWeekly);
    WeeklyStep(s, i, done, summary, weekNo, done', base);
  }

  /** The loop of `generate_weekly_summaries` over the stored entries; the
      last bucket is closed at the end when it holds entries. */
  method CollectWeekly(s: seq<Entry>) returns (r: seq<Summary>)
    ensures r == WeeklySummaries(s)
  {
    var done: seq<Summary> := [];
    var weekNo := 0;
    var summary := NewSummary();
    var i := 0;
    while i < |s|
      invariant 0 <= i <= |s|
      invariant i == 0 ==> done == [] && summary == NewSummary() && weekNo == 0
      invariant i > 0 ==> weekNo == s[i - 1].weekNo && |summary.entries| > 0 && done + [summary] == WeeklySummaries(s[..i])
    {
      done, summary, weekNo := WeeklyVisit(s, i, done, summary, weekNo);
      i := i + 1;
    }
    if |summary.entries| > 0 {
      done := done + [summary];
    }
    assert s[..i] == s;
    r := done;
  }

  /** The body of `generate_monthly_summaries`'s loop for entry `s[i]`: the
      entry's `month\\year` text, when it differs from the previous one,
      closes the open bucket (when it holds entries) and opens one named by
      that text and dated the first of the month; the entry is then
      accumulated into the open bucket. */
  method MonthlyVisit(s: seq<Entry>, i: nat, done: seq<Summary>, summary: Summary, month: string)
    returns (done': seq<Summary>, summary': Summary, month': string)
    requires i < |s|
    requires i == 0 ==> done == [] && summary == NewSummary() && month == ""
    requires i > 0 ==> month == MonthKey(s[i - 1]) && |summary.entries| > 0 && done + [summary] == MonthlySummaries(s[..i])
    ensures month' == MonthKey(s[i]) && |summary'.entries| > 0 && done' + [summary'] == MonthlySummaries(s[..i + 1])
  {
    var se := s[i];
    var ms := MonthKey(se);
    done', summary', month' := done, summary, month;
    if i == 0 {
      assert month != ms;
    }
    if month != ms {
      month' := ms;
      if |summary.entries| > 0 {
        done' := done + [summary];
      }
      summary' := NewSummary();
      summary' := summary'.(id := ms);
      summary' := summary'.(date := FirstOfMonth(se.date));
    }
    ghost var base := summary';
    summary' := Accumulate(summary', se, se.includedMonthly);
    assert summary' == AddToBucket(base, se, IncludedMonthly);
    MonthlyStep(s, i, done, summary, month, done', base);
  }

  /** The loop of `generate_monthly_summaries`, keyed on the entry's
      month text. */
  method CollectMonthly(s: seq<Entry>) returns (r: seq<Summary>)
    ensures r == MonthlySummaries(s)
  {
    var done: seq<Summary> := [];
    var month := "";
    var summary := NewSummary();
    var i := 0;
    while i < |s|
      invariant 0 <= i <= |s|
      invariant i == 0 ==> done == [] && summary == NewSummary() && month == ""
      invariant i > 0 ==> month == MonthKey(s[i - 1]) && |summary.entries| > 0 && done + [summary] == MonthlySummaries(s[..i])
    {
      done, summary, month := MonthlyVisit(s, i, done, summary, month);
      i := i + 1;
    }
    if |summary.entries| > 0 {
      done := done + [summary];
    }
    assert s[..i] == s;
    r := done;
  }

  // ---------------------------------------------------------------------
  // The store

  /** The "accumulate summary data" step of both summary loops: the entry
      counts as a transaction, its amount is taken off the total when it is
      included, and it is added to the bucket's entries. */
  method Accumulate(summary: Summary, se: Entry, included: bool) returns (r: Summary)
    ensures r.id == summary.id && r.date == summary.date
    ensures r.total == summary.total - (if included then se.amount else 0)
    ensures r.transactions == summary.transactions + 1
    ensures r.entries == Insert(summary.entries, se).1
  {
    r := summary;
    if included {
      r := r.(total := r.total - se.amount);
    }
    r := r.(transactions := r.transactions + 1);
    var _, bucket := AddStatementEntry(r.entries, se);
    r := r.(entries := bucket);
  }

  /** One pass of `read_file`'s line loop: decode line `n` into a fresh
      entry and add it to `db`, or say what `read_file` then returns. */
  method LoadLine(db: Ledger, lines: seq<string>, n: nat, ver: nat) returns (stop: Option<Result<bool>>)
    requires n < |lines| && db.Valid()
    modifies db
    ensures db.Valid()
    ensures stop.None? ==> LoadLines(old(db.entries), lines[n..], ver) == LoadLines(db.entries, lines[n + 1..], ver)
    ensures stop.Some? ==> LoadLines(old(db.entries), lines[n..], ver) == (stop.value, db.entries)
    ensures db.weekly == old(db.weekly) && db.monthly == old(db.monthly) && db.isDirty == old(db.isDirty) && db.seqNo == old(db.seqNo)
  {
    assert lines[n..][0] == lines[n] && lines[n..][1..] == lines[n + 1..];
    var decoded := FromCsv(NewEntry(), lines[n], ver);
    match decoded
    case Raise(f) =>
      stop := Some(Raise(f));
    case Ok(None) =>
      stop := Some(Ok(false));
    case Ok(Some(e)) =>
      var _ := db.Add(e);
      stop := None;
  }

  /** One pass of `write_file`'s loop: the `to_csv` line of entry `i`. */
  method WriteLine(s: seq<Entry>, i: nat, lines: seq<string>) returns (lines': seq<string>)
    requires i < |s| && lines == FileLines(s[..i])
    ensures lines' == FileLines(s[..i + 1])
  {
    var line := ToCsv(s[i]) + "\n";
    FileLinesSnoc(s[..i], s[i], lines, line);
    assert s[..i] + [s[i]] == s[..i + 1];
    lines' := lines + [line];
  }

  /** The module state of the store: the ledger, the two summary lists, the
      unsaved-changes flag and the sequence-number counter. */
  class Ledger {
    var entries: seq<Entry>
    var weekly: seq<Summary>
    var monthly: seq<Summary>
    var isDirty: bool
    var seqNo: int

    /** The ledger holds each identity once, in order. */
    predicate Valid()
      reads this
    {
      StrictlyOrdered(entries)
    }

    constructor()
      ensures Valid()
      ensures entries == [] && weekly == [] && monthly == [] && !isDirty && seqNo == 0
    {
      entries := [];
      weekly := [];
      monthly := [];
      isDirty := false;
      seqNo := 0;
    }

    /** `next_seq_no`: a counter that only goes up. */
    method NextSeqNo() returns (n: int)
      modifies this
      ensures n == old(seqNo) + 1 && seqNo == n
      ensures entries == old(entries) && weekly == old(weekly) && monthly == old(monthly) && isDirty == old(isDirty)
    {
      seqNo := seqNo + 1;
      n := seqNo;
    }

    /** `set_dirty`. */
    method SetDirty()
      modifies this
      ensures isDirty
      ensures entries == old(entries) && weekly == old(weekly) && monthly == old(monthly) && seqNo == old(seqNo)
    {
      isDirty := true;
    }

    /** `add_statement_entry(statement_entries, e)`. */
    method Add(e: Entry) returns (added: bool)
      requires Valid()
      modifies this
      ensures Valid()
      ensures (added, entries) == Insert(old(entries), e)
      ensures weekly == old(weekly) && monthly == old(monthly) && isDirty == old(isDirty) && seqNo == old(seqNo)
    {
      InsertKeepsStrictOrder(entries, e);
      added, entries := AddStatementEntry(entries, e);
    }

    /** `read_file` over the file's lines. */
    method ReadFile(lines: seq<string>) returns (r: Result<bool>)
      requires Valid()
      modifies this
      ensures Valid()
      ensures (r, entries) == ReadLines(old(entries), lines)
      ensures weekly == old(weekly) && monthly == old(monthly) && isDirty == old(isDirty) && seqNo == old(seqNo)
    {
      if |lines| == 0 {
        return Raise(IndexError);
      }
      var h := DropLast(lines[0]);
      var ver: nat;
      if h == Header110 {
        ver := 110;
      } else if h == Header120 {
        ver := 120;
      } else if h == Header130 {
        ver := 130;
      } else {
        return Ok(false);
      }
      var n := 1;
      while n < |lines|
        invariant 1 <= n <= |lines|
        invariant Valid()
        invariant LoadLines(old(entries), lines[1..], ver) == LoadLines(entries, lines[n..], ver)
        invariant weekly == old(weekly) && monthly == old(monthly) && isDirty == old(isDirty) && seqNo == old(seqNo)
      {
        var stop := LoadLine(this, lines, n, ver);
        if stop.Some? {
          return stop.value;
        }
        n := n + 1;
      }
      assert lines[1..][0..] == lines[1..];
      return Ok(true);
    }

    /** `write_file`: the lines it writes. */
    method WriteFile() returns (lines: seq<string>)
      ensures lines == FileLines(entries)
    {
      var s := entries;
      lines := [Header130 + "\n"];
      var i := 0;
      while i < |s|
        invariant 0 <= i <= |s|
        invariant lines == FileLines(s[..i])
      {
        lines := WriteLine(s, i, lines);
        i := i + 1;
      }
      assert s[..i] == s;
    }

    /** `generate_weekly_summaries`. */
    method GenerateWeeklySummaries()
      modifies this
      ensures weekly == WeeklySummaries(entries)
      ensures entries == old(entries) && monthly == old(monthly) && isDirty == old(isDirty) && seqNo == old(seqNo)
    {
      weekly := CollectWeekly(entries);
    }

    /** `generate_monthly_summaries`. */
    method GenerateMonthlySummaries()
      modifies this
      ensures monthly == MonthlySummaries(entries)
      ensures entries == old(entries) && weekly == old(weekly) && isDirty == old(isDirty) && seqNo == old(seqNo)
    {
      monthly := CollectMonthly(entries);
    }
  }
}
