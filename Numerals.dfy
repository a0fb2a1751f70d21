/** Decimal numerals: Python's `int(s)`, `'{}'.format(n)`, `'{:02d}'`,
    `'{:,}'` grouping, and money as integer pence with `float(s)` restricted
    to at most two decimals. */
module Numerals {
  import opened Outcomes
  import opened Text

  predicate IsDigit(c: char) { '0' <= c <= '9' }

  predicate AllDigits(s: string)
  {
    forall i :: 0 <= i < |s| ==> IsDigit(s[i])
  }

  function DigitChar(d: nat): (c: char)
    requires d < 10
    ensures IsDigit(c) && c as int - '0' as int == d
  {
    ('0' as int + d) as char
  }

  /** The value of a string of decimal digits, leading zeros allowed. */
  function DigitsValue(s: string): nat
    requires AllDigits(s)
  {
    if |s| == 0 then 0 else DigitsValue(s[..|s| - 1]) * 10 + (s[|s| - 1] as int - '0' as int)
  }

  function Pow10(n: nat): (r: nat)
    ensures r >= 1
  {
    if n == 0 then 1 else 10 * Pow10(n - 1)
  }

  lemma {:induction false} DigitsValueAppend(a: string, b: string)
    requires AllDigits(a) && AllDigits(b)
    ensures AllDigits(a + b)
    ensures DigitsValue(a + b) == DigitsValue(a) * Pow10(|b|) + DigitsValue(b)
    decreases |b|
  {
    if |b| == 0 {
      assert a + b == a;
    } else {
      var b' := b[..|b| - 1];
      var d := b[|b| - 1] as int - '0' as int;
      DigitsValueAppend(a, b');
      assert (a + b)[..|a + b| - 1] == a + b';
      assert (a + b)[|a + b| - 1] == b[|b| - 1];
      assert DigitsValue(a + b) == DigitsValue(a + b') * 10 + d;
      assert DigitsValue(b) == DigitsValue(b') * 10 + d;
      ShiftDigit(DigitsValue(a), Pow10(|b'|), DigitsValue(b'), d);
    }
  }

  lemma ShiftDigit(x: int, p: int, y: int, d: int)
    ensures (x * p + y) * 10 + d == x * (10 * p) + (y * 10 + d)
  {
  }

  /** Python's `'{}'.format(n)` for a natural number. */
  function NatToString(n: nat): (r: string)
    ensures |r| >= 1
    ensures n < 10 ==> |r| == 1
    ensures n < 100 ==> |r| <= 2
  {
    if n < 10 then [DigitChar(n)] else NatToString(n / 10) + [DigitChar(n % 10)]
  }

  /** A numeral is made of digits only. */
  lemma {:induction false} NatToStringDigits(n: nat)
    ensures AllDigits(NatToString(n))
  {
    if n >= 10 {
      NatToStringDigits(n / 10);
    }
  }

  /** Reading back what `NatToString` wrote gives the number. */
  lemma {:induction false} NatToStringValue(n: nat)
    ensures AllDigits(NatToString(n)) && DigitsValue(NatToString(n)) == n
  {
    NatToStringDigits(n);
    if n >= 10 {
      NatToStringValue(n / 10);
      var s := NatToString(n);
      assert s[..|s| - 1] == NatToString(n / 10);
    }
  }

  /** Python's `'{}'.format(i)` for any integer. */
  function IntToString(i: int): string
  {
    if i < 0 then "-" + NatToString(-i) else NatToString(i)
  }

  /** Python's `'{:02d}'.format(n)` for a natural number. */
  function ZeroPad2(n: nat): (r: string)
    ensures |r| >= 2 && AllDigits(r)
    ensures n < 100 ==> |r| == 2
  {
    NatToStringDigits(n);
    if n < 10 then "0" + NatToString(n) else NatToString(n)
  }

  lemma ZeroPad2Value(n: nat)
    ensures DigitsValue(ZeroPad2(n)) == n
  {
    NatToStringValue(n);
    if n < 10 {
      DigitsValueAppend("0", NatToString(n));
    }
  }

  /** Three digits with leading zeros, one group of `'{:,}'`. */
  function Pad3(k: nat): (r: string)
    requires k < 1000
    ensures |r| == 3 && AllDigits(r)
  {
    [DigitChar(k / 100), DigitChar((k / 10) % 10), DigitChar(k % 10)]
  }

  lemma Pad3Value(k: nat)
    requires k < 1000
    ensures DigitsValue(Pad3(k)) == k
  {
    var p := Pad3(k);
    assert p[..2][..1] == [p[0]];
    assert [p[0]][..0] == [];
    assert DigitsValue([p[0]]) == k / 100;
    assert DigitsValue(p[..2]) == (k / 100) * 10 + (k / 10) % 10;
  }

  /** Python's `'{:,}'.format(n)`: digits in groups of three separated by commas. */
  function Grouped(n: nat): (r: string)
    ensures |r| >= 1 && IsDigit(r[0]) && IsDigit(r[|r| - 1])
  {
    NatToStringDigits(n);
    if n < 1000 then NatToString(n) else Grouped(n / 1000) + "," + Pad3(n % 1000)
  }

  /** Removing the commas from `'{:,}'` leaves the plain numeral of `n`. */
  lemma {:induction false} GroupedValue(n: nat)
    ensures |Remove(Grouped(n), ',')| >= 1 && AllDigits(Remove(Grouped(n), ','))
    ensures DigitsValue(Remove(Grouped(n), ',')) == n
  {
    if n < 1000 {
      NatToStringDigits(n);
      RemoveAbsent(NatToString(n), ',');
      NatToStringValue(n);
    } else {
      GroupedValue(n / 1000);
      GroupedStep(n);
    }
  }

  /** One step of the grouping: the digits of the higher groups followed by
      the three digits of the lowest group. */
  lemma GroupedStep(n: nat)
    requires n >= 1000
    requires AllDigits(Remove(Grouped(n / 1000), ','))
    requires DigitsValue(Remove(Grouped(n / 1000), ',')) == n / 1000
    ensures |Remove(Grouped(n), ',')| >= 1 && AllDigits(Remove(Grouped(n), ','))
    ensures DigitsValue(Remove(Grouped(n), ',')) == n
  {
    var g := Grouped(n / 1000);
    var p := Pad3(n % 1000);
    assert Grouped(n) == g + "," + p;
    RemoveGroupSeparator(g, p);
    Pad3Value(n % 1000);
    DigitsThousands(Remove(g, ','), p, n / 1000, n % 1000);
  }

  lemma RemoveGroupSeparator(g: string, p: string)
    requires AllDigits(p)
    ensures Remove(g + "," + p, ',') == Remove(g, ',') + p
  {
    NoCommaInDigits(p);
    RemoveAppend(g + ",", p, ',');
    RemoveAppend(g, ",", ',');
    RemoveAbsent(p, ',');
    RemoveOnly(',');
    assert Remove(g, ',') + "" == Remove(g, ',');
  }

  lemma NoCommaInDigits(digits: string)
    requires AllDigits(digits)
    ensures ',' !in digits
  {
  }

  lemma DigitsThousands(head: string, p: string, h: nat, l: nat)
    requires AllDigits(head) && DigitsValue(head) == h
    requires |p| == 3 && AllDigits(p) && DigitsValue(p) == l
    ensures |head + p| >= 1 && AllDigits(head + p) && DigitsValue(head + p) == h * 1000 + l
  {
    DigitsValueAppend(head, p);
    assert Pow10(|p|) == 1000;
  }

  /** Python's `int(s)`: surrounding whitespace, an optional sign and at least
      one decimal digit. */
  function ParseInt(s: string): Option<int>
  {
    var t := Strip(s);
    if |t| > 0 && (t[0] == '-' || t[0] == '+') then
      var b := t[1..];
      if |b| > 0 && AllDigits(b) then Some(if t[0] == '-' then 0 - DigitsValue(b) else DigitsValue(b)) else None
    else if |t| > 0 && AllDigits(t) then Some(DigitsValue(t))
    else None
  }

  /** `int` reads back every integer `'{}'.format` writes. */
  lemma IntToStringRoundTrip(i: int)
    ensures ParseInt(IntToString(i)) == Some(i)
  {
    var n := if i < 0 then -i else i;
    NatToStringValue(n);
    if i < 0 {
      ParseNegativeDigits(NatToString(n), n);
    } else {
      ParseDigits(NatToString(n), n);
    }
  }

  /** Digits worth `v` read back as `v`. */
  lemma ParseDigits(s: string, v: nat)
    requires |s| >= 1 && AllDigits(s) && DigitsValue(s) == v
    ensures ParseInt(s) == Some(v)
  {
    assert IsStripped(s);
    StripStripped(s);
  }

  /** A minus and digits worth `v` read back as `-v`. */
  lemma ParseNegativeDigits(s: string, v: nat)
    requires |s| >= 1 && AllDigits(s) && DigitsValue(s) == v
    ensures ParseInt("-" + s) == Some(-(v as int))
  {
    var t := "-" + s;
    assert t[0] == '-' && t[|t| - 1] == s[|s| - 1];
    assert IsStripped(t);
    StripStripped(t);
    assert t[1..] == s;
  }

  /** `int` reads back the zero-padded day, month and year of a date. */
  lemma ZeroPad2RoundTrip(n: nat)
    ensures ParseInt(ZeroPad2(n)) == Some(n)
  {
    ZeroPad2Value(n);
    StripStripped(ZeroPad2(n));
  }

  /** Money in pence as the entry model prints it: `'-£{:,.2f}'` of the
      magnitude for a negative value, `'£{:,.2f}'` otherwise. */
  function MoneyText(pence: int): string
  {
    if pence < 0 then "-£" + Pounds(-pence) else "£" + Pounds(pence)
  }

  /** `'{:,.2f}'` of a non-negative amount given in pence. */
  function Pounds(pence: nat): string
  {
    Grouped(pence / 100) + "." + ZeroPad2(pence % 100)
  }

  function IndexOf(s: string, c: char): (k: nat)
    requires c in s
    ensures k < |s| && s[k] == c && c !in s[..k]
  {
    if s[0] == c then 0 else 1 + IndexOf(s[1..], c)
  }

  /** The pence of an unsigned decimal with at most two decimals: digits with
      an optional point, at least one digit in all. */
  function UnsignedPence(b: string): Option<nat>
  {
    if '.' in b then
      var k := IndexOf(b, '.');
      var whole := b[..k];
      var frac := b[k + 1..];
      if AllDigits(whole) && AllDigits(frac) && |whole| + |frac| >= 1 && |frac| <= 2 then
        Some(DigitsValue(whole) * 100 + DigitsValue(frac) * (if |frac| == 1 then 10 else 1))
      else None
    else if |b| >= 1 && AllDigits(b) then Some(DigitsValue(b) * 100)
    else None
  }

  /** Python's `locale.atof(s)` in the C locale (that is, `float(s)`), for
      amounts with at most two decimals, in pence. */
  function ParseMoney(s: string): Option<int>
  {
    var t := Strip(s);
    var body := if |t| > 0 && (t[0] == '-' || t[0] == '+') then t[1..] else t;
    match UnsignedPence(body)
    case None => None
    case Some(p) => Some(if |t| > 0 && t[0] == '-' then 0 - p else p)
  }

  /** The printed magnitude has no pound sign; without its commas it is the
      digits of the pounds, a point and two digits of pence. */
  lemma PoundsDigits(q: nat)
    ensures '£' !in Pounds(q)
    ensures Remove(Pounds(q), ',') == Remove(Grouped(q / 100), ',') + "." + ZeroPad2(q % 100)
  {
    var g := Grouped(q / 100);
    var z := ZeroPad2(q % 100);
    GroupedChars(q / 100);
    assert Pounds(q) == g + ("." + z);
    RemoveAppend(g, "." + z, ',');
    RemoveAbsent("." + z, ',');
  }

  /** The printed amount without its pound sign and commas: an optional
      minus, the digits of the pounds, a point and two digits of pence. */
  lemma MoneyTextDigits(pence: int)
    ensures pence >= 0 ==> Remove(Remove(MoneyText(pence), '£'), ',') == Remove(Pounds(pence), ',')
    ensures pence < 0 ==> Remove(Remove(MoneyText(pence), '£'), ',') == "-" + Remove(Pounds(-pence), ',')
  {
    var q: nat := if pence < 0 then -pence else pence;
    var body := Pounds(q);
    PoundsDigits(q);
    SignsRemoved();
    if pence < 0 {
      RemovePrefixed("-£", body);
    } else {
      RemovePrefixed("£", body);
      assert "" + Remove(body, ',') == Remove(body, ',');
    }
  }

  /** Removing the pound signs and commas from a sign prefix and a body with
      no pound sign. */
  lemma RemovePrefixed(pre: string, body: string)
    requires '£' !in body
    ensures Remove(Remove(pre + body, '£'), ',') == Remove(Remove(pre, '£'), ',') + Remove(body, ',')
  {
    RemoveAppend(pre, body, '£');
    RemoveAbsent(body, '£');
    RemoveAppend(Remove(pre, '£'), body, ',');
  }

  lemma SignsRemoved()
    ensures Remove(Remove("-£", '£'), ',') == "-"
    ensures Remove(Remove("£", '£'), ',') == ""
  {
    RemoveOnly('£');
    RemoveAbsent("-", '£');
    RemoveAbsent("-", ',');
    RemoveAppend("-", "£", '£');
    assert "-£" == "-" + "£";
    assert Remove("", ',') == "";
  }

  lemma {:induction false} GroupedChars(n: nat)
    ensures forall i :: 0 <= i < |Grouped(n)| ==> Grouped(n)[i] == ',' || IsDigit(Grouped(n)[i])
  {
    NatToStringDigits(n);
    if n >= 1000 {
      GroupedChars(n / 1000);
    }
  }

  /** Digits, a point and two digits read back as pence. */
  lemma UnsignedPenceOf(digits: string, z: string)
    requires |digits| >= 1 && AllDigits(digits) && |z| == 2 && AllDigits(z)
    ensures UnsignedPence(digits + "." + z) == Some(DigitsValue(digits) * 100 + DigitsValue(z))
    ensures IsDigit((digits + "." + z)[0]) && IsDigit((digits + "." + z)[|digits| + 2])
  {
    var u := digits + "." + z;
    var k := |digits|;
    assert u[..k] == digits;
    assert u[k + 1..] == z;
    assert u[k] == '.';
    NoPointInDigits(digits);
    IndexOfUnique(u, '.', k);
    PointedPence(u, k, digits, z);
    assert u[0] == digits[0] && u[k + 2] == z[1];
  }

  lemma NoPointInDigits(digits: string)
    requires AllDigits(digits)
    ensures '.' !in digits
  {
  }

  /** A string with its first point at `k`, digits `w` before it and two
      digits `f` after it, reads as `w` pounds and `f` pence. */
  lemma PointedPence(u: string, k: nat, w: string, f: string)
    requires k < |u| && u[k] == '.' && IndexOf(u, '.') == k
    requires u[..k] == w && u[k + 1..] == f
    requires |w| >= 1 && AllDigits(w) && |f| == 2 && AllDigits(f)
    ensures UnsignedPence(u) == Some(DigitsValue(w) * 100 + DigitsValue(f))
  {
    assert '.' in u;
  }

  lemma IndexOfUnique(s: string, c: char, j: nat)
    requires j < |s| && s[j] == c && c !in s[..j]
    ensures IndexOf(s, c) == j
  {
    var k := IndexOf(s, c);
    forall i | 0 <= i < j ensures s[i] != c {
      assert s[..j][i] == s[i];
    }
    forall i | 0 <= i < k ensures s[i] != c {
      assert s[..k][i] == s[i];
    }
  }

  /** A decimal whose unsigned part reads as `p` pence reads as `p`, and
      preceded by a minus as `-p`. */
  lemma ParseMoneyUnsigned(u: string, p: nat)
    requires |u| >= 1 && IsDigit(u[0]) && IsDigit(u[|u| - 1])
    requires UnsignedPence(u) == Some(p)
    ensures ParseMoney(u) == Some(p) && Strip(u) == u
  {
    assert IsStripped(u);
    StripStripped(u);
    assert !(u[0] == '-' || u[0] == '+');
  }

  lemma ParseMoneyNegated(u: string, p: nat)
    requires |u| >= 1 && IsDigit(u[0]) && IsDigit(u[|u| - 1])
    requires UnsignedPence(u) == Some(p)
    ensures ParseMoney("-" + u) == Some(0 - p) && Strip("-" + u) == "-" + u
  {
    var t := "-" + u;
    assert t[0] == '-' && t[|t| - 1] == u[|u| - 1];
    assert IsStripped(t);
    StripStripped(t);
    assert t[1..] == u;
    assert UnsignedPence(t[1..]) == Some(p);
  }

  /** Stripping the currency sign and thousands separators from a printed
      amount and reading it back restores the amount. */
  lemma MoneyRoundTrip(pence: int)
    ensures ParseMoney(Strip(Remove(Remove(MoneyText(pence), '£'), ','))) == Some(pence)
    ensures ParseMoney(Remove(Remove(MoneyText(pence), '£'), ',')) == Some(pence)
  {
    var q: nat := if pence < 0 then -pence else pence;
    var unsigned := Remove(Pounds(q), ',');
    PlainPoundsSpec(q);
    var x := Remove(Remove(MoneyText(pence), '£'), ',');
    MoneyTextDigits(pence);
    if pence >= 0 {
      assert x == unsigned;
      ParseMoneyUnsigned(unsigned, q);
    } else {
      assert x == "-" + unsigned;
      ParseMoneyNegated(unsigned, q);
    }
  }

  /** The printed magnitude without commas reads back as `q` pence. */
  lemma PlainPoundsSpec(q: nat)
    ensures |Remove(Pounds(q), ',')| >= 1
    ensures IsDigit(Remove(Pounds(q), ',')[0])
    ensures IsDigit(Remove(Pounds(q), ',')[|Remove(Pounds(q), ',')| - 1])
    ensures UnsignedPence(Remove(Pounds(q), ',')) == Some(q)
  {
    var a := q / 100;
    var b := q % 100;
    GroupedValue(a);
    ZeroPad2Value(b);
    PoundsDigits(q);
    DivMod100(q);
    DecimalValue(Remove(Grouped(a), ','), ZeroPad2(b), a, b, q);
  }

  /** Digits worth `a`, a point and two digits worth `b` read as `a * 100 + b` pence. */
  lemma DecimalValue(digits: string, z: string, a: nat, b: nat, q: nat)
    requires |digits| >= 1 && AllDigits(digits) && DigitsValue(digits) == a
    requires |z| == 2 && AllDigits(z) && DigitsValue(z) == b
    requires a * 100 + b == q
    ensures var u := digits + "." + z;
            IsDigit(u[0]) && IsDigit(u[|u| - 1]) && UnsignedPence(u) == Some(q)
  {
    UnsignedPenceOf(digits, z);
  }

  lemma DivMod100(q: nat)
    ensures (q / 100) * 100 + q % 100 == q
  {
  }
}
