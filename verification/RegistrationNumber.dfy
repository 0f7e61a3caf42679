/**
 Official registration numbers: the printer "MUSKOM-%d-%04d" of an approval and the
 reader of the MAX query, which strips "MUSKOM-dddd-" and casts the rest to INTEGER.
 */
module RegistrationNumber {
  import opened Common

  type Year = y: int | 1000 <= y <= 9999 witness 2026

  const PREFIX := "MUSKOM-"
  const INTEGER_MAX := 2147483647

  predicate IsDigit(c: char) { '0' <= c <= '9' }

  predicate AllDigits(s: string) { forall i :: 0 <= i < |s| ==> IsDigit(s[i]) }

  function Digit(d: nat): char
    requires d < 10
  {
    ('0' as int + d) as char
  }

  /** %d of a natural number. */
  function Decimal(n: nat): (s: string)
    ensures AllDigits(s) && s != []
  {
    if n < 10 then [Digit(n)] else Decimal(n / 10) + [Digit(n % 10)]
  }

  function Zeros(k: nat): (s: string)
    ensures AllDigits(s) && |s| == k
  {
    seq(k, _ => '0')
  }

  /** %04d: at least four digits, and all of them from 10000 on. */
  function Padded(n: nat): (s: string)
    ensures AllDigits(s) && |s| >= 4
  {
    var s := Decimal(n);
    if |s| < 4 then Zeros(4 - |s|) + s else s
  }

  function Format(year: Year, n: nat): string {
    PREFIX + Decimal(year) + "-" + Padded(n)
  }

  function DigitsValue(s: string): nat
    requires AllDigits(s)
  {
    if s == [] then 0 else 10 * DigitsValue(s[..|s| - 1]) + (s[|s| - 1] as int - '0' as int)
  }

  predicate IsOfficial(s: string) { PREFIX <= s }

  /** REGEXP_REPLACE(s, '^MUSKOM-\d{4}-', ''). */
  function Stripped(s: string): string {
    if |s| >= 12 && PREFIX <= s && AllDigits(s[7..11]) && s[11] == '-' then s[12..] else s
  }

  /** The digits after the prefix, when the stored number is well formed. */
  function Value(s: string): Option<nat> {
    var rest := Stripped(s);
    if rest != [] && AllDigits(rest) then Some(DigitsValue(rest)) else None
  }

  // ---- The reader undoes the printer ----

  lemma {:induction false} DecimalValue(n: nat)
    ensures DigitsValue(Decimal(n)) == n
  {
    if n >= 10 {
      DecimalValue(n / 10);
      var s := Decimal(n);
      assert s[..|s| - 1] == Decimal(n / 10);
    }
  }

  lemma {:induction false} ZerosAddNothing(k: nat, s: string)
    requires AllDigits(s)
    ensures DigitsValue(Zeros(k) + s) == DigitsValue(s)
  {
    var t := Zeros(k) + s;
    if s != [] {
      ZerosAddNothing(k, s[..|s| - 1]);
      assert t[..|t| - 1] == Zeros(k) + s[..|s| - 1];
    } else if k != 0 {
      ZerosAddNothing(k - 1, s);
      assert t[..k - 1] == Zeros(k - 1) + s;
    }
  }

  lemma {:induction false} DecimalLength(n: nat)
    ensures 1000 <= n <= 9999 ==> |Decimal(n)| == 4
  {
    if 1000 <= n <= 9999 {
      assert Decimal(n) == Decimal(n / 10) + [Digit(n % 10)];
      assert Decimal(n / 10) == Decimal(n / 100) + [Digit(n / 10 % 10)];
      assert Decimal(n / 100) == Decimal(n / 1000) + [Digit(n / 100 % 10)];
    }
  }

  lemma PaddedValue(n: nat)
    ensures DigitsValue(Padded(n)) == n
  {
    DecimalValue(n);
    if |Decimal(n)| < 4 {
      ZerosAddNothing(4 - |Decimal(n)|, Decimal(n));
    }
  }

  /** Exactly the prefix and the four digits of the year are stripped. */
  lemma StrippedToRest(year: string, rest: string)
    requires AllDigits(year) && |year| == 4
    ensures var s := PREFIX + year + "-" + rest; IsOfficial(s) && Stripped(s) == rest
  {
    var s := PREFIX + year + "-" + rest;
    assert s[7..11] == year && s[11] == '-' && s[12..] == rest;
  }

  /** Reading back what an approval prints gives its sequence number, for every year and every n. */
  lemma ReadBack(year: Year, n: nat)
    ensures IsOfficial(Format(year, n)) && Value(Format(year, n)) == Some(n)
  {
    DecimalLength(year);
    StrippedToRest(Decimal(year), Padded(n));
    PaddedValue(n);
  }

  // ---- A printed number determines year and sequence number ----

  /** The prefix, four digits, a dash, and at least four digits without a zero in front of a fifth. */
  ghost predicate IsPrinted(s: string, year: nat, n: nat) {
    && |s| >= 16 && s[..7] == "MUSKOM-" && s[11] == '-'
    && AllDigits(s[7..11]) && DigitsValue(s[7..11]) == year
    && AllDigits(s[12..]) && DigitsValue(s[12..]) == n
    && (|s| > 16 ==> s[12] != '0')
  }

  function Pow10(k: nat): nat { if k == 0 then 1 else 10 * Pow10(k - 1) }

  lemma {:induction false} ValueBelow(s: string)
    requires AllDigits(s)
    ensures DigitsValue(s) < Pow10(|s|)
    ensures s != [] && s[0] != '0' ==> DigitsValue(s) >= Pow10(|s| - 1)
  {
    if s != [] { ValueBelow(s[..|s| - 1]); }
  }

  lemma {:induction false} PowGrows(k: nat, m: nat)
    requires k <= m
    ensures 0 < Pow10(k) <= Pow10(m)
  {
    if k < m { PowGrows(k, m - 1); } else if k > 0 { PowGrows(k - 1, m - 1); }
  }

  lemma {:induction false} SameDigits(a: string, b: string)
    requires AllDigits(a) && AllDigits(b) && |a| == |b| && DigitsValue(a) == DigitsValue(b)
    ensures a == b
  {
    if a != [] {
      var last := |a| - 1;
      assert 0 <= a[last] as int - '0' as int < 10 && 0 <= b[last] as int - '0' as int < 10;
      SameDigits(a[..last], b[..last]);
      assert a == a[..last] + [a[last]] && b == b[..last] + [b[last]];
    }
  }

  /** Four or more digits, without a zero in front of a fifth, are determined by their value. */
  lemma {:induction false} SameLongDigits(a: string, b: string)
    requires AllDigits(a) && AllDigits(b) && DigitsValue(a) == DigitsValue(b)
    requires |a| >= 4 && |b| >= 4 && (|a| > 4 ==> a[0] != '0') && (|b| > 4 ==> b[0] != '0')
    ensures a == b
  {
    ValueBelow(a);
    ValueBelow(b);
    if |a| < |b| { PowGrows(|a|, |b| - 1); }
    if |b| < |a| { PowGrows(|b|, |a| - 1); }
    SameDigits(a, b);
  }

  lemma {:induction false} DecimalStart(n: nat)
    ensures n > 0 ==> Decimal(n)[0] != '0'
  {
    if n >= 10 { DecimalStart(n / 10); }
  }

  lemma FormatIsPrinted(year: Year, n: nat)
    ensures IsPrinted(Format(year, n), year, n)
  {
    var s, digits := Format(year, n), Padded(n);
    DecimalLength(year);
    DecimalValue(year);
    PaddedValue(n);
    DecimalStart(n);
    assert s[..7] == PREFIX && s[7..11] == Decimal(year) && s[11] == '-' && s[12..] == digits;
    if |digits| > 4 {
      assert digits == Decimal(n) && (n > 0 || |Decimal(n)| == 1);
      assert s[12] == digits[0];
    }
  }

  /** A text is what an approval prints for a year and a number exactly when it has that shape and those values. */
  lemma FormatExactly(s: string, year: Year, n: nat)
    ensures s == Format(year, n) <==> IsPrinted(s, year, n)
  {
    var t := Format(year, n);
    FormatIsPrinted(year, n);
    if IsPrinted(s, year, n) {
      SameDigits(s[7..11], t[7..11]);
      assert s[12..][0] == s[12] && t[12..][0] == t[12];
      SameLongDigits(s[12..], t[12..]);
      SplitPrinted(s);
      SplitPrinted(t);
    }
  }

  lemma SplitPrinted(s: string)
    requires |s| >= 16
    ensures s == s[..7] + s[7..11] + [s[11]] + s[12..]
  {
  }

  /** No two pairs of year and number are printed alike. */
  lemma FormatIsInjective(year: Year, n: nat, other: Year, m: nat)
    ensures Format(year, n) == Format(other, m) <==> year == other && n == m
  {
    FormatIsPrinted(year, n);
    FormatIsPrinted(other, m);
  }

  /** Below 10000 the number has exactly four digits, from there on as many as it needs. */
  lemma FormatWidth(year: Year, n: nat)
    ensures n < 10000 <==> |Format(year, n)| == 16
  {
    FormatIsPrinted(year, n);
    var s := Format(year, n);
    ValueBelow(s[12..]);
    assert Pow10(4) == 10000 by { assert Pow10(1) == 10 && Pow10(2) == 100 && Pow10(3) == 1000; }
    if |s| > 16 {
      assert s[12..][0] == s[12];
      PowGrows(4, |s[12..]| - 1);
    }
  }

  /** Which official texts the aggregate can cast, and to what. */
  lemma CastsExactly(s: string)
    requires IsOfficial(s)
    ensures Value(s).Some? <==>
      |s| > 12 && s[..7] == "MUSKOM-" && AllDigits(s[7..11]) && s[11] == '-' && AllDigits(s[12..])
    ensures Value(s).Some? ==> Value(s).value == DigitsValue(s[12..])
  {
    assert s[0] == 'M';
  }
}
