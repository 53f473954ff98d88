/**
 * The string keys dates are stored and routed under: `YYYY-MM-DD` as dayjs
 * formats it for the progress record, `YYYY-MM` for month buckets, and the
 * `<year>-MM-DD` route key the lessons list builds by hand and the lesson
 * page splits on '-' and reads back with `Number`.
 */
module DateKeys {
  import opened Wrappers
  import opened Dates

  predicate IsDigit(c: char) {
    '0' <= c <= '9'
  }

  predicate AllDigits(s: string) {
    forall i :: 0 <= i < |s| ==> IsDigit(s[i])
  }

  function DigitChar(k: nat): (c: char)
    requires k < 10
    ensures IsDigit(c)
  {
    ('0' as int + k) as char
  }

  function DigitValue(c: char): (k: nat)
    requires IsDigit(c)
    ensures k < 10 && DigitChar(k) == c
  {
    (c as int - '0' as int) as nat
  }

  /** `n.toString()` for a non-negative integer: decimal digits, no leading zero. */
  function Decimal(n: nat): (s: string)
    ensures 1 <= |s| && AllDigits(s)
    ensures n >= 10 ==> |s| >= 2
  {
    if n < 10 then [DigitChar(n)] else Decimal(n / 10) + [DigitChar(n % 10)]
  }

  function Zeros(k: nat): (s: string)
    ensures |s| == k && AllDigits(s)
  {
    if k == 0 then [] else Zeros(k - 1) + ['0']
  }

  /** `s.padStart(width, '0')`. */
  function PadStart(s: string, width: nat): (r: string)
    ensures |r| == if |s| >= width then |s| else width
    ensures AllDigits(s) ==> AllDigits(r)
  {
    if |s| >= width then s else Zeros(width - |s|) + s
  }

  /** The value of a string of decimal digits, most significant first. */
  function DigitsValue(s: string): nat
    requires AllDigits(s)
  {
    if s == [] then 0 else DigitsValue(s[..|s| - 1]) * 10 + DigitValue(s[|s| - 1])
  }

  /**
   * `Number(s)` for the strings the keys are made of: a digit string reads as its
   * decimal value (the empty string as 0); anything else is NaN, here `None`.
   */
  function NumberOf(s: string): (r: Option<nat>)
    ensures r.Some? <==> AllDigits(s)
  {
    if AllDigits(s) then Some(DigitsValue(s)) else None
  }

  /** `s.split(sep)`: the pieces between separators, always at least one. */
  function Split(s: string, sep: char): (parts: seq<string>)
    ensures |parts| >= 1
  {
    if s == [] then [""]
    else if s[0] == sep then [""] + Split(s[1..], sep)
    else var rest := Split(s[1..], sep); [[s[0]] + rest[0]] + rest[1..]
  }

  /** dayjs `format('YYYY-MM-DD')`: the key stored in the progress record. */
  function StorageKey(d: Date): string {
    PadStart(Decimal(d.year), 4) + "-" + PadStart(Decimal(d.month), 2) + "-" + PadStart(Decimal(d.day), 2)
  }

  /** dayjs `format('YYYY-MM')`: the month bucket of a stored date. */
  function MonthKey(d: Date): string {
    PadStart(Decimal(d.year), 4) + "-" + PadStart(Decimal(d.month), 2)
  }

  /** The route key the lessons list builds: the year unpadded, month and day padded to two digits. */
  function LessonKey(year: nat, month: nat, day: nat): string {
    Decimal(year) + "-" + PadStart(Decimal(month), 2) + "-" + PadStart(Decimal(day), 2)
  }

  /**
   * The lesson page's `date.split('-').map(Number)` destructured into year, month
   * and day; `None` when a part is missing or is not a number.
   */
  function ParseLessonKey(key: string): (r: Option<Date>)
    ensures r.Some? ==> |Split(key, '-')| >= 3
  {
    var parts := Split(key, '-');
    if |parts| < 3 then None
    else match (NumberOf(parts[0]), NumberOf(parts[1]), NumberOf(parts[2]))
      case (Some(y), Some(m), Some(d)) => Some(Date(y, m, d))
      case _ => None
  }

  // ---------------------------------------------------------------- lemmas

  lemma {:induction false} DigitsValueOfDecimal(n: nat)
    ensures DigitsValue(Decimal(n)) == n
  {
    if n >= 10 {
      var s := Decimal(n);
      var q, r := n / 10, n % 10;
      assert s == Decimal(q) + [DigitChar(r)];
      assert s[..|s| - 1] == Decimal(q);
      DigitsValueOfDecimal(q);
      assert DigitValue(s[|s| - 1]) == r;
    }
  }

  lemma {:induction false} DigitsValueOfZeros(k: nat)
    ensures DigitsValue(Zeros(k)) == 0
  {
    if k > 0 {
      assert Zeros(k)[..k - 1] == Zeros(k - 1);
      DigitsValueOfZeros(k - 1);
    }
  }

  /** Leading zeros do not change the value `Number` reads. */
  lemma {:induction false} DigitsValueIgnoresLeadingZeros(k: nat, s: string)
    requires AllDigits(s)
    ensures DigitsValue(Zeros(k) + s) == DigitsValue(s)
    decreases |s|
  {
    var z := Zeros(k);
    if s == [] {
      assert z + s == z;
      DigitsValueOfZeros(k);
    } else {
      assert (z + s)[..|z + s| - 1] == z + s[..|s| - 1];
      DigitsValueIgnoresLeadingZeros(k, s[..|s| - 1]);
    }
  }

  /** Reading back a zero-padded decimal gives the number that was written. */
  lemma PaddedDecimalRoundTrip(n: nat, width: nat)
    ensures NumberOf(PadStart(Decimal(n), width)) == Some(n)
  {
    var s := Decimal(n);
    var padded := PadStart(s, width);
    DigitsValueOfDecimal(n);
    if |s| < width {
      assert padded == Zeros(width - |s|) + s;
      DigitsValueIgnoresLeadingZeros(width - |s|, s);
    } else {
      assert padded == s;
    }
    assert DigitsValue(padded) == n;
    assert AllDigits(padded);
  }

  /** A piece without the separator splits to itself. */
  lemma {:induction false} SplitNoSeparator(a: string, sep: char)
    requires sep !in a
    ensures Split(a, sep) == [a]
  {
    if a != [] {
      SplitNoSeparator(a[1..], sep);
      assert [a[0]] + a[1..] == a;
    }
  }

  /** Splitting `a + sep + b` yields `a` followed by the pieces of `b`. */
  lemma {:induction false} SplitAtSeparator(a: string, sep: char, b: string)
    requires sep !in a
    ensures Split(a + [sep] + b, sep) == [a] + Split(b, sep)
  {
    var s := a + [sep] + b;
    if a == [] {
      assert s[1..] == b;
    } else {
      assert s[0] == a[0] && s[1..] == a[1..] + [sep] + b;
      SplitAtSeparator(a[1..], sep, b);
      assert [a[0]] + a[1..] == a;
    }
  }

  lemma DigitsHaveNoDash(s: string)
    requires AllDigits(s)
    ensures '-' !in s
  {
    assert forall i :: 0 <= i < |s| ==> s[i] != '-';
  }

  /** Splitting three dash-free digit strings joined by '-' gives them back. */
  lemma SplitThree(a: string, b: string, c: string)
    requires AllDigits(a) && AllDigits(b) && AllDigits(c)
    ensures Split(a + "-" + b + "-" + c, '-') == [a, b, c]
  {
    DigitsHaveNoDash(a);
    DigitsHaveNoDash(b);
    DigitsHaveNoDash(c);
    assert a + "-" + b + "-" + c == a + ['-'] + (b + ['-'] + c);
    SplitAtSeparator(a, '-', b + ['-'] + c);
    SplitAtSeparator(b, '-', c);
    SplitNoSeparator(c, '-');
  }

  /**
   * The route key the lessons list builds is read back by the lesson page as the
   * same year, month and day, whatever the numbers' widths.
   */
  lemma LessonKeyRoundTrip(year: nat, month: nat, day: nat)
    ensures ParseLessonKey(LessonKey(year, month, day)) == Some(Date(year, month, day))
  {
    var a, b, c := Decimal(year), PadStart(Decimal(month), 2), PadStart(Decimal(day), 2);
    SplitThree(a, b, c);
    PaddedDecimalRoundTrip(year, 0);
    assert PadStart(a, 0) == a;
    PaddedDecimalRoundTrip(month, 2);
    PaddedDecimalRoundTrip(day, 2);
  }

  /** The stored `YYYY-MM-DD` key also reads back as its date. */
  lemma StorageKeyRoundTrip(d: Date)
    ensures ParseLessonKey(StorageKey(d)) == Some(d)
  {
    var a, b, c := PadStart(Decimal(d.year), 4), PadStart(Decimal(d.month), 2), PadStart(Decimal(d.day), 2);
    SplitThree(a, b, c);
    PaddedDecimalRoundTrip(d.year, 4);
    PaddedDecimalRoundTrip(d.month, 2);
    PaddedDecimalRoundTrip(d.day, 2);
  }

  /**
   * Two dates share a stored key exactly when they are the same date, so
   * comparing keys (as `includes` does) is comparing dates.
   */
  lemma StorageKeyInjective(a: Date, b: Date)
    ensures StorageKey(a) == StorageKey(b) <==> a == b
  {
    StorageKeyRoundTrip(a);
    StorageKeyRoundTrip(b);
  }

  /** Two dates share a `YYYY-MM` key exactly when they lie in the same year and month. */
  lemma MonthKeyInjective(a: Date, b: Date)
    ensures MonthKey(a) == MonthKey(b) <==> (a.year, a.month) == (b.year, b.month)
  {
    var d1, d2 := Date(a.year, a.month, 1), Date(b.year, b.month, 1);
    assert StorageKey(d1) == MonthKey(a) + "-01";
    assert StorageKey(d2) == MonthKey(b) + "-01";
    StorageKeyInjective(d1, d2);
  }

  lemma FourDigitYear(n: nat)
    requires n >= 1000
    ensures |Decimal(n)| >= 4
  {
    var tens := n / 10;
    var hundreds := tens / 10;
    assert hundreds >= 10;
    assert |Decimal(tens)| == |Decimal(hundreds)| + 1;
    assert |Decimal(n)| == |Decimal(tens)| + 1;
  }

  /**
   * For four-digit years the route key the lessons list builds is the very key
   * the progress record stores for that date.
   */
  lemma LessonKeyIsStorageKey(year: nat, month: nat, day: nat)
    requires year >= 1000
    ensures LessonKey(year, month, day) == StorageKey(Date(year, month, day))
  {
    FourDigitYear(year);
  }
}
