/** The dates in the file names of src/db/RotatingLog.hpp, and when their order is that of time. */
module Dates {
  import opened Names

  /** The fields of `struct tm` that a name is made of. */
  datatype Date = Date(year: nat, month: nat, day: nat, hour: nat, minute: nat, second: nat)

  /** All fields but the year have two digits, as `localtime_r` gives them. */
  predicate TwoDigits(d: Date) {
    d.month < 100 && d.day < 100 && d.hour < 100 && d.minute < 100 && d.second < 100
  }

  predicate Before(a: Date, b: Date) {
    a.year < b.year || (a.year == b.year &&
    (a.month < b.month || (a.month == b.month &&
    (a.day < b.day || (a.day == b.day &&
    (a.hour < b.hour || (a.hour == b.hour &&
    (a.minute < b.minute || (a.minute == b.minute && a.second < b.second)))))))))
  }

  function Digit(n: nat): char
    requires n < 10
  {
    (48 + n) as char
  }

  /** The digits of a number, as many as it has. */
  function Decimal(n: nat): string {
    if n < 10 then [Digit(n)] else Decimal(n / 10) + [Digit(n % 10)]
  }

  /** The last digits of a number, padded with zeros. */
  function Digits(n: nat, width: nat): string {
    if width == 0 then "" else Digits(n / 10, width - 1) + [Digit(n % 10)]
  }

  function After(separator: char, n: nat, rest: string): string {
    [separator] + (Digits(n, 2) + rest)
  }

  /** What follows the year. */
  function AfterYear(d: Date): string {
    After('-', d.month, After('-', d.day, After('T', d.hour, After(':', d.minute, After(':', d.second, "")))))
  }

  /** `strftime` with the format `%Y-%m-%dT%H:%M:%S`. */
  function Suffix(d: Date): string {
    Decimal(d.year) + AfterYear(d)
  }

  /** The number that decimal digits denote. */
  function Value(s: string): int {
    if s == "" then 0 else 10 * Value(s[..|s| - 1]) + (s[|s| - 1] as int - 48)
  }

  lemma {:induction false} DecimalValue(n: nat)
    ensures Value(Decimal(n)) == n
  {
    var s := Decimal(n);
    if n >= 10 {
      DecimalValue(n / 10);
      assert s[..|s| - 1] == Decimal(n / 10);
    } else {
      assert s[..0] == "";
    }
  }

  lemma TwoDigitsAre(n: nat)
    requires n < 100
    ensures Digits(n, 2) == [Digit(n / 10), Digit(n % 10)]
  {
    assert n / 10 % 10 == n / 10 && Digits(n / 10 / 10, 0) == "";
    assert Digits(n / 10, 1) == "" + [Digit(n / 10)];
  }

  lemma PairValue(s: string)
    requires |s| == 2
    ensures Value(s) == 10 * (s[0] as int - 48) + (s[1] as int - 48)
  {
    var front := s[..1];
    assert front[..0] == "" && Value("") == 0;
    assert Value(front) == 10 * Value(front[..0]) + (front[0] as int - 48);
  }

  lemma TwoDigitValue(n: nat)
    requires n < 100
    ensures |Digits(n, 2)| == 2 && Value(Digits(n, 2)) == n
  {
    hide Digits, Value;
    TwoDigitsAre(n);
    PairValue(Digits(n, 2));
  }

  lemma AfterPlaces(separator: char, n: nat, rest: string)
    requires n < 100
    ensures var s := After(separator, n, rest);
            && |s| == 3 + |rest| && s[0] == separator && Value(s[1..3]) == n && s[3..] == rest
  {
    TwoDigitValue(n);
    assert After(separator, n, rest)[1..3] == Digits(n, 2);
  }

  /** Where the fields of a date stand in a name: the year, and after it `-mm-ddThh:mm:ss`. */
  lemma SuffixFields(d: Date)
    requires TwoDigits(d)
    ensures var s := Suffix(d);
            var n := |s| - 15;
            && n >= 1 && Value(s[..n]) == d.year
            && s[n] == '-' && Value(s[n + 1..n + 3]) == d.month && s[n + 3] == '-' && Value(s[n + 4..n + 6]) == d.day
            && s[n + 6] == 'T' && Value(s[n + 7..n + 9]) == d.hour
            && s[n + 9] == ':' && Value(s[n + 10..n + 12]) == d.minute
            && s[n + 12] == ':' && Value(s[n + 13..n + 15]) == d.second
  {
    hide After, Digits, Decimal, Value;
    var s5 := After(':', d.second, "");
    var s4 := After(':', d.minute, s5);
    var s3 := After('T', d.hour, s4);
    var s2 := After('-', d.day, s3);
    var s1 := After('-', d.month, s2);
    AfterPlaces(':', d.second, "");
    AfterPlaces(':', d.minute, s5);
    AfterPlaces('T', d.hour, s4);
    AfterPlaces('-', d.day, s3);
    AfterPlaces('-', d.month, s2);
    DecimalValue(d.year);
    DecimalNotEmpty(d.year);
    var s, n := Suffix(d), |Decimal(d.year)|;
    assert s == Decimal(d.year) + s1;
    assert s[..n] == Decimal(d.year) && s[n..] == s1;
    assert forall i, j :: 0 <= i <= j <= 15 ==> s[n + i..n + j] == s[n..][i..j];
    assert s1[4..6] == s1[3..][1..3] && s1[7..9] == s1[3..][3..][1..3] && s1[10..12] == s1[3..][3..][3..][1..3];
    assert s1[13..15] == s1[3..][3..][3..][3..][1..3];
  }

  lemma DecimalNotEmpty(n: nat)
    ensures Decimal(n) != ""
  {
  }

  // ----- order -----

  /** The first part decides unless it is the same. */
  lemma {:induction false} LessParts(p: string, q: string, x: string, y: string)
    requires |p| == |q|
    ensures Less(p + x, q + y) <==> Less(p, q) || (p == q && Less(x, y))
  {
    if p == "" {
      assert p + x == x && q + y == y;
    } else {
      assert (p + x)[1..] == p[1..] + x && (q + y)[1..] == q[1..] + y;
      LessParts(p[1..], q[1..], x, y);
      assert p == [p[0]] + p[1..] && q == [q[0]] + q[1..];
    }
  }

  lemma LessOne(a: char, b: char)
    ensures Less([a], [b]) <==> a < b
  {
    assert [a][1..] == "" && [b][1..] == "";
  }

  function Power10(w: nat): nat {
    if w == 0 then 1 else 10 * Power10(w - 1)
  }

  lemma {:induction false} DigitsOrder(m: nat, n: nat, w: nat)
    requires m < Power10(w) && n < Power10(w)
    ensures |Digits(m, w)| == |Digits(n, w)| == w
    ensures Less(Digits(m, w), Digits(n, w)) <==> m < n
    ensures Digits(m, w) == Digits(n, w) <==> m == n
  {
    if w > 0 {
      DigitsOrder(m / 10, n / 10, w - 1);
      var a, b := Digit(m % 10), Digit(n % 10);
      LessParts(Digits(m / 10, w - 1), Digits(n / 10, w - 1), [a], [b]);
      LessOne(a, b);
      assert m == m / 10 * 10 + m % 10 && n == n / 10 * 10 + n % 10;
      assert Digits(m, w)[w - 1] == a && Digits(m, w)[..w - 1] == Digits(m / 10, w - 1);
      assert Digits(n, w)[w - 1] == b && Digits(n, w)[..w - 1] == Digits(n / 10, w - 1);
    }
  }

  /** A number that has exactly that many digits is not padded. */
  lemma {:induction false} NoPadding(n: nat, w: nat)
    requires w > 0 && n < Power10(w) && (w > 1 ==> Power10(w - 1) <= n)
    ensures Decimal(n) == Digits(n, w)
  {
    if w == 1 {
      assert Power10(0) == 1;
      assert Digits(n / 10, 0) == "" && "" + [Digit(n)] == [Digit(n)];
    } else {
      assert n >= 10 * Power10(w - 2) && Power10(w - 2) >= 1;
      NoPadding(n / 10, w - 1);
    }
  }

  lemma LessAfter(separator: char, m: nat, n: nat, x: string, y: string)
    requires m < 100 && n < 100
    ensures Less(After(separator, m, x), After(separator, n, y)) <==> m < n || (m == n && Less(x, y))
  {
    assert Power10(2) == 100;
    DigitsOrder(m, n, 2);
    LessParts(Digits(m, 2), Digits(n, 2), x, y);
    LessParts([separator], [separator], Digits(m, 2) + x, Digits(n, 2) + y);
    LessIrreflexive([separator]);
  }

  function Count(n: nat): (c: nat)
    ensures c > 0
  {
    if n < 10 then 1 else 1 + Count(n / 10)
  }

  /** A number without its last digits. */
  function Leading(n: nat, k: nat): nat {
    if k == 0 then n else Leading(n / 10, k - 1)
  }

  lemma TenTimes(q: nat, p: nat)
    ensures q * (10 * p) == 10 * (q * p)
  {
  }

  /** That is, its quotient by a power of ten. */
  lemma {:induction false} LeadingIsQuotient(n: nat, k: nat)
    ensures Leading(n, k) * Power10(k) <= n < (Leading(n, k) + 1) * Power10(k)
  {
    if k > 0 {
      LeadingIsQuotient(n / 10, k - 1);
      var q, p := Leading(n / 10, k - 1), Power10(k - 1);
      TenTimes(q, p);
      TenTimes(q + 1, p);
    }
  }

  lemma {:induction false} CountBounds(n: nat)
    ensures n < Power10(Count(n)) && (Count(n) > 1 ==> Power10(Count(n) - 1) <= n)
  {
    if n >= 10 {
      CountBounds(n / 10);
      if Count(n) == 2 {
        assert Power10(1) == 10;
      }
    } else {
      assert Power10(1) == 10;
    }
  }

  /** Two years with equally many digits. */
  lemma SameCount(m: nat, n: nat)
    requires Count(m) == Count(n)
    ensures |Decimal(m)| == |Decimal(n)|
    ensures (Less(Decimal(m), Decimal(n)) <==> m < n) && (Decimal(m) == Decimal(n) <==> m == n)
  {
    hide Less, Power10;
    CountBounds(m);
    CountBounds(n);
    NoPadding(m, Count(m));
    NoPadding(n, Count(n));
    DigitsOrder(m, n, Count(m));
  }

  /** The leading digits of a number are the beginning of its name, and a digit follows. */
  lemma {:induction false} LeadingDigits(n: nat, k: nat) returns (rest: string)
    requires k < Count(n)
    ensures Decimal(n) == Decimal(Leading(n, k)) + rest && Count(Leading(n, k)) == Count(n) - k
    ensures k > 0 ==> rest != "" && '0' <= rest[0]
  {
    if k == 0 {
      rest := "";
    } else {
      var front := LeadingDigits(n / 10, k - 1);
      rest := front + [Digit(n % 10)];
      assert Decimal(Leading(n, k)) + front + [Digit(n % 10)] == Decimal(Leading(n, k)) + rest;
    }
  }

  lemma MinusFirst(x: string, y: string)
    requires x != "" && x[0] == '-' && y != "" && '0' <= y[0]
    ensures Less(x, y) && !Less(y, x)
  {
  }

  /** A year with fewer digits, against a longer one: after its last digit comes a minus sign, which
      sorts before all digits. */
  lemma ShorterYear(m: nat, n: nat, x: string, y: string)
    requires Count(m) < Count(n) && x != "" && x[0] == '-'
    ensures Less(Decimal(m) + x, Decimal(n) + y) <==> m <= Leading(n, Count(n) - Count(m))
    ensures Less(Decimal(n) + y, Decimal(m) + x) <==> m > Leading(n, Count(n) - Count(m))
  {
    hide Less, Decimal, Leading, Count;
    var k := Count(n) - Count(m);
    var rest := LeadingDigits(n, k);
    var lead := Leading(n, k);
    SameCount(m, lead);
    SameCount(lead, m);
    MinusFirst(x, rest + y);
    LessParts(Decimal(m), Decimal(lead), x, rest + y);
    LessParts(Decimal(lead), Decimal(m), rest + y, x);
    assert Decimal(n) + y == Decimal(lead) + (rest + y);
  }

  /** The order of the names, for all years: that of the dates if the years have equally many digits;
      otherwise the shorter year comes first unless it is greater than the leading digits of the other. */
  predicate SortsBefore(a: Date, b: Date) {
    if Count(a.year) == Count(b.year) then Before(a, b)
    else if Count(a.year) < Count(b.year) then a.year <= Leading(b.year, Count(b.year) - Count(a.year))
    else b.year > Leading(a.year, Count(a.year) - Count(b.year))
  }

  lemma AfterYearOrder(a: Date, b: Date)
    requires TwoDigits(a) && TwoDigits(b)
    ensures Less(AfterYear(a), AfterYear(b)) <==> Before(a.(year := 0), b.(year := 0))
  {
    hide Less, Digits, After;
    var a5, b5 := After(':', a.second, ""), After(':', b.second, "");
    var a4, b4 := After(':', a.minute, a5), After(':', b.minute, b5);
    var a3, b3 := After('T', a.hour, a4), After('T', b.hour, b4);
    var a2, b2 := After('-', a.day, a3), After('-', b.day, b3);
    LessIrreflexive("");
    LessAfter(':', a.second, b.second, "", "");
    LessAfter(':', a.minute, b.minute, a5, b5);
    LessAfter('T', a.hour, b.hour, a4, b4);
    LessAfter('-', a.day, b.day, a3, b3);
    LessAfter('-', a.month, b.month, a2, b2);
  }

  lemma SuffixSorts(a: Date, b: Date)
    requires TwoDigits(a) && TwoDigits(b)
    ensures Less(Suffix(a), Suffix(b)) <==> SortsBefore(a, b)
  {
    assert AfterYear(a)[0] == '-' && AfterYear(b)[0] == '-';
    assert Suffix(a) == Decimal(a.year) + AfterYear(a) && Suffix(b) == Decimal(b.year) + AfterYear(b);
    hide Less, Decimal, AfterYear, Suffix, Leading, Count;
    if Count(a.year) == Count(b.year) {
      SameCount(a.year, b.year);
      AfterYearOrder(a, b);
      LessParts(Decimal(a.year), Decimal(b.year), AfterYear(a), AfterYear(b));
    } else if Count(a.year) < Count(b.year) {
      ShorterYear(a.year, b.year, AfterYear(a), AfterYear(b));
    } else {
      ShorterYear(b.year, a.year, AfterYear(b), AfterYear(a));
    }
  }

  lemma {:induction false} CountGrows(m: nat, n: nat)
    requires m <= n
    ensures Count(m) <= Count(n)
  {
    if m >= 10 {
      CountGrows(m / 10, n / 10);
    }
  }

  /** Two dates, in any years, have names in their order exactly when their years have equally many
      digits or the earlier year is at most as many leading digits of the later one. */
  lemma SuffixOrder(a: Date, b: Date)
    requires TwoDigits(a) && TwoDigits(b) && Before(a, b)
    ensures Count(a.year) <= Count(b.year)
    ensures Less(Suffix(a), Suffix(b)) <==>
              Count(a.year) == Count(b.year) || a.year <= Leading(b.year, Count(b.year) - Count(a.year))
  {
    CountGrows(a.year, b.year);
    SuffixSorts(a, b);
  }

  /** The year 10000 sorts before the year 2024; the years 10001 and 30000 sort after 10000 and 2024. */
  lemma FiveDigitYears()
    ensures var a, b := Date(2024, 1, 1, 0, 0, 0), Date(10000, 1, 1, 0, 0, 0);
            Before(a, b) && Less(Suffix(b), Suffix(a))
    ensures Less(Suffix(Date(10000, 1, 1, 0, 0, 0)), Suffix(Date(10001, 1, 1, 0, 0, 0)))
    ensures Less(Suffix(Date(2024, 1, 1, 0, 0, 0)), Suffix(Date(30000, 1, 1, 0, 0, 0)))
  {
    var a, b, c, d := Date(2024, 1, 1, 0, 0, 0), Date(10000, 1, 1, 0, 0, 0), Date(10001, 1, 1, 0, 0, 0),
        Date(30000, 1, 1, 0, 0, 0);
    assert Count(2024) == 1 + Count(202) == 2 + Count(20) == 4;
    assert Count(1000) == 1 + Count(100) == 2 + Count(10) == 4 && Count(3000) == 1 + Count(300) == 2 + Count(30) == 4;
    assert Count(10000) == 5 && Count(10001) == 5 && Count(30000) == 5;
    assert Leading(10000, 1) == 1000 && Leading(30000, 1) == 3000;
    SuffixSorts(b, a);
    SuffixSorts(b, c);
    SuffixSorts(a, d);
  }
}
