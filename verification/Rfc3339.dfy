/**
 Timestamps as RFC 3339 text in UTC with whole seconds, and the order of that text: for years of four
 digits, comparing the text byte by byte is comparing the times (section 5.1 of RFC 3339).
 */
module Rfc3339 {

  // ---------------------------------------------------------------------------------------
  // Strings in byte order
  // ---------------------------------------------------------------------------------------

  predicate Less(a: string, b: string) {
    b != [] && (a == [] || a[0] < b[0] || (a[0] == b[0] && Less(a[1..], b[1..])))
  }

  /** Of two different strings exactly one is less. */
  lemma {:induction false} Trichotomy(a: string, b: string)
    ensures a == b ==> !Less(a, b)
    ensures a != b ==> (Less(a, b) <==> !Less(b, a))
  {
    if a != [] && b != [] {
      Trichotomy(a[1..], b[1..]);
      assert a == [a[0]] + a[1..] && b == [b[0]] + b[1..];
    }
  }

  lemma {:induction false} LessTransitive(a: string, b: string, c: string)
    requires !Less(a, b) && !Less(b, c)
    ensures !Less(a, c)
  {
    if a != [] && b != [] && c != [] && a[0] == b[0] == c[0] {
      LessTransitive(a[1..], b[1..], c[1..]);
    }
  }

  /** Equally long beginnings decide first. */
  lemma {:induction false} LessConcat(a: string, x: string, b: string, y: string)
    requires |a| == |b|
    ensures Less(a + x, b + y) <==> Less(a, b) || (a == b && Less(x, y))
  {
    if a == [] {
      assert a + x == x && b + y == y;
    } else {
      assert (a + x)[1..] == a[1..] + x && (b + y)[1..] == b[1..] + y;
      LessConcat(a[1..], x, b[1..], y);
      assert a == [a[0]] + a[1..] && b == [b[0]] + b[1..];
    }
  }

  // ---------------------------------------------------------------------------------------
  // Numbers of fixed width
  // ---------------------------------------------------------------------------------------

  function Pow10(width: nat): (p: nat)
    ensures p >= 1
  {
    if width == 0 then 1 else 10 * Pow10(width - 1)
  }

  function Digits(n: nat, width: nat): (s: string)
    ensures |s| == width
  {
    if width == 0 then "" else Digits(n / 10, width - 1) + [(n % 10) as char + '0']
  }

  lemma {:induction false} DigitsOrder(m: nat, n: nat, width: nat)
    requires m < Pow10(width) && n < Pow10(width)
    ensures Less(Digits(m, width), Digits(n, width)) <==> m < n
    ensures Digits(m, width) == Digits(n, width) <==> m == n
  {
    if width > 0 {
      DigitsOrder(m / 10, n / 10, width - 1);
      var c, d := (m % 10) as char + '0', (n % 10) as char + '0';
      LessConcat(Digits(m / 10, width - 1), [c], Digits(n / 10, width - 1), [d]);
      assert Less([c], [d]) <==> m % 10 < n % 10;
      assert Digits(m, width)[..width - 1] == Digits(m / 10, width - 1) && Digits(m, width)[width - 1] == c;
      assert Digits(n, width)[..width - 1] == Digits(n / 10, width - 1) && Digits(n, width)[width - 1] == d;
    }
  }

  /** The number a text of decimal digits stands for. */
  function Number(s: string): int {
    if s == "" then 0 else 10 * Number(s[..|s| - 1]) + (s[|s| - 1] as int - '0' as int)
  }

  /** Reading the digits gives the number back. */
  lemma {:induction false} DigitsRead(n: nat, width: nat)
    requires n < Pow10(width)
    ensures Number(Digits(n, width)) == n
    ensures forall k :: 0 <= k < width ==> '0' <= Digits(n, width)[k] <= '9'
  {
    if width > 0 {
      DigitsRead(n / 10, width - 1);
      assert Digits(n, width)[..width - 1] == Digits(n / 10, width - 1);
    }
  }

  /** A number of fixed width and the text after it. */
  datatype Field = Field(value: nat, width: nat, mark: string)

  function FieldText(fields: seq<Field>): string {
    if fields == [] then ""
    else Digits(fields[0].value, fields[0].width) + (fields[0].mark + FieldText(fields[1..]))
  }

  predicate SameLayout(a: seq<Field>, b: seq<Field>) {
    |a| == |b| && forall i :: 0 <= i < |a| ==>
      && a[i].width == b[i].width && a[i].mark == b[i].mark
      && a[i].value < Pow10(a[i].width) && b[i].value < Pow10(b[i].width)
  }

  /** The first different field decides. */
  predicate Earlier(a: seq<Field>, b: seq<Field>)
    requires |a| == |b|
  {
    a != [] && (a[0].value < b[0].value || (a[0].value == b[0].value && Earlier(a[1..], b[1..])))
  }

  lemma {:induction false} TextOrder(a: seq<Field>, b: seq<Field>)
    requires SameLayout(a, b)
    ensures Less(FieldText(a), FieldText(b)) <==> Earlier(a, b)
  {
    if a != [] {
      TextOrder(a[1..], b[1..]);
      var x, y := FieldText(a[1..]), FieldText(b[1..]);
      DigitsOrder(a[0].value, b[0].value, a[0].width);
      LessConcat(Digits(a[0].value, a[0].width), a[0].mark + x, Digits(b[0].value, b[0].width), b[0].mark + y);
      LessConcat(a[0].mark, x, b[0].mark, y);
      Trichotomy(a[0].mark, b[0].mark);
    }
  }

  // ---------------------------------------------------------------------------------------
  // The calendar
  // ---------------------------------------------------------------------------------------

  datatype Civil = Civil(year: nat, month: nat, day: nat, hour: nat, minute: nat, second: nat)

  predicate Leap(year: nat) { year % 4 == 0 && (year % 100 != 0 || year % 400 == 0) }

  function MonthDays(year: nat, month: nat): nat {
    if month == 2 then if Leap(year) then 29 else 28
    else if month in {4, 6, 9, 11} then 30 else 31
  }

  predicate Valid(c: Civil) {
    && 1 <= c.month <= 12 && 1 <= c.day <= MonthDays(c.year, c.month)
    && c.hour < 24 && c.minute < 60 && c.second < 60
  }

  function DaysBeforeMonth(year: nat, month: nat): nat {
    if month <= 1 then 0 else DaysBeforeMonth(year, month - 1) + MonthDays(year, month - 1)
  }

  function DaysBeforeYear(year: nat): nat {
    if year == 0 then 0 else DaysBeforeYear(year - 1) + DaysBeforeMonth(year - 1, 13)
  }

  function DayNumber(c: Civil): int {
    DaysBeforeYear(c.year) + DaysBeforeMonth(c.year, c.month) + c.day - 1
  }

  /** Seconds since the start of year 0. */
  function Seconds(c: Civil): int {
    ((DayNumber(c) * 24 + c.hour) * 60 + c.minute) * 60 + c.second
  }

  function Fields(c: Civil): seq<Field> {
    [Field(c.year, 4, "-"), Field(c.month, 2, "-"), Field(c.day, 2, "T"),
     Field(c.hour, 2, ":"), Field(c.minute, 2, ":"), Field(c.second, 2, "Z")]
  }

  function Text(c: Civil): string { FieldText(Fields(c)) }

  /** Where a field begins when every mark is one character. */
  function Offset(fields: seq<Field>, i: nat): nat
    requires i <= |fields|
  {
    if i == 0 then 0 else fields[0].width + 1 + Offset(fields[1..], i - 1)
  }

  predicate Readable(fields: seq<Field>) {
    forall i :: 0 <= i < |fields| ==> fields[i].value < Pow10(fields[i].width) && |fields[i].mark| == 1
  }

  lemma {:induction false} TextLength(fields: seq<Field>)
    requires Readable(fields)
    ensures |FieldText(fields)| == Offset(fields, |fields|)
  {
    if fields != [] {
      TextLength(fields[1..]);
    }
  }

  predicate ReadsAt(s: string, f: Field, begin: nat, end: nat) {
    begin <= end < |s| && Number(s[begin..end]) == f.value && [s[end]] == f.mark
  }

  lemma HeadRead(f: Field, rest: string, s: string)
    requires f.value < Pow10(f.width) && |f.mark| == 1 && s == Digits(f.value, f.width) + (f.mark + rest)
    ensures ReadsAt(s, f, 0, f.width)
  {
    assert s[0..f.width] == Digits(f.value, f.width);
    DigitsRead(f.value, f.width);
  }

  lemma BeyondHead(head: Field, rest: string, s: string, f: Field, begin: nat, end: nat)
    requires |head.mark| == 1 && s == Digits(head.value, head.width) + (head.mark + rest) && begin > head.width
    requires end > head.width && ReadsAt(rest, f, begin - head.width - 1, end - head.width - 1)
    ensures ReadsAt(s, f, begin, end)
  {
    assert s[begin..end] == rest[begin - head.width - 1..end - head.width - 1];
  }

  /** A field can be read back from its place in the text. */
  lemma {:induction false} FieldRead(fields: seq<Field>, i: nat, begin: nat)
    requires Readable(fields) && i < |fields| && begin == Offset(fields, i)
    ensures ReadsAt(FieldText(fields), fields[i], begin, begin + fields[i].width)
  {
    var f, rest := fields[0], FieldText(fields[1..]);
    if i == 0 {
      HeadRead(f, rest, FieldText(fields));
    } else {
      FieldRead(fields[1..], i - 1, begin - f.width - 1);
      BeyondHead(f, rest, FieldText(fields), fields[i], begin, begin + fields[i].width);
    }
  }

  lemma {:induction false} Offsets(c: Civil, i: nat)
    requires i <= 6
    ensures Offset(Fields(c), i) == if i == 0 then 0 else 5 + 3 * (i - 1)
  {
    var f := Fields(c);
    assert i > 0 ==> Offset(f, i) == 5 + Offset(f[1..], i - 1);
    assert i > 1 ==> Offset(f[1..], i - 1) == 3 + Offset(f[2..], i - 2);
    assert i > 2 ==> Offset(f[2..], i - 2) == 3 + Offset(f[3..], i - 3);
    assert i > 3 ==> Offset(f[3..], i - 3) == 3 + Offset(f[4..], i - 4);
    assert i > 4 ==> Offset(f[4..], i - 4) == 3 + Offset(f[5..], i - 5);
    assert i > 5 ==> Offset(f[5..], i - 5) == 3 + Offset(f[6..], i - 6);
  }

  /** The text is twenty characters long, and each number can be read back from its place in it. */
  lemma TextRead(c: Civil)
    requires Valid(c) && c.year <= 9999
    ensures |Text(c)| == 20
    ensures Number(Text(c)[0..4]) == c.year && Text(c)[4] == '-'
    ensures Number(Text(c)[5..7]) == c.month && Text(c)[7] == '-'
    ensures Number(Text(c)[8..10]) == c.day && Text(c)[10] == 'T'
    ensures Number(Text(c)[11..13]) == c.hour && Text(c)[13] == ':'
    ensures Number(Text(c)[14..16]) == c.minute && Text(c)[16] == ':'
    ensures Number(Text(c)[17..19]) == c.second && Text(c)[19] == 'Z'
  {
    assert Pow10(2) == 100 && Pow10(4) == 10000;
    var f := Fields(c);
    TextLength(f);
    Offsets(c, 6);
    forall i: nat | i < 6
      ensures var begin := if i == 0 then 0 else 5 + 3 * (i - 1);
        ReadsAt(Text(c), f[i], begin, begin + f[i].width)
    {
      Offsets(c, i);
      FieldRead(f, i, if i == 0 then 0 else 5 + 3 * (i - 1));
    }
    assert f[0].value == c.year && f[1].value == c.month && f[2].value == c.day;
    assert f[3].value == c.hour && f[4].value == c.minute && f[5].value == c.second;
  }

  lemma {:induction false} MonthsInOrder(year: nat, m: nat, n: nat)
    requires 1 <= m <= n
    ensures DaysBeforeMonth(year, m) <= DaysBeforeMonth(year, n)
  {
    if m < n {
      MonthsInOrder(year, m, n - 1);
    }
  }

  lemma {:induction false} YearsInOrder(y: nat, z: nat)
    requires y <= z
    ensures DaysBeforeYear(y) <= DaysBeforeYear(z)
  {
    if y < z {
      YearsInOrder(y, z - 1);
    }
  }

  lemma DaysInOrder(c: Civil, d: Civil)
    requires Valid(c) && Valid(d)
    requires c.year < d.year || (c.year == d.year && (c.month < d.month || (c.month == d.month && c.day < d.day)))
    ensures DayNumber(c) < DayNumber(d)
  {
    if c.year < d.year {
      YearsInOrder(c.year + 1, d.year);
      MonthsInOrder(c.year, c.month + 1, 13);
    } else if c.month < d.month {
      MonthsInOrder(c.year, c.month + 1, d.month);
    }
  }

  lemma EarlierUnfolded(c: Civil, d: Civil)
    ensures Earlier(Fields(c), Fields(d)) <==>
      || c.year < d.year
      || (c.year == d.year && (c.month < d.month
      || (c.month == d.month && (c.day < d.day
      || (c.day == d.day && (c.hour < d.hour
      || (c.hour == d.hour && (c.minute < d.minute
      || (c.minute == d.minute && c.second < d.second)))))))))
  {
    var a, b := Fields(c), Fields(d);
    assert Earlier(a[1..][1..][1..][1..][1..], b[1..][1..][1..][1..][1..]) <==> c.second < d.second;
    assert Earlier(a[1..][1..][1..][1..], b[1..][1..][1..][1..]) <==>
      c.minute < d.minute || (c.minute == d.minute && c.second < d.second);
    assert Earlier(a[1..][1..][1..], b[1..][1..][1..]) <==>
      c.hour < d.hour || (c.hour == d.hour && Earlier(a[1..][1..][1..][1..], b[1..][1..][1..][1..]));
    assert Earlier(a[1..][1..], b[1..][1..]) <==>
      c.day < d.day || (c.day == d.day && Earlier(a[1..][1..][1..], b[1..][1..][1..]));
    assert Earlier(a[1..], b[1..]) <==>
      c.month < d.month || (c.month == d.month && Earlier(a[1..][1..], b[1..][1..]));
  }

  lemma {:induction false} EarlierIsLess(c: Civil, d: Civil)
    requires Valid(c) && Valid(d) && Earlier(Fields(c), Fields(d))
    ensures Seconds(c) < Seconds(d)
  {
    EarlierUnfolded(c, d);
    if c.year == d.year && c.month == d.month && c.day == d.day {
      assert DayNumber(c) == DayNumber(d);
    } else {
      DaysInOrder(c, d);
    }
  }

  /** The order of the text is the order of the times, for years of four digits. */
  lemma TextOrderIsTimeOrder(c: Civil, d: Civil)
    requires Valid(c) && Valid(d) && c.year <= 9999 && d.year <= 9999
    ensures Less(Text(c), Text(d)) <==> Seconds(c) < Seconds(d)
  {
    assert Pow10(2) == 100 && Pow10(4) == 10000;
    TextOrder(Fields(c), Fields(d));
    EarlierUnfolded(c, d);
    EarlierUnfolded(d, c);
    if Earlier(Fields(c), Fields(d)) {
      EarlierIsLess(c, d);
    } else if Earlier(Fields(d), Fields(c)) {
      EarlierIsLess(d, c);
    } else {
      assert c == d;
    }
  }

  // ---------------------------------------------------------------------------------------
  // Every time has a civil reading
  // ---------------------------------------------------------------------------------------

  /** One second later, carrying from the seconds up to the year. */
  function Tick(c: Civil): Civil {
    if c.second < 59 then c.(second := c.second + 1)
    else if c.minute < 59 then c.(minute := c.minute + 1, second := 0)
    else if c.hour < 23 then c.(hour := c.hour + 1, minute := 0, second := 0)
    else if c.day < MonthDays(c.year, c.month) then Civil(c.year, c.month, c.day + 1, 0, 0, 0)
    else if c.month < 12 then Civil(c.year, c.month + 1, 1, 0, 0, 0)
    else Civil(c.year + 1, 1, 1, 0, 0, 0)
  }

  lemma TickIsOneSecond(c: Civil)
    requires Valid(c)
    ensures Valid(Tick(c)) && Seconds(Tick(c)) == Seconds(c) + 1
  {
    var d := Tick(c);
    if c.second == 59 && c.minute == 59 && c.hour == 23 {
      assert DayNumber(d) == DayNumber(c) + 1;
    } else {
      assert DayNumber(d) == DayNumber(c);
    }
  }

  const START := Civil(0, 1, 1, 0, 0, 0)

  lemma StartIsZero(c: Civil)
    requires c == START
    ensures Valid(c) && Seconds(c) == 0
  {
    assert DaysBeforeYear(c.year) == 0 && DaysBeforeMonth(c.year, c.month) == 0;
  }

  /** The civil reading of a number of seconds since the start of year 0. */
  function CivilAt(n: nat): Civil {
    if n == 0 then START else Tick(CivilAt(n - 1))
  }

  lemma {:induction false} CivilAtIsReading(n: nat)
    ensures Valid(CivilAt(n)) && Seconds(CivilAt(n)) == n
  {
    if n == 0 {
      StartIsZero(CivilAt(n));
    } else {
      CivilAtIsReading(n - 1);
      TickIsOneSecond(CivilAt(n - 1));
    }
  }
}
