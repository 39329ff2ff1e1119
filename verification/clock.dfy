/**
 * Calendar fields of a UTC clock reading and the three `strftime` layouts the
 * pipeline uses: "%m-%d-%Y" (folder and processed-file date),
 * "%m-%d-%Y_%H-%M-%S" (raw-file run stamp) and "%d/%m/%Y" (spreadsheet date).
 */
module Clock {
  /** The fields `strftime` reads from a `datetime`. */
  datatype Civil = Civil(year: nat, month: nat, day: nat, hour: nat, minute: nat, second: nat)

  /** A reading `datetime.utcnow()` can return (four-digit years only). */
  predicate Valid(c: Civil) {
    1000 <= c.year <= 9999 && 1 <= c.month <= 12 && 1 <= c.day <= 31 &&
    c.hour < 24 && c.minute < 60 && c.second < 60
  }

  predicate IsDigit(ch: char) {
    '0' <= ch <= '9'
  }

  function Digit(d: nat): (ch: char)
    requires d < 10
    ensures IsDigit(ch)
  {
    (48 + d) as char
  }

  function DigitValue(ch: char): int {
    ch as int - 48
  }

  /** A zero-padded two-digit field (%m, %d, %H, %M, %S). */
  function Pad2(n: nat): (s: string)
    requires n < 100
    ensures |s| == 2 && IsDigit(s[0]) && IsDigit(s[1])
  {
    [Digit(n / 10), Digit(n % 10)]
  }

  /** A four-digit year field (%Y). */
  function Pad4(n: nat): (s: string)
    requires 1000 <= n < 10000
    ensures |s| == 4 && forall k :: 0 <= k < 4 ==> IsDigit(s[k])
  {
    [Digit(n / 1000), Digit(n / 100 % 10), Digit(n / 10 % 10), Digit(n % 10)]
  }

  /** Reading a field back: the decimal value of a string of digits. */
  function Number(s: string): int {
    if s == [] then 0 else 10 * Number(s[..|s| - 1]) + DigitValue(s[|s| - 1])
  }

  lemma Pad2Number(n: nat)
    requires n < 100
    ensures Number(Pad2(n)) == n
  {
    var s := Pad2(n);
    assert s[..1] == [Digit(n / 10)] && s[..1][..0] == [];
    assert Number(s[..1]) == n / 10;
  }

  lemma Pad4Number(n: nat)
    requires 1000 <= n < 10000
    ensures Number(Pad4(n)) == n
  {
    var s := Pad4(n);
    assert s[..1] == [Digit(n / 1000)] && s[..1][..0] == [];
    assert s[..2][..1] == s[..1] && s[..3][..2] == s[..2] && s[..4][..3] == s[..3];
    assert Number(s[..1]) == n / 1000;
    assert Number(s[..2]) == n / 100;
    assert Number(s[..3]) == n / 10;
    assert s[..4] == s;
  }

  /** "%m-%d-%Y" */
  function FormatDate(c: Civil): (s: string)
    requires Valid(c)
    ensures |s| == 10 && s[2] == '-' && s[5] == '-'
    ensures forall k :: 0 <= k < 10 && k != 2 && k != 5 ==> IsDigit(s[k])
  {
    Pad2(c.month) + "-" + Pad2(c.day) + "-" + Pad4(c.year)
  }

  /** "%m-%d-%Y_%H-%M-%S" */
  function FormatStamp(c: Civil): (s: string)
    requires Valid(c)
    ensures |s| == 19 && s[..10] == FormatDate(c) && s[10] == '_' && s[13] == '-' && s[16] == '-'
    ensures forall k :: 10 < k < 19 && k != 13 && k != 16 ==> IsDigit(s[k])
  {
    FormatDate(c) + "_" + Pad2(c.hour) + "-" + Pad2(c.minute) + "-" + Pad2(c.second)
  }

  /** "%d/%m/%Y" */
  /** Ten characters, dd/mm/yyyy: digits everywhere but the two slashes. */
  predicate IsDayFirst(s: string) {
    && |s| == 10 && s[2] == '/' && s[5] == '/'
    && forall k :: 0 <= k < 10 && k != 2 && k != 5 ==> IsDigit(s[k])
  }

  function FormatDayFirst(c: Civil): (s: string)
    requires Valid(c)
    ensures |s| == 10 && s[2] == '/' && s[5] == '/'
    ensures forall k :: 0 <= k < 10 && k != 2 && k != 5 ==> IsDigit(s[k])
  {
    Pad2(c.day) + "/" + Pad2(c.month) + "/" + Pad4(c.year)
  }

  /** The date a "%m-%d-%Y" text names, as (month, day, year). */
  function ReadDate(s: string): (int, int, int)
    requires |s| == 10
  {
    (Number(s[0..2]), Number(s[3..5]), Number(s[6..10]))
  }

  /** The date a "%d/%m/%Y" text names, as (month, day, year): the day is read from the front. */
  function ReadDayFirst(s: string): (int, int, int)
    requires |s| == 10
  {
    (Number(s[3..5]), Number(s[0..2]), Number(s[6..10]))
  }

  /** The clock fields a "%m-%d-%Y_%H-%M-%S" text names. */
  function ReadStamp(s: string): Civil
    requires |s| == 19
  {
    var d := ReadDate(s[..10]);
    Civil(Nat(d.2), Nat(d.0), Nat(d.1), Nat(Number(s[11..13])), Nat(Number(s[14..16])), Nat(Number(s[17..19])))
  }

  function Nat(n: int): nat {
    if n < 0 then 0 else n
  }

  /** Reading the date layout back gives the date that was written. */
  lemma {:induction false} DateRoundTrip(c: Civil)
    requires Valid(c)
    ensures ReadDate(FormatDate(c)) == (c.month, c.day, c.year)
  {
    var s := FormatDate(c);
    assert s[0..2] == Pad2(c.month);
    assert s[3..5] == Pad2(c.day);
    assert s[6..10] == Pad4(c.year);
    Pad2Number(c.month);
    Pad2Number(c.day);
    Pad4Number(c.year);
  }

  /** Reading the spreadsheet layout back, day first, gives the date that was written. */
  lemma {:induction false} DayFirstRoundTrip(c: Civil)
    requires Valid(c)
    ensures ReadDayFirst(FormatDayFirst(c)) == (c.month, c.day, c.year)
  {
    var s := FormatDayFirst(c);
    assert s[0..2] == Pad2(c.day);
    assert s[3..5] == Pad2(c.month);
    assert s[6..10] == Pad4(c.year);
    Pad2Number(c.month);
    Pad2Number(c.day);
    Pad4Number(c.year);
  }

  /** The spreadsheet date is the folder date with the day and month fields swapped. */
  lemma DayFirstSwapsFolderDate(c: Civil)
    requires Valid(c)
    ensures var f := FormatDate(c);
      FormatDayFirst(c) == f[3..5] + "/" + f[0..2] + "/" + f[6..10]
  {
    var f := FormatDate(c);
    assert f[0..2] == Pad2(c.month);
    assert f[3..5] == Pad2(c.day);
    assert f[6..10] == Pad4(c.year);
  }

  /** Reading the run-stamp layout back gives every field that was written. */
  lemma {:induction false} StampRoundTrip(c: Civil)
    requires Valid(c)
    ensures ReadStamp(FormatStamp(c)) == c
  {
    var s := FormatStamp(c);
    DateRoundTrip(c);
    assert s[11..13] == Pad2(c.hour);
    assert s[14..16] == Pad2(c.minute);
    assert s[17..19] == Pad2(c.second);
    Pad2Number(c.hour);
    Pad2Number(c.minute);
    Pad2Number(c.second);
  }

  /** Two runs whose clocks differ in any field, down to the second, get different stamps. */
  lemma StampInjective(c1: Civil, c2: Civil)
    requires Valid(c1) && Valid(c2) && FormatStamp(c1) == FormatStamp(c2)
    ensures c1 == c2
  {
    StampRoundTrip(c1);
    StampRoundTrip(c2);
  }

  /** Two days that differ get different folder names. */
  lemma DateInjective(c1: Civil, c2: Civil)
    requires Valid(c1) && Valid(c2) && FormatDate(c1) == FormatDate(c2)
    ensures (c1.year, c1.month, c1.day) == (c2.year, c2.month, c2.day)
  {
    DateRoundTrip(c1);
    DateRoundTrip(c2);
  }
}
