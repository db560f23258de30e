// Crash-report storage keys: a fixed-width UTC timestamp and a random suffix.
module CrashKeys {
  import opened Basics

  // ----- Fixed-width decimals and string order -----

  function Digit(d: nat): char
    requires d < 10
  {
    ('0' as int + d) as char
  }

  function Pow10(w: nat): nat {
    if w == 0 then 1 else 10 * Pow10(w - 1)
  }

  function Pad(n: nat, w: nat): (s: string)
    ensures |s| == w
  {
    if w == 0 then "" else Pad(n / 10, w - 1) + [Digit(n % 10)]
  }

  predicate IsDigit(c: char) { '0' <= c <= '9' }

  predicate AllDigits(s: string) {
    forall i :: 0 <= i < |s| ==> IsDigit(s[i])
  }

  function Value(s: string): nat
    requires AllDigits(s)
  {
    if s == "" then 0 else Value(s[..|s| - 1]) * 10 + (s[|s| - 1] as int - '0' as int)
  }

  predicate Less(a: string, b: string) {
    b != "" && (a == "" || a[0] < b[0] || (a[0] == b[0] && Less(a[1..], b[1..])))
  }

  lemma {:induction false} PadReadsBack(n: nat, w: nat)
    requires n < Pow10(w)
    ensures AllDigits(Pad(n, w)) && Value(Pad(n, w)) == n
  {
    if w > 0 {
      var front := Pad(n / 10, w - 1);
      PadReadsBack(n / 10, w - 1);
      assert Pad(n, w) == front + [Digit(n % 10)];
      assert (front + [Digit(n % 10)])[..w - 1] == front;
    }
  }

  lemma {:induction false} DigitsPrintBack(s: string)
    requires AllDigits(s)
    ensures Value(s) < Pow10(|s|) && Pad(Value(s), |s|) == s
  {
    if s != "" {
      DigitsPrintBack(s[..|s| - 1]);
      assert s == s[..|s| - 1] + [s[|s| - 1]];
    }
  }

  // Strings that start with equally wide decimals compare as the numbers do, then
  // as what follows.
  lemma {:induction false} PadOrder(m: nat, n: nat, w: nat, x: string, y: string)
    requires m < Pow10(w) && n < Pow10(w)
    ensures Less(Pad(m, w) + x, Pad(n, w) + y) <==> m < n || (m == n && Less(x, y))
  {
    if w == 0 {
      assert Pad(m, w) + x == x && Pad(n, w) + y == y;
    } else {
      var a, b := [Digit(m % 10)] + x, [Digit(n % 10)] + y;
      PadOrder(m / 10, n / 10, w - 1, a, b);
      assert Pad(m, w) + x == Pad(m / 10, w - 1) + a;
      assert Pad(n, w) + y == Pad(n / 10, w - 1) + b;
      assert a[1..] == x && b[1..] == y;
    }
  }

  lemma SameCharOrder(c: char, x: string, y: string)
    ensures Less([c] + x, [c] + y) <==> Less(x, y)
  {
    assert ([c] + x)[1..] == x && ([c] + y)[1..] == y;
  }

  // ----- The civil calendar -----

  datatype Fields = Fields(year: nat, month: nat, day: nat, hour: nat, minute: nat, second: nat, micro: nat)

  predicate Leap(y: nat) { y % 4 == 0 && (y % 100 != 0 || y % 400 == 0) }

  function DaysIn(m: nat, y: nat): nat {
    if m == 2 then (if Leap(y) then 29 else 28)
    else if m == 4 || m == 6 || m == 9 || m == 11 then 30
    else 31
  }

  // Every fourth year is a leap year, and of the centuries every fourth.
  lemma LeapYears(y: nat)
    ensures YearLength(y) == if (if y % 100 == 0 then y % 400 == 0 else y % 4 == 0) then 366 else 365
  {
    if y % 100 == 0 {
      assert y == 4 * (25 * (y / 100));
    }
    if y % 400 == 0 {
      assert y == 100 * (4 * (y / 400));
    }
  }

  lemma MonthLengths(m: nat, y: nat)
    requires 1 <= m <= 12
    ensures DaysIn(m, y) == [31, if Leap(y) then 29 else 28, 31, 30, 31, 30, 31, 31, 30, 31, 30, 31][m - 1]
  {
  }

  function YearLength(y: nat): nat { if Leap(y) then 366 else 365 }

  function DaysBeforeYear(y: nat): nat {
    if y == 0 then 0 else DaysBeforeYear(y - 1) + YearLength(y - 1)
  }

  function DaysBeforeMonth(m: nat, y: nat): nat {
    if m <= 1 then 0 else DaysBeforeMonth(m - 1, y) + DaysIn(m - 1, y)
  }

  predicate Valid(f: Fields) {
    && f.year <= 9999 && 1 <= f.month <= 12 && 1 <= f.day <= DaysIn(f.month, f.year)
    && f.hour < 24 && f.minute < 60 && f.second < 60 && f.micro < 1_000_000
  }

  function DayNumber(f: Fields): int {
    DaysBeforeYear(f.year) + DaysBeforeMonth(f.month, f.year) + f.day - 1
  }

  // Microseconds since the start of year 0.
  function Micros(f: Fields): int {
    (((DayNumber(f) * 24 + f.hour) * 60 + f.minute) * 60 + f.second) * 1_000_000 + f.micro
  }

  predicate DateBefore(f: Fields, g: Fields) {
    f.year < g.year || (f.year == g.year && (f.month < g.month || (f.month == g.month && f.day < g.day)))
  }

  predicate SameDate(f: Fields, g: Fields) { f.year == g.year && f.month == g.month && f.day == g.day }

  predicate Before(f: Fields, g: Fields) {
    DateBefore(f, g)
    || (SameDate(f, g)
        && (f.hour < g.hour
            || (f.hour == g.hour
                && (f.minute < g.minute
                    || (f.minute == g.minute
                        && (f.second < g.second || (f.second == g.second && f.micro < g.micro)))))))
  }

  lemma {:induction false} MonthsGrow(m: nat, n: nat, y: nat)
    requires 1 <= m < n
    ensures DaysBeforeMonth(m, y) + DaysIn(m, y) <= DaysBeforeMonth(n, y)
    decreases n
  {
    if m < n - 1 {
      MonthsGrow(m, n - 1, y);
    }
  }

  lemma TwelveMonths(y: nat)
    ensures DaysBeforeMonth(12, y) + DaysIn(12, y) == YearLength(y)
  {
    assert DaysBeforeMonth(2, y) == 31;
    assert DaysBeforeMonth(3, y) == 31 + DaysIn(2, y);
    assert DaysBeforeMonth(5, y) == DaysBeforeMonth(3, y) + 61;
    assert DaysBeforeMonth(7, y) == DaysBeforeMonth(5, y) + 61;
    assert DaysBeforeMonth(9, y) == DaysBeforeMonth(7, y) + 62;
    assert DaysBeforeMonth(11, y) == DaysBeforeMonth(9, y) + 61;
  }

  lemma {:induction false} YearsGrow(y: nat, z: nat)
    requires y < z
    ensures DaysBeforeYear(y) + YearLength(y) <= DaysBeforeYear(z)
    decreases z
  {
    if y < z - 1 {
      YearsGrow(y, z - 1);
    }
  }

  lemma DatesGrow(f: Fields, g: Fields)
    requires Valid(f) && Valid(g) && DateBefore(f, g)
    ensures DayNumber(f) < DayNumber(g)
  {
    TwelveMonths(f.year);
    if f.month < 12 {
      MonthsGrow(f.month, 12, f.year);
    }
    if f.year < g.year {
      YearsGrow(f.year, g.year);
    } else if f.month < g.month {
      MonthsGrow(f.month, g.month, f.year);
    }
  }

  // Civil order is time order.
  lemma FieldsOrder(f: Fields, g: Fields)
    requires Valid(f) && Valid(g)
    ensures Before(f, g) <==> Micros(f) < Micros(g)
    ensures Micros(f) == Micros(g) <==> f == g
  {
    if DateBefore(f, g) {
      DatesGrow(f, g);
    } else if DateBefore(g, f) {
      DatesGrow(g, f);
    }
  }

  const DAY_MICROS: int := 86_400_000_000

  function YearAt(day: nat, from: nat): (y: nat)
    requires DaysBeforeYear(from) <= day
    ensures DaysBeforeYear(y) <= day < DaysBeforeYear(y + 1)
    decreases day - DaysBeforeYear(from)
  {
    if day < DaysBeforeYear(from + 1) then from else YearAt(day, from + 1)
  }

  function MonthAt(day: nat, y: nat, from: nat): (m: nat)
    requires 1 <= from <= 12 && DaysBeforeMonth(from, y) <= day < YearLength(y)
    ensures 1 <= m <= 12 && DaysBeforeMonth(m, y) <= day < DaysBeforeMonth(m, y) + DaysIn(m, y)
    decreases 12 - from
  {
    TwelveMonths(y);
    if day < DaysBeforeMonth(from, y) + DaysIn(from, y) then from else MonthAt(day, y, from + 1)
  }

  // The civil fields of a moment, to the microsecond.
  function Civil(micros: nat): Fields {
    var day := micros / DAY_MICROS;
    var y := YearAt(day, 0);
    var m := MonthAt(day - DaysBeforeYear(y), y, 1);
    var seconds := micros % DAY_MICROS / 1_000_000;
    Fields(y, m, day - DaysBeforeYear(y) - DaysBeforeMonth(m, y) + 1,
           seconds / 3600, seconds / 60 % 60, seconds % 60, micros % 1_000_000)
  }

  // Moments up to the end of year 9999.
  predicate Printable(micros: nat) { Civil(micros).year <= 9999 }

  lemma CivilReadsBack(micros: nat)
    ensures Micros(Civil(micros)) == micros
    ensures Printable(micros) ==> Valid(Civil(micros))
  {
    var day, rest := micros / DAY_MICROS, micros % DAY_MICROS;
    var seconds := rest / 1_000_000;
    assert DayNumber(Civil(micros)) == day;
    assert micros % 1_000_000 == rest % 1_000_000 by {
      assert micros == rest + 1_000_000 * (86_400 * day);
    }
    assert seconds == seconds / 3600 * 3600 + seconds / 60 % 60 * 60 + seconds % 60;
  }

  // ----- Keys -----

  const STAMP_LENGTH: nat := 27

  // 2006-01-02T15:04:05.000000Z
  function Stamp(f: Fields): string {
    Pad(f.year, 4) + ("-" + (Pad(f.month, 2) + ("-" + (Pad(f.day, 2) + ("T" + Clock(f))))))
  }

  function Clock(f: Fields): string {
    Pad(f.hour, 2) + (":" + (Pad(f.minute, 2) + (":" + (Pad(f.second, 2) + ("." + (Pad(f.micro, 6) + "Z"))))))
  }

  // The key of a report received at a moment given in nanoseconds.
  function NewKey(now: nat, suffix: string): string {
    Stamp(Civil(now / 1000)) + ("-" + suffix)
  }

  // Six fraction digits; the parser also lets a sign take the first place.
  function Fraction(s: string): Option<nat>
    requires |s| == 6
  {
    if AllDigits(s) then Some(Value(s))
    else if (s[0] == '+' || s[0] == '-') && AllDigits(s[1..]) && (s[0] == '-' ==> Value(s[1..]) == 0) then
      Some(Value(s[1..]))
    else None
  }

  // A fraction is six digits, five behind a plus sign, or a zero behind a minus sign.
  lemma FractionExactly(s: string)
    requires |s| == 6
    ensures var tail := s[1..];
            if IsDigit(s[0]) && AllDigits(tail) then AllDigits(s) && Fraction(s) == Some(Value(s))
            else if s[0] == '+' && AllDigits(tail) then Fraction(s) == Some(Value(tail))
            else Fraction(s) == if s == "-00000" then Some(0) else None
  {
    assert s == [s[0]] + s[1..];
    if AllDigits(s[1..]) {
      ZeroDigits(s[1..]);
    }
    assert s[1..] == "00000" <==> forall i :: 0 <= i < 5 ==> s[1..][i] == '0';
    assert "-00000" == ['-'] + "00000";
    assert AllDigits(s) ==> IsDigit(s[0]) && AllDigits(s[1..]);
  }

  lemma {:induction false} ZeroDigits(s: string)
    requires AllDigits(s)
    ensures Value(s) == 0 <==> forall i :: 0 <= i < |s| ==> s[i] == '0'
  {
    if s != "" {
      ZeroDigits(s[..|s| - 1]);
    }
  }

  function FieldsOf(key: string): Option<Fields> {
    if |key| < STAMP_LENGTH then None
    else if !(key[4] == '-' && key[7] == '-' && key[10] == 'T' && key[13] == ':' && key[16] == ':'
              && (key[19] == '.' || key[19] == ',') && key[26] == 'Z') then None
    else if !(AllDigits(key[..4]) && AllDigits(key[5..7]) && AllDigits(key[8..10]) && AllDigits(key[11..13])
              && AllDigits(key[14..16]) && AllDigits(key[17..19])) then None
    else if Fraction(key[20..26]).None? then None
    else
      var f := Fields(Value(key[..4]), Value(key[5..7]), Value(key[8..10]), Value(key[11..13]),
                      Value(key[14..16]), Value(key[17..19]), Fraction(key[20..26]).value);
      if Valid(f) then Some(f) else None
  }

  // The receive time a key starts with, in microseconds.
  function KeyTime(key: string): Option<int> {
    match FieldsOf(key)
    case None => None
    case Some(f) => Some(Micros(f))
  }

  lemma ClockLayout(f: Fields, tail: string)
    ensures var clock := Clock(f) + tail;
            && |Clock(f)| == 16 && clock[16..] == tail
            && clock[2] == ':' && clock[5] == ':' && clock[8] == '.' && clock[15] == 'Z'
            && clock[..2] == Pad(f.hour, 2) && clock[3..5] == Pad(f.minute, 2) && clock[6..8] == Pad(f.second, 2)
            && clock[9..15] == Pad(f.micro, 6)
  {
    hide Pad;
  }

  lemma StampLayout(f: Fields, tail: string)
    ensures var key := Stamp(f) + tail;
            && |Stamp(f)| == STAMP_LENGTH && key[27..] == tail
            && key[4] == '-' && key[7] == '-' && key[10] == 'T' && key[13] == ':' && key[16] == ':'
            && key[19] == '.' && key[26] == 'Z'
            && key[..4] == Pad(f.year, 4) && key[5..7] == Pad(f.month, 2) && key[8..10] == Pad(f.day, 2)
            && key[11..13] == Pad(f.hour, 2) && key[14..16] == Pad(f.minute, 2) && key[17..19] == Pad(f.second, 2)
            && key[20..26] == Pad(f.micro, 6)
  {
    hide Pad;
    hide Clock;
    ClockLayout(f, tail);
    var key, clock := Stamp(f) + tail, Clock(f) + tail;
    assert key[11..] == clock;
    forall i, j | 0 <= i <= j <= |clock| ensures key[11 + i..11 + j] == clock[i..j] {
      assert key[11 + i..11 + j] == key[11..][i..j];
    }
    assert key[13] == clock[2] && key[16] == clock[5] && key[19] == clock[8] && key[26] == clock[15];
    assert key[11..13] == clock[0..2] && key[14..16] == clock[3..5] && key[17..19] == clock[6..8];
    assert key[20..26] == clock[9..15];
  }

  lemma PowersOfTen()
    ensures Pow10(2) == 100 && Pow10(4) == 10_000 && Pow10(6) == 1_000_000
  {
    assert Pow10(2) == 100;
    assert Pow10(4) == 10_000;
  }

  lemma PartsReadBack(f: Fields)
    requires Valid(f)
    ensures AllDigits(Pad(f.year, 4)) && Value(Pad(f.year, 4)) == f.year
    ensures AllDigits(Pad(f.month, 2)) && Value(Pad(f.month, 2)) == f.month
    ensures AllDigits(Pad(f.day, 2)) && Value(Pad(f.day, 2)) == f.day
    ensures AllDigits(Pad(f.hour, 2)) && Value(Pad(f.hour, 2)) == f.hour
    ensures AllDigits(Pad(f.minute, 2)) && Value(Pad(f.minute, 2)) == f.minute
    ensures AllDigits(Pad(f.second, 2)) && Value(Pad(f.second, 2)) == f.second
    ensures AllDigits(Pad(f.micro, 6)) && Value(Pad(f.micro, 6)) == f.micro
  {
    hide Pad, Value, AllDigits;
    PowersOfTen();
    PadReadsBack(f.year, 4);
    PadReadsBack(f.month, 2);
    PadReadsBack(f.day, 2);
    PadReadsBack(f.hour, 2);
    PadReadsBack(f.minute, 2);
    PadReadsBack(f.second, 2);
    PadReadsBack(f.micro, 6);
  }

  lemma StampReadsBack(f: Fields, tail: string)
    requires Valid(f)
    ensures FieldsOf(Stamp(f) + tail) == Some(f)
  {
    hide Pad, Value, AllDigits, Stamp, Valid;
    StampLayout(f, tail);
    PartsReadBack(f);
  }

  // A key gives back the time it was made at, to the microsecond.
  lemma KeyReadsBack(now: nat, suffix: string)
    requires Printable(now / 1000)
    ensures KeyTime(NewKey(now, suffix)) == Some(now / 1000)
  {
    CivilReadsBack(now / 1000);
    StampReadsBack(Civil(now / 1000), "-" + suffix);
  }

  lemma ClockOrder(f: Fields, g: Fields, x: string, y: string)
    requires Valid(f) && Valid(g) && SameDate(f, g)
    ensures Less(Clock(f) + x, Clock(g) + y) <==> Before(f, g) || (f == g && Less(x, y))
  {
    hide Pad;
    hide Less;
    PowersOfTen();
    var f4, g4 := "Z" + x, "Z" + y;
    var f3, g3 := "." + (Pad(f.micro, 6) + f4), "." + (Pad(g.micro, 6) + g4);
    var f2, g2 := ":" + (Pad(f.second, 2) + f3), ":" + (Pad(g.second, 2) + g3);
    var f1, g1 := ":" + (Pad(f.minute, 2) + f2), ":" + (Pad(g.minute, 2) + g2);
    assert Clock(f) + x == Pad(f.hour, 2) + f1;
    assert Clock(g) + y == Pad(g.hour, 2) + g1;
    PadOrder(f.hour, g.hour, 2, f1, g1);
    SameCharOrder(':', Pad(f.minute, 2) + f2, Pad(g.minute, 2) + g2);
    PadOrder(f.minute, g.minute, 2, f2, g2);
    SameCharOrder(':', Pad(f.second, 2) + f3, Pad(g.second, 2) + g3);
    PadOrder(f.second, g.second, 2, f3, g3);
    SameCharOrder('.', Pad(f.micro, 6) + f4, Pad(g.micro, 6) + g4);
    PadOrder(f.micro, g.micro, 6, f4, g4);
    SameCharOrder('Z', x, y);
  }

  // Keys compare as their times do, and within one microsecond as their tails do.
  lemma StampOrder(f: Fields, g: Fields, x: string, y: string)
    requires Valid(f) && Valid(g)
    ensures Less(Stamp(f) + x, Stamp(g) + y) <==> Micros(f) < Micros(g) || (f == g && Less(x, y))
  {
    hide Pad;
    hide Less;
    hide Clock;
    hide Micros;
    PowersOfTen();
    FieldsOrder(f, g);
    var f3, g3 := "T" + (Clock(f) + x), "T" + (Clock(g) + y);
    var f2, g2 := "-" + (Pad(f.day, 2) + f3), "-" + (Pad(g.day, 2) + g3);
    var f1, g1 := "-" + (Pad(f.month, 2) + f2), "-" + (Pad(g.month, 2) + g2);
    assert Stamp(f) + x == Pad(f.year, 4) + f1;
    assert Stamp(g) + y == Pad(g.year, 4) + g1;
    PadOrder(f.year, g.year, 4, f1, g1);
    SameCharOrder('-', Pad(f.month, 2) + f2, Pad(g.month, 2) + g2);
    PadOrder(f.month, g.month, 2, f2, g2);
    SameCharOrder('-', Pad(f.day, 2) + f3, Pad(g.day, 2) + g3);
    PadOrder(f.day, g.day, 2, f3, g3);
    SameCharOrder('T', Clock(f) + x, Clock(g) + y);
    if SameDate(f, g) {
      ClockOrder(f, g, x, y);
    }
  }

  // String order of keys is receive-time order, to the microsecond; the random
  // suffix decides only inside one microsecond.
  lemma KeysSortByTime(now: nat, suffix: string, now': nat, suffix': string)
    requires Printable(now / 1000) && Printable(now' / 1000)
    ensures Less(NewKey(now, suffix), NewKey(now', suffix')) <==>
            now / 1000 < now' / 1000 || (now / 1000 == now' / 1000 && Less(suffix, suffix'))
  {
    CivilReadsBack(now / 1000);
    CivilReadsBack(now' / 1000);
    StampOrder(Civil(now / 1000), Civil(now' / 1000), "-" + suffix, "-" + suffix');
    FieldsOrder(Civil(now / 1000), Civil(now' / 1000));
    SameCharOrder('-', suffix, suffix');
  }

  // The key's fraction starts with a point and a digit, as every written key's does.
  predicate Plain(key: string) {
    |key| >= STAMP_LENGTH && key[19] == '.' && IsDigit(key[20])
  }

  // A key that parses is the printed form of its time exactly when it is plain: the
  // parser also takes a comma for the point and a sign for the first digit.
  lemma ParsedIsPrinted(key: string)
    requires FieldsOf(key).Some?
    ensures key[..STAMP_LENGTH] == Stamp(FieldsOf(key).value) <==> Plain(key)
  {
    hide Valid, Pad, Stamp, Value;
    var f := FieldsOf(key).value;
    StampLayout(f, "");
    assert Stamp(f) + "" == Stamp(f);
    if Plain(key) {
      PlainIsPrinted(key);
    } else if key[19] == '.' {
      assert AllDigits(Pad(f.micro, 6)) by {
        PowersOfTen();
        FractionFits(key[20..26]);
        PadReadsBack(f.micro, 6);
      }
      assert IsDigit(Stamp(f)[20..26][0]);
      assert key[..STAMP_LENGTH][20] != Stamp(f)[20];
    } else {
      assert key[..STAMP_LENGTH][19] != Stamp(f)[19];
    }
  }

  lemma FractionFits(s: string)
    requires |s| == 6 && Fraction(s).Some?
    ensures Fraction(s).value < Pow10(6)
  {
    PowersOfTen();
    if AllDigits(s) {
      DigitsPrintBack(s);
    } else {
      DigitsPrintBack(s[1..]);
    }
  }

  lemma PlainIsPrinted(key: string)
    requires FieldsOf(key).Some? && Plain(key)
    ensures key[..STAMP_LENGTH] == Stamp(FieldsOf(key).value)
  {
    hide Valid, Pad, Stamp, Value;
    var f := FieldsOf(key).value;
    StampLayout(f, "");
    assert Stamp(f) + "" == Stamp(f);
    assert key[20..26][0] == key[20];
    assert AllDigits(key[20..26]);
    DigitsPrintBack(key[..4]);
    DigitsPrintBack(key[5..7]);
    DigitsPrintBack(key[8..10]);
    DigitsPrintBack(key[11..13]);
    DigitsPrintBack(key[14..16]);
    DigitsPrintBack(key[17..19]);
    DigitsPrintBack(key[20..26]);
    var shown := key[..STAMP_LENGTH];
    assert shown[..4] == key[..4] && shown[5..7] == key[5..7] && shown[8..10] == key[8..10];
    assert shown[11..13] == key[11..13] && shown[14..16] == key[14..16] && shown[17..19] == key[17..19];
    assert shown[20..26] == key[20..26];
    SameByParts(shown, Stamp(f));
  }

  lemma SameByParts(a: string, b: string)
    requires |a| == |b| == STAMP_LENGTH
    requires a[..4] == b[..4] && a[4] == b[4] && a[5..7] == b[5..7] && a[7] == b[7] && a[8..10] == b[8..10]
    requires a[10] == b[10] && a[11..13] == b[11..13] && a[13] == b[13] && a[14..16] == b[14..16]
    requires a[16] == b[16] && a[17..19] == b[17..19] && a[19] == b[19] && a[20..26] == b[20..26] && a[26] == b[26]
    ensures a == b
  {
    assert a == a[..4] + [a[4]] + a[5..7] + [a[7]] + a[8..10] + [a[10]] + a[11..13] + [a[13]] + a[14..16]
                + [a[16]] + a[17..19] + [a[19]] + a[20..26] + [a[26]];
    assert b == b[..4] + [b[4]] + b[5..7] + [b[7]] + b[8..10] + [b[10]] + b[11..13] + [b[13]] + b[14..16]
                + [b[16]] + b[17..19] + [b[19]] + b[20..26] + [b[26]];
  }

  // Plain keys in string order are in time order.
  lemma PlainKeysInOrder(a: string, b: string)
    requires Plain(a) && Plain(b) && KeyTime(a).Some? && KeyTime(b).Some? && Less(a, b)
    ensures KeyTime(a).value <= KeyTime(b).value
  {
    hide Less, Stamp, Micros;
    ParsedIsPrinted(a);
    ParsedIsPrinted(b);
    var f, g := FieldsOf(a).value, FieldsOf(b).value;
    assert a == Stamp(f) + a[STAMP_LENGTH..] && b == Stamp(g) + b[STAMP_LENGTH..];
    StampOrder(f, g, a[STAMP_LENGTH..], b[STAMP_LENGTH..]);
  }
}
