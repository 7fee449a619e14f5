/**
 Calendar time: from microseconds since 1970 to date and time by counting off years and months, and
 the ISO 8601 text of it. Dates are checked against a day count of their own, by the rule of the
 Gregorian calendar; texts are checked by reading their digits back, and by their order.
 */
module Calendar {

  datatype DateTime = DateTime(year: int, month: int, day: int, hour: int, minute: int, second: int, micros: int)

  predicate IsLeapYear(year: int) {
    (year % 4 == 0 && year % 100 != 0) || year % 400 == 0
  }

  function YearDays(year: int): int {
    if IsLeapYear(year) then 366 else 365
  }

  function MonthDays(year: int, month: int): int {
    if month == 2 then (if IsLeapYear(year) then 29 else 28)
    else if month == 4 || month == 6 || month == 9 || month == 11 then 30 else 31
  }

  /** A date of the Gregorian calendar and a time of day. */
  predicate ValidDateTime(d: DateTime) {
    && 1970 <= d.year && 1 <= d.month <= 12 && 1 <= d.day <= MonthDays(d.year, d.month)
    && 0 <= d.hour < 24 && 0 <= d.minute < 60 && 0 <= d.second < 60 && 0 <= d.micros < 1_000_000
  }

  // ---------------------------------------------------------------- counting days independently

  /** Leap years before `year` since year 1, by the rule of the calendar. */
  function LeapYearsBefore(year: int): int {
    (year - 1) / 4 - (year - 1) / 100 + (year - 1) / 400
  }

  /** Days from the start of 1970 to the start of `year`. */
  function DaysBeforeYear(year: int): int {
    365 * (year - 1970) + LeapYearsBefore(year) - LeapYearsBefore(1970)
  }

  /** Days from the start of the year to the start of the month. */
  function DaysBeforeMonth(year: int, month: int): int {
    (if month <= 1 then 0 else if month == 2 then 31 else if month == 3 then 59 else if month == 4 then 90
     else if month == 5 then 120 else if month == 6 then 151 else if month == 7 then 181 else if month == 8 then 212
     else if month == 9 then 243 else if month == 10 then 273 else if month == 11 then 304 else if month == 12 then 334
     else 365)
    + (if month > 2 && IsLeapYear(year) then 1 else 0)
  }

  function DayNumber(d: DateTime): int {
    DaysBeforeYear(d.year) + DaysBeforeMonth(d.year, d.month) + d.day - 1
  }

  function TimeOfDay(d: DateTime): int {
    ((d.hour * 60 + d.minute) * 60 + d.second) * 1_000_000 + d.micros
  }

  const DAY_MICROS: int := 86_400_000_000

  /** Microseconds since the start of 1970. */
  function Micros(d: DateTime): int {
    DayNumber(d) * DAY_MICROS + TimeOfDay(d)
  }

  lemma FourthYear(year: int)
    ensures year / 4 - (year - 1) / 4 == if year % 4 == 0 then 1 else 0
  {
  }

  /** Quotient and remainder are what they have to be. */
  lemma Divided(a: int, q: int, r: int)
    requires a == 100 * q + r && 0 <= r < 100
    ensures a / 100 == q && a % 100 == r
  {
  }

  lemma DividedBy400(a: int, q: int, r: int)
    requires a == 400 * q + r && 0 <= r < 400
    ensures a / 400 == q && a % 400 == r
  {
  }

  lemma HundredthYear(year: int)
    ensures year / 100 - (year - 1) / 100 == if year % 100 == 0 then 1 else 0
  {
    var q, r := year / 100, year % 100;
    if r == 0 {
      Divided(year - 1, q - 1, 99);
    } else {
      Divided(year - 1, q, r - 1);
    }
  }

  lemma FourHundredthYear(year: int)
    ensures year / 400 - (year - 1) / 400 == if year % 400 == 0 then 1 else 0
  {
    var q, r := year / 400, year % 400;
    if r == 0 {
      DividedBy400(year - 1, q - 1, 399);
    } else {
      DividedBy400(year - 1, q, r - 1);
    }
  }

  lemma FourTimes(a: int, k: int)
    requires a == 4 * k
    ensures a % 4 == 0
  {
  }

  lemma CenturyIsFourth(year: int)
    requires year % 100 == 0
    ensures year % 4 == 0
  {
    var q := year / 100;
    var k := 25 * q;
    FourTimes(year, k);
  }

  lemma FourCenturiesIsCentury(year: int)
    requires year % 400 == 0
    ensures year % 100 == 0
  {
    var q := year / 400;
    Divided(year, 4 * q, 0);
  }

  /** The rule for leap years and the count of them agree. */
  lemma LeapStep(year: int)
    ensures LeapYearsBefore(year + 1) == LeapYearsBefore(year) + if IsLeapYear(year) then 1 else 0
  {
    FourthYear(year);
    HundredthYear(year);
    FourHundredthYear(year);
    if year % 100 == 0 {
      CenturyIsFourth(year);
    }
    if year % 400 == 0 {
      FourCenturiesIsCentury(year);
    }
  }

  lemma YearStep(year: int)
    ensures DaysBeforeYear(year + 1) == DaysBeforeYear(year) + YearDays(year)
  {
    LeapStep(year);
  }

  lemma MonthStep(year: int, month: int)
    requires 1 <= month <= 12
    ensures DaysBeforeMonth(year, month + 1) == DaysBeforeMonth(year, month) + MonthDays(year, month)
    ensures DaysBeforeMonth(year, 13) == YearDays(year)
  {
  }

  // ---------------------------------------------------------------- the conversion

  /** Years are counted off until the days fit into one. */
  method CountYears(total: int) returns (year: int, days: int)
    requires total >= 0
    ensures 1970 <= year && 0 <= days < YearDays(year)
    ensures DaysBeforeYear(year) + days == total
  {
    year, days := 1970, total;
    while days >= YearDays(year)
      invariant 1970 <= year && 0 <= days
      invariant DaysBeforeYear(year) + days == total
      decreases days
    {
      YearStep(year);
      days := days - YearDays(year);
      year := year + 1;
    }
  }

  /** Months are counted off until the days fit into one. */
  method CountMonths(year: int, total: int) returns (month: int, days: int)
    requires 0 <= total < YearDays(year)
    ensures 1 <= month <= 12 && 0 <= days < MonthDays(year, month)
    ensures DaysBeforeMonth(year, month) + days == total
  {
    month, days := 1, total;
    while month <= 12 && days >= MonthDays(year, month)
      invariant 1 <= month <= 13 && 0 <= days
      invariant DaysBeforeMonth(year, month) + days == total
      decreases 13 - month
    {
      MonthStep(year, month);
      days := days - MonthDays(year, month);
      month := month + 1;
    }
    if month == 13 {
      MonthStep(year, 12);
    }
  }

  /** The conversion terminates and gives the one valid date and time of that instant. */
  method FromUnixUs(us: nat) returns (d: DateTime)
    ensures ValidDateTime(d) && Micros(d) == us
  {
    var secs := us / 1_000_000;
    var today := secs % 86_400;
    var year, rest := CountYears(secs / 86_400);
    var month, days := CountMonths(year, rest);
    d := DateTime(year, month, days + 1, today / 3600, today % 3600 / 60, today % 60, us % 1_000_000);
    assert TimeOfDay(d) == today * 1_000_000 + us % 1_000_000;
  }

  // ---------------------------------------------------------------- order

  /** Earlier by year, then month, then day, and so on. */
  predicate Earlier(a: DateTime, b: DateTime) {
    a.year < b.year || (a.year == b.year &&
    (a.month < b.month || (a.month == b.month &&
    (a.day < b.day || (a.day == b.day &&
    (a.hour < b.hour || (a.hour == b.hour &&
    (a.minute < b.minute || (a.minute == b.minute &&
    (a.second < b.second || (a.second == b.second && a.micros < b.micros)))))))))))
  }

  lemma {:induction false} YearsGrow(a: int, b: int)
    requires 1 <= a < b
    ensures DaysBeforeYear(a) + YearDays(a) <= DaysBeforeYear(b)
    decreases b - a
  {
    if a + 1 < b {
      YearsGrow(a, b - 1);
    }
    YearStep(b - 1);
  }

  lemma MonthsGrow(year: int, a: int, b: int)
    requires 1 <= a < b <= 13
    ensures DaysBeforeMonth(year, a) + MonthDays(year, a) <= DaysBeforeMonth(year, b)
  {
  }

  lemma DaysGrow(a: DateTime, b: DateTime)
    requires ValidDateTime(a) && ValidDateTime(b)
    requires a.year < b.year || (a.year == b.year && a.month < b.month)
             || (a.year == b.year && a.month == b.month && a.day < b.day)
    ensures DayNumber(a) < DayNumber(b)
  {
    if a.year < b.year {
      YearsGrow(a.year, b.year);
      MonthsGrow(a.year, a.month, 13);
      MonthStep(a.year, 12);
    } else if a.month < b.month {
      MonthsGrow(a.year, a.month, b.month);
    }
  }

  lemma TimeOfDayBounds(d: DateTime)
    requires ValidDateTime(d)
    ensures 0 <= TimeOfDay(d) < DAY_MICROS
  {
  }

  lemma EarlierIsLess(a: DateTime, b: DateTime)
    requires ValidDateTime(a) && ValidDateTime(b) && Earlier(a, b)
    ensures Micros(a) < Micros(b)
  {
    TimeOfDayBounds(a);
    TimeOfDayBounds(b);
    if (a.year, a.month, a.day) != (b.year, b.month, b.day) {
      DaysGrow(a, b);
    } else {
      TimesGrow(a, b);
    }
  }

  lemma TimesGrow(a: DateTime, b: DateTime)
    requires ValidDateTime(a) && ValidDateTime(b)
    requires (a.year, a.month, a.day) == (b.year, b.month, b.day) && Earlier(a, b)
    ensures TimeOfDay(a) < TimeOfDay(b)
  {
  }

  /** Fields are ordered exactly as the instants are; equal instants have equal fields. */
  lemma OrderIsMicros(a: DateTime, b: DateTime)
    requires ValidDateTime(a) && ValidDateTime(b)
    ensures Earlier(a, b) <==> Micros(a) < Micros(b)
    ensures Micros(a) == Micros(b) ==> a == b
  {
    if Earlier(a, b) {
      EarlierIsLess(a, b);
    } else if a != b {
      EarlierIsLess(b, a);
    }
  }

  // ---------------------------------------------------------------- text

  function DigitChar(d: int): char
    requires 0 <= d < 10
  {
    '0' + d as char
  }

  /** Decimal digits, with leading zeros up to a width of w. */
  function Pad(n: nat, w: nat): (s: string)
    ensures |s| >= 1
    decreases n, w
  {
    if n < 10 && w <= 1 then [DigitChar(n)]
    else if n < 10 then Pad(0, w - 1) + [DigitChar(n)]
    else Pad(n / 10, if w == 0 then 0 else w - 1) + [DigitChar(n % 10)]
  }

  /** A number with its width, and the character that follows it. */
  datatype Piece = Piece(n: nat, w: nat, sep: char)

  function Format(ps: seq<Piece>): string {
    if ps == [] then "" else Pad(ps[0].n, ps[0].w) + [ps[0].sep] + Format(ps[1..])
  }

  function Pieces(d: DateTime): seq<Piece>
    requires ValidDateTime(d)
  {
    [Piece(d.year, 4, '-'), Piece(d.month, 2, '-'), Piece(d.day, 2, 'T'), Piece(d.hour, 2, ':'),
     Piece(d.minute, 2, ':'), Piece(d.second, 2, '.'), Piece(d.micros, 6, 'Z')]
  }

  function ToIso8601(d: DateTime): string
    requires ValidDateTime(d)
  {
    Format(Pieces(d))
  }

  /** Lexicographic order of texts. */
  predicate TextLess(a: string, b: string) {
    b != "" && (a == "" || a[0] < b[0] || (a[0] == b[0] && TextLess(a[1..], b[1..])))
  }

  /** Texts that start with parts of equal length are ordered by those parts first. */
  lemma {:induction false} TextLessParts(p: string, s: string, q: string, t: string)
    requires |p| == |q|
    ensures TextLess(p + s, q + t) <==> TextLess(p, q) || (p == q && TextLess(s, t))
    decreases |p|
  {
    if p == "" {
      assert p + s == s && q + t == t;
    } else {
      assert (p + s)[1..] == p[1..] + s && (q + t)[1..] == q[1..] + t;
      TextLessParts(p[1..], s, q[1..], t);
      assert p == q <==> p[0] == q[0] && p[1..] == q[1..];
    }
  }

  lemma {:induction false} TextIrreflexive(p: string)
    ensures !TextLess(p, p)
    decreases |p|
  {
    if p != "" {
      TextIrreflexive(p[1..]);
    }
  }

  function Pow10(w: nat): nat {
    if w == 0 then 1 else 10 * Pow10(w - 1)
  }

  /** Numbers that fit the width are written with exactly that many digits, in the order of their values. */
  lemma {:induction false} PadOrder(a: nat, b: nat, w: nat)
    requires w >= 1 && a < Pow10(w) && b < Pow10(w)
    ensures |Pad(a, w)| == w == |Pad(b, w)|
    ensures TextLess(Pad(a, w), Pad(b, w)) <==> a < b
    ensures Pad(a, w) == Pad(b, w) <==> a == b
    decreases w
  {
    if w == 1 {
      assert Pow10(1) == 10;
      assert Pad(a, w) == [DigitChar(a)] && Pad(b, w) == [DigitChar(b)];
    } else {
      PadStep(a, w);
      PadStep(b, w);
      PadOrder(a / 10, b / 10, w - 1);
      var p, q := Pad(a / 10, w - 1), Pad(b / 10, w - 1);
      TextLessParts(p, [DigitChar(a % 10)], q, [DigitChar(b % 10)]);
      LastDigit(p, DigitChar(a % 10), q, DigitChar(b % 10));
    }
  }

  lemma PadStep(a: nat, w: nat)
    requires w >= 2 && a < Pow10(w)
    ensures Pad(a, w) == Pad(a / 10, w - 1) + [DigitChar(a % 10)] && a / 10 < Pow10(w - 1)
  {
  }

  lemma LastDigit(p: string, c: char, q: string, d: char)
    ensures p + [c] == q + [d] <==> p == q && c == d
    ensures TextLess([c], [d]) <==> c < d
  {
    if p + [c] == q + [d] {
      assert (p + [c])[..|p|] == p && (q + [d])[..|q|] == q;
      assert (p + [c])[|p|] == c && (q + [d])[|q|] == d;
    }
  }

  /** The number that a text of decimal digits denotes. */
  function ValueOf(s: string): int
    decreases |s|
  {
    if s == "" then 0 else 10 * ValueOf(s[..|s| - 1]) + (s[|s| - 1] as int - '0' as int)
  }

  /** The text consists of digits, denotes n, and has w digits or no zero in front. */
  predicate Denotes(s: string, n: nat, w: nat) {
    && |s| >= w && |s| >= 1 && AllDigits(s) && ValueOf(s) == n
    && (|s| > w && |s| > 1 ==> s[0] != '0')
  }

  predicate AllDigits(s: string) {
    forall i :: 0 <= i < |s| ==> '0' <= s[i] <= '9'
  }

  /** One more digit at the end. */
  lemma ReadsMore(s: string, d: nat)
    requires AllDigits(s) && d < 10
    ensures AllDigits(s + [DigitChar(d)]) && ValueOf(s + [DigitChar(d)]) == 10 * ValueOf(s) + d
  {
    var t := s + [DigitChar(d)];
    assert t[..|t| - 1] == s;
  }

  lemma {:induction false} PadReads(n: nat, w: nat)
    ensures AllDigits(Pad(n, w)) && ValueOf(Pad(n, w)) == n
    decreases n, w
  {
    if n < 10 && w <= 1 {
      assert "" + [DigitChar(n)] == [DigitChar(n)];
      ReadsMore("", n);
    } else if n < 10 {
      PadReads(0, w - 1);
      ReadsMore(Pad(0, w - 1), n);
    } else {
      var v := if w == 0 then 0 else w - 1;
      PadReads(n / 10, v);
      ReadsMore(Pad(n / 10, v), n % 10);
    }
  }

  lemma {:induction false} PadLeads(n: nat, w: nat)
    ensures |Pad(n, w)| >= w && (n == 0 ==> |Pad(n, w)| == if w <= 1 then 1 else w)
    ensures n > 0 && |Pad(n, w)| > w ==> Pad(n, w)[0] != '0'
    decreases n, w
  {
    if n < 10 && w > 1 {
      PadLeads(0, w - 1);
    } else if n >= 10 {
      PadLeads(n / 10, if w == 0 then 0 else w - 1);
    }
  }

  lemma PadDenotes(n: nat, w: nat)
    ensures Denotes(Pad(n, w), n, w)
  {
    PadReads(n, w);
    PadLeads(n, w);
  }

  /** Two digits, or six, for numbers that fit. */
  lemma PadWidth(n: nat, w: nat)
    requires w >= 1 && n < Pow10(w)
    ensures |Pad(n, w)| == w
  {
    PadOrder(n, n, w);
  }

  lemma IsoParts(d: DateTime)
    requires ValidDateTime(d)
    ensures ToIso8601(d)
         == Pad(d.year, 4) + ['-'] + (Pad(d.month, 2) + ['-'] + (Pad(d.day, 2) + ['T'] + (Pad(d.hour, 2) + [':']
          + (Pad(d.minute, 2) + [':'] + (Pad(d.second, 2) + ['.'] + (Pad(d.micros, 6) + ['Z'] + ""))))))
  {
    var ps := Pieces(d);
    assert ps[1..][1..] == ps[2..] && ps[2..][1..] == ps[3..] && ps[3..][1..] == ps[4..];
    assert ps[4..][1..] == ps[5..] && ps[5..][1..] == ps[6..] && ps[6..][1..] == [];
    assert Format(ps[6..]) == Pad(d.micros, 6) + ['Z'] + "";
    assert Format(ps[5..]) == Pad(d.second, 2) + ['.'] + Format(ps[6..]);
    assert Format(ps[4..]) == Pad(d.minute, 2) + [':'] + Format(ps[5..]);
    assert Format(ps[3..]) == Pad(d.hour, 2) + [':'] + Format(ps[4..]);
    assert Format(ps[2..]) == Pad(d.day, 2) + ['T'] + Format(ps[3..]);
    assert Format(ps[1..]) == Pad(d.month, 2) + ['-'] + Format(ps[2..]);
  }

  lemma PadWidths(d: DateTime)
    requires ValidDateTime(d)
    ensures |Pad(d.month, 2)| == |Pad(d.day, 2)| == |Pad(d.hour, 2)| == |Pad(d.minute, 2)| == |Pad(d.second, 2)| == 2
    ensures |Pad(d.micros, 6)| == 6
  {
    assert Pow10(2) == 100;
    assert Pow10(6) == 10000 * Pow10(2) by {
      assert Pow10(4) == 100 * Pow10(2);
    }
    PadWidth(d.month, 2);
    PadWidth(d.day, 2);
    PadWidth(d.hour, 2);
    PadWidth(d.minute, 2);
    PadWidth(d.second, 2);
    PadWidth(d.micros, 6);
  }

  /**
   The text of an instant, character by character: the year with four digits or more, two digits for
   month, day, hour, minute and second, six for the microseconds, and the separators between them.
   */
  lemma IsoText(d: DateTime)
    requires ValidDateTime(d)
    ensures var t := ToIso8601(d);
            var k := |t| - 23;
            && k >= 4 && Denotes(t[..k], d.year, 4) && t[k] == '-' && Denotes(t[k + 1..k + 3], d.month, 2)
            && t[k + 3] == '-' && Denotes(t[k + 4..k + 6], d.day, 2) && t[k + 6] == 'T'
            && Denotes(t[k + 7..k + 9], d.hour, 2) && t[k + 9] == ':' && Denotes(t[k + 10..k + 12], d.minute, 2)
            && t[k + 12] == ':' && Denotes(t[k + 13..k + 15], d.second, 2) && t[k + 15] == '.'
            && Denotes(t[k + 16..k + 22], d.micros, 6) && t[k + 22] == 'Z'
  {
    IsoParts(d);
    PadWidths(d);
    var y, mo, da, ho := Pad(d.year, 4), Pad(d.month, 2), Pad(d.day, 2), Pad(d.hour, 2);
    var mi, se, mu := Pad(d.minute, 2), Pad(d.second, 2), Pad(d.micros, 6);
    var t, k := ToIso8601(d), |y|;
    Concatenated(y, mo, da, ho, mi, se, mu, t);
    PadDenotes(d.year, 4);
    PadDenotes(d.month, 2);
    PadDenotes(d.day, 2);
    PadDenotes(d.hour, 2);
    PadDenotes(d.minute, 2);
    PadDenotes(d.second, 2);
    PadDenotes(d.micros, 6);
  }

  lemma Concatenated(y: string, mo: string, da: string, ho: string, mi: string, se: string, mu: string, t: string)
    requires |mo| == |da| == |ho| == |mi| == |se| == 2 && |mu| == 6
    requires t == y + ['-'] + (mo + ['-'] + (da + ['T'] + (ho + [':']
                + (mi + [':'] + (se + ['.'] + (mu + ['Z'] + ""))))))
    ensures var k := |y|;
            && |t| == k + 23 && t[..k] == y && t[k] == '-' && t[k + 1..k + 3] == mo && t[k + 3] == '-'
            && t[k + 4..k + 6] == da && t[k + 6] == 'T' && t[k + 7..k + 9] == ho && t[k + 9] == ':'
            && t[k + 10..k + 12] == mi && t[k + 12] == ':' && t[k + 13..k + 15] == se && t[k + 15] == '.'
            && t[k + 16..k + 22] == mu && t[k + 22] == 'Z'
  {
  }

  /** Two lists of numbers in the same format. */
  predicate SameFormat(a: seq<Piece>, b: seq<Piece>) {
    && |a| == |b|
    && forall i :: 0 <= i < |a| ==>
         && a[i].w == b[i].w >= 1 && a[i].sep == b[i].sep && a[i].n < Pow10(a[i].w) && b[i].n < Pow10(b[i].w)
  }

  predicate NumbersLess(a: seq<Piece>, b: seq<Piece>)
    requires |a| == |b|
  {
    a != [] && (a[0].n < b[0].n || (a[0].n == b[0].n && NumbersLess(a[1..], b[1..])))
  }

  lemma {:induction false} FormatOrder(a: seq<Piece>, b: seq<Piece>)
    requires SameFormat(a, b)
    ensures TextLess(Format(a), Format(b)) <==> NumbersLess(a, b)
    decreases |a|
  {
    if a != [] {
      var p, q := Pad(a[0].n, a[0].w), Pad(b[0].n, b[0].w);
      PadOrder(a[0].n, b[0].n, a[0].w);
      FormatOrder(a[1..], b[1..]);
      var sep := [a[0].sep];
      TextLessParts(p + sep, Format(a[1..]), q + sep, Format(b[1..]));
      TextLessParts(p, sep, q, sep);
      TextIrreflexive(sep);
      LastDigit(p, a[0].sep, q, a[0].sep);
    }
  }

  lemma NumbersLessIsEarlier(a: DateTime, b: DateTime)
    requires ValidDateTime(a) && ValidDateTime(b)
    ensures NumbersLess(Pieces(a), Pieces(b)) <==> Earlier(a, b)
  {
    var p, q := Pieces(a), Pieces(b);
    NumbersFrom(p, q, 6);
    NumbersFrom(p, q, 5);
    NumbersFrom(p, q, 4);
    NumbersFrom(p, q, 3);
    NumbersFrom(p, q, 2);
    NumbersFrom(p, q, 1);
    NumbersFrom(p, q, 0);
    assert p[0..] == p && q[0..] == q && p[7..] == [];
  }

  lemma NumbersFrom(p: seq<Piece>, q: seq<Piece>, i: nat)
    requires |p| == |q| && i < |p|
    ensures NumbersLess(p[i..], q[i..]) <==>
            p[i].n < q[i].n || (p[i].n == q[i].n && NumbersLess(p[i + 1..], q[i + 1..]))
  {
    assert p[i..][1..] == p[i + 1..] && q[i..][1..] == q[i + 1..];
  }

  lemma PiecesFormat(a: DateTime, b: DateTime)
    requires ValidDateTime(a) && ValidDateTime(b) && a.year <= 9999 && b.year <= 9999
    ensures SameFormat(Pieces(a), Pieces(b))
  {
    assert Pow10(2) == 100;
    assert Pow10(4) == 10_000;
    assert Pow10(6) == 1_000_000;
  }

  /** Through the year 9999, texts sort exactly as the instants do. */
  lemma IsoOrder(a: DateTime, b: DateTime)
    requires ValidDateTime(a) && ValidDateTime(b) && a.year <= 9999 && b.year <= 9999
    ensures TextLess(ToIso8601(a), ToIso8601(b)) <==> Micros(a) < Micros(b)
    ensures ToIso8601(a) == ToIso8601(b) ==> a == b
  {
    PiecesFormat(a, b);
    PiecesFormat(b, a);
    FormatOrder(Pieces(a), Pieces(b));
    FormatOrder(Pieces(b), Pieces(a));
    NumbersLessIsEarlier(a, b);
    NumbersLessIsEarlier(b, a);
    OrderIsMicros(a, b);
    OrderIsMicros(b, a);
    TextIrreflexive(ToIso8601(a));
  }
}
