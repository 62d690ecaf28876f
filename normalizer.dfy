/**
 * `normalize_value`: the per-cell conversion of what the database driver
 * returns into values a JSON transport can carry.
 *
 * The text forms are Python's: `str(uuid)` is 32 lower-case hexadecimal
 * digits grouped 8-4-4-4-12, and `isoformat()` writes dates as
 * `YYYY-MM-DD`, times as `HH:MM:SS`, then `.ffffff` when the microseconds
 * are not zero, then the UTC offset as `+HH:MM` / `-HH:MM` when the value
 * is aware, and date-times as the date, `T`, the time. Each text form comes
 * with a reader of exactly that canonical form; the two are proved inverse.
 *
 * The Decimal-to-float conversion stays symbolic: the float produced from a
 * decimal is the value `RoundedDecimal(d)`, standing for the nearest double.
 */
module Normalizer {
  import opened Wrappers
  import opened Numerals

  // ---------------------------------------------------------------------------
  // Values the driver hands back

  datatype Date = Date(year: nat, month: nat, day: nat)

  /** A time of day; `offset` is the UTC offset in minutes of an aware value, `None` for a naive one. */
  datatype Time = Time(hour: nat, minute: nat, second: nat, micro: nat, offset: Option<int>)

  datatype DecimalValue = Finite(coefficient: int, exponent: int) | Infinite(negative: bool) | NotANumber

  /** A double; the one made from a decimal is kept symbolic. */
  datatype FloatValue = Binary64(bits: bv64) | RoundedDecimal(source: DecimalValue)

  datatype DbValue =
    | Null
    | Bool(boolean: bool)
    | Int(integer: int)
    | Float(float: FloatValue)
    | Text(text: string)
    | Uuid(uuid: nat)
    | DateOnly(date: Date)
    | Timestamp(stampDate: Date, stampTime: Time)
    | TimeOnly(time: Time)
    | Decimal(decimal: DecimalValue)
    | Bytes(bytes: seq<bv8>)
    | Opaque(typeName: string)

  predicate IsLeap(y: nat) {
    y % 4 == 0 && (y % 100 != 0 || y % 400 == 0)
  }

  function DaysInMonth(y: nat, m: nat): (n: nat)
    requires 1 <= m <= 12
    ensures 28 <= n <= 31
  {
    if m == 2 then (if IsLeap(y) then 29 else 28)
    else if m == 4 || m == 6 || m == 9 || m == 11 then 30
    else 31
  }

  /** The dates Python's `datetime.date` can hold. */
  predicate ValidDate(d: Date) {
    1 <= d.year <= 9999 && 1 <= d.month <= 12 && 1 <= d.day <= DaysInMonth(d.year, d.month)
  }

  /** Python bounds a UTC offset strictly inside one day. */
  predicate ValidOffset(o: Option<int>) {
    o.None? || -1440 < o.value < 1440
  }

  predicate ValidTime(t: Time) {
    t.hour < 24 && t.minute < 60 && t.second < 60 && t.micro < 1000000 && ValidOffset(t.offset)
  }

  const UuidBound: nat := Pow(16, 32)

  /** Every value the driver can produce: UUIDs are 128-bit, dates and times in range. */
  predicate ValidValue(v: DbValue) {
    match v
    case Uuid(u) => u < UuidBound
    case DateOnly(d) => ValidDate(d)
    case Timestamp(d, t) => ValidDate(d) && ValidTime(t)
    case TimeOnly(t) => ValidTime(t)
    case _ => true
  }

  // ---------------------------------------------------------------------------
  // Dates

  function Two(n: nat): (s: string)
    ensures |s| == 2
  {
    FixedWidth(n, 10, 2)
  }

  /** `date.isoformat()` */
  function DateText(d: Date): (s: string)
    ensures |s| == 10 && s[4] == '-' && s[7] == '-'
  {
    FixedWidth(d.year, 10, 4) + "-" + Two(d.month) + "-" + Two(d.day)
  }

  /** Reads `YYYY-MM-DD` and accepts it only when it names a real date. */
  function ParseDate(s: string): (r: Option<Date>)
    ensures r.Some? ==> ValidDate(r.value)
  {
    if |s| != 10 || s[4] != '-' || s[7] != '-' then None
    else
      match (ParseDigits(s[..4], 10), ParseDigits(s[5..7], 10), ParseDigits(s[8..], 10))
      case (Some(y), Some(m), Some(d)) => if ValidDate(Date(y, m, d)) then Some(Date(y, m, d)) else None
      case _ => None
  }

  /** Where the pieces of `a + [sep] + b` lie. */
  lemma Joined2(a: string, sep: char, b: string)
    ensures var s := a + [sep] + b;
            |s| == |a| + 1 + |b| && s[..|a|] == a && s[|a|] == sep && s[|a| + 1..] == b
  {
  }

  /** Where the pieces of `a + [sep] + b + [sep] + c` lie. */
  lemma Joined3(a: string, b: string, c: string, sep: char)
    ensures var s := a + [sep] + b + [sep] + c;
            |s| == |a| + |b| + |c| + 2 && s[..|a|] == a && s[|a|] == sep
            && s[|a| + 1..|a| + 1 + |b|] == b && s[|a| + 1 + |b|] == sep && s[|a| + |b| + 2..] == c
  {
  }

  /** A separator at `i` splits the text into the piece before, itself and the piece after. */
  lemma Split2(s: string, i: nat, sep: char)
    requires i < |s| && s[i] == sep
    ensures s == s[..i] + [sep] + s[i + 1..]
  {
  }

  /** Two separators at `i` and `j` split the text into three pieces. */
  lemma Split3(s: string, i: nat, j: nat, sep: char)
    requires i < j < |s| && s[i] == sep && s[j] == sep
    ensures s == s[..i] + [sep] + s[i + 1..j] + [sep] + s[j + 1..]
  {
  }

  lemma DateRoundTrip(d: Date)
    requires ValidDate(d)
    ensures ParseDate(DateText(d)) == Some(d)
  {
    Joined3(FixedWidth(d.year, 10, 4), Two(d.month), Two(d.day), '-');
    DateFieldsRoundTrip(d);
    ParseDateParts(DateText(d), d);
  }

  lemma DateFieldsRoundTrip(d: Date)
    requires ValidDate(d)
    ensures ParseDigits(FixedWidth(d.year, 10, 4), 10) == Some(d.year)
    ensures ParseDigits(Two(d.month), 10) == Some(d.month) && ParseDigits(Two(d.day), 10) == Some(d.day)
  {
    assert Pow(10, 4) == 10000 && Pow(10, 2) == 100;
    FixedWidthRoundTrip(d.year, 10, 4);
    FixedWidthRoundTrip(d.month, 10, 2);
    FixedWidthRoundTrip(d.day, 10, 2);
  }

  /** The date reader succeeds on a well-shaped text whose three numbers name a valid date. */
  lemma ParseDateParts(s: string, d: Date)
    requires |s| == 10 && s[4] == '-' && s[7] == '-' && ValidDate(d)
    requires ParseDigits(s[..4], 10) == Some(d.year) && ParseDigits(s[5..7], 10) == Some(d.month)
    requires ParseDigits(s[8..], 10) == Some(d.day)
    ensures ParseDate(s) == Some(d)
  {
  }

  /** What the date reader accepts is the canonical text of the date it returns. */
  lemma DateTextCanonical(s: string, d: Date)
    requires ParseDate(s) == Some(d)
    ensures DateText(d) == s
  {
    ParseDateInverse(s, d);
    DateFromFields(s[..4], s[5..7], s[8..], d);
    Split3(s, 4, 7, '-');
  }

  /** A date the reader accepts came from a well-shaped text whose three numbers are its fields. */
  lemma ParseDateInverse(s: string, d: Date)
    requires ParseDate(s) == Some(d)
    ensures |s| == 10 && s[4] == '-' && s[7] == '-'
    ensures ParseDigits(s[..4], 10) == Some(d.year) && ParseDigits(s[5..7], 10) == Some(d.month)
    ensures ParseDigits(s[8..], 10) == Some(d.day)
  {
  }

  /** Digit strings of the widths `date.isoformat()` uses that read as a date's fields are its canonical pieces. */
  lemma DateFromFields(y: string, m: string, dd: string, d: Date)
    requires |y| == 4 && |m| == 2 && |dd| == 2
    requires ParseDigits(y, 10) == Some(d.year) && ParseDigits(m, 10) == Some(d.month)
    requires ParseDigits(dd, 10) == Some(d.day)
    ensures DateText(d) == y + "-" + m + "-" + dd
  {
    ParsedDigitsRender(y, 10, d.year);
    ParsedDigitsRender(m, 10, d.month);
    ParsedDigitsRender(dd, 10, d.day);
  }

  // ---------------------------------------------------------------------------
  // Times

  function Abs(i: int): nat {
    if i < 0 then -i else i
  }

  /** `HH:MM:SS` */
  function ClockText(h: nat, m: nat, sec: nat): (s: string)
    ensures |s| == 8 && s[2] == ':' && s[5] == ':'
  {
    Two(h) + ":" + Two(m) + ":" + Two(sec)
  }

  /** `.ffffff`, present only when there are microseconds. */
  function FractionText(us: nat): (s: string)
    ensures s == [] <==> us == 0
    ensures s != [] ==> |s| == 7 && s[0] == '.'
  {
    if us == 0 then "" else "." + FixedWidth(us, 10, 6)
  }

  /** `+HH:MM` or `-HH:MM` for an aware time, nothing for a naive one. */
  function OffsetText(o: Option<int>): (s: string)
    ensures s == [] <==> o.None?
    ensures s != [] ==> |s| == 6 && (s[0] == '+' || s[0] == '-') && s[3] == ':'
  {
    match o
    case None => ""
    case Some(m) => (if m < 0 then "-" else "+") + Two(Abs(m) / 60) + ":" + Two(Abs(m) % 60)
  }

  /** What follows the clock: the fraction, then the offset. */
  function TailText(us: nat, o: Option<int>): string {
    FractionText(us) + OffsetText(o)
  }

  /** `time.isoformat()` */
  function TimeText(t: Time): (s: string)
    ensures |s| >= 8
  {
    ClockText(t.hour, t.minute, t.second) + TailText(t.micro, t.offset)
  }

  function ParseClock(s: string): (r: Option<(nat, nat, nat)>)
    ensures r.Some? ==> r.value.0 < 24 && r.value.1 < 60 && r.value.2 < 60
  {
    if |s| != 8 || s[2] != ':' || s[5] != ':' then None
    else
      match (ParseDigits(s[..2], 10), ParseDigits(s[3..5], 10), ParseDigits(s[6..], 10))
      case (Some(h), Some(m), Some(sec)) => if h < 24 && m < 60 && sec < 60 then Some((h, m, sec)) else None
      case _ => None
  }

  function ParseFraction(s: string): (r: Option<nat>)
    ensures r.Some? ==> r.value < 1000000
  {
    if s == [] then Some(0)
    else if |s| != 7 || s[0] != '.' then None
    else
      match ParseDigits(s[1..], 10)
      case Some(us) =>
        FixedWidthValueBound(s[1..]);
        if us != 0 then Some(us) else None
      case None => None
  }

  function ParseOffset(s: string): (r: Option<Option<int>>)
    ensures r.Some? ==> ValidOffset(r.value)
  {
    if s == [] then Some(None)
    else if |s| != 6 || (s[0] != '+' && s[0] != '-') || s[3] != ':' then None
    else
      match (ParseDigits(s[1..3], 10), ParseDigits(s[4..], 10))
      case (Some(hh), Some(mm)) =>
        var total: int := hh * 60 + mm;
        if mm >= 60 || total >= 1440 then None
        else if s[0] == '-' then (if total > 0 then Some(Some(-total)) else None)
        else Some(Some(total))
      case _ => None
  }

  /** Where the fraction ends: after `.` and six digits when a `.` follows the clock. */
  function FractionEnd(rest: string): (k: nat)
    ensures k <= |rest|
  {
    if rest != [] && rest[0] == '.' then (if |rest| < 7 then |rest| else 7) else 0
  }

  /** Reads the canonical `time.isoformat()` text. */
  function ParseTime(s: string): (r: Option<Time>)
    ensures r.Some? ==> ValidTime(r.value)
  {
    if |s| < 8 then None
    else
      var rest := s[8..];
      var k := FractionEnd(rest);
      match (ParseClock(s[..8]), ParseFraction(rest[..k]), ParseOffset(rest[k..]))
      case (Some(c), Some(us), Some(o)) => Some(Time(c.0, c.1, c.2, us, o))
      case _ => None
  }

  lemma FixedWidthValueBound(s: string)
    requires |s| == 6 && AllDigitsIn(s, 10)
    ensures ValueOf(s, 10) < 1000000
  {
    ValueOfBound(s, 10);
    assert Pow(10, 6) == 1000000;
  }

  lemma ClockRoundTrip(h: nat, m: nat, sec: nat)
    requires h < 24 && m < 60 && sec < 60
    ensures ParseClock(ClockText(h, m, sec)) == Some((h, m, sec))
  {
    var a, b, c := Two(h), Two(m), Two(sec);
    var s := ClockText(h, m, sec);
    Joined2(a, ':', b + ":" + c);
    Joined2(b, ':', c);
    assert s == a + ":" + (b + ":" + c);
    assert s[..2] == a && s[3..] == b + ":" + c;
    assert s[3..5] == b && s[6..] == c;
    assert Pow(10, 2) == 100;
    FixedWidthRoundTrip(h, 10, 2);
    FixedWidthRoundTrip(m, 10, 2);
    FixedWidthRoundTrip(sec, 10, 2);
  }

  lemma FractionRoundTrip(us: nat)
    requires us < 1000000
    ensures ParseFraction(FractionText(us)) == Some(us)
  {
    if us != 0 {
      assert Pow(10, 6) == 1000000;
      FixedWidthRoundTrip(us, 10, 6);
      assert FractionText(us)[1..] == FixedWidth(us, 10, 6);
    }
  }

  /** Where the pieces of an offset text lie. */
  lemma OffsetLayout(sign: string, a: string, b: string)
    requires |sign| == 1 && |a| == 2 && |b| == 2
    ensures var s := sign + a + ":" + b;
            |s| == 6 && s[0] == sign[0] && s[1..3] == a && s[3] == ':' && s[4..] == b
  {
  }

  /** Minutes as whole hours and remaining minutes. */
  lemma MinutesSplit(a: nat)
    ensures (a / 60) * 60 + a % 60 == a && a % 60 < 60
    ensures a < 1440 ==> a / 60 < 24
  {
  }

  lemma OffsetRoundTrip(o: Option<int>)
    requires ValidOffset(o)
    ensures ParseOffset(OffsetText(o)) == Some(o)
  {
    if o.Some? {
      MinutesRoundTrip(o.value);
    }
  }

  lemma MinutesRoundTrip(m: int)
    requires -1440 < m < 1440
    ensures ParseOffset(OffsetText(Some(m))) == Some(Some(m))
  {
    var hh, mm := Abs(m) / 60, Abs(m) % 60;
    OffsetArith(m, hh, mm);
    OffsetDigitsRoundTrip(m, hh, mm);
    ParseOffsetOf(OffsetText(Some(m)), hh, mm, m);
  }

  /** The offset reader gives back the signed minutes that a well-shaped text's sign and numbers stand for. */
  lemma ParseOffsetOf(s: string, hh: nat, mm: nat, m: int)
    requires |s| == 6 && (s[0] == '+' || s[0] == '-') && s[3] == ':'
    requires ParseDigits(s[1..3], 10) == Some(hh) && ParseDigits(s[4..], 10) == Some(mm)
    requires mm < 60 && hh * 60 + mm < 1440 && (s[0] == '-' <==> m < 0)
    requires m < 0 ==> hh * 60 + mm > 0 && -(hh * 60 + mm) == m
    requires m >= 0 ==> hh * 60 + mm == m
    ensures ParseOffset(s) == Some(Some(m))
  {
    ParseOffsetParts(s, hh, mm);
  }

  /** An offset in minutes, written as hours and minutes, gives back the same signed minutes. */
  lemma OffsetArith(m: int, hh: nat, mm: nat)
    requires -1440 < m < 1440 && hh == Abs(m) / 60 && mm == Abs(m) % 60
    ensures hh < 24 && mm < 60 && hh * 60 + mm < 1440
    ensures m < 0 ==> hh * 60 + mm > 0 && -(hh * 60 + mm) == m
    ensures m >= 0 ==> hh * 60 + mm == m
  {
    MinutesSplit(Abs(m));
  }

  /** The two numbers of an offset text read back as the hours and minutes written. */
  lemma OffsetDigitsRoundTrip(m: int, hh: nat, mm: nat)
    requires hh == Abs(m) / 60 && mm == Abs(m) % 60 && hh < 24 && mm < 60
    ensures var s := OffsetText(Some(m));
            |s| == 6 && (s[0] == '-' <==> m < 0) && (s[0] == '+' || s[0] == '-') && s[3] == ':'
            && ParseDigits(s[1..3], 10) == Some(hh) && ParseDigits(s[4..], 10) == Some(mm)
  {
    var sign := if m < 0 then "-" else "+";
    OffsetLayout(sign, Two(hh), Two(mm));
    assert Pow(10, 2) == 100;
    FixedWidthRoundTrip(hh, 10, 2);
    FixedWidthRoundTrip(mm, 10, 2);
  }

  /** The offset reader on a well-shaped text whose two numbers have been read. */
  lemma ParseOffsetParts(s: string, hh: nat, mm: nat)
    requires |s| == 6 && (s[0] == '+' || s[0] == '-') && s[3] == ':'
    requires ParseDigits(s[1..3], 10) == Some(hh) && ParseDigits(s[4..], 10) == Some(mm)
    ensures ParseOffset(s) ==
            if mm >= 60 || hh * 60 + mm >= 1440 then None
            else if s[0] == '-' then (if hh * 60 + mm > 0 then Some(Some(-(hh * 60 + mm))) else None)
            else Some(Some(hh * 60 + mm))
  {
  }

  lemma TimeRoundTrip(t: Time)
    requires ValidTime(t)
    ensures ParseTime(TimeText(t)) == Some(t)
  {
    TimeTextParts(t);
    ClockRoundTrip(t.hour, t.minute, t.second);
    TailRoundTrip(t.micro, t.offset);
    ParseTimeParts(TimeText(t), t);
  }

  lemma TimeTextParts(t: Time)
    ensures TimeText(t)[..8] == ClockText(t.hour, t.minute, t.second)
    ensures TimeText(t)[8..] == TailText(t.micro, t.offset)
  {
    Joined(ClockText(t.hour, t.minute, t.second), TailText(t.micro, t.offset));
  }

  /** What follows the clock reads back as the microseconds and the offset it was made from. */
  lemma TailRoundTrip(us: nat, o: Option<int>)
    requires us < 1000000 && ValidOffset(o)
    ensures var rest := TailText(us, o);
            ParseFraction(rest[..FractionEnd(rest)]) == Some(us) && ParseOffset(rest[FractionEnd(rest)..]) == Some(o)
  {
    FractionThenOffset(us, o);
    FractionRoundTrip(us);
    OffsetRoundTrip(o);
  }

  /** The time reader succeeds when each of its three parts does. */
  lemma ParseTimeParts(s: string, t: Time)
    requires |s| >= 8 && ParseClock(s[..8]) == Some((t.hour, t.minute, t.second))
    requires ParseFraction(s[8..][..FractionEnd(s[8..])]) == Some(t.micro)
    requires ParseOffset(s[8..][FractionEnd(s[8..])..]) == Some(t.offset)
    ensures ParseTime(s) == Some(t)
  {
  }

  lemma Joined(a: string, b: string)
    ensures (a + b)[..|a|] == a && (a + b)[|a|..] == b
  {
  }

  /** After the clock, the fraction (if any) is found first and the offset after it. */
  lemma FractionThenOffset(us: nat, o: Option<int>)
    ensures var f := FractionText(us);
            FractionEnd(f + OffsetText(o)) == |f| && (f + OffsetText(o))[..|f|] == f && (f + OffsetText(o))[|f|..] == OffsetText(o)
  {
    Joined(FractionText(us), OffsetText(o));
  }

  lemma ClockCanonical(s: string, h: nat, m: nat, sec: nat)
    requires ParseClock(s) == Some((h, m, sec))
    ensures ClockText(h, m, sec) == s
  {
    ParsedDigitsRender(s[..2], 10, h);
    ParsedDigitsRender(s[3..5], 10, m);
    ParsedDigitsRender(s[6..], 10, sec);
    Split2(s, 2, ':');
    Split2(s[3..], 2, ':');
    assert s[3..][..2] == s[3..5] && s[3..][3..] == s[6..];
  }

  lemma FractionCanonical(s: string, us: nat)
    requires ParseFraction(s) == Some(us)
    ensures FractionText(us) == s
  {
    if s != [] {
      ParsedDigitsRender(s[1..], 10, us);
      assert s == "." + s[1..];
    }
  }

  lemma OffsetCanonical(s: string, o: Option<int>)
    requires ParseOffset(s) == Some(o)
    ensures OffsetText(o) == s
  {
    if s != [] {
      var hh, mm := ValueOf(s[1..3], 10), ValueOf(s[4..], 10);
      assert ParseDigits(s[1..3], 10) == Some(hh) && ParseDigits(s[4..], 10) == Some(mm);
      ParsedDigitsRender(s[1..3], 10, hh);
      ParsedDigitsRender(s[4..], 10, mm);
      OffsetValue(s, o.value, hh, mm);
      var sign := if o.value < 0 then "-" else "+";
      OffsetLayout(sign, Two(hh), Two(mm));
      OffsetFromLayout(s);
    }
  }

  lemma OffsetFromLayout(s: string)
    requires |s| == 6 && s[3] == ':'
    ensures s == [s[0]] + s[1..3] + ":" + s[4..]
  {
  }

  /** The minutes an offset text stands for, split back into its hours and minutes, and its sign. */
  lemma OffsetValue(s: string, m: int, hh: nat, mm: nat)
    requires ParseOffset(s) == Some(Some(m))
    requires ParseDigits(s[1..3], 10) == Some(hh) && ParseDigits(s[4..], 10) == Some(mm)
    ensures Abs(m) / 60 == hh && Abs(m) % 60 == mm
    ensures m < 0 <==> s[0] == '-'
  {
    ParseOffsetParts(s, hh, mm);
    DivModUnique(hh, 60, mm);
  }

  /** A time the reader accepts came from three accepted parts. */
  lemma ParseTimeInverse(s: string, t: Time)
    requires ParseTime(s) == Some(t)
    ensures |s| >= 8 && ParseClock(s[..8]) == Some((t.hour, t.minute, t.second))
    ensures ParseFraction(s[8..][..FractionEnd(s[8..])]) == Some(t.micro)
    ensures ParseOffset(s[8..][FractionEnd(s[8..])..]) == Some(t.offset)
  {
  }

  /** What the time reader accepts is the canonical text of the time it returns. */
  lemma TimeTextCanonical(s: string, t: Time)
    requires ParseTime(s) == Some(t)
    ensures TimeText(t) == s
  {
    ParseTimeInverse(s, t);
    var k := FractionEnd(s[8..]);
    TimeFromParts(s[..8], s[8..][..k], s[8..][k..], t);
    SplitTwice(s, 8, k);
  }

  lemma SplitTwice(s: string, i: nat, k: nat)
    requires i <= |s| && k <= |s| - i
    ensures s == s[..i] + (s[i..][..k] + s[i..][k..])
  {
    assert s[i..] == s[i..][..k] + s[i..][k..];
  }

  /** Texts that read as a time's clock, fraction and offset are its canonical pieces. */
  lemma TimeFromParts(clock: string, fraction: string, offset: string, t: Time)
    requires ParseClock(clock) == Some((t.hour, t.minute, t.second))
    requires ParseFraction(fraction) == Some(t.micro) && ParseOffset(offset) == Some(t.offset)
    ensures TimeText(t) == clock + (fraction + offset)
  {
    ClockCanonical(clock, t.hour, t.minute, t.second);
    FractionCanonical(fraction, t.micro);
    OffsetCanonical(offset, t.offset);
  }

  // ---------------------------------------------------------------------------
  // Date-times

  /** `datetime.isoformat()`: the date, `T`, the time. */
  function DateTimeText(d: Date, t: Time): string {
    DateText(d) + "T" + TimeText(t)
  }

  function ParseDateTime(s: string): (r: Option<(Date, Time)>)
    ensures r.Some? ==> ValidDate(r.value.0) && ValidTime(r.value.1)
  {
    if |s| < 11 || s[10] != 'T' then None
    else
      match (ParseDate(s[..10]), ParseTime(s[11..]))
      case (Some(d), Some(t)) => Some((d, t))
      case _ => None
  }

  lemma DateTimeRoundTrip(d: Date, t: Time)
    requires ValidDate(d) && ValidTime(t)
    ensures ParseDateTime(DateTimeText(d, t)) == Some((d, t))
  {
    Joined2(DateText(d), 'T', TimeText(t));
    DateRoundTrip(d);
    TimeRoundTrip(t);
  }

  /** What the date-time reader accepts is the canonical text of the value it returns. */
  lemma DateTimeTextCanonical(s: string, d: Date, t: Time)
    requires ParseDateTime(s) == Some((d, t))
    ensures DateTimeText(d, t) == s
  {
    assert ParseDate(s[..10]) == Some(d) && ParseTime(s[11..]) == Some(t);
    DateTextCanonical(s[..10], d);
    TimeTextCanonical(s[11..], t);
    Split2(s, 10, 'T');
  }

  // ---------------------------------------------------------------------------
  // UUIDs

  /** Python's `'%s-%s-%s-%s-%s'` over the hexadecimal digit groups `[:8]`, `[8:12]`, `[12:16]`, `[16:20]`, `[20:]`. */
  function Dashed(h: string): (s: string)
    requires |h| == 32
    ensures |s| == 36
  {
    h[..8] + "-" + (h[8..12] + "-" + (h[12..16] + "-" + (h[16..20] + "-" + h[20..])))
  }

  /** `str(uuid)`: `%032x` of the 128-bit value, dashed. */
  function UuidText(u: nat): (s: string)
    ensures |s| == 36
  {
    Dashed(FixedWidth(u, 16, 32))
  }

  /** The 32 hexadecimal digits of a 36-character UUID text, dashes removed. */
  function UuidDigits(s: string): (h: string)
    requires |s| == 36
    ensures |h| == 32
  {
    s[..8] + (s[9..13] + (s[14..18] + (s[19..23] + s[24..])))
  }

  predicate DashesInPlace(s: string) {
    |s| == 36 && s[8] == '-' && s[13] == '-' && s[18] == '-' && s[23] == '-'
  }

  /** Reads the canonical UUID text: lower-case hexadecimal, dashes in place. */
  function ParseUuid(s: string): (r: Option<nat>)
    ensures r.Some? ==> r.value < UuidBound
  {
    if !DashesInPlace(s) then None
    else
      match ParseDigits(UuidDigits(s), 16)
      case Some(u) =>
        ValueOfBound(UuidDigits(s), 16);
        Some(u)
      case None => None
  }

  lemma DashedLayout(h: string)
    requires |h| == 32
    ensures DashesInPlace(Dashed(h)) && UuidDigits(Dashed(h)) == h
  {
    var g1, g2, g3, g4, g5 := h[..8], h[8..12], h[12..16], h[16..20], h[20..];
    GroupsLayout(g1, g2, g3, g4, g5);
    assert h == g1 + (g2 + (g3 + (g4 + g5)));
  }

  /** Where the five groups of a dashed text lie. */
  lemma GroupsLayout(g1: string, g2: string, g3: string, g4: string, g5: string)
    requires |g1| == 8 && |g2| == 4 && |g3| == 4 && |g4| == 4 && |g5| == 12
    ensures var s := g1 + "-" + (g2 + "-" + (g3 + "-" + (g4 + "-" + g5)));
            DashesInPlace(s) && s[..8] == g1 && s[9..13] == g2 && s[14..18] == g3 && s[19..23] == g4 && s[24..] == g5
  {
    var r4 := g4 + "-" + g5;
    var r3 := g3 + "-" + r4;
    var r2 := g2 + "-" + r3;
    Joined2(g4, '-', g5);
    Joined2(g3, '-', r4);
    Joined2(g2, '-', r3);
    Joined2(g1, '-', r2);
  }

  lemma UndashedLayout(s: string)
    requires DashesInPlace(s)
    ensures Dashed(UuidDigits(s)) == s
  {
    var h := UuidDigits(s);
    var g1, g2, g3, g4, g5 := s[..8], s[9..13], s[14..18], s[19..23], s[24..];
    Joined(g1, g2 + (g3 + (g4 + g5)));
    Joined(g2, g3 + (g4 + g5));
    Joined(g3, g4 + g5);
    Joined(g4, g5);
    assert h[..8] == g1 && h[8..] == g2 + (g3 + (g4 + g5));
    assert h[8..12] == g2 && h[12..] == g3 + (g4 + g5);
    assert h[12..16] == g3 && h[16..] == g4 + g5;
    assert h[16..20] == g4 && h[20..] == g5;
    Split2(s, 8, '-');
    Split2(s[9..], 4, '-');
    Split2(s[14..], 4, '-');
    Split2(s[19..], 4, '-');
    assert s[9..][..4] == g2 && s[9..][5..] == s[14..];
    assert s[14..][..4] == g3 && s[14..][5..] == s[19..];
    assert s[19..][..4] == g4 && s[19..][5..] == g5;
  }

  lemma UuidRoundTrip(u: nat)
    requires u < UuidBound
    ensures ParseUuid(UuidText(u)) == Some(u)
  {
    DashedLayout(FixedWidth(u, 16, 32));
    FixedWidthRoundTrip(u, 16, 32);
  }

  /** What the UUID reader accepts is the canonical text of the value it returns. */
  lemma UuidTextCanonical(s: string, u: nat)
    requires ParseUuid(s) == Some(u)
    ensures UuidText(u) == s
  {
    ParsedDigitsRender(UuidDigits(s), 16, u);
    UndashedLayout(s);
  }

  // ---------------------------------------------------------------------------
  // The normaliser

  /** Values a JSON encoder carries as they are: null, booleans, numbers, strings. */
  predicate IsTransportSafe(v: DbValue) {
    v.Null? || v.Bool? || v.Int? || v.Float? || v.Text?
  }

  /**
   * `normalize_value`: a UUID becomes its text, a date, date-time or time its
   * ISO text, a Decimal a float; every other value comes back as it was.
   */
  function Normalize(v: DbValue): (r: DbValue)
    ensures v.Uuid? || v.DateOnly? || v.Timestamp? || v.TimeOnly? ==> r.Text?
    ensures v.Decimal? ==> r.Float? && r.float.RoundedDecimal? && r.float.source == v.decimal
    ensures !(v.Uuid? || v.DateOnly? || v.Timestamp? || v.TimeOnly? || v.Decimal?) ==> r == v
  {
    match v
    case Uuid(u) => Text(UuidText(u))
    case DateOnly(d) => Text(DateText(d))
    case Timestamp(d, t) => Text(DateTimeText(d, t))
    case TimeOnly(t) => Text(TimeText(t))
    case Decimal(x) => Float(RoundedDecimal(x))
    case _ => v
  }

  /** The text a UUID, date, date-time or time is turned into reads back as that very value. */
  lemma NormalizeReadsBack(v: DbValue)
    requires ValidValue(v)
    ensures v.Uuid? ==> ParseUuid(Normalize(v).text) == Some(v.uuid)
    ensures v.DateOnly? ==> ParseDate(Normalize(v).text) == Some(v.date)
    ensures v.Timestamp? ==> ParseDateTime(Normalize(v).text) == Some((v.stampDate, v.stampTime))
    ensures v.TimeOnly? ==> ParseTime(Normalize(v).text) == Some(v.time)
  {
    match v
    case Uuid(u) => UuidRoundTrip(u);
    case DateOnly(d) => DateRoundTrip(d);
    case Timestamp(d, t) => DateTimeRoundTrip(d, t);
    case TimeOnly(t) => TimeRoundTrip(t);
    case _ =>
  }

  /** Normalising twice is normalising once. */
  lemma NormalizeIdempotent(v: DbValue)
    ensures Normalize(Normalize(v)) == Normalize(v)
  {
  }

  /** The output is transport-safe exactly when the input is neither raw bytes nor a value of a type the normaliser does not know. */
  lemma NormalizeTransportSafe(v: DbValue)
    ensures IsTransportSafe(Normalize(v)) <==> !(v.Bytes? || v.Opaque?)
  {
  }

  /** A value already transport-safe is left alone. */
  lemma NormalizeKeepsScalars(v: DbValue)
    requires IsTransportSafe(v)
    ensures Normalize(v) == v
  {
  }
}
