/**
 * The date/time normaliser: `_parse_24h_to_datetime` tries three `strptime`
 * layouts on the stripped text and yields a calendar date-time or `None`;
 * `_set_datetime_field` re-renders a parsed value as `%Y-%m-%d %H:%M`.
 *
 * Fields are fixed-width and zero-padded here (strptime also takes one-digit
 * months, days, hours and minutes, and a run of whitespace for the space in a
 * layout). What is kept from strptime: the space in a layout matches one
 * whitespace character, the literal `T` matches either case, and the
 * `datetime` constructor rejects days a month does not have and years outside
 * 1..9999. `%Y` is rendered with four digits, as it is where the C library
 * pads it.
 */
module DateTime {
  import opened Wrappers
  import opened Text

  datatype DateTime = DateTime(year: int, month: int, day: int, hour: int, minute: int)

  /** Gregorian leap years, as Python's `calendar.isleap`. */
  predicate IsLeapYear(y: int)
  {
    y % 4 == 0 && (y % 100 != 0 || y % 400 == 0)
  }

  function DaysInMonth(y: int, m: int): (n: int)
    requires 1 <= m <= 12
    ensures 28 <= n <= 31
    ensures m == 2 ==> (n == 29 <==> IsLeapYear(y))
  {
    if m == 2 then (if IsLeapYear(y) then 29 else 28)
    else if m == 4 || m == 6 || m == 9 || m == 11 then 30
    else 31
  }

  /** A value Python's `datetime` accepts (seconds are always zero here). */
  predicate Valid(dt: DateTime)
  {
    && 1 <= dt.year <= 9999
    && 1 <= dt.month <= 12
    && 1 <= dt.day <= DaysInMonth(dt.year, dt.month)
    && 0 <= dt.hour <= 23
    && 0 <= dt.minute <= 59
  }

  // ---------------------------------------------------------------- digits

  predicate IsDigit(c: char)
  {
    '0' <= c <= '9'
  }

  predicate AllDigits(s: string)
  {
    forall i :: 0 <= i < |s| ==> IsDigit(s[i])
  }

  function Pow10(w: nat): (p: nat)
    ensures p >= 1
  {
    if w == 0 then 1 else 10 * Pow10(w - 1)
  }

  /** The value of a string of decimal digits. */
  function Number(s: string): (n: nat)
    requires AllDigits(s)
  {
    if s == [] then 0 else Number(s[..|s| - 1]) * 10 + (s[|s| - 1] as int - '0' as int)
  }

  /** `n` in exactly `width` decimal digits, zero-padded on the left. */
  function Padded(n: nat, width: nat): (s: string)
    requires n < Pow10(width)
  {
    if width == 0 then [] else Padded(n / 10, width - 1) + [('0' as int + n % 10) as char]
  }

  /** Reading back a padded number gives the number. */
  lemma {:induction false} NumberOfPadded(n: nat, width: nat)
    requires n < Pow10(width)
    ensures |Padded(n, width)| == width && AllDigits(Padded(n, width))
    ensures Number(Padded(n, width)) == n
  {
    if width > 0 {
      var s := Padded(n, width);
      NumberOfPadded(n / 10, width - 1);
      assert s[..|s| - 1] == Padded(n / 10, width - 1);
    }
  }

  /** Padding the value of a digit string to its own width gives the string back. */
  lemma {:induction false} PaddedOfNumber(s: string)
    requires AllDigits(s)
    ensures Number(s) < Pow10(|s|)
    ensures Padded(Number(s), |s|) == s
  {
    if s != [] {
      var init := s[..|s| - 1];
      PaddedOfNumber(init);
      var d := s[|s| - 1] as int - '0' as int;
      assert Number(s) / 10 == Number(init) && Number(s) % 10 == d;
      assert s == init + [s[|s| - 1]];
    }
  }

  // ---------------------------------------------------------------- layouts

  /** What the format character between date and time accepts. */
  datatype TimeSep = Whitespace | LetterT

  predicate SepMatches(sep: TimeSep, c: char)
  {
    match sep
    case Whitespace => IsSpace(c)
    case LetterT => c == 'T' || c == 't'
  }

  /** One strptime layout: `%Y<d>%m<d>%d<t>%H:%M`. */
  datatype Layout = Layout(dateSep: char, timeSep: TimeSep)

  /** `'%Y-%m-%d %H:%M'`, `'%Y/%m/%d %H:%M'`, `'%Y-%m-%dT%H:%M'`, tried in this order. */
  const Dashed := Layout('-', Whitespace)
  const Slashed := Layout('/', Whitespace)
  const Iso := Layout('-', LetterT)

  /** The separators some layout accepts: `d` between date fields, `c` before the time. */
  predicate Accepted(d: char, c: char)
  {
    || (d == '-' && SepMatches(Whitespace, c))
    || (d == '/' && SepMatches(Whitespace, c))
    || (d == '-' && SepMatches(LetterT, c))
  }

  /** `x`, then the separator `sep`, then `y`. */
  function Join(x: string, sep: char, y: string): string
  {
    x + [sep] + y
  }

  lemma JoinParts(x: string, sep: char, y: string)
    ensures var s := Join(x, sep, y);
      |s| == |x| + 1 + |y| && s[..|x|] == x && s[|x|] == sep && s[|x| + 1..] == y
  {
  }

  lemma SplitJoin(s: string, k: nat)
    requires k < |s|
    ensures s == Join(s[..k], s[k], s[k + 1..])
  {
  }

  /** `dt` written with date separator `d` and date/time separator `c`. */
  function Render(dt: DateTime, d: char, c: char): (s: string)
    requires Valid(dt)
  {
    Join(Join(Join(Padded(dt.year, 4), d, Padded(dt.month, 2)), d, Padded(dt.day, 2)),
         c,
         Join(Padded(dt.hour, 2), ':', Padded(dt.minute, 2)))
  }

  /** The date part `YYYY?MM?DD` of a 16-character text. */
  function DatePart(t: string): string
    requires |t| == 16
  {
    t[..10]
  }

  /** The time part `HH:MM` of a 16-character text. */
  function TimePart(t: string): string
    requires |t| == 16
  {
    t[11..]
  }

  /** `YYYY?MM` of a 16-character text. */
  function YearMonth(t: string): string
    requires |t| == 16
  {
    DatePart(t)[..7]
  }

  /** The five numeric fields of a 16-character text, in layout order. */
  function Fields(t: string): seq<string>
    requires |t| == 16
  {
    [YearMonth(t)[..4], YearMonth(t)[5..], DatePart(t)[8..], TimePart(t)[..2], TimePart(t)[3..]]
  }

  /** Every numeric field of a 16-character text is made of digits. */
  predicate DigitFields(t: string)
    requires |t| == 16
  {
    var f := Fields(t);
    AllDigits(f[0]) && AllDigits(f[1]) && AllDigits(f[2]) && AllDigits(f[3]) && AllDigits(f[4])
  }

  /** The positions of a rendered date-time. */
  lemma RenderShape(dt: DateTime, d: char, c: char)
    requires Valid(dt)
    ensures var s := Render(dt, d, c);
      && |s| == 16 && s[4] == d && s[7] == d && s[10] == c && s[13] == ':'
      && Fields(s) == [Padded(dt.year, 4), Padded(dt.month, 2), Padded(dt.day, 2),
                       Padded(dt.hour, 2), Padded(dt.minute, 2)]
      && DigitFields(s) && IsDigit(s[0]) && IsDigit(s[15])
  {
    RenderSeparators(dt, d, c);
    RenderFields(dt, d, c);
    RenderDigits(dt, d, c);
  }

  lemma PaddedFields(dt: DateTime)
    requires Valid(dt)
    ensures |Padded(dt.year, 4)| == 4 && AllDigits(Padded(dt.year, 4))
    ensures |Padded(dt.month, 2)| == 2 && AllDigits(Padded(dt.month, 2))
    ensures |Padded(dt.day, 2)| == 2 && AllDigits(Padded(dt.day, 2))
    ensures |Padded(dt.hour, 2)| == 2 && AllDigits(Padded(dt.hour, 2))
    ensures |Padded(dt.minute, 2)| == 2 && AllDigits(Padded(dt.minute, 2))
  {
    NumberOfPadded(dt.year, 4);
    NumberOfPadded(dt.month, 2);
    NumberOfPadded(dt.day, 2);
    NumberOfPadded(dt.hour, 2);
    NumberOfPadded(dt.minute, 2);
  }

  lemma RenderSeparators(dt: DateTime, d: char, c: char)
    requires Valid(dt)
    ensures var s := Render(dt, d, c);
      |s| == 16 && s[4] == d && s[7] == d && s[10] == c && s[13] == ':'
  {
    PaddedFields(dt);
    JoinShape(Padded(dt.year, 4), Padded(dt.month, 2), Padded(dt.day, 2),
              Padded(dt.hour, 2), Padded(dt.minute, 2), d, c);
  }

  lemma RenderFields(dt: DateTime, d: char, c: char)
    requires Valid(dt)
    ensures var s := Render(dt, d, c);
      |s| == 16 && Fields(s) == [Padded(dt.year, 4), Padded(dt.month, 2), Padded(dt.day, 2),
                                 Padded(dt.hour, 2), Padded(dt.minute, 2)]
  {
    PaddedFields(dt);
    JoinShape(Padded(dt.year, 4), Padded(dt.month, 2), Padded(dt.day, 2),
              Padded(dt.hour, 2), Padded(dt.minute, 2), d, c);
  }

  lemma RenderDigits(dt: DateTime, d: char, c: char)
    requires Valid(dt)
    ensures var s := Render(dt, d, c);
      |s| == 16 && DigitFields(s) && IsDigit(s[0]) && IsDigit(s[15])
  {
    PaddedFields(dt);
    RenderFields(dt, d, c);
    JoinShape(Padded(dt.year, 4), Padded(dt.month, 2), Padded(dt.day, 2),
              Padded(dt.hour, 2), Padded(dt.minute, 2), d, c);
  }

  lemma JoinShape(Y: string, M: string, D: string, H: string, N: string, d: char, c: char)
    requires |Y| == 4 && |M| == 2 && |D| == 2 && |H| == 2 && |N| == 2
    ensures var s := Join(Join(Join(Y, d, M), d, D), c, Join(H, ':', N));
      && |s| == 16 && s[4] == d && s[7] == d && s[10] == c && s[13] == ':'
      && Fields(s) == [Y, M, D, H, N] && s[0] == Y[0] && s[15] == N[1]
  {
    var ym := Join(Y, d, M);
    var date := Join(ym, d, D);
    var time := Join(H, ':', N);
    JoinParts(Y, d, M);
    JoinParts(ym, d, D);
    JoinParts(H, ':', N);
    JoinParts(date, c, time);
    var s := Join(date, c, time);
    assert DatePart(s) == date && TimePart(s) == time && YearMonth(s) == ym;
    assert s[4] == ym[4] && s[7] == date[7] && s[13] == time[2];
    assert s[0] == Y[0] && s[15] == N[1];
  }

  /** The text has the fixed shape of a layout: digits where the fields go, separators between. */
  predicate Fits(t: string, l: Layout)
  {
    && |t| == 16
    && DigitFields(t)
    && t[4] == l.dateSep && t[7] == l.dateSep && SepMatches(l.timeSep, t[10]) && t[13] == ':'
  }

  /** `datetime.strptime(t, layout)`; `None` where it raises `ValueError`. */
  function ParseLayout(t: string, l: Layout): (r: Option<DateTime>)
    ensures r.Some? ==> Valid(r.value)
  {
    if !Fits(t, l) then None
    else
      var f := Fields(t);
      var dt := DateTime(Number(f[0]), Number(f[1]), Number(f[2]), Number(f[3]), Number(f[4]));
      if Valid(dt) then Some(dt) else None
  }

  /** `_parse_24h_to_datetime`: the first layout that accepts the stripped text. */
  function Parse24h(s: string): (r: Option<DateTime>)
    ensures r.Some? ==> Valid(r.value)
  {
    var t := Strip(s);
    var dashed := ParseLayout(t, Dashed);
    if dashed.Some? then dashed
    else
      var slashed := ParseLayout(t, Slashed);
      if slashed.Some? then slashed
      else ParseLayout(t, Iso)
  }

  /** `dt.strftime('%Y-%m-%d %H:%M')`. */
  function Format(dt: DateTime): string
    requires Valid(dt)
  {
    Render(dt, '-', ' ')
  }

  /** The canonical shape: zero-padded `YYYY-MM-DD HH:MM`. */
  predicate IsCanonical(c: string)
  {
    Fits(c, Layout('-', Whitespace)) && c[10] == ' '
  }

  /** The reformatting in `_set_datetime_field`: `None` when the text does not parse. */
  function Normalize(s: string): (r: Option<string>)
    ensures r.Some? <==> Parse24h(s).Some?
  {
    match Parse24h(s)
    case None => None
    case Some(dt) => Some(Format(dt))
  }

  /** What normalising emits is always in the canonical shape. */
  lemma NormalizeShape(s: string)
    requires Normalize(s).Some?
    ensures IsCanonical(Normalize(s).value)
  {
    RenderShape(Parse24h(s).value, '-', ' ');
  }

  // ---------------------------------------------------------------- properties

  /** A layout reads back the date-time it rendered. */
  lemma ParseRender(dt: DateTime, l: Layout, c: char)
    requires Valid(dt) && SepMatches(l.timeSep, c)
    ensures ParseLayout(Render(dt, l.dateSep, c), l) == Some(dt)
  {
    var s := Render(dt, l.dateSep, c);
    RenderShape(dt, l.dateSep, c);
    assert Fits(s, l);
    var f := Fields(s);
    NumberOfPadded(dt.year, 4);
    NumberOfPadded(dt.month, 2);
    NumberOfPadded(dt.day, 2);
    NumberOfPadded(dt.hour, 2);
    NumberOfPadded(dt.minute, 2);
    assert DateTime(Number(f[0]), Number(f[1]), Number(f[2]), Number(f[3]), Number(f[4])) == dt;
  }

  /** What a layout accepts is the rendering of what it returns. */
  lemma RenderParse(t: string, l: Layout)
    requires ParseLayout(t, l).Some?
    ensures t == Render(ParseLayout(t, l).value, l.dateSep, t[10])
  {
    var dt := ParseLayout(t, l).value;
    var f := Fields(t);
    assert |f[0]| == 4 && |f[1]| == 2 && |f[2]| == 2 && |f[3]| == 2 && |f[4]| == 2;
    assert dt == DateTime(Number(f[0]), Number(f[1]), Number(f[2]), Number(f[3]), Number(f[4]));
    PaddedOfNumber(f[0]);
    PaddedOfNumber(f[1]);
    PaddedOfNumber(f[2]);
    PaddedOfNumber(f[3]);
    PaddedOfNumber(f[4]);
    SplitJoin(t, 10);
    SplitJoin(DatePart(t), 7);
    SplitJoin(YearMonth(t), 4);
    SplitJoin(TimePart(t), 2);
    assert YearMonth(t) == Join(f[0], l.dateSep, f[1]);
    assert DatePart(t) == Join(YearMonth(t), l.dateSep, f[2]);
    assert TimePart(t) == Join(f[3], ':', f[4]);
  }

  /**
   * Soundness: a parsed value names a real calendar date-time, and the
   * stripped input is that value written in one of the accepted layouts.
   */
  lemma ParseSound(s: string)
    requires Parse24h(s).Some?
    ensures var t, dt := Strip(s), Parse24h(s).value;
      && Valid(dt) && |t| == 16 && Accepted(t[4], t[10]) && t == Render(dt, t[4], t[10])
  {
    var t := Strip(s);
    if ParseLayout(t, Dashed).Some? {
      RenderParse(t, Dashed);
    } else if ParseLayout(t, Slashed).Some? {
      RenderParse(t, Slashed);
    } else {
      RenderParse(t, Iso);
    }
  }

  /**
   * Completeness: every valid date-time written in an accepted layout, with
   * any whitespace around it, parses to that date-time.
   */
  lemma ParseComplete(dt: DateTime, d: char, c: char, pre: string, post: string)
    requires Valid(dt) && Accepted(d, c) && AllSpace(pre) && AllSpace(post)
    ensures Parse24h(pre + Render(dt, d, c) + post) == Some(dt)
  {
    var x := Render(dt, d, c);
    RenderShape(dt, d, c);
    StripPadded(pre, x, post);
    if d == '-' && IsSpace(c) {
      ParseRender(dt, Dashed, c);
    } else if d == '/' {
      ParseRender(dt, Slashed, c);
    } else {
      ParseRender(dt, Iso, c);
    }
  }

  /** Normalising a normalised string returns it unchanged. */
  lemma NormalizeIdempotent(s: string)
    requires Normalize(s).Some?
    ensures Normalize(Normalize(s).value) == Normalize(s)
  {
    var dt := Parse24h(s).value;
    var t := Format(dt);
    assert Normalize(s) == Some(t);
    NormalizeCanonical(dt, [], []);
    assert [] + t + [] == t;
  }

  /** A canonical string normalises to itself exactly when it names a valid date-time. */
  lemma NormalizeCanonical(dt: DateTime, pre: string, post: string)
    requires Valid(dt) && AllSpace(pre) && AllSpace(post)
    ensures Normalize(pre + Format(dt) + post) == Some(Format(dt))
  {
    ParseComplete(dt, '-', ' ', pre, post);
  }

  /** A month name is no accepted layout. */
  lemma RejectsMonthName()
    ensures Normalize("Jan 5 2024") == None
  {
    assert !IsSpace('J') && !IsSpace('4');
    StripPadded([], "Jan 5 2024", []);
    assert [] + "Jan 5 2024" + [] == "Jan 5 2024";
  }

  lemma NumberOfTwo(a: char, b: char)
    requires IsDigit(a) && IsDigit(b)
    ensures Number([a, b]) == 10 * (a as int - '0' as int) + (b as int - '0' as int)
  {
    assert [a, b][..1] == [a];
    assert [a][..0] == [];
    assert Number([a]) == a as int - '0' as int;
  }

  lemma NumberOfFour(a: char, b: char, c: char, d: char)
    requires IsDigit(a) && IsDigit(b) && IsDigit(c) && IsDigit(d)
    ensures Number([a, b, c, d]) == 10 * Number([a, b, c]) + (d as int - '0' as int)
    ensures Number([a, b, c]) == 10 * Number([a, b]) + (c as int - '0' as int)
  {
    assert [a, b, c, d][..3] == [a, b, c];
    assert [a, b, c][..2] == [a, b];
  }

  /** February 29th is a date exactly in leap years; a leap day in any accepted layout parses. */
  lemma LeapDay(y: int, h: int, mi: int, d: char, c: char)
    requires 1 <= y <= 9999 && 0 <= h <= 23 && 0 <= mi <= 59
    ensures Valid(DateTime(y, 2, 29, h, mi)) <==> IsLeapYear(y)
    ensures IsLeapYear(y) && Accepted(d, c) ==>
      Parse24h(Render(DateTime(y, 2, 29, h, mi), d, c)) == Some(DateTime(y, 2, 29, h, mi))
  {
    var dt := DateTime(y, 2, 29, h, mi);
    if IsLeapYear(y) && Accepted(d, c) {
      ParseComplete(dt, d, c, [], []);
      assert [] + Render(dt, d, c) + [] == Render(dt, d, c);
    }
  }

  /** February 29th of a common year is not. */
  lemma NonLeapDayRejected()
    ensures Normalize("2023-02-29 08:30") == None
  {
    var t := "2023-02-29 08:30";
    StripPadded([], t, []);
    assert [] + t + [] == t;
    NonLeapDayFields();
    NumberOfFour('2', '0', '2', '3');
    NumberOfTwo('2', '0');
    NumberOfTwo('0', '2');
    NumberOfTwo('2', '9');
    assert !IsLeapYear(2023);
    assert ParseLayout(t, Dashed) == None;
  }

  lemma NonLeapDayFields()
    ensures var t := "2023-02-29 08:30";
      |t| == 16 && Fields(t)[..3] == ["2023", "02", "29"] && Fits(t, Dashed)
      && !Fits(t, Slashed) && !Fits(t, Iso)
  {
    var t := "2023-02-29 08:30";
    assert t == Join(Join(Join("2023", '-', "02"), '-', "29"), ' ', Join("08", ':', "30"));
    JoinShape("2023", "02", "29", "08", "30", '-', ' ');
  }
}
