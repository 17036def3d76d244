/**
 * The text form of dates in the data file and of month keys:
 * `strftime("%Y-%m-%d")`, `strftime("%Y-%m")` and `strptime(s, "%Y-%m-%d")`.
 * `strptime` accepts exactly four digits for the year, the month as one or two
 * digits (1..12, optionally zero-padded), and the day as one or two digits or
 * a space followed by one digit; the text must end after the day, and the
 * resulting date must exist.
 */
module DateText {
  import opened Results
  import opened Calendar

  predicate IsDigit(c: char)
  {
    '0' <= c <= '9'
  }

  predicate AllDigits(s: string)
  {
    forall i | 0 <= i < |s| :: IsDigit(s[i])
  }

  function DigitValue(c: char): int
    requires IsDigit(c)
  {
    c as int - '0' as int
  }

  function DigitChar(n: int): (c: char)
    requires 0 <= n <= 9
    ensures IsDigit(c) && DigitValue(c) == n
  {
    ('0' as int + n) as char
  }

  function Pow10(n: nat): (p: nat)
    ensures p >= 1
  {
    if n == 0 then 1 else 10 * Pow10(n - 1)
  }

  /** The value of a string of decimal digits. */
  function Number(s: string): (n: int)
    requires AllDigits(s)
    ensures 0 <= n < Pow10(|s|)
  {
    if s == [] then 0 else Number(s[..|s| - 1]) * 10 + DigitValue(s[|s| - 1])
  }

  /** `n` zero-padded to exactly `width` digits; reading it back gives `n`. */
  function Padded(n: int, width: nat): (s: string)
    requires 0 <= n < Pow10(width)
    ensures |s| == width && AllDigits(s)
    ensures Number(s) == n
  {
    if width == 0 then []
    else
      var init := Padded(n / 10, width - 1);
      var s := init + [DigitChar(n % 10)];
      assert s[..|s| - 1] == init;
      s
  }

  /** Digit strings are their own zero-padded spelling. */
  lemma {:induction false} PaddedNumber(s: string)
    requires AllDigits(s)
    ensures Padded(Number(s), |s|) == s
    decreases |s|
  {
    if s != [] {
      var init, last := s[..|s| - 1], s[|s| - 1];
      assert AllDigits(init);
      var n := Number(s);
      assert n == Number(init) * 10 + DigitValue(last);
      assert n / 10 == Number(init) && n % 10 == DigitValue(last);
      PaddedNumber(init);
      assert DigitChar(DigitValue(last)) == last;
      assert s == init + [last];
    }
  }

  /** `strftime("%Y-%m-%d")`: the year padded to four digits, month and day to two. */
  function FormatDate(d: CalDate): (s: string)
    ensures |s| == 10
  {
    Padded(d.year, 4) + "-" + Padded(d.month, 2) + "-" + Padded(d.day, 2)
  }

  /** `strftime("%Y-%m")`: the bucket key as text. */
  function MonthKeyText(k: YearMonth): (s: string)
    requires 0 <= k.year <= MaxYear && ValidMonth(k)
    ensures |s| == 7
  {
    Padded(k.year, 4) + "-" + Padded(k.month, 2)
  }

  /** The month key text is the date text up to the month, and distinct months have distinct texts. */
  lemma MonthKeyTextOfDate(d: CalDate, j: YearMonth)
    requires 0 <= j.year <= MaxYear && ValidMonth(j)
    ensures FormatDate(d)[..7] == MonthKeyText(MonthOf(d))
    ensures MonthKeyText(j) == MonthKeyText(MonthOf(d)) <==> j == MonthOf(d)
  {
    var k := MonthOf(d);
    if MonthKeyText(j) == MonthKeyText(k) {
      assert MonthKeyText(j)[..4] == Padded(j.year, 4);
      assert MonthKeyText(k)[..4] == Padded(k.year, 4);
      assert MonthKeyText(j)[5..] == Padded(j.month, 2);
      assert MonthKeyText(k)[5..] == Padded(k.month, 2);
    }
  }

  /** `%m`: `1[0-2]|0[1-9]|[1-9]`. */
  predicate MonthToken(t: string)
  {
    || (|t| == 1 && '1' <= t[0] <= '9')
    || (|t| == 2 && ((t[0] == '0' && '1' <= t[1] <= '9') || (t[0] == '1' && '0' <= t[1] <= '2')))
  }

  /** `%d`: `3[01]|[12]\d|0[1-9]|[1-9]| [1-9]`. */
  predicate DayToken(t: string)
  {
    || (|t| == 1 && '1' <= t[0] <= '9')
    || (|t| == 2 && TwoCharDay(t[0], t[1]))
  }

  predicate TwoCharDay(c: char, d: char)
  {
    || (c == '0' && '1' <= d <= '9')
    || ((c == '1' || c == '2') && IsDigit(d))
    || (c == '3' && (d == '0' || d == '1'))
    || (c == ' ' && '1' <= d <= '9')
  }

  /** The number a month or day token stands for; a leading space counts as nothing. */
  function TokenValue(t: string): (n: int)
    requires MonthToken(t) || DayToken(t)
    ensures 1 <= n <= 31
    ensures MonthToken(t) ==> n <= 12
    ensures t[0] != ' ' ==> AllDigits(t) && n == Number(t)
  {
    if |t| == 1 then DigitValue(t[0])
    else if t[0] == ' ' then DigitValue(t[1])
    else
      assert t[..1][..0] == [];
      assert t[..1] == [t[0]];
      10 * DigitValue(t[0]) + DigitValue(t[1])
  }

  /** Two zero-padded digits. */
  lemma PaddedTwo(n: int)
    requires 0 <= n < 100
    ensures Padded(n, 2) == [DigitChar(n / 10), DigitChar(n % 10)]
  {
    assert Padded(n / 10, 1) == Padded(n / 10 / 10, 0) + [DigitChar(n / 10 % 10)];
  }

  /**
   * Where the month token ends: the month token is one or two characters and
   * is followed by '-', which no token contains, so at most one split can
   * succeed. Zero means neither can.
   */
  function MonthLength(rest: string): nat
  {
    if |rest| >= 2 && rest[1] == '-' then 1
    else if |rest| >= 3 && rest[2] == '-' then 2
    else 0
  }

  /** `strptime(s, "%Y-%m-%d")`, `None` where it raises `ValueError`. */
  function ParseDate(s: string): (r: Option<CalDate>)
    ensures r.Some? ==> 8 <= |s| <= 10 && s[4] == '-' && AllDigits(s[..4]) && r.value.year == Number(s[..4])
  {
    if |s| < 5 || !AllDigits(s[..4]) || s[4] != '-' then None
    else
      var rest := s[5..];
      var split := MonthLength(rest);
      if split == 0 then None
      else
        var monthText, dayText := rest[..split], rest[split + 1..];
        if !MonthToken(monthText) || !DayToken(dayText) then None
        else
          var d := Date(Number(s[..4]), TokenValue(monthText), TokenValue(dayText));
          if Valid(d) then Some(d) else None
  }

  /** Formatting a date and parsing the text back gives the same date. */
  lemma ParseFormat(d: CalDate)
    ensures ParseDate(FormatDate(d)) == Some(d)
  {
    PaddedToken(d.month);
    PaddedToken(d.day);
    ParseOfParts(Padded(d.year, 4), Padded(d.month, 2), Padded(d.day, 2));
  }

  /** A zero-padded month or day number is a token that stands for that number. */
  lemma PaddedToken(n: int)
    requires 1 <= n <= 31
    ensures DayToken(Padded(n, 2)) && TokenValue(Padded(n, 2)) == n
    ensures n <= 12 ==> MonthToken(Padded(n, 2))
  {
    PaddedTwo(n);
  }

  /** How `strptime` reads a text built from a year, a two-character month token and a day token. */
  lemma ParseOfParts(year: string, monthText: string, dayText: string)
    requires |year| == 4 && AllDigits(year)
    requires |monthText| == 2 && MonthToken(monthText) && DayToken(dayText)
    ensures var d := Date(Number(year), TokenValue(monthText), TokenValue(dayText));
            ParseDate(year + "-" + monthText + "-" + dayText) == if Valid(d) then Some(d) else None
  {
    var s := year + "-" + monthText + "-" + dayText;
    assert s[..4] == year && s[4] == '-';
    var rest := s[5..];
    assert rest == monthText + "-" + dayText;
    assert MonthLength(rest) == 2;
    assert rest[..2] == monthText && rest[3..] == dayText;
  }

  /**
   * The converse: a ten-character text `strptime` accepts, whose day is not
   * written with a leading space, is the formatted text of the date it denotes.
   */
  lemma FormatParse(s: string)
    requires ParseDate(s).Some? && |s| == 10 && s[8] != ' '
    ensures FormatDate(ParseDate(s).value) == s
  {
    var rest := s[5..];
    assert MonthLength(rest) == 2;
    var monthText, dayText := rest[..2], rest[3..];
    assert |dayText| == 2 && dayText[0] == s[8];
    assert s == s[..4] + "-" + monthText + "-" + dayText;
    PaddedNumber(s[..4]);
    PaddedNumber(monthText);
    PaddedNumber(dayText);
  }
}
