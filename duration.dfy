/** `format_seconds`: a number of seconds rendered the way Python's
    `str(timedelta(seconds=int(x)))` does ("H:MM:SS", preceded by
    "D day, " or "D days, " when the whole-day count is not zero), and
    "N/A" for a missing value. */
module Duration {

  import opened Wrappers
  import opened Text

  const SecondsPerDay: int := 86400

  /** Python's `int(x)` on a float: truncation toward zero. */
  function Trunc(x: real): (i: int)
    ensures x >= 0.0 ==> i >= 0 && i as real <= x < i as real + 1.0
    ensures x < 0.0 ==> i <= 0 && i as real - 1.0 < x <= i as real
  {
    if x >= 0.0 then x.Floor else -((-x).Floor)
  }

  /** `%02d` for a value below 100. */
  function Pad2(k: nat): (s: string)
    requires k < 100
    ensures |s| == 2 && AllDigits(s)
  {
    if k < 10 then "0" + NatToString(k) else NatToString(k / 10) + NatToString(k % 10)
  }

  /** "H:MM:SS" for a second-of-day. */
  function Clock(secs: nat): string
    requires secs < SecondsPerDay
  {
    NatToString(secs / 3600) + ":" + Pad2(secs % 3600 / 60) + ":" + Pad2(secs % 60)
  }

  /** "D day, " / "D days, " (plural unless |D| == 1), nothing for zero days. */
  function DayPrefix(days: int): string {
    if days == 0 then ""
    else IntToString(days) + (if days == 1 || days == -1 then " day, " else " days, ")
  }

  /** `str(timedelta(seconds=n))`: whole days are floor(n / 86400), so a
      negative count shows as "-1 day, 23:59:55". */
  function FormatDuration(n: int): string {
    DayPrefix(n / SecondsPerDay) + Clock(n % SecondsPerDay)
  }

  /** `format_seconds(x)`; None stands for a NaN or absent value. */
  function FormatSeconds(x: Option<real>): (s: string)
    ensures x.None? <==> s == "N/A"
  {
    match x
    case None => "N/A"
    case Some(v) =>
      assert FormatDuration(Trunc(v))[|FormatDuration(Trunc(v))| - 3] == ':';
      FormatDuration(Trunc(v))
  }

  // ---------------------------------------------------------------------
  // Reading a rendered duration back: proves that the rendering loses no
  // information about the whole-second count.

  function ParseIntText(s: string): Option<int> {
    if |s| > 0 && s[0] == '-' then
      (if |s| > 1 && AllDigits(s[1..]) then Some(-(ParseDigits(s[1..]) as int)) else None)
    else if |s| > 0 && AllDigits(s) then Some(ParseDigits(s))
    else None
  }

  /** What follows "<days> " in a day prefix: the hour digits after "day, " or "days, ". */
  function AfterDayWord(rest: string): string {
    if |rest| >= 5 && rest[..5] == "day, " then rest[5..]
    else if |rest| >= 6 && rest[..6] == "days, " then rest[6..]
    else ""
  }

  function ParseHours(hours: string): Option<nat> {
    if |hours| > 0 && AllDigits(hours) then Some(ParseDigits(hours)) else None
  }

  /** Splits "H" or "<days> day, H" / "<days> days, H" into days and hours. */
  function ParseHead(head: string): Option<(int, nat)> {
    match FindChar(head, ' ')
    case None =>
      (match ParseHours(head) case None => None case Some(h) => Some((0, h)))
    case Some(i) =>
      match ParseIntText(head[..i])
      case None => None
      case Some(d) =>
        match ParseHours(AfterDayWord(head[i + 1..]))
        case None => None
        case Some(h) => Some((d, h))
  }

  /** Inverse of `FormatDuration`. */
  function ParseDuration(t: string): Option<int> {
    if |t| < 7 || t[|t| - 3] != ':' || t[|t| - 6] != ':' then None
    else
      var ss := t[|t| - 2..];
      var mm := t[|t| - 5..|t| - 3];
      if !AllDigits(ss) || !AllDigits(mm) then None
      else match ParseHead(t[..|t| - 6])
        case None => None
        case Some((d, h)) =>
          Some(d * SecondsPerDay + h * 3600 + ParseDigits(mm) * 60 + ParseDigits(ss))
  }

  lemma Pad2Parse(k: nat)
    requires k < 100
    ensures ParseDigits(Pad2(k)) == k
  {
    var s := Pad2(k);
    assert s == [DigitChar(k / 10), DigitChar(k % 10)];
    assert s[..1][..0] == [];
    assert ParseDigits(s[..1]) == ParseDigits(s[..1][..0]) * 10 + DigitValue(s[0]);
    assert ParseDigits(s) == ParseDigits(s[..1]) * 10 + DigitValue(s[1]);
  }

  lemma FindFirstSpace(a: string, b: string)
    requires ' ' !in a
    ensures FindChar(a + " " + b, ' ') == Some(|a|)
  {
    assert (a + " " + b)[|a|] == ' ';
  }

  lemma NoSpaceInNumber(d: int)
    ensures ' ' !in IntToString(d)
  {
    if d < 0 {
      assert IntToString(d) == "-" + NatToString(-d);
    }
  }

  lemma ParseIntTextOf(d: int)
    ensures ParseIntText(IntToString(d)) == Some(d)
  {
    if d < 0 {
      ParseNegativeText(-d);
    } else {
      ParseNatToString(d);
    }
  }

  lemma ParseNegativeText(n: nat)
    requires n > 0
    ensures ParseIntText("-" + NatToString(n)) == Some(-(n as int))
  {
    var s := "-" + NatToString(n);
    assert s[1..] == NatToString(n);
    ParseNatToString(n);
  }

  lemma ParseHoursOf(h: nat)
    ensures ParseHours(NatToString(h)) == Some(h)
  {
    ParseNatToString(h);
  }

  lemma AfterDayWordOf(word: string, hs: string)
    requires word == "day, " || word == "days, "
    ensures AfterDayWord(word + hs) == hs
  {
    if word == "day, " {
      assert (word + hs)[..5] == word;
      assert (word + hs)[5..] == hs;
    } else {
      assert (word + hs)[3] == 's';
      assert (word + hs)[..6] == word;
      assert (word + hs)[6..] == hs;
    }
  }

  lemma ParseHeadWithDays(ds: string, word: string, hs: string, days: int, h: nat)
    requires ' ' !in ds && ParseIntText(ds) == Some(days)
    requires word == "day, " || word == "days, "
    requires ParseHours(hs) == Some(h)
    ensures ParseHead(ds + " " + (word + hs)) == Some((days, h))
  {
    var head := ds + " " + (word + hs);
    FindFirstSpace(ds, word + hs);
    assert head[..|ds|] == ds;
    assert head[|ds| + 1..] == word + hs;
    AfterDayWordOf(word, hs);
  }

  lemma ParseHeadNoDays(hs: string, h: nat)
    requires AllDigits(hs) && ParseHours(hs) == Some(h)
    ensures ParseHead(hs) == Some((0, h))
  {
  }

  lemma DayPrefixShape(days: int, ds: string, word: string, hs: string)
    requires days != 0 && ds == IntToString(days)
    requires word == if days == 1 || days == -1 then "day, " else "days, "
    ensures DayPrefix(days) + hs == ds + " " + (word + hs)
  {
    var sp := " " + word;
    assert sp == if days == 1 || days == -1 then " day, " else " days, ";
    assert DayPrefix(days) == ds + sp;
    AppendAssoc(ds, sp, hs);
    AppendAssoc(" ", word, hs);
    AppendAssoc(ds, " ", word + hs);
  }

  lemma ParseHeadOf(days: int, h: nat)
    ensures ParseHead(DayPrefix(days) + NatToString(h)) == Some((days, h))
  {
    var hs := NatToString(h);
    ParseHoursOf(h);
    if days == 0 {
      assert DayPrefix(days) + hs == hs;
      ParseHeadNoDays(hs, h);
    } else {
      var ds := IntToString(days);
      var word := if days == 1 || days == -1 then "day, " else "days, ";
      DayPrefixShape(days, ds, word, hs);
      NoSpaceInNumber(days);
      ParseIntTextOf(days);
      ParseHeadWithDays(ds, word, hs, days, h);
    }
  }

  lemma ParseClockFields(head: string, m: nat, sec: nat, days: int, h: nat)
    requires m < 60 && sec < 60 && |head| > 0
    requires ParseHead(head) == Some((days, h))
    ensures ParseDuration(head + ":" + Pad2(m) + ":" + Pad2(sec))
      == Some(days * SecondsPerDay + h * 3600 + m * 60 + sec)
  {
    ClockSlices(head, Pad2(m), Pad2(sec));
    Pad2Parse(m);
    Pad2Parse(sec);
  }

  /** Where the fields of "<head>:MM:SS" sit. */
  lemma ClockSlices(head: string, mm: string, ss: string)
    requires |mm| == 2 && |ss| == 2
    ensures var t := head + ":" + mm + ":" + ss;
      && |t| == |head| + 6 && t[|t| - 3] == ':' && t[|t| - 6] == ':'
      && t[|t| - 2..] == ss && t[|t| - 5..|t| - 3] == mm && t[..|t| - 6] == head
  {
  }

  lemma ClockArithmetic(n: int, days: int, h: nat, m: nat, sec: nat)
    requires days == n / SecondsPerDay && h == n % SecondsPerDay / 3600
    requires m == n % SecondsPerDay % 3600 / 60 && sec == n % SecondsPerDay % 60
    ensures n == days * SecondsPerDay + h * 3600 + m * 60 + sec
  {
  }

  lemma FormatDurationShape(n: int, h: nat, m: nat, sec: nat)
    requires h == n % SecondsPerDay / 3600
    requires m == n % SecondsPerDay % 3600 / 60 && sec == n % SecondsPerDay % 60
    ensures m < 60 && sec < 60
    ensures FormatDuration(n) == (DayPrefix(n / SecondsPerDay) + NatToString(h)) + ":" + Pad2(m) + ":" + Pad2(sec)
  {
    var a, b, d, e := DayPrefix(n / SecondsPerDay), NatToString(h), Pad2(m), Pad2(sec);
    assert FormatDuration(n) == a + (b + ":" + d + ":" + e);
    AppendAssoc(a, b + ":" + d + ":", e);
    AppendAssoc(a, b + ":" + d, ":");
    AppendAssoc(a, b + ":", d);
    AppendAssoc(a, b, ":");
  }

  lemma AppendAssoc(x: string, y: string, z: string)
    ensures x + (y + z) == (x + y) + z
  {
  }

  /** Round trip: the rendering of every whole-second count reads back as that count. */
  lemma ParseFormatDuration(n: int)
    ensures ParseDuration(FormatDuration(n)) == Some(n)
  {
    var days := n / SecondsPerDay;
    var rem := n % SecondsPerDay;
    var h, m, sec := rem / 3600, rem % 3600 / 60, rem % 60;
    var head := DayPrefix(days) + NatToString(h);
    FormatDurationShape(n, h, m, sec);
    ParseHeadOf(days, h);
    ClockArithmetic(n, days, h, m, sec);
    ReadBackParts(FormatDuration(n), head, n, days, h, m, sec);
  }

  lemma ReadBackParts(t: string, head: string, n: int, days: int, h: nat, m: nat, sec: nat)
    requires m < 60 && sec < 60 && t == head + ":" + Pad2(m) + ":" + Pad2(sec)
    requires |head| > 0 && ParseHead(head) == Some((days, h))
    requires n == days * SecondsPerDay + h * 3600 + m * 60 + sec
    ensures ParseDuration(t) == Some(n)
  {
    ParseClockFields(head, m, sec, days, h);
  }

  /** Distinct whole-second counts never render alike. */
  lemma FormatDurationInjective(a: int, b: int)
    ensures FormatDuration(a) == FormatDuration(b) ==> a == b
  {
    ParseFormatDuration(a);
    ParseFormatDuration(b);
  }

  /** Below one day the rendering is the bare clock, "H:MM:SS" or "HH:MM:SS". */
  lemma FormatWithinDay(n: int)
    requires 0 <= n < SecondsPerDay
    ensures FormatDuration(n) == Clock(n)
    ensures 7 <= |FormatDuration(n)| <= 8
  {
    var h := n / 3600;
    if h >= 10 {
      assert NatToString(h) == NatToString(h / 10) + [DigitChar(h % 10)];
    }
  }

  lemma FormatOneDay()
    ensures FormatSeconds(Some(86400.0)) == "1 day, 0:00:00"
  {
    assert Trunc(86400.0) == 86400;
    assert 86400 / SecondsPerDay == 1 && 86400 % SecondsPerDay == 0;
    OneDay();
    Midnight();
  }

  lemma OneDay()
    ensures DayPrefix(1) == "1 day, "
  {
    assert NatToString(1) == "1";
  }

  lemma Midnight()
    ensures Clock(0) == "0:00:00"
  {
    assert NatToString(0) == "0";
    assert Pad2(0) == "00";
  }

  lemma FormatNegative()
    ensures FormatSeconds(Some(-5.0)) == "-1 day, 23:59:55"
  {
    assert Trunc(-5.0) == -5;
    assert -5 / SecondsPerDay == -1 && -5 % SecondsPerDay == 86395;
    MinusOneDay();
    LastSecondsOfDay();
  }

  lemma MinusOneDay()
    ensures DayPrefix(-1) == "-1 day, "
  {
    assert NatToString(1) == "1";
  }

  lemma LastSecondsOfDay()
    ensures Clock(86395) == "23:59:55"
  {
    assert 86395 / 3600 == 23 && 86395 % 3600 / 60 == 59 && 86395 % 60 == 55;
    assert NatToString(23) == "23";
    assert Pad2(59) == "59";
    assert Pad2(55) == "55";
  }

  lemma FormatTruncates()
    ensures FormatSeconds(Some(3661.9)) == "1:01:01"
  {
    assert Trunc(3661.9) == 3661;
    assert Clock(3661) == "1:01:01";
  }
}
