/**
 * convert_date_format: the mapper's best-effort date normaliser. It tries four
 * strptime formats in a fixed order and rewrites the first that parses with
 * strftime("%Y-%m-%d").
 *
 * Grammar modelled for the four formats (a simplification of strptime):
 * %B is one of the twelve English month names with its usual capitalisation;
 * %d and %m are one or two ASCII digits; %Y is exactly four ASCII digits; a
 * space, comma, '-' or '/' of the format matches exactly that character. The
 * parsed day must exist in the Gregorian calendar and the year must lie in
 * datetime's range 1..9999.
 *
 * strftime's %Y is modelled as the C library on Linux renders it: the year in
 * decimal without zero padding, so year 999 becomes "999".
 */
module DateFormat {
  import opened Text
  import opened Wrappers

  datatype Date = Date(year: nat, month: nat, day: nat)

  predicate IsLeapYear(y: nat)
  {
    y % 4 == 0 && (y % 100 != 0 || y % 400 == 0)
  }

  function DaysInMonth(y: nat, m: nat): (n: nat)
    requires 1 <= m <= 12
    ensures 28 <= n <= 31
    ensures n == 29 <==> m == 2 && IsLeapYear(y)
  {
    if m == 2 then (if IsLeapYear(y) then 29 else 28)
    else if m == 4 || m == 6 || m == 9 || m == 11 then 30
    else 31
  }

  /** The dates datetime can represent: years 1..9999 and a day that exists in its month. */
  predicate IsValidDate(d: Date)
  {
    1 <= d.year <= 9999 && 1 <= d.month <= 12 && 1 <= d.day <= DaysInMonth(d.year, d.month)
  }

  const MonthNames: seq<string> := [
    "January", "February", "March", "April", "May", "June",
    "July", "August", "September", "October", "November", "December"
  ]

  predicate IsUpper(c: char) { 'A' <= c <= 'Z' }

  lemma MonthNamesStartUpper()
    ensures |MonthNames| == 12
    ensures forall k :: 0 <= k < 12 ==> |MonthNames[k]| > 0 && IsUpper(MonthNames[k][0])
  {
  }

  /**
   * %B: the month whose name starts s (trying names from index k on), with the
   * text that follows the name.
   */
  function MatchMonth(s: string, k: nat): (r: Option<(nat, string)>)
    requires k <= 12
    decreases 12 - k
    ensures r.Some? ==> k < r.value.0 <= 12 && s == MonthNames[r.value.0 - 1] + r.value.1
    ensures r.None? ==> forall j :: k <= j < 12 ==> !HasPrefix(s, MonthNames[j])
  {
    if k == 12 then None
    else
      var name := MonthNames[k];
      if HasPrefix(s, name) then
        assert s == name + s[|name|..];
        Some((k + 1, s[|name|..]))
      else MatchMonth(s, k + 1)
  }

  /** No month name starts a text that starts with something other than a capital letter. */
  lemma NoMonthBeforeNonCapital(s: string)
    requires s == [] || !IsUpper(s[0])
    ensures MatchMonth(s, 0).None?
  {
    MonthNamesStartUpper();
  }

  /** %d or %m: one or two leading digits (as many as there are), with the rest of the text. */
  function LeadingNumber(s: string): (r: Option<(nat, string)>)
    ensures r.Some? <==> |s| > 0 && IsDigit(s[0])
    ensures r.Some? ==> r.value.0 < 100
    ensures r.Some? && |s| > 1 && IsDigit(s[1]) ==>
      r.value == (10 * DigitValue(s[0]) + DigitValue(s[1]), s[2..])
    ensures r.Some? && (|s| == 1 || !IsDigit(s[1])) ==> r.value == (DigitValue(s[0]), s[1..])
  {
    if |s| >= 2 && IsDigit(s[0]) && IsDigit(s[1]) then Some((10 * DigitValue(s[0]) + DigitValue(s[1]), s[2..]))
    else if |s| >= 1 && IsDigit(s[0]) then Some((DigitValue(s[0]), s[1..]))
    else None
  }

  /** %Y at the end of the text: exactly four digits. */
  function Year4(s: string): (r: Option<nat>)
    ensures r.Some? <==> |s| == 4 && AllDigits(s)
  {
    if |s| == 4 && AllDigits(s) then Some(DecimalValue(s)) else None
  }

  /** datetime(y, m, d), which raises ValueError for a day outside the calendar. */
  function Checked(y: nat, m: nat, d: nat): (r: Option<Date>)
    ensures r.Some? <==> IsValidDate(Date(y, m, d))
    ensures r.Some? ==> r.value == Date(y, m, d)
  {
    if IsValidDate(Date(y, m, d)) then Some(Date(y, m, d)) else None
  }

  /** The four strptime formats, in the order convert_date_format tries them. */
  datatype Format =
    | MonthDayYear       // "%B %d, %Y", as in "January 17, 2025"
    | DayMonthYear       // "%d %B %Y", as in "17 January 2025"
    | IsoDate            // "%Y-%m-%d", as in "2025-01-17"
    | DaySlashMonthYear  // "%d/%m/%Y", as in "17/01/2025"

  const Formats: seq<Format> := [MonthDayYear, DayMonthYear, IsoDate, DaySlashMonthYear]

  /** "%B %d, %Y". */
  function ParseMonthDayYear(s: string): (r: Option<Date>)
    ensures r.Some? ==> IsValidDate(r.value)
  {
    match MatchMonth(s, 0)
    case None => None
    case Some((m, afterMonth)) =>
      if !HasPrefix(afterMonth, " ") then None
      else match LeadingNumber(afterMonth[1..])
        case None => None
        case Some((d, afterDay)) =>
          if !HasPrefix(afterDay, ", ") then None
          else match Year4(afterDay[2..])
            case None => None
            case Some(y) => Checked(y, m, d)
  }

  /** "%d %B %Y". */
  function ParseDayMonthYear(s: string): (r: Option<Date>)
    ensures r.Some? ==> IsValidDate(r.value)
  {
    match LeadingNumber(s)
    case None => None
    case Some((d, afterDay)) =>
      if !HasPrefix(afterDay, " ") then None
      else match MatchMonth(afterDay[1..], 0)
        case None => None
        case Some((m, afterMonth)) =>
          if !HasPrefix(afterMonth, " ") then None
          else match Year4(afterMonth[1..])
            case None => None
            case Some(y) => Checked(y, m, d)
  }

  /** "%Y-%m-%d". */
  function ParseIsoDate(s: string): (r: Option<Date>)
    ensures r.Some? ==> IsValidDate(r.value)
  {
    if |s| < 5 || !AllDigits(s[..4]) || s[4] != '-' then None
    else match LeadingNumber(s[5..])
      case None => None
      case Some((m, afterMonth)) =>
        if !HasPrefix(afterMonth, "-") then None
        else match LeadingNumber(afterMonth[1..])
          case None => None
          case Some((d, afterDay)) =>
            if afterDay != [] then None else Checked(DecimalValue(s[..4]), m, d)
  }

  /** "%d/%m/%Y". */
  function ParseDaySlashMonthYear(s: string): (r: Option<Date>)
    ensures r.Some? ==> IsValidDate(r.value)
  {
    match LeadingNumber(s)
    case None => None
    case Some((d, afterDay)) =>
      if !HasPrefix(afterDay, "/") then None
      else match LeadingNumber(afterDay[1..])
        case None => None
        case Some((m, afterMonth)) =>
          if !HasPrefix(afterMonth, "/") then None
          else match Year4(afterMonth[1..])
            case None => None
            case Some(y) => Checked(y, m, d)
  }

  /** datetime.strptime(s, f), None standing for the ValueError it raises. */
  function Parse(f: Format, s: string): (r: Option<Date>)
    ensures r.Some? ==> IsValidDate(r.value)
  {
    match f
    case MonthDayYear => ParseMonthDayYear(s)
    case DayMonthYear => ParseDayMonthYear(s)
    case IsoDate => ParseIsoDate(s)
    case DaySlashMonthYear => ParseDaySlashMonthYear(s)
  }

  /** strftime("%Y-%m-%d"). */
  function FormatIso(d: Date): string
    requires IsValidDate(d)
  {
    NatToDecimal(d.year) + "-" + Pad2(d.month) + "-" + Pad2(d.day)
  }

  /** The loop over the format list: the first format that parses, or None when none does. */
  function FirstParse(fs: seq<Format>, s: string): (r: Option<Date>)
    ensures r.Some? ==> IsValidDate(r.value)
  {
    if fs == [] then None
    else match Parse(fs[0], s)
      case Some(d) => Some(d)
      case None => FirstParse(fs[1..], s)
  }

  /** The loop yields nothing exactly when no format parses, and otherwise the result of the first that does. */
  lemma {:induction false} FirstParseFirstMatch(fs: seq<Format>, s: string)
    ensures FirstParse(fs, s).None? <==> forall k :: 0 <= k < |fs| ==> Parse(fs[k], s).None?
    ensures FirstParse(fs, s).Some? ==>
      exists k :: 0 <= k < |fs| && Parse(fs[k], s) == FirstParse(fs, s) && forall j :: 0 <= j < k ==> Parse(fs[j], s).None?
  {
    if fs != [] {
      FirstParseFirstMatch(fs[1..], s);
      assert forall k :: 0 <= k < |fs| - 1 ==> fs[1..][k] == fs[k + 1];
      if Parse(fs[0], s).None? && FirstParse(fs, s).Some? {
        var k :| 0 <= k < |fs| - 1 && Parse(fs[1..][k], s) == FirstParse(fs, s)
          && forall j :: 0 <= j < k ==> Parse(fs[1..][j], s).None?;
        assert Parse(fs[k + 1], s) == FirstParse(fs, s);
      }
    }
  }

  const ConversionErrorPrefix: string := "Date conversion error: "

  /**
   * convert_date_format(date_str): the first of the four formats that parses,
   * rewritten as YYYY-MM-DD; otherwise the ValueError whose message names the
   * input.
   */
  function ConvertDate(s: string): (r: Result<string, string>)
    ensures r.Failure? ==>
      |r.error| >= |ConversionErrorPrefix| + |s| && r.error[|ConversionErrorPrefix|..|ConversionErrorPrefix| + |s|] == s
  {
    match FirstParse(Formats, s)
    case Some(d) => Success(FormatIso(d))
    case None =>
      var msg := ConversionErrorPrefix + s + " - Unsupported date format: " + s;
      assert msg[|ConversionErrorPrefix|..|ConversionErrorPrefix| + |s|] == s;
      Failure(msg)
  }

  /**
   * The formats are tried in the listed order: the conversion fails exactly
   * when none parses, and otherwise rewrites the date read by the first that
   * does.
   */
  lemma ConvertDateFirstMatch(s: string)
    ensures ConvertDate(s).Failure? <==> forall k :: 0 <= k < |Formats| ==> Parse(Formats[k], s).None?
    ensures ConvertDate(s).Success? ==>
      exists k :: 0 <= k < |Formats| && Parse(Formats[k], s).Some?
        && ConvertDate(s).value == FormatIso(Parse(Formats[k], s).value)
        && forall j :: 0 <= j < k ==> Parse(Formats[j], s).None?
  {
    FirstParseFirstMatch(Formats, s);
  }

  /** The strict re-check datetime.strptime(date, "%Y-%m-%d") after normalisation. */
  predicate StrictIso(s: string)
  {
    Parse(IsoDate, s).Some?
  }

  /** A zero-padded YYYY-MM-DD text with a year of 1000..9999 naming a real day. */
  predicate IsCanonicalIso(s: string)
  {
    && |s| == 10
    && AllDigits(s[..4]) && s[0] != '0' && s[4] == '-'
    && AllDigits(s[5..7]) && s[7] == '-' && AllDigits(s[8..])
    && IsValidDate(Date(DecimalValue(s[..4]), DecimalValue(s[5..7]), DecimalValue(s[8..])))
  }

  /** Digits at positions 0 and 1 followed by a non-digit make LeadingNumber read exactly two digits. */
  lemma LeadingTwoDigits(s: string, rest: string)
    requires |s| >= 2 && IsDigit(s[0]) && IsDigit(s[1]) && rest == s[2..]
    ensures LeadingNumber(s) == Some((DecimalValue(s[..2]), rest))
  {
    TwoDigitValue(s[..2]);
  }

  /** The canonical form is read back by "%Y-%m-%d" as the date it spells. */
  lemma ParseCanonical(s: string)
    requires IsCanonicalIso(s)
    ensures Parse(IsoDate, s) == Some(Date(DecimalValue(s[..4]), DecimalValue(s[5..7]), DecimalValue(s[8..])))
  {
    var afterYear := s[5..];
    assert afterYear[..2] == s[5..7] && afterYear[2..] == s[7..];
    LeadingTwoDigits(afterYear, s[7..]);
    var afterMonth := s[7..];
    assert HasPrefix(afterMonth, "-");
    var dayText := afterMonth[1..];
    assert dayText == s[8..] && dayText[..2] == s[8..];
    LeadingTwoDigits(dayText, []);
  }

  /** A canonical text is already in the form the normaliser produces. */
  lemma FormatCanonical(s: string)
    requires IsCanonicalIso(s)
    ensures var d := Date(DecimalValue(s[..4]), DecimalValue(s[5..7]), DecimalValue(s[8..]));
      FormatIso(d) == s
  {
    DecimalRoundTrip(s[..4]);
    Pad2RoundTrip(s[5..7]);
    Pad2RoundTrip(s[8..]);
    assert s == s[..4] + "-" + s[5..7] + "-" + s[8..];
  }

  /**
   * Idempotence: a zero-padded valid YYYY-MM-DD text with a four-digit year
   * comes back unchanged, because "%B %d, %Y" and "%d %B %Y" cannot match it
   * and "%Y-%m-%d" reads back what strftime writes.
   */
  lemma ConvertIdempotent(s: string)
    requires IsCanonicalIso(s)
    ensures ConvertDate(s) == Success(s)
  {
    NoMonthBeforeNonCapital(s);
    assert Parse(MonthDayYear, s).None?;
    LeadingTwoDigits(s, s[2..]);
    assert Parse(DayMonthYear, s).None?;
    ParseCanonical(s);
    FormatCanonical(s);
    FirstParseIsThird(s);
  }

  /** When only the third format can parse s among the first three, the loop stops there. */
  lemma FirstParseIsThird(s: string)
    requires Parse(MonthDayYear, s).None? && Parse(DayMonthYear, s).None? && Parse(IsoDate, s).Some?
    ensures FirstParse(Formats, s) == Parse(IsoDate, s)
  {
    FirstParseFirstMatch(Formats, s);
    var r := FirstParse(Formats, s);
    assert Parse(Formats[2], s).Some?;
    var k :| 0 <= k < |Formats| && Parse(Formats[k], s) == r && forall j :: 0 <= j < k ==> Parse(Formats[j], s).None?;
    assert k == 2;
  }

  /** When none of the first three formats parses s, the loop reaches "%d/%m/%Y". */
  lemma FirstParseIsLast(s: string)
    requires Parse(MonthDayYear, s).None? && Parse(DayMonthYear, s).None? && Parse(IsoDate, s).None?
    ensures FirstParse(Formats, s) == Parse(DaySlashMonthYear, s)
  {
    FirstParseFirstMatch(Formats, s);
    var r := FirstParse(Formats, s);
    if r.Some? {
      var k :| 0 <= k < |Formats| && Parse(Formats[k], s) == r && forall j :: 0 <= j < k ==> Parse(Formats[j], s).None?;
      assert k == 3;
    } else {
      assert Parse(Formats[3], s).None?;
    }
  }

  /** strftime then the strict "%Y-%m-%d" re-check gives the same date back when the year has four digits. */
  lemma IsoRoundTrip(d: Date)
    requires IsValidDate(d) && d.year >= 1000
    ensures Parse(IsoDate, FormatIso(d)) == Some(d)
  {
    DecimalLength(d.year, 4);
    var y := NatToDecimal(d.year);
    var s := FormatIso(d);
    assert s[..4] == y && s[4] == '-';
    assert s[5..7] == Pad2(d.month) && s[7] == '-' && s[8..] == Pad2(d.day);
    assert IsCanonicalIso(s);
    ParseCanonical(s);
  }

  /** A four-character year rendering means a year of at least 1000. */
  lemma FourDigitYear(y: nat)
    requires |NatToDecimal(y)| == 4
    ensures y >= 1000
  {
    LeadingDigitBound(NatToDecimal(y));
  }

  /**
   * The strict re-check after normalisation cannot fail as long as the
   * normalised text has the length of a four-digit year, i.e. for years
   * 1000..9999.
   */
  lemma RecheckPasses(s: string)
    requires ConvertDate(s).Success? && |ConvertDate(s).value| == 10
    ensures StrictIso(ConvertDate(s).value)
  {
    ConvertDateFirstMatch(s);
    var k :| 0 <= k < |Formats| && Parse(Formats[k], s).Some?
      && ConvertDate(s).value == FormatIso(Parse(Formats[k], s).value);
    var d := Parse(Formats[k], s).value;
    FourDigitYear(d.year);
    IsoRoundTrip(d);
  }

  /** The year 2025 is written and read as "2025". */
  lemma Year2025()
    ensures AllDigits("2025") && DecimalValue("2025") == 2025 && NatToDecimal(2025) == "2025"
  {
    var t := "2025";
    assert t[..3] == "202" && t[..3][..2] == "20" && t[..3][..2][..1] == "2" && t[..3][..2][..1][..0] == [];
    DecimalRoundTrip(t);
  }

  /** "%B %d, %Y" reads "January 17, 2025" as the 17th of January 2025. */
  lemma ReadMonthName()
    ensures Parse(MonthDayYear, "January 17, 2025") == Some(Date(2025, 1, 17))
  {
    var s := "January 17, 2025";
    assert HasPrefix(s, MonthNames[0]);
    assert MatchMonth(s, 0) == Some((1, " 17, 2025"));
    assert LeadingNumber("17, 2025") == Some((17, ", 2025"));
    Year2025();
    assert Year4(", 2025"[2..]) == Some(2025);
  }

  /** "January 17, 2025" is read by the first format and becomes "2025-01-17". */
  lemma ScenarioMonthName()
    ensures ConvertDate("January 17, 2025") == Success("2025-01-17")
  {
    ReadMonthName();
    assert FirstParse(Formats, "January 17, 2025") == Some(Date(2025, 1, 17));
    WriteJan17();
  }

  /** Shape of a "dd/mm/yyyy" text with two-digit day and month. */
  predicate Slashed(s: string, dd: string, mm: string, yyyy: string)
  {
    |dd| == 2 && |mm| == 2 && |yyyy| == 4 && AllDigits(dd) && AllDigits(mm) && AllDigits(yyyy)
    && s == dd + "/" + mm + "/" + yyyy
  }

  /** A "dd/mm/yyyy" text is not read by the first three formats. */
  lemma SlashedOnlyLast(s: string, dd: string, mm: string, yyyy: string)
    requires Slashed(s, dd, mm, yyyy)
    ensures Parse(MonthDayYear, s).None? && Parse(DayMonthYear, s).None? && Parse(IsoDate, s).None?
  {
    NoMonthBeforeNonCapital(s);
    assert s[..2] == dd && s[2] == '/';
    TwoDigitsThenSlash(s);
  }

  /** Two digits and a slash are read by neither "%d %B %Y" nor "%Y-%m-%d". */
  lemma TwoDigitsThenSlash(s: string)
    requires |s| >= 5 && IsDigit(s[0]) && IsDigit(s[1]) && s[2] == '/'
    ensures Parse(DayMonthYear, s).None? && Parse(IsoDate, s).None?
  {
    LeadingTwoDigits(s, s[2..]);
    assert !HasPrefix(s[2..], " ");
    assert !AllDigits(s[..4]) by { assert !IsDigit(s[2]); }
  }

  /** "%d/%m/%Y" reads a "dd/mm/yyyy" text as datetime(yyyy, mm, dd). */
  lemma SlashedRead(s: string, dd: string, mm: string, yyyy: string)
    requires Slashed(s, dd, mm, yyyy)
    ensures Parse(DaySlashMonthYear, s) == Checked(DecimalValue(yyyy), DecimalValue(mm), DecimalValue(dd))
  {
    assert s[..2] == dd && s[2..] == "/" + mm + "/" + yyyy;
    LeadingTwoDigits(s, s[2..]);
    var afterDay := s[2..];
    assert afterDay[1..][..2] == mm && afterDay[1..][2..] == "/" + yyyy;
    LeadingTwoDigits(afterDay[1..], "/" + yyyy);
    assert ("/" + yyyy)[1..] == yyyy;
  }

  /** A "dd/mm/yyyy" text naming a real day is normalised to that day, by the last format. */
  lemma SlashedConvert(s: string, dd: string, mm: string, yyyy: string)
    requires Slashed(s, dd, mm, yyyy)
    requires IsValidDate(Date(DecimalValue(yyyy), DecimalValue(mm), DecimalValue(dd)))
    ensures ConvertDate(s) == Success(FormatIso(Date(DecimalValue(yyyy), DecimalValue(mm), DecimalValue(dd))))
  {
    SlashedOnlyLast(s, dd, mm, yyyy);
    SlashedRead(s, dd, mm, yyyy);
    FirstParseIsLast(s);
  }

  /** A date of 2025 written as "dd/mm/2025". */
  lemma Slashed2025(s: string, dd: string, mm: string)
    requires |dd| == 2 && |mm| == 2 && AllDigits(dd) && AllDigits(mm) && s == dd + "/" + mm + "/2025"
    ensures Slashed(s, dd, mm, "2025") && DecimalValue("2025") == 2025
  {
    Year2025();
  }

  /** A date of 2025 is written "2025-mm-dd". */
  lemma Iso2025(m: nat, d: nat)
    requires IsValidDate(Date(2025, m, d))
    ensures FormatIso(Date(2025, m, d)) == "2025-" + Pad2(m) + "-" + Pad2(d)
  {
    Year2025();
  }

  lemma ReadDaySlash()
    ensures ConvertDate("17/01/2025") == Success(FormatIso(Date(2025, 1, 17)))
  {
    Slashed2025("17/01/2025", "17", "01");
    TwoDigitValue("17");
    TwoDigitValue("01");
    SlashedConvert("17/01/2025", "17", "01", "2025");
  }

  /** 17 January 2025 renders as "2025-01-17"; both scenarios that produce that date use it. */
  lemma WriteJan17()
    ensures FormatIso(Date(2025, 1, 17)) == "2025-01-17"
  {
    Iso2025(1, 17);
    assert Pad2(1) == "01" && Pad2(17) == "17";
  }

  /** "17/01/2025" is read only by the last format, after the other three fail. */
  lemma ScenarioDaySlash()
    ensures ConvertDate("17/01/2025") == Success("2025-01-17")
  {
    ReadDaySlash();
    WriteJan17();
  }

  lemma ReadAmbiguous()
    ensures ConvertDate("01/02/2025") == Success(FormatIso(Date(2025, 2, 1)))
  {
    Slashed2025("01/02/2025", "01", "02");
    TwoDigitValue("01");
    TwoDigitValue("02");
    SlashedConvert("01/02/2025", "01", "02", "2025");
  }

  lemma WriteAmbiguous()
    ensures FormatIso(Date(2025, 2, 1)) == "2025-02-01"
  {
    Iso2025(2, 1);
    assert Pad2(2) == "02" && Pad2(1) == "01";
  }

  /**
   * "01/02/2025" could be read day-first or month-first; the format order
   * makes it the first of February.
   */
  lemma ScenarioAmbiguous()
    ensures ConvertDate("01/02/2025") == Success("2025-02-01")
  {
    ReadAmbiguous();
    WriteAmbiguous();
  }

  /** Shape of a "yyyy-mm-dd" text with two-digit month and day. */
  predicate Dashed(s: string, yyyy: string, mm: string, dd: string)
  {
    |dd| == 2 && |mm| == 2 && |yyyy| == 4 && AllDigits(dd) && AllDigits(mm) && AllDigits(yyyy)
    && s == yyyy + "-" + mm + "-" + dd
  }

  /** A "yyyy-mm-dd" text is read by neither name-based format nor by "%d/%m/%Y". */
  lemma DashedOnlyIso(s: string, yyyy: string, mm: string, dd: string)
    requires Dashed(s, yyyy, mm, dd)
    ensures Parse(MonthDayYear, s).None? && Parse(DayMonthYear, s).None? && Parse(DaySlashMonthYear, s).None?
  {
    NoMonthBeforeNonCapital(s);
    assert s[..4] == yyyy;
    DigitsThenDigit(s);
  }

  /** A text whose first three characters are digits is read by neither "%d %B %Y" nor "%d/%m/%Y". */
  lemma DigitsThenDigit(s: string)
    requires |s| >= 3 && IsDigit(s[0]) && IsDigit(s[1]) && IsDigit(s[2])
    ensures Parse(DayMonthYear, s).None? && Parse(DaySlashMonthYear, s).None?
  {
    LeadingTwoDigits(s, s[2..]);
    assert !HasPrefix(s[2..], " ") && !HasPrefix(s[2..], "/");
  }

  /** "%Y-%m-%d" reads a "yyyy-mm-dd" text as datetime(yyyy, mm, dd). */
  lemma DashedRead(s: string, yyyy: string, mm: string, dd: string)
    requires Dashed(s, yyyy, mm, dd)
    ensures Parse(IsoDate, s) == Checked(DecimalValue(yyyy), DecimalValue(mm), DecimalValue(dd))
  {
    assert s[..4] == yyyy && s[4] == '-' && s[5..] == mm + "-" + dd;
    var afterYear := s[5..];
    assert afterYear[..2] == mm && afterYear[2..] == "-" + dd;
    LeadingTwoDigits(afterYear, "-" + dd);
    var dayText := ("-" + dd)[1..];
    assert dayText == dd && dayText[..2] == dd;
    LeadingTwoDigits(dayText, []);
  }

  /** "%Y-%m-%d" reads "2025-02-30" as the 30th of February 2025, which does not exist. */
  lemma ReadImpossibleDay()
    ensures Parse(IsoDate, "2025-02-30").None?
  {
    Year2025();
    TwoDigitValue("02");
    TwoDigitValue("30");
    DashedRead("2025-02-30", "2025", "02", "30");
  }

  /** The 30th of February is rejected by every format. */
  lemma ScenarioImpossibleDay()
    ensures ConvertDate("2025-02-30").Failure?
  {
    DashedOnlyIso("2025-02-30", "2025", "02", "30");
    ReadImpossibleDay();
    ConvertDateFirstMatch("2025-02-30");
  }

  lemma Year0999()
    ensures AllDigits("0999") && DecimalValue("0999") == 999
  {
    var y := "0999";
    assert y[..3] == "099" && y[..3][..2] == "09" && y[..3][..2][..1] == "0" && y[..3][..2][..1][..0] == [];
    assert DecimalValue("0") == 0;
    assert DecimalValue("09") == 9;
    assert DecimalValue("099") == 99;
  }

  lemma Render999()
    ensures NatToDecimal(999) == "999"
  {
    var t := "999";
    assert t[..2] == "99" && t[..2][..1] == "9" && t[..2][..1][..0] == [];
    DecimalRoundTrip(t);
  }

  lemma ReadShortYear()
    ensures ConvertDate("0999-01-01") == Success(FormatIso(Date(999, 1, 1)))
  {
    var s := "0999-01-01";
    Year0999();
    TwoDigitValue("01");
    assert Dashed(s, "0999", "01", "01");
    DashedOnlyIso(s, "0999", "01", "01");
    DashedRead(s, "0999", "01", "01");
    FirstParseIsThird(s);
  }

  lemma WriteShortYear()
    ensures FormatIso(Date(999, 1, 1)) == "999-01-01"
  {
    Render999();
    assert Pad2(1) == "01";
  }

  /**
   * For a year below 1000 the normaliser's own output fails the strict
   * re-check: "0999-01-01" becomes "999-01-01", which "%Y-%m-%d" rejects.
   */
  lemma ShortYearFailsRecheck()
    ensures ConvertDate("0999-01-01") == Success("999-01-01")
    ensures !StrictIso("999-01-01")
  {
    ReadShortYear();
    WriteShortYear();
    ShortYearRejected();
  }

  lemma ShortYearRejected()
    ensures !StrictIso("999-01-01")
  {
    assert !AllDigits("999-01-01"[..4]) by { assert !IsDigit("999-01-01"[3]); }
  }
}
