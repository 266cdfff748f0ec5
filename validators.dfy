/**
 * Field-type detection: total, purely syntactic classifiers of a raw field
 * value. A value is a date, a phone number, an email address, or text, and the
 * checks run in that order.
 *
 * Conventions of this model:
 *  - `\d` is an ASCII digit;
 *  - every pattern is used with `re.match` and ends in `$`, which also matches
 *    just before one final "\n"; `MatchesMask` and `MatchesEmailPattern` model
 *    that explicitly.
 */
module Validators {
  import opened Wrappers
  import opened Strings

  // ---------------------------------------------------------------- characters

  /** `\d` (ASCII digits only) */
  predicate IsDigit(c: char) { '0' <= c <= '9' }

  /** `[a-zA-Z]` */
  predicate IsLetter(c: char) { 'a' <= c <= 'z' || 'A' <= c <= 'Z' }

  /** `[a-zA-Z0-9._%+-]`, the characters of an email's local part */
  predicate IsLocalChar(c: char)
  {
    IsLetter(c) || IsDigit(c) || c == '.' || c == '_' || c == '%' || c == '+' || c == '-'
  }

  /** `[a-zA-Z0-9.-]`, the characters of an email's domain */
  predicate IsDomainChar(c: char)
  {
    IsLetter(c) || IsDigit(c) || c == '.' || c == '-'
  }

  predicate AllDigits(s: string) { forall i :: 0 <= i < |s| ==> IsDigit(s[i]) }
  predicate AllLetters(s: string) { forall i :: 0 <= i < |s| ==> IsLetter(s[i]) }
  predicate AllLocalChars(s: string) { forall i :: 0 <= i < |s| ==> IsLocalChar(s[i]) }
  predicate AllDomainChars(s: string) { forall i :: 0 <= i < |s| ==> IsDomainChar(s[i]) }

  // ---------------------------------------------------------- anchored matching

  predicate EndsWithNewline(s: string) { |s| > 0 && s[|s| - 1] == '\n' }

  /**
   * A fixed-width pattern written as a mask: '#' stands for `\d`, every other
   * character for itself. `FitsMask` is a whole-string match.
   */
  predicate FitsMask(s: string, mask: string)
  {
    |s| == |mask| &&
    forall i :: 0 <= i < |s| ==> if mask[i] == '#' then IsDigit(s[i]) else s[i] == mask[i]
  }

  /** re.match('^' + pattern + '$', s) for the pattern the mask stands for. */
  predicate MatchesMask(s: string, mask: string)
  {
    FitsMask(s, mask) || (EndsWithNewline(s) && FitsMask(s[..|s| - 1], mask))
  }

  // --------------------------------------------------------------------- phone

  /** r'^\+7 \d{3} \d{3} \d{2} \d{2}$' */
  const PhoneMask := "+7 ### ### ## ##"

  /** The phone layout spelled out: "+7 ", 3 digits, ' ', 3 digits, ' ', 2 digits, ' ', 2 digits. */
  predicate PhoneLayout(s: string)
  {
    |s| == 16 && s[..3] == "+7 " &&
    AllDigits(s[3..6]) && s[6] == ' ' &&
    AllDigits(s[7..10]) && s[10] == ' ' &&
    AllDigits(s[11..13]) && s[13] == ' ' &&
    AllDigits(s[14..])
  }

  /** validate_phone */
  function ValidatePhone(value: string): (ok: bool)
    ensures ok <==> PhoneLayout(value) || (EndsWithNewline(value) && PhoneLayout(value[..|value| - 1]))
  {
    PhoneMaskIsLayout(value);
    assert EndsWithNewline(value) ==>
      (FitsMask(value[..|value| - 1], PhoneMask) <==> PhoneLayout(value[..|value| - 1])) by {
      if EndsWithNewline(value) {
        PhoneMaskIsLayout(value[..|value| - 1]);
      }
    }
    MatchesMask(value, PhoneMask)
  }

  lemma PhoneMaskIsLayout(s: string)
    ensures FitsMask(s, PhoneMask) <==> PhoneLayout(s)
  {
    if PhoneLayout(s) {
      forall i | 0 <= i < |s|
        ensures if PhoneMask[i] == '#' then IsDigit(s[i]) else s[i] == PhoneMask[i]
      {
        if 3 <= i < 6 { assert s[3..6][i - 3] == s[i]; }
        else if 7 <= i < 10 { assert s[7..10][i - 7] == s[i]; }
        else if 11 <= i < 13 { assert s[11..13][i - 11] == s[i]; }
        else if 14 <= i { assert s[14..][i - 14] == s[i]; }
        else if i < 3 { assert s[..3][i] == s[i]; }
      }
    }
  }

  /** Any four digit groups of widths 3, 3, 2 and 2 laid out after "+7 " make a phone. */
  lemma PhoneFromGroups(a: string, b: string, c: string, d: string)
    requires |a| == 3 && |b| == 3 && |c| == 2 && |d| == 2
    requires AllDigits(a) && AllDigits(b) && AllDigits(c) && AllDigits(d)
    ensures ValidatePhone("+7 " + a + " " + b + " " + c + " " + d)
  {
    var s := "+7 " + a + " " + b + " " + c + " " + d;
    assert s[..3] == "+7 ";
    assert s[3..6] == a;
    assert s[7..10] == b;
    assert s[11..13] == c;
    assert s[14..] == d;
  }

  // ---------------------------------------------------------------------- date

  datatype Date = Date(year: int, month: int, day: int)

  predicate IsLeapYear(year: int)
  {
    year % 4 == 0 && (year % 100 != 0 || year % 400 == 0)
  }

  /** The length of a month in the proleptic Gregorian calendar that `datetime` uses. */
  function DaysInMonth(year: int, month: int): (n: int)
    requires 1 <= month <= 12
    ensures 28 <= n <= 31
    ensures month == 2 ==> (n == 29 <==> IsLeapYear(year))
    ensures month != 2 ==> (n == 30 <==> month in {4, 6, 9, 11})
  {
    if month == 2 then (if IsLeapYear(year) then 29 else 28)
    else if month == 4 || month == 6 || month == 9 || month == 11 then 30
    else 31
  }

  /** What `datetime.date(year, month, day)` accepts: MINYEAR 1 to MAXYEAR 9999, a month, a day of it. */
  predicate IsCalendarDate(d: Date)
  {
    1 <= d.year <= 9999 && 1 <= d.month <= 12 && 1 <= d.day <= DaysInMonth(d.year, d.month)
  }

  /** The two `strptime` formats: '%d.%m.%Y' and '%Y-%m-%d'. */
  datatype DateFormat = DayFirst | YearFirst {
    /** The shape regex tried before this format: r'^\d{2}\.\d{2}\.\d{4}$' or r'^\d{4}-\d{2}-\d{2}$'. */
    function Mask(): string
    {
      match this
      case DayFirst => "##.##.####"
      case YearFirst => "####-##-##"
    }
  }

  /** int() of a string of ASCII digits */
  function DigitsValue(s: string): nat
    requires AllDigits(s)
  {
    if s == [] then 0
    else 10 * DigitsValue(s[..|s| - 1]) + (s[|s| - 1] as int - '0' as int)
  }

  /** The year, month and day fields of a string of the format's shape. */
  function FieldsOf(s: string, f: DateFormat): Date
    requires FitsMask(s, f.Mask())
  {
    assert forall i :: 0 <= i < |s| && f.Mask()[i] == '#' ==> IsDigit(s[i]);
    match f
    case DayFirst =>
      Date(DigitsValue(s[6..10]), DigitsValue(s[3..5]), DigitsValue(s[..2]))
    case YearFirst =>
      Date(DigitsValue(s[..4]), DigitsValue(s[5..7]), DigitsValue(s[8..]))
  }

  /** The string is of the format's shape and names a real calendar date. */
  predicate IsDateIn(s: string, f: DateFormat)
  {
    FitsMask(s, f.Mask()) && IsCalendarDate(FieldsOf(s, f))
  }

  /**
   * datetime.strptime(s, format), on the strings that reach it: those the
   * format's shape regex matched. A final "\n" is left unconverted, which
   * raises ValueError. Otherwise the two-digit day and month directives accept
   * 01-31 and 01-12, and building the date rejects year 0 and a day past the
   * end of the month; all of these raise ValueError, here `None`.
   */
  function Strptime(s: string, f: DateFormat): Option<Date>
    requires MatchesMask(s, f.Mask())
  {
    if !FitsMask(s, f.Mask()) then None
    else if IsCalendarDate(FieldsOf(s, f)) then Some(FieldsOf(s, f))
    else None
  }

  /** validate_date */
  function ValidateDate(value: string): (ok: bool)
    ensures ok <==> IsDateIn(value, DayFirst) || IsDateIn(value, YearFirst)
  {
    if MatchesMask(value, DayFirst.Mask()) then
      assert !FitsMask(value, YearFirst.Mask()) by { MasksDisjoint(value); }
      Strptime(value, DayFirst).Some?
    else if MatchesMask(value, YearFirst.Mask()) then
      Strptime(value, YearFirst).Some?
    else
      false
  }

  /** No string has both date shapes: the third character is a '.' in one and a digit in the other. */
  lemma MasksDisjoint(s: string)
    ensures !(FitsMask(s, DayFirst.Mask()) && FitsMask(s, YearFirst.Mask()))
  {
    if FitsMask(s, DayFirst.Mask()) {
      assert DayFirst.Mask()[2] == '.' && YearFirst.Mask()[2] == '#';
    }
  }

  function Pow10(n: nat): nat
  {
    if n == 0 then 1 else 10 * Pow10(n - 1)
  }

  /**
   * The last `width` decimal digits of `n`, zero-padded. It agrees with
   * '%0*d' only when `n < Pow10(width)`; the model uses it as the inverse of
   * reading a date field with `int()`.
   */
  function Pad(n: nat, width: nat): (s: string)
    ensures |s| == width && AllDigits(s)
  {
    if width == 0 then ""
    else Pad(n / 10, width - 1) + [('0' as int + n % 10) as char]
  }

  lemma {:induction false} DigitsValuePad(n: nat, width: nat)
    requires n < Pow10(width)
    ensures DigitsValue(Pad(n, width)) == n
  {
    if width > 0 {
      var s := Pad(n, width);
      assert s[..|s| - 1] == Pad(n / 10, width - 1);
      DigitsValuePad(n / 10, width - 1);
    }
  }

  lemma {:induction false} PadDigitsValue(s: string)
    requires AllDigits(s)
    ensures Pad(DigitsValue(s), |s|) == s
  {
    if s != [] {
      var init := s[..|s| - 1];
      PadDigitsValue(init);
      var n := DigitsValue(s);
      var last := s[|s| - 1] as int - '0' as int;
      assert n / 10 == DigitsValue(init) && n % 10 == last;
      assert s == init + [s[|s| - 1]];
    }
  }

  /** The date written in the format, with zero-padded fields. */
  function Format(d: Date, f: DateFormat): (s: string)
    requires 0 <= d.year < 10000 && 0 <= d.month < 100 && 0 <= d.day < 100
  {
    match f
    case DayFirst => Pad(d.day, 2) + "." + Pad(d.month, 2) + "." + Pad(d.year, 4)
    case YearFirst => Pad(d.year, 4) + "-" + Pad(d.month, 2) + "-" + Pad(d.day, 2)
  }

  /** `n` copies of '#', the mask of `\d{n}`. */
  function Hashes(n: nat): (m: string)
    ensures |m| == n && forall i :: 0 <= i < n ==> m[i] == '#'
  {
    seq(n, _ => '#')
  }

  /** The two date masks, field by field. */
  lemma DateMasks()
    ensures DayFirst.Mask() == Hashes(2) + "." + Hashes(2) + "." + Hashes(4)
    ensures YearFirst.Mask() == Hashes(4) + "-" + Hashes(2) + "-" + Hashes(2)
  {
    assert Hashes(2) == "##" && Hashes(4) == "####";
  }

  /** Three digit strings joined by a separator fit the mask of three digit fields. */
  lemma JoinedFits(a: string, b: string, c: string, sep: string)
    requires AllDigits(a) && AllDigits(b) && AllDigits(c) && |sep| == 1 && sep[0] != '#'
    ensures FitsMask(a + sep + b + sep + c, Hashes(|a|) + sep + Hashes(|b|) + sep + Hashes(|c|))
  {
    var s := a + sep + b + sep + c;
    var mask := Hashes(|a|) + sep + Hashes(|b|) + sep + Hashes(|c|);
    forall i | 0 <= i < |s| ensures if mask[i] == '#' then IsDigit(s[i]) else s[i] == mask[i] {
      var p, q := |a| + 1, |a| + 1 + |b| + 1;
      if i < |a| { assert s[i] == a[i] && mask[i] == '#'; }
      else if i == |a| { assert s[i] == sep[0] == mask[i]; }
      else if i < p + |b| { assert s[i] == b[i - p] && mask[i] == '#'; }
      else if i == p + |b| { assert s[i] == sep[0] == mask[i]; }
      else { assert s[i] == c[i - q] && mask[i] == '#'; }
    }
  }

  /** Formatting a date and reading its fields back gives the date. */
  lemma FormatFieldsOf(d: Date, f: DateFormat)
    requires 0 <= d.year < 10000 && 0 <= d.month < 100 && 0 <= d.day < 100
    ensures FitsMask(Format(d, f), f.Mask()) && FieldsOf(Format(d, f), f) == d
  {
    var s := Format(d, f);
    assert Pow10(2) == 100 && Pow10(4) == 10000;
    DigitsValuePad(d.year, 4);
    DigitsValuePad(d.month, 2);
    DigitsValuePad(d.day, 2);
    DateMasks();
    match f
    case DayFirst =>
      var a, b, c := Pad(d.day, 2), Pad(d.month, 2), Pad(d.year, 4);
      JoinedFits(a, b, c, ".");
      assert s[..2] == a && s[3..5] == b && s[6..10] == c;
    case YearFirst =>
      var a, b, c := Pad(d.year, 4), Pad(d.month, 2), Pad(d.day, 2);
      JoinedFits(a, b, c, "-");
      assert s[..4] == a && s[5..7] == b && s[8..] == c;
  }

  /** Round trip: a formatted date is accepted exactly when it is a real calendar date. */
  lemma ValidateDateOfFormat(d: Date, f: DateFormat)
    requires 0 <= d.year < 10000 && 0 <= d.month < 100 && 0 <= d.day < 100
    ensures ValidateDate(Format(d, f)) <==> IsCalendarDate(d)
  {
    FormatFieldsOf(d, f);
    MasksDisjoint(Format(d, f));
  }

  /** A digit string's value is below ten to the power of its length. */
  lemma {:induction false} DigitsValueBound(s: string)
    requires AllDigits(s)
    ensures DigitsValue(s) < Pow10(|s|)
  {
    if s != [] {
      DigitsValueBound(s[..|s| - 1]);
    }
  }

  /** The characters of `s` from `lo` to `hi` stand where the mask has '#', so they are digits. */
  lemma MaskedDigits(s: string, mask: string, lo: int, hi: int)
    requires FitsMask(s, mask) && 0 <= lo <= hi <= |s|
    requires forall i :: lo <= i < hi ==> mask[i] == '#'
    ensures AllDigits(s[lo..hi])
  {
    forall i | 0 <= i < hi - lo ensures IsDigit(s[lo..hi][i]) {
      assert s[lo..hi][i] == s[lo + i];
    }
  }

  /** Three digit fields joined by a separator are the padded writing of their values. */
  lemma JoinedFields(s: string, a: string, b: string, c: string, sep: string)
    requires AllDigits(a) && AllDigits(b) && AllDigits(c)
    requires s == a + sep + b + sep + c
    ensures s == Pad(DigitsValue(a), |a|) + sep + Pad(DigitsValue(b), |b|) + sep + Pad(DigitsValue(c), |c|)
  {
    PadDigitsValue(a);
    PadDigitsValue(b);
    PadDigitsValue(c);
  }

  /** A string of the day-first shape is the day-first writing of its own fields. */
  lemma DayFirstIsFormat(s: string)
    requires FitsMask(s, DayFirst.Mask())
    ensures 0 <= FieldsOf(s, DayFirst).year < 10000 && 0 <= FieldsOf(s, DayFirst).month < 100
    ensures 0 <= FieldsOf(s, DayFirst).day < 100
    ensures s == Format(FieldsOf(s, DayFirst), DayFirst)
  {
    var mask := DayFirst.Mask();
    var day, month, year := s[..2], s[3..5], s[6..10];
    MaskedDigits(s, mask, 0, 2);
    MaskedDigits(s, mask, 3, 5);
    MaskedDigits(s, mask, 6, 10);
    assert s[2] == mask[2] && s[5] == mask[5];
    assert s == day + "." + month + "." + year;
    DigitsValueBound(day);
    DigitsValueBound(month);
    DigitsValueBound(year);
    assert Pow10(2) == 100 && Pow10(4) == 10000;
    JoinedFields(s, day, month, year, ".");
  }

  /** A string of the year-first shape is the year-first writing of its own fields. */
  lemma YearFirstIsFormat(s: string)
    requires FitsMask(s, YearFirst.Mask())
    ensures 0 <= FieldsOf(s, YearFirst).year < 10000 && 0 <= FieldsOf(s, YearFirst).month < 100
    ensures 0 <= FieldsOf(s, YearFirst).day < 100
    ensures s == Format(FieldsOf(s, YearFirst), YearFirst)
  {
    var mask := YearFirst.Mask();
    var year, month, day := s[..4], s[5..7], s[8..];
    MaskedDigits(s, mask, 0, 4);
    MaskedDigits(s, mask, 5, 7);
    MaskedDigits(s, mask, 8, 10);
    assert s[4] == mask[4] && s[7] == mask[7];
    assert s == year + "-" + month + "-" + day;
    DigitsValueBound(year);
    DigitsValueBound(month);
    DigitsValueBound(day);
    assert Pow10(2) == 100 && Pow10(4) == 10000;
    JoinedFields(s, year, month, day, "-");
  }

  /** The other way round: an accepted value is the canonical writing of the date it names. */
  lemma ValidateDateIsFormat(value: string)
    requires ValidateDate(value)
    ensures exists f: DateFormat :: IsDateIn(value, f) && value == Format(FieldsOf(value, f), f)
  {
    if IsDateIn(value, DayFirst) {
      DayFirstIsFormat(value);
      assert IsDateIn(value, DayFirst) && value == Format(FieldsOf(value, DayFirst), DayFirst);
    } else {
      YearFirstIsFormat(value);
      assert IsDateIn(value, YearFirst) && value == Format(FieldsOf(value, YearFirst), YearFirst);
    }
  }

  // --------------------------------------------------------------------- email

  /**
   * The language of r'^[a-zA-Z0-9._%+-]+@[a-zA-Z0-9.-]+\.[a-zA-Z]{2,}$' read
   * as a whole-string match: a non-empty local part, '@', a non-empty domain
   * part, '.', and at least two ASCII letters.
   */
  ghost predicate InEmailLanguage(s: string)
  {
    exists at, dot | 0 < at < dot < |s| ::
      EmailSplit(s, at, dot)
  }

  ghost predicate EmailSplit(s: string, at: int, dot: int)
  {
    0 < at && at + 1 < dot && dot + 2 < |s| &&
    s[at] == '@' && s[dot] == '.' &&
    AllLocalChars(s[..at]) && AllDomainChars(s[at + 1..dot]) && AllLetters(s[dot + 1..])
  }

  /**
   * Deciding the email regex: the '@' must be the first one (no later
   * character class admits '@'), and the '.' before the letters the last '.'
   * (letters exclude '.'), so both split points are determined.
   */
  function EmailRegexMatches(s: string): (ok: bool)
    ensures ok <==> InEmailLanguage(s)
  {
    var at := Find(s, '@', 0);
    if at <= 0 then
      assert !InEmailLanguage(s) by {
        forall a, d | 0 < a < d < |s| ensures !EmailSplit(s, a, d) {
          if at == 0 {
            assert !IsLocalChar(s[..a][0]);
          }
        }
      }
      false
    else
      var rest := s[at + 1..];
      var dot := RFind(rest, '.');
      var ok := AllLocalChars(s[..at]) && AllDomainChars(rest) && dot >= 1 && |rest| - dot - 1 >= 2
        && AllLetters(rest[dot + 1..]);
      assert ok ==> EmailSplit(s, at, at + 1 + dot) by {
        if ok {
          assert s[at + 1..at + 1 + dot] == rest[..dot];
          assert s[at + 1 + dot + 1..] == rest[dot + 1..];
        }
      }
      assert InEmailLanguage(s) ==> ok by {
        if InEmailLanguage(s) {
          var a, d :| 0 < a < d < |s| && EmailSplit(s, a, d);
          EmailSplitDetermined(s, a, d, at, rest, dot);
        }
      }
      ok
  }

  /** The '@' of a split is the first '@' of the string. */
  lemma SplitAtIsFirst(s: string, a: int, d: int, at: int)
    requires EmailSplit(s, a, d)
    requires 0 < at < |s| && s[at] == '@' && forall i :: 0 <= i < at ==> s[i] != '@'
    ensures at == a
  {
    forall i | 0 <= i < a ensures s[i] != '@' {
      assert IsLocalChar(s[..a][i]);
    }
  }

  /** After the '@' of a split only domain characters follow, and the split's '.' is the last '.'. */
  lemma SplitDotIsLast(s: string, a: int, d: int, rest: string)
    requires EmailSplit(s, a, d) && rest == s[a + 1..]
    ensures AllDomainChars(rest)
    ensures RFind(rest, '.') == d - a - 1
  {
    forall i | 0 <= i < |rest| ensures IsDomainChar(rest[i]) {
      var j := a + 1 + i;
      if j < d { assert s[a + 1..d][i] == s[j]; }
      else if j > d { assert s[d + 1..][j - d - 1] == s[j]; }
    }
    var k := d - a - 1;
    assert rest[k] == '.';
    forall i | k < i < |rest| ensures rest[i] != '.' {
      assert rest[i] == s[d + 1..][i - k - 1];
    }
  }

  lemma EmailSplitDetermined(s: string, a: int, d: int, at: int, rest: string, dot: int)
    requires EmailSplit(s, a, d)
    requires 0 < at < |s| && s[at] == '@' && forall i :: 0 <= i < at ==> s[i] != '@'
    requires rest == s[at + 1..] && dot == RFind(rest, '.')
    ensures AllLocalChars(s[..at]) && AllDomainChars(rest) && dot >= 1 && |rest| - dot - 1 >= 2
    ensures AllLetters(rest[dot + 1..])
  {
    SplitAtIsFirst(s, a, d, at);
    SplitDotIsLast(s, a, d, rest);
    assert rest[dot + 1..] == s[d + 1..];
  }

  /** A local part, '@', a domain part, '.' and two or more letters form an address of the language. */
  lemma EmailOfParts(local: string, domain: string, tld: string)
    requires |local| > 0 && AllLocalChars(local)
    requires |domain| > 0 && AllDomainChars(domain)
    requires |tld| >= 2 && AllLetters(tld)
    ensures InEmailLanguage(local + "@" + domain + "." + tld)
  {
    var s := local + "@" + domain + "." + tld;
    var at, dot := |local|, |local| + 1 + |domain|;
    assert s[..at] == local;
    assert s[at + 1..dot] == domain;
    assert s[dot + 1..] == tld;
    assert EmailSplit(s, at, dot);
  }

  /** re.match(email pattern, value), with `$` also matching before a final "\n". */
  predicate MatchesEmailPattern(s: string)
  {
    EmailRegexMatches(s) || (EndsWithNewline(s) && EmailRegexMatches(s[..|s| - 1]))
  }

  /** validate_email */
  function ValidateEmail(value: string): (ok: bool)
    ensures ok ==> !Contains(value, "..") && !StartsWith(value, ".") && !EndsWith(value, ".")
    ensures ok <==> !Contains(value, "..") && !StartsWith(value, ".") && !EndsWith(value, ".") &&
                    (InEmailLanguage(value) || (EndsWithNewline(value) && InEmailLanguage(value[..|value| - 1])))
  {
    if Contains(value, "..") || StartsWith(value, ".") || EndsWith(value, ".") then false
    else MatchesEmailPattern(value)
  }

  /** An accepted email, without the final newline `$` tolerates, has exactly one '@'. */
  lemma EmailHasOneAt(s: string)
    requires InEmailLanguage(s)
    ensures Count(s, '@') == 1
  {
    var a, d :| 0 < a < d < |s| && EmailSplit(s, a, d);
    assert s == s[..a] + [s[a]] + s[a + 1..];
    var rest := s[a + 1..];
    forall i | 0 <= i < |rest| ensures rest[i] != '@' {
      var j := a + 1 + i;
      if j < d { assert s[a + 1..d][i] == s[j]; }
      else if j > d { assert s[d + 1..][j - d - 1] == s[j]; }
    }
    forall i | 0 <= i < a ensures s[..a][i] != '@' {
      assert IsLocalChar(s[..a][i]);
    }
    CountAbsent(s[..a], '@');
    CountAbsent(s[a + 1..], '@');
    CountConcat(s[..a], [s[a]], '@');
    CountConcat(s[..a] + [s[a]], s[a + 1..], '@');
    assert [s[a]][..0] == [];
  }

  /** Every value validate_email accepts has exactly one '@'. */
  lemma ValidateEmailHasOneAt(value: string)
    requires ValidateEmail(value)
    ensures Count(value, '@') == 1
  {
    if InEmailLanguage(value) {
      EmailHasOneAt(value);
    } else {
      var w := value[..|value| - 1];
      EmailHasOneAt(w);
      assert value == w + "\n";
      CountConcat(w, "\n", '@');
    }
  }

  // ----------------------------------------------------------------- detection

  /** detect_field_type: the first check that holds, in the order date, phone, email. */
  function DetectFieldType(value: string): (t: string)
    ensures t == "date" || t == "phone" || t == "email" || t == "text"
  {
    if ValidateDate(value) then "date"
    else if ValidatePhone(value) then "phone"
    else if ValidateEmail(value) then "email"
    else "text"
  }

  /** A date has ten characters, none of them '@'. */
  lemma DateHasNoAt(value: string)
    requires ValidateDate(value)
    ensures |value| == 10 && forall i :: 0 <= i < |value| ==> value[i] != '@'
  {
    var f := if IsDateIn(value, DayFirst) then DayFirst else YearFirst;
    assert FitsMask(value, f.Mask());
    forall i | 0 <= i < |value| ensures value[i] != '@' {
      assert f.Mask()[i] != '@';
    }
  }

  /** A phone has sixteen characters, or seventeen with the final newline, none of them '@'. */
  lemma PhoneHasNoAt(value: string)
    requires ValidatePhone(value)
    ensures 16 <= |value| <= 17 && forall i :: 0 <= i < |value| ==> value[i] != '@'
  {
    var p := if PhoneLayout(value) then value else value[..|value| - 1];
    PhoneMaskIsLayout(p);
    forall i | 0 <= i < |value| ensures value[i] != '@' {
      if i < |p| {
        assert p[i] == value[i];
        assert PhoneMask[i] != '@';
      }
    }
  }

  /** A value without '@' is never an email. */
  lemma NoAtNotEmail(value: string)
    requires forall i :: 0 <= i < |value| ==> value[i] != '@'
    ensures !ValidateEmail(value)
  {
    forall a, d | 0 < a < d < |value| ensures !EmailSplit(value, a, d) { }
    if EndsWithNewline(value) {
      var w := value[..|value| - 1];
      forall a, d | 0 < a < d < |w| ensures !EmailSplit(w, a, d) {
        assert w[a] == value[a];
      }
    }
  }

  /** The three accepted languages are pairwise disjoint. */
  lemma ValidatorsExclusive(value: string)
    ensures !(ValidateDate(value) && ValidatePhone(value))
    ensures !(ValidateDate(value) && ValidateEmail(value))
    ensures !(ValidatePhone(value) && ValidateEmail(value))
  {
    if ValidateDate(value) {
      DateHasNoAt(value);
      NoAtNotEmail(value);
    }
    if ValidatePhone(value) {
      PhoneHasNoAt(value);
      NoAtNotEmail(value);
    }
  }

  /**
   * Because the languages are disjoint, each tag is returned exactly when its
   * own validator accepts, whatever the order of the checks; "text" exactly
   * when none does.
   */
  lemma DetectFieldTypeExact(value: string)
    ensures DetectFieldType(value) == "date" <==> ValidateDate(value)
    ensures DetectFieldType(value) == "phone" <==> ValidatePhone(value)
    ensures DetectFieldType(value) == "email" <==> ValidateEmail(value)
    ensures DetectFieldType(value) == "text" <==> !ValidateDate(value) && !ValidatePhone(value) && !ValidateEmail(value)
  {
    ValidatorsExclusive(value);
  }
}
