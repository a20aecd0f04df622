/**
 * Capture dates: Python's `date` and `datetime` values (always valid, so subset
 * types here), `format_date`, the `%B` month name, and the fallback order of
 * `get_date_taken` with the EXIF read, `os.path.getctime` and `strptime` as inputs.
 */
module DateUtils {
  import opened Wrappers
  import opened Text
  import opened Paths

  datatype Date = Date(year: int, month: int, day: int)

  predicate IsLeapYear(y: int) {
    y % 4 == 0 && (y % 100 != 0 || y % 400 == 0)
  }

  function DaysInMonth(year: int, month: int): int {
    if month == 2 then (if IsLeapYear(year) then 29 else 28)
    else if month == 4 || month == 6 || month == 9 || month == 11 then 30
    else 31
  }

  /** `datetime.MINYEAR <= year <= datetime.MAXYEAR`, a month, a day of that month. */
  predicate IsValidDate(d: Date) {
    1 <= d.year <= 9999 && 1 <= d.month <= 12 && 1 <= d.day <= DaysInMonth(d.year, d.month)
  }

  /** A `datetime.date`. */
  type ValidDate = d: Date | IsValidDate(d) witness Date(1, 1, 1)

  datatype DateTime = DateTime(year: int, month: int, day: int, hour: int, minute: int, second: int)

  predicate IsValidDateTime(t: DateTime) {
    IsValidDate(Date(t.year, t.month, t.day))
    && 0 <= t.hour < 24 && 0 <= t.minute < 60 && 0 <= t.second < 60
  }

  /** A `datetime.datetime` (microseconds and time zone are not modelled). */
  type ValidDateTime = t: DateTime | IsValidDateTime(t) witness DateTime(1, 1, 1, 0, 0, 0)

  /** `t.date()`: the calendar day of a timestamp. */
  function DateOf(t: ValidDateTime): ValidDate {
    Date(t.year, t.month, t.day)
  }

  /** `t.strftime("%Y_%m_%d")`. */
  function FormatDate(t: ValidDateTime): string {
    PadZeros(t.year, 4) + "_" + PadZeros(t.month, 2) + "_" + PadZeros(t.day, 2)
  }

  /**
   * The formatted date is ten characters long, and splitting it on '_' gives back
   * the year, the month and the day.
   */
  lemma FormatDateRoundTrip(t: ValidDateTime)
    ensures |FormatDate(t)| == 10
    ensures var parts := Split(FormatDate(t), '_');
            |parts| == 3 && AllDigits(parts[0]) && AllDigits(parts[1]) && AllDigits(parts[2])
            && ParseNat(parts[0]) == t.year && ParseNat(parts[1]) == t.month && ParseNat(parts[2]) == t.day
  {
    var y, m, d := PadZeros(t.year, 4), PadZeros(t.month, 2), PadZeros(t.day, 2);
    assert Pow10(2) == 100;
    assert Pow10(4) == 10000 by {
      assert Pow10(3) == 1000;
    }
    PadZerosRoundTrip(t.year, 4);
    PadZerosRoundTrip(t.month, 2);
    PadZerosRoundTrip(t.day, 2);
    assert FormatDate(t) == y + ['_'] + m + ['_'] + d;
    SplitThreeDigitGroups(y, m, d);
  }

  lemma SplitThreeDigitGroups(y: string, m: string, d: string)
    requires AllDigits(y) && AllDigits(m) && AllDigits(d)
    ensures Split(y + ['_'] + m + ['_'] + d, '_') == [y, m, d]
  {
    DigitsHaveNo(y, '_');
    DigitsHaveNo(m, '_');
    DigitsHaveNo(d, '_');
    assert y + ['_'] + m + ['_'] + d == y + ['_'] + (m + ['_'] + d);
    SplitAfterPiece(y, '_', m + ['_'] + d);
    SplitAfterPiece(m, '_', d);
  }

  /** Two timestamps with the same formatted date fall on the same day. */
  lemma FormatDateInjective(a: ValidDateTime, b: ValidDateTime)
    requires FormatDate(a) == FormatDate(b)
    ensures DateOf(a) == DateOf(b)
  {
    FormatDateRoundTrip(a);
    FormatDateRoundTrip(b);
  }

  const MonthNames: seq<string> := ["January", "February", "March", "April", "May", "June",
    "July", "August", "September", "October", "November", "December"]

  /** `strftime("%B")` under the "C" locale, which Python keeps for LC_TIME unless told otherwise. */
  function MonthName(month: int): string
    requires 1 <= month <= 12
  {
    MonthNames[month - 1]
  }

  lemma MonthNameInjective(m1: int, m2: int)
    requires 1 <= m1 <= 12 && 1 <= m2 <= 12
    requires MonthName(m1) == MonthName(m2)
    ensures m1 == m2
  {
  }

  /** An EXIF tag value: a string, or anything else (bytes, numbers). */
  datatype TagValue = StringValue(s: string) | OtherValue

  /** `Image.open(path).getexif()`: it raises, or it yields the tags. */
  datatype ExifRead = CannotOpen | Tags(tags: map<int, TagValue>)

  /**
   * What the date extractor can learn about one file: its EXIF read and
   * `datetime.fromtimestamp(os.path.getctime(path))`, `None` when that raises.
   */
  datatype ImageMeta = ImageMeta(exif: ExifRead, ctime: Option<ValidDateTime>)

  /** EXIF tag 306, DateTime. */
  const DateTimeTag := 306

  /**
   * The per-file inputs of `get_date_taken`: the metadata of each path, and
   * `datetime.strptime(s, "%Y:%m:%d %H:%M:%S")`, `None` when it raises.
   * Both are functions, so asking twice about one file gives one answer.
   */
  datatype DateSource = DateSource(meta: Path -> ImageMeta, parse: string -> Option<ValidDateTime>)

  /** `get_date_taken`: the EXIF DateTime if present, else the creation time; `None` on any error. */
  function GetDateTaken(meta: ImageMeta, parse: string -> Option<ValidDateTime>): (r: Option<ValidDateTime>)
    ensures meta.exif.CannotOpen? ==> r == None
    ensures r.Some? ==> r == meta.ctime || exists s :: r == parse(s) && meta.exif.Tags? && DateTimeTag in meta.exif.tags && meta.exif.tags[DateTimeTag] == StringValue(s)
    ensures meta.exif.Tags? && DateTimeTag !in meta.exif.tags ==> r == meta.ctime
  {
    match meta.exif
    case CannotOpen => None
    case Tags(tags) =>
      if DateTimeTag in tags then
        match tags[DateTimeTag]
        case StringValue(s) => parse(s)
        case OtherValue => None
      else meta.ctime
  }

  /**
   * Once tag 306 is present the creation time is never consulted: a tag that does
   * not parse gives `None`, not the creation time.
   */
  lemma TaggedIgnoresCtime(tags: map<int, TagValue>, c1: Option<ValidDateTime>, c2: Option<ValidDateTime>,
                           parse: string -> Option<ValidDateTime>)
    requires DateTimeTag in tags
    ensures GetDateTaken(ImageMeta(Tags(tags), c1), parse) == GetDateTaken(ImageMeta(Tags(tags), c2), parse)
    ensures tags[DateTimeTag].StringValue? ==> GetDateTaken(ImageMeta(Tags(tags), c1), parse) == parse(tags[DateTimeTag].s)
    ensures tags[DateTimeTag].StringValue? && parse(tags[DateTimeTag].s).None? ==> GetDateTaken(ImageMeta(Tags(tags), c1), parse).None?
  {
  }

  /** The date the extractor gives for `p`. */
  function DateTaken(dates: DateSource, p: Path): Option<ValidDateTime> {
    GetDateTaken(dates.meta(p), dates.parse)
  }
}
