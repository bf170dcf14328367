/**
 * The driver of code/coalesce.py: `create_file_names_df`, which reads the
 * forecast type and the issuance minute out of every extracted file's name,
 * and `main`, which coalesces each forecast type month by month and then
 * coalesces the month results once more into one output per type.
 *
 * File contents are given by a `read` function from path to rows; the
 * parquet reads and writes themselves are not modelled.
 */
module CoalesceFiles {
  import opened Wrappers
  import opened Lexing
  import opened Calendar
  import opened Observations
  import opened Coalesce

  /** A directory entry: its base name (`file.name`) and its full path (`str(file)`). */
  datatype Entry = Entry(name: string, path: string)

  /** The groups of the file-name pattern, read as numbers where they are digits. */
  datatype NameFields = NameFields(prefix: string, year: nat, month: nat, day: nat, hour: nat, minute: nat)

  /** A timestamp to the minute. */
  datatype DateTime = DateTime(year: int, month: int, day: int, hour: int, minute: int)

  /** One row of the `names` table: forecast type, issuance date and path. */
  datatype FileRow = FileRow(prefix: string, date: DateTime, path: string)

  datatype NamesError =
    | NoMatch(name: string)   // `re.match` gave None and `.groups()` raised
    | InvalidDate             // `pd.to_datetime` rejected the assembled dates

  // ---------------------------------------------------------------------
  // The file-name pattern

  predicate UpperIn(s: string, from: nat, to: nat)
    requires from <= to <= |s|
  {
    forall p :: from <= p < to ==> IsUpper(s[p])
  }

  predicate DigitsIn(s: string, from: nat, to: nat)
    requires from <= to <= |s|
  {
    forall p :: from <= p < to ==> IsDigit(s[p])
  }

  /**
   * The fixed-width stem `[A-Z]{3}Z98_[A-Z]{4}_` of a 12-character string:
   * three capitals (the forecast type), `Z98_`, four capitals (the element
   * code) and `_`.
   */
  predicate StemMatches(stem: string)
    requires |stem| == 12
  {
    && UpperIn(stem, 0, 3)
    && stem[3] == 'Z' && stem[4] == '9' && stem[5] == '8' && stem[6] == '_'
    && UpperIn(stem, 7, 11) && stem[11] == '_'
  }

  /**
   * `^([A-Z]{3})Z98_[A-Z]{4}_(\d{4})(\d{2})(\d{2})(\d{2})(\d{2})` matches at
   * the start of `name`: the pattern has no optional parts, so it occupies
   * exactly the first 24 characters, a stem and twelve digits, and anything
   * may follow.
   */
  predicate NameMatches(name: string) {
    |name| >= 24 && StemMatches(name[..12]) && AllDigits(name[12..24])
  }

  /** The groups read from a stem's type and twelve date digits: year, month, day, hour, minute. */
  function ReadFields(prefix: string, digits: string): NameFields
    requires |digits| == 12 && AllDigits(digits)
  {
    NameFields(prefix, DigitsValue(digits[..4]), DigitsValue(digits[4..6]), DigitsValue(digits[6..8]),
      DigitsValue(digits[8..10]), DigitsValue(digits[10..12]))
  }

  /** The groups of the pattern, or None where `re.match` finds no match. */
  function ParseFileName(name: string): (r: Option<NameFields>)
    ensures r.Some? <==> NameMatches(name)
  {
    if NameMatches(name) then Some(ReadFields(name[..12][..3], name[12..24])) else None
  }

  /** The stem of forecast type `prefix` and element code `element`. */
  function Stem(prefix: string, element: string): string {
    prefix + "Z98_" + element + "_"
  }

  /** The date fields written with 4, 2, 2, 2 and 2 zero-padded digits. */
  function DateDigits(f: NameFields): string {
    PadDigits(f.year, 4) + PadDigits(f.month, 2) + PadDigits(f.day, 2) + PadDigits(f.hour, 2) + PadDigits(f.minute, 2)
  }

  /** A file name carrying the fields `f` and element code `element`, followed by an arbitrary `rest`. */
  function FileName(f: NameFields, element: string, rest: string): string {
    Stem(f.prefix, element) + DateDigits(f) + rest
  }

  /** Fields that a name can carry: three capitals, and numbers that fit their digit counts. */
  predicate Representable(f: NameFields, element: string) {
    && |f.prefix| == 3 && UpperIn(f.prefix, 0, 3)
    && |element| == 4 && UpperIn(element, 0, 4)
    && f.year < 10000 && f.month < 100 && f.day < 100 && f.hour < 100 && f.minute < 100
  }

  lemma StemParts(prefix: string, element: string)
    requires |prefix| == 3 && |element| == 4
    ensures var stem := Stem(prefix, element);
      |stem| == 12 && stem[..3] == prefix && stem[7..11] == element
      && (StemMatches(stem) <==> UpperIn(prefix, 0, 3) && UpperIn(element, 0, 4))
  {
    var stem := Stem(prefix, element);
    assert forall p :: 0 <= p < 3 ==> stem[p] == prefix[p];
    assert forall p :: 7 <= p < 11 ==> stem[p] == element[p - 7];
  }

  lemma StemSound(stem: string)
    requires |stem| == 12 && StemMatches(stem)
    ensures stem == Stem(stem[..3], stem[7..11])
  {
    assert stem[3..7] == "Z98_";
    assert stem == stem[..3] + stem[3..7] + stem[7..11] + stem[11..];
  }

  lemma DateDigitsRoundTrip(f: NameFields)
    requires f.year < 10000 && f.month < 100 && f.day < 100 && f.hour < 100 && f.minute < 100
    ensures |DateDigits(f)| == 12 && AllDigits(DateDigits(f))
    ensures ReadFields(f.prefix, DateDigits(f)) == f
  {
    var d := DateDigits(f);
    assert d[..4] == PadDigits(f.year, 4);
    assert d[4..6] == PadDigits(f.month, 2);
    assert d[6..8] == PadDigits(f.day, 2);
    assert d[8..10] == PadDigits(f.hour, 2);
    assert d[10..12] == PadDigits(f.minute, 2);
    PadDigitsRoundTrip(f.year, 4);
    PadDigitsRoundTrip(f.month, 2);
    PadDigitsRoundTrip(f.day, 2);
    PadDigitsRoundTrip(f.hour, 2);
    PadDigitsRoundTrip(f.minute, 2);
  }

  lemma DateDigitsSound(prefix: string, digits: string)
    requires |digits| == 12 && AllDigits(digits)
    ensures var f := ReadFields(prefix, digits);
      f.year < 10000 && f.month < 100 && f.day < 100 && f.hour < 100 && f.minute < 100
      && DateDigits(f) == digits
  {
    var f := ReadFields(prefix, digits);
    DigitsValuePadded(digits[..4]);
    DigitsValuePadded(digits[4..6]);
    DigitsValuePadded(digits[6..8]);
    DigitsValuePadded(digits[8..10]);
    DigitsValuePadded(digits[10..12]);
    JoinFields(PadDigits(f.year, 4), PadDigits(f.month, 2), PadDigits(f.day, 2), PadDigits(f.hour, 2),
      PadDigits(f.minute, 2), digits);
  }

  /** Twelve characters are the concatenation of their 4-, 2-, 2-, 2- and 2-character fields. */
  lemma JoinFields(y: string, mo: string, d: string, h: string, mi: string, digits: string)
    requires |digits| == 12
    requires y == digits[..4] && mo == digits[4..6] && d == digits[6..8] && h == digits[8..10] && mi == digits[10..12]
    ensures y + mo + d + h + mi == digits
  {
    PrefixJoin(digits, 4, 6);
    PrefixJoin(digits, 6, 8);
    PrefixJoin(digits, 8, 10);
    PrefixJoin(digits, 10, 12);
    assert digits[..12] == digits;
  }

  lemma PrefixJoin(s: string, j: nat, k: nat)
    requires j <= k <= |s|
    ensures s[..j] + s[j..k] == s[..k]
  {
  }

  lemma SplitName(a: string, b: string, c: string)
    requires |a| == 12 && |b| == 12
    ensures var name := a + b + c; name[..12] == a && name[12..24] == b && name[24..] == c
  {
  }

  /** Writing the fields into a name and parsing it gives the fields back, whatever follows them. */
  lemma ParseFormatRoundTrip(f: NameFields, element: string, rest: string)
    requires Representable(f, element)
    ensures ParseFileName(FileName(f, element, rest)) == Some(f)
  {
    StemParts(f.prefix, element);
    DateDigitsRoundTrip(f);
    SplitName(Stem(f.prefix, element), DateDigits(f), rest);
  }

  /** Conversely, every name the pattern accepts is built that way from its own groups. */
  lemma ParseFileNameSound(name: string)
    requires ParseFileName(name).Some?
    ensures var f := ParseFileName(name).value;
      Representable(f, name[7..11]) && name == FileName(f, name[7..11], name[24..])
  {
    var stem := name[..12];
    var f := ParseFileName(name).value;
    StemSound(stem);
    StemParts(stem[..3], stem[7..11]);
    DateDigitsSound(stem[..3], name[12..24]);
    assert stem[7..11] == name[7..11];
    assert name == stem + name[12..24] + name[24..];
  }

  // ---------------------------------------------------------------------
  // Dates

  predicate DateTimeLe(a: DateTime, b: DateTime) {
    if a.year != b.year then a.year < b.year
    else if a.month != b.month then a.month < b.month
    else if a.day != b.day then a.day < b.day
    else if a.hour != b.hour then a.hour < b.hour
    else a.minute <= b.minute
  }

  /** The first and last whole minutes a pandas nanosecond timestamp can hold. */
  const EarliestMinute := DateTime(1677, 9, 21, 0, 13)
  const LatestMinute := DateTime(2262, 4, 11, 23, 47)

  /** A real minute of the calendar: a valid date, hour 0..23 and minute 0..59. */
  predicate CalendarMinute(t: DateTime) {
    ValidDate(Date(t.year, t.month, t.day)) && 0 <= t.hour < 24 && 0 <= t.minute < 60
  }

  /** A calendar minute that a pandas timestamp can hold. */
  predicate ValidDateTime(t: DateTime) {
    && CalendarMinute(t)
    && DateTimeLe(EarliestMinute, t) && DateTimeLe(t, LatestMinute)
  }

  /**
   * The minutes since 1970-01-01 00:00 of midnight of the date plus `hour`
   * hours and `minute` minutes, however large those are.
   */
  function MinuteOf(t: DateTime): int
    requires ValidDate(Date(t.year, t.month, t.day))
  {
    DaysFromCivil(Date(t.year, t.month, t.day)) * 1440 + t.hour * 60 + t.minute
  }

  /** The calendar minute `n` minutes after 1970-01-01 00:00 (the divisions floor). */
  function MinuteToDateTime(n: int): (t: DateTime)
    ensures CalendarMinute(t) && MinuteOf(t) == n
  {
    var d := CivilFromDays(n / 1440);
    var rem := n % 1440;
    assert (rem / 60) * 60 + rem % 60 == rem;
    DateTime(d.year, d.month, d.day, rem / 60, rem % 60)
  }

  /** Day numbers follow the calendar: an earlier date has a smaller day number. */
  lemma DayOrder(a: Date, b: Date)
    requires ValidDate(a) && ValidDate(b)
    requires a.year < b.year || (a.year == b.year && (a.month < b.month || (a.month == b.month && a.day < b.day)))
    ensures DaysFromCivil(a) < DaysFromCivil(b)
  {
    DaysBeforeNextMonth(a.year, a.month);
    if a.year < b.year {
      if a.month < 12 {
        DaysBeforeMonthMonotone(a.year, a.month, 12);
      }
      DaysBeforeNextMonth(a.year, 12);
      DaysBeforeNextYear(a.year);
      if a.year + 1 < b.year {
        DaysBeforeYearMonotone(a.year, b.year);
      }
    } else if a.month < b.month {
      DaysBeforeMonthMonotone(a.year, a.month, b.month);
    }
  }

  /** For calendar minutes the field-by-field order is the order in time, and the minute count is one to one. */
  lemma MinuteOrder(a: DateTime, b: DateTime)
    requires CalendarMinute(a) && CalendarMinute(b)
    ensures DateTimeLe(a, b) <==> MinuteOf(a) <= MinuteOf(b)
    ensures MinuteOf(a) == MinuteOf(b) ==> a == b
  {
    var da, db := Date(a.year, a.month, a.day), Date(b.year, b.month, b.day);
    if da != db {
      if a.year < b.year || (a.year == b.year && (a.month < b.month || (a.month == b.month && a.day < b.day))) {
        DayOrder(da, db);
      } else {
        DayOrder(db, da);
      }
    }
  }

  function DateTimeOf(f: NameFields): DateTime {
    DateTime(f.year, f.month, f.day, f.hour, f.minute)
  }

  /**
   * `pd.to_datetime` on the year..minute columns: year, month and day are
   * parsed as a `%Y%m%d` date whose midnight must be a timestamp; `hour`
   * hours and `minute` minutes are then added, rolling over into later days
   * and months when they exceed 23 and 59, and the sum must still be a
   * timestamp.
   */
  predicate Assembles(f: NameFields) {
    && ValidDate(Date(f.year, f.month, f.day))
    && MinuteOf(EarliestMinute) <= MinuteOf(DateTime(f.year, f.month, f.day, 0, 0))
    && MinuteOf(DateTimeOf(f)) <= MinuteOf(LatestMinute)
  }

  /** The timestamp `pd.to_datetime` assembles: a calendar minute in range, at the summed minute. */
  function AssembledDate(f: NameFields): (t: DateTime)
    requires Assembles(f)
    ensures ValidDateTime(t)
    ensures MinuteOf(t) == MinuteOf(DateTimeOf(f))
  {
    var t := MinuteToDateTime(MinuteOf(DateTimeOf(f)));
    MinuteOrder(EarliestMinute, t);
    MinuteOrder(t, LatestMinute);
    t
  }

  /** Fields that already name a calendar minute are taken as they are. */
  lemma AssembledInRange(f: NameFields)
    requires Assembles(f) && f.hour < 24 && f.minute < 60
    ensures AssembledDate(f) == DateTimeOf(f)
  {
    MinuteOrder(AssembledDate(f), DateTimeOf(f));
  }

  /**
   * Away from the first day of the timestamp range, fields that name a
   * calendar minute assemble exactly when that minute is in range.
   */
  lemma AssemblesExactly(f: NameFields)
    requires CalendarMinute(DateTimeOf(f)) && (f.year, f.month, f.day) != (1677, 9, 21)
    ensures Assembles(f) <==> ValidDateTime(DateTimeOf(f))
  {
    var t := DateTimeOf(f);
    MinuteOrder(EarliestMinute, t);
    MinuteOrder(t, LatestMinute);
    if DateTimeLe(EarliestMinute, t) {
      DayOrder(Date(1677, 9, 21), Date(f.year, f.month, f.day));
    }
  }

  /**
   * An hour past 23 on the last day of a month rolls over into the next
   * month: a file named for January 31 at hour 25 is dated February 1, 01:00.
   */
  lemma AssemblesRollsOver(f: NameFields)
    requires Assembles(f) && 1 <= f.month < 12 && f.day == DaysInMonth(f.year, f.month)
    requires 24 <= f.hour < 48 && f.minute < 60
    ensures AssembledDate(f) == DateTime(f.year, f.month + 1, 1, f.hour - 24, f.minute)
  {
    var t := DateTime(f.year, f.month + 1, 1, f.hour - 24, f.minute);
    DaysBeforeNextMonth(f.year, f.month);
    assert MinuteOf(t) == MinuteOf(DateTimeOf(f));
    MinuteOrder(AssembledDate(f), t);
  }

  /** No name dated 1677-09-21 assembles: that day's midnight precedes the earliest timestamp. */
  lemma EarliestDayRejected(f: NameFields)
    requires f.year == 1677 && f.month == 9 && f.day == 21
    ensures !Assembles(f)
  {
  }

  /** A directory entry whose name parses to fields `pd.to_datetime` accepts. */
  predicate Usable(e: Entry) {
    ParseFileName(e.name).Some? && Assembles(ParseFileName(e.name).value)
  }

  /** Entry `i` is the first whose name the pattern rejects. */
  predicate FirstMismatch(files: seq<Entry>, i: int) {
    0 <= i < |files| && !NameMatches(files[i].name) && forall j :: 0 <= j < i ==> NameMatches(files[j].name)
  }

  function RowOf(f: NameFields, path: string): FileRow
    requires Assembles(f)
  {
    FileRow(f.prefix, AssembledDate(f), path)
  }

  /**
   * `create_file_names_df`: one row per entry, in entry order. The first
   * entry whose name does not match makes it fail; after all names matched,
   * any date pandas rejects makes it fail.
   */
  method CreateFileNames(files: seq<Entry>) returns (r: Result<seq<FileRow>, NamesError>)
    ensures r.Success? <==> forall i :: 0 <= i < |files| ==> Usable(files[i])
    ensures r.Success? ==> |r.value| == |files|
    ensures r.Success? ==> forall i :: 0 <= i < |files| ==>
      r.value[i] == RowOf(ParseFileName(files[i].name).value, files[i].path)
    ensures r.Failure? && r.error.NoMatch? ==> exists i :: FirstMismatch(files, i) && files[i].name == r.error.name
    ensures r.Failure? && r.error.InvalidDate? ==> forall i :: 0 <= i < |files| ==> NameMatches(files[i].name)
  {
    var allRows: seq<NameFields> := [];
    for i := 0 to |files|
      invariant |allRows| == i
      invariant forall j :: 0 <= j < i ==> ParseFileName(files[j].name) == Some(allRows[j])
    {
      var groups := ParseFileName(files[i].name);
      if groups.None? {
        return Failure(NoMatch(files[i].name));
      }
      allRows := allRows + [groups.value];
    }
    if exists j :: 0 <= j < |allRows| && !Assembles(allRows[j]) {
      return Failure(InvalidDate);
    }
    r := Success(seq(|files|, j requires 0 <= j < |files| => RowOf(allRows[j], files[j].path)));
  }

  // ---------------------------------------------------------------------
  // Months and forecast types

  /** A calendar month, as `to_period('M')` gives it. */
  datatype Period = Period(year: int, month: int)

  function MonthOf(row: FileRow): Period {
    Period(row.date.year, row.date.month)
  }

  /** `month.start_time <= date <= month.end_time`, with the end at the month's last minute. */
  predicate InMonth(t: DateTime, p: Period) {
    && 1 <= p.month <= 12
    && DateTimeLe(DateTime(p.year, p.month, 1, 0, 0), t)
    && DateTimeLe(t, DateTime(p.year, p.month, DaysInMonth(p.year, p.month), 23, 59))
  }

  /** For a valid timestamp the period test is exactly "same year and same month". */
  lemma InMonthExactly(t: DateTime, p: Period)
    requires ValidDateTime(t)
    ensures InMonth(t, p) <==> t.year == p.year && t.month == p.month
  {
  }

  /** Index of the first occurrence of `x` in `s`. */
  function FirstIndex<T(==,!new)>(s: seq<T>, x: T): (i: nat)
    requires x in s
    ensures i < |s| && s[i] == x && forall j :: 0 <= j < i ==> s[j] != x
  {
    if s[0] == x then 0 else 1 + FirstIndex(s[1..], x)
  }

  /** pandas `unique`: the distinct values of `s` in order of first appearance. */
  function Unique<T(==,!new)>(s: seq<T>): (r: seq<T>)
    ensures forall x :: x in r <==> x in s
    ensures forall i, j :: 0 <= i < j < |r| ==> r[i] != r[j]
  {
    if s == [] then []
    else
      var u := Unique(s[..|s| - 1]);
      var x := s[|s| - 1];
      assert forall y :: y in s <==> y in s[..|s| - 1] || y == x by {
        assert s == s[..|s| - 1] + [x];
      }
      if x in u then u else u + [x]
  }

  /** The values of `Unique` come in the order in which they first appear. */
  lemma {:induction false} UniqueFirstAppearance<T(!new)>(s: seq<T>, i: nat, j: nat)
    requires i < j < |Unique(s)|
    ensures FirstIndex(s, Unique(s)[i]) < FirstIndex(s, Unique(s)[j])
  {
    var n := |s| - 1;
    var init := s[..n];
    var u := Unique(init);
    var r := Unique(s);
    assert s == init + [s[n]];
    if j < |u| {
      UniqueFirstAppearance(init, i, j);
      FirstIndexOfPrefix(init, s, u[i]);
      FirstIndexOfPrefix(init, s, u[j]);
    } else {
      FirstIndexOfPrefix(init, s, u[i]);
      assert r[j] == s[n] && s[n] !in init;
    }
  }

  lemma FirstIndexOfPrefix<T(!new)>(init: seq<T>, s: seq<T>, x: T)
    requires x in init && init <= s
    ensures FirstIndex(s, x) == FirstIndex(init, x)
  {
    var a := FirstIndex(s, x);
    var b := FirstIndex(init, x);
    assert s[b] == x;
  }

  function Prefixes(names: seq<FileRow>): (r: seq<string>)
    ensures |r| == |names| && forall i :: 0 <= i < |names| ==> r[i] == names[i].prefix
  {
    seq(|names|, i requires 0 <= i < |names| => names[i].prefix)
  }

  function Periods(names: seq<FileRow>): (r: seq<Period>)
    ensures |r| == |names| && forall i :: 0 <= i < |names| ==> r[i] == MonthOf(names[i])
  {
    seq(|names|, i requires 0 <= i < |names| => MonthOf(names[i]))
  }

  /** Some file of the table is of forecast type `t`. */
  predicate HasType(names: seq<FileRow>, t: string) {
    exists i :: 0 <= i < |names| && names[i].prefix == t
  }

  /** Some file of the table is dated within month `p`. */
  predicate HasMonth(names: seq<FileRow>, p: Period) {
    exists i :: 0 <= i < |names| && MonthOf(names[i]) == p
  }

  /** `names['prefix'].unique()`: every file's forecast type, each listed once. */
  function Types(names: seq<FileRow>): (r: seq<string>)
    ensures forall t :: t in r <==> HasType(names, t)
    ensures forall i, j :: 0 <= i < j < |r| ==> r[i] != r[j]
  {
    var ps := Prefixes(names);
    assert forall t :: t in ps <==> HasType(names, t) by {
      forall t ensures t in ps <==> HasType(names, t) {
        if t in ps {
          var i :| 0 <= i < |ps| && ps[i] == t;
        }
      }
    }
    Unique(ps)
  }

  /** `names['date'].dt.to_period('M').unique()`: every file's month, each listed once. */
  function Months(names: seq<FileRow>): (r: seq<Period>)
    ensures forall p :: p in r <==> HasMonth(names, p)
    ensures forall i, j :: 0 <= i < j < |r| ==> r[i] != r[j]
  {
    var ps := Periods(names);
    assert forall p :: p in ps <==> HasMonth(names, p) by {
      forall p ensures p in ps <==> HasMonth(names, p) {
        if p in ps {
          var i :| 0 <= i < |ps| && ps[i] == p;
        }
      }
    }
    Unique(ps)
  }

  /** The files of forecast type `t` dated within month `p`, in table order. */
  function Matching(names: seq<FileRow>, t: string, p: Period): (r: seq<FileRow>)
    ensures forall x :: x in r <==> x in names && x.prefix == t && InMonth(x.date, p)
  {
    if names == [] then []
    else
      var prev := Matching(names[..|names| - 1], t, p);
      var x := names[|names| - 1];
      assert forall y :: y in names <==> y in names[..|names| - 1] || y == x by {
        assert names == names[..|names| - 1] + [x];
      }
      if x.prefix == t && InMonth(x.date, p) then prev + [x] else prev
  }

  /** The masks keep table order: selecting from a concatenation selects from each part in turn. */
  lemma {:induction false} MatchingAppend(a: seq<FileRow>, b: seq<FileRow>, t: string, p: Period)
    ensures Matching(a + b, t, p) == Matching(a, t, p) + Matching(b, t, p)
  {
    if b == [] {
      assert a + b == a;
    } else {
      var init, last := b[..|b| - 1], b[|b| - 1];
      var kept := if last.prefix == t && InMonth(last.date, p) then [last] else [];
      calc {
        Matching(a + b, t, p);
      == { assert a + b == (a + init) + [last]; MatchingSnoc(a + init, last, t, p); }
        Matching(a + init, t, p) + kept;
      == { MatchingAppend(a, init, t, p); }
        (Matching(a, t, p) + Matching(init, t, p)) + kept;
      ==
        Matching(a, t, p) + (Matching(init, t, p) + kept);
      == { assert b == init + [last]; MatchingSnoc(init, last, t, p); }
        Matching(a, t, p) + Matching(b, t, p);
      }
    }
  }

  /** A trailing file is selected iff it has the type and lies in the month. */
  lemma MatchingSnoc(s: seq<FileRow>, x: FileRow, t: string, p: Period)
    ensures Matching(s + [x], t, p) == if x.prefix == t && InMonth(x.date, p) then Matching(s, t, p) + [x] else Matching(s, t, p)
  {
    assert (s + [x])[..|s|] == s;
  }

  /** A selected file is kept as many times as the table lists it, any other file never. */
  lemma {:induction false} MatchingCounts(names: seq<FileRow>, t: string, p: Period, x: FileRow)
    ensures multiset(Matching(names, t, p))[x] == if x.prefix == t && InMonth(x.date, p) then multiset(names)[x] else 0
  {
    if names != [] {
      var n := |names| - 1;
      MatchingCounts(names[..n], t, p, x);
      assert names == names[..n] + [names[n]];
      MatchingSnoc(names[..n], names[n], t, p);
    }
  }

  /**
   * Each file of a type belongs to exactly one month of `Months`: its own
   * month is listed (once, as `Months` has no repeats), and the file is in
   * the batch of a month exactly when that month is its own. So the monthly
   * batches of a type partition its files.
   */
  lemma FileInOneMonth(names: seq<FileRow>, i: nat, p: Period)
    requires i < |names| && ValidDateTime(names[i].date)
    ensures MonthOf(names[i]) in Months(names)
    ensures names[i] in Matching(names, names[i].prefix, p) <==> p == MonthOf(names[i])
  {
    assert HasMonth(names, MonthOf(names[i]));
    InMonthExactly(names[i].date, p);
  }

  function Paths(rows: seq<FileRow>): (r: seq<string>)
    ensures |r| == |rows| && forall i :: 0 <= i < |rows| ==> r[i] == rows[i].path
  {
    seq(|rows|, i requires 0 <= i < |rows| => rows[i].path)
  }

  function ReadAll(paths: seq<string>, read: string -> seq<Observation>): (r: seq<seq<Observation>>)
    ensures |r| == |paths| && forall i :: 0 <= i < |paths| ==> r[i] == read(paths[i])
  {
    seq(|paths|, i requires 0 <= i < |paths| => read(paths[i]))
  }

  /** The rows of type `t`, one batch per month of `months` that has files of that type. */
  function MonthBatches(names: seq<FileRow>, t: string, months: seq<Period>, read: string -> seq<Observation>): (r: seq<seq<Observation>>)
    ensures |r| <= |months|
  {
    if months == [] then []
    else
      var prev := MonthBatches(names, t, months[..|months| - 1], read);
      var matching := Matching(names, t, months[|months| - 1]);
      if |matching| == 0 then prev else prev + [Concat(ReadAll(Paths(matching), read))]
  }

  /** One output file: its name under `out_dir` and its rows. */
  datatype OutputFile = OutputFile(name: string, rows: seq<Observation>)

  /**
   * The loops of `main` over forecast types and months: every type gets one
   * output named after it in lower case, holding its rows coalesced month
   * by month and then once more across months, which equals coalescing all
   * its monthly rows at once.
   */
  method CoalesceTypes(names: seq<FileRow>, read: string -> seq<Observation>) returns (outputs: seq<OutputFile>)
    requires forall i :: 0 <= i < |names| ==> ValidDateTime(names[i].date)
    ensures |outputs| == |Types(names)|
    ensures forall k :: 0 <= k < |outputs| ==>
      outputs[k] == OutputFile(Lower(Types(names)[k]) + ".parquet",
        Coalesce.Coalesce(Concat(MonthBatches(names, Types(names)[k], Months(names), read))))
  {
    var months := Months(names);
    var types := Types(names);
    outputs := [];
    for k := 0 to |types|
      invariant |outputs| == k
      invariant forall q :: 0 <= q < k ==> outputs[q] == TypeOutput(names, types[q], months, read)
    {
      var out := CoalesceType(names, types[k], months, read);
      assert out == TypeOutput(names, types[k], months, read);
      outputs := outputs + [out];
    }
  }

  /** The output of forecast type `t`: named by the lower-cased type, holding its monthly rows coalesced. */
  ghost function TypeOutput(names: seq<FileRow>, t: string, months: seq<Period>, read: string -> seq<Observation>): OutputFile {
    OutputFile(Lower(t) + ".parquet", Coalesce.Coalesce(Concat(MonthBatches(names, t, months, read))))
  }

  /**
   * One pass of the loop over forecast types: the monthly batches of type
   * `t`, coalesced and then combined. A type taken from the table has files,
   * so the combining never concatenates nothing.
   */
  method CoalesceType(names: seq<FileRow>, t: string, months: seq<Period>, read: string -> seq<Observation>)
    returns (out: OutputFile)
    requires forall i :: 0 <= i < |names| ==> ValidDateTime(names[i].date)
    requires HasType(names, t)
    requires months == Months(names)
    ensures out == OutputFile(Lower(t) + ".parquet", Coalesce.Coalesce(Concat(MonthBatches(names, t, months, read))))
  {
    var monthly := CoalesceMonths(names, t, months, read);
    ghost var i :| 0 <= i < |names| && names[i].prefix == t;
    MonthBatchesNonEmpty(names, t, months, read, i);
    var combined := LoadFiles(monthly);
    CoalesceInBatches(MonthBatches(names, t, months, read));
    out := OutputFile(Lower(t) + ".parquet", combined.value);
  }

  /** The loop of `main` over months for type `t`: one coalesced batch per month in which `t` has files. */
  method CoalesceMonths(names: seq<FileRow>, t: string, months: seq<Period>, read: string -> seq<Observation>)
    returns (monthly: seq<seq<Observation>>)
    ensures monthly == MapCoalesce(MonthBatches(names, t, months, read))
  {
    monthly := [];
    for m := 0 to |months|
      invariant monthly == MapCoalesce(MonthBatches(names, t, months[..m], read))
    {
      assert months[..m + 1][..m] == months[..m];
      var matching := Matching(names, t, months[m]);
      if |matching| > 0 {
        var data := LoadFiles(ReadAll(Paths(matching), read));
        MapCoalesceSnoc(MonthBatches(names, t, months[..m], read), Concat(ReadAll(Paths(matching), read)));
        monthly := monthly + [data.value];
      }
    }
    assert months[..|months|] == months;
  }

  /**
   * A type with a file dated in one of `months` gets at least one monthly
   * batch, so the final `load_files` of a type never concatenates nothing.
   */
  lemma {:induction false} MonthBatchesNonEmpty(names: seq<FileRow>, t: string, months: seq<Period>,
                                                read: string -> seq<Observation>, i: nat)
    requires i < |names| && names[i].prefix == t && ValidDateTime(names[i].date) && MonthOf(names[i]) in months
    ensures MonthBatches(names, t, months, read) != []
  {
    var n := |months| - 1;
    FileInOneMonth(names, i, months[n]);
    if months[n] != MonthOf(names[i]) {
      assert MonthOf(names[i]) in months[..n];
      MonthBatchesNonEmpty(names, t, months[..n], read, i);
    }
  }

  /**
   * `main` from the directory listing on: the names table, then one output
   * per forecast type; any name or date the table cannot take makes it fail
   * before anything is written.
   */
  method CoalesceDirectory(files: seq<Entry>, read: string -> seq<Observation>)
    returns (r: Result<seq<OutputFile>, NamesError>)
    ensures r.Success? <==> forall i :: 0 <= i < |files| ==> Usable(files[i])
    ensures r.Success? ==> exists names ::
      && |names| == |files|
      && (forall i :: 0 <= i < |files| ==> names[i] == RowOf(ParseFileName(files[i].name).value, files[i].path))
      && |r.value| == |Types(names)|
      && forall k :: 0 <= k < |r.value| ==>
        r.value[k] == OutputFile(Lower(Types(names)[k]) + ".parquet",
          Coalesce.Coalesce(Concat(MonthBatches(names, Types(names)[k], Months(names), read))))
  {
    var names := CreateFileNames(files);
    if names.Failure? {
      return Failure(names.error);
    }
    var outputs := CoalesceTypes(names.value, read);
    r := Success(outputs);
  }
}
