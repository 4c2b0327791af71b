/** The archive menu of a content provider: how the length of a channel's
    archive is shown, which entries its day list holds, and which time range an
    archive entry stands for. Times are naive local datetimes counted in
    microseconds; the current time and the start of today are parameters. */
module Archive {
  import opened Text

  const Second: int := 1000000
  const Minute: int := 60 * Second
  const Hour: int := 60 * Minute
  const Day: int := 24 * Hour

  // ---------------------------------------------------------------- channel label

  datatype Unit = Hours | Days

  /** The count shown next to a channel and its unit: hours below one day,
      otherwise whole days. */
  datatype Span = Span(count: int, unit: Unit)

  function Shown(archiveHours: int): (s: Span)
    ensures archiveHours < 24 ==> s == Span(archiveHours, Hours)
    ensures archiveHours >= 24 ==> s.unit == Days && s.count >= 1
    ensures archiveHours >= 24 ==> 24 * s.count <= archiveHours < 24 * (s.count + 1)
  {
    if archiveHours < 24 then Span(archiveHours, Hours) else Span(archiveHours / 24, Days)
  }

  /** Which of the three Slovak plural forms goes with `n`. */
  function PluralIndex(n: int): (i: nat)
    ensures i < 3
    ensures i == 0 <==> n == 1
    ensures i == 1 <==> n != 1 && n < 5
    ensures i == 2 <==> n >= 5
  {
    if n == 1 then 0 else if n < 5 then 1 else 2
  }

  const HourWords: seq<string> := ["hodina", "hodiny", "hodín"]
  const DayWords: seq<string> := ["deň", "dni", "dní"]

  /** The ` [count word]` suffix of a channel's title. */
  function Suffix(archiveHours: int): string {
    var s := Shown(archiveHours);
    var words := if s.unit == Hours then HourWords else DayWords;
    " [" + IntToString(s.count) + " " + words[PluralIndex(s.count)] + "]"
  }

  /** A week of archive reads "7 dní", one day "1 deň", three hours "3 hodiny". */
  lemma SuffixExamples()
    ensures Suffix(168) == " [7 dní]"
    ensures Suffix(24) == " [1 deň]"
    ensures Suffix(47) == " [1 deň]"
    ensures Suffix(3) == " [3 hodiny]"
  {
    assert NatToString(7) == "7" && NatToString(1) == "1" && NatToString(3) == "3";
  }

  // ---------------------------------------------------------------- time ranges

  /** The three readings of an `archive_day` value. */
  datatype Reading = MinutesBack | Today | DaysBack

  function ReadingOf(archiveDay: int): (r: Reading)
    ensures r == MinutesBack <==> archiveDay > 30
    ensures r == Today <==> archiveDay == 0
    ensures r == DaysBack <==> archiveDay <= 30 && archiveDay != 0
  {
    if archiveDay > 30 then MinutesBack else if archiveDay == 0 then Today else DaysBack
  }

  datatype Range = Range(start: int, end: int)

  /** `archive_day_to_datetime_range(archive_day)`, with `now` the current time
      and `midnight` the start of today. */
  function DayRange(archiveDay: int, now: int, midnight: int): Range {
    match ReadingOf(archiveDay)
    case MinutesBack => Range(now - archiveDay * Minute, now)
    case Today => Range(midnight, now)
    case DaysBack =>
      var start := midnight - archiveDay * Day;
      Range(start, start + Day - 1)
  }

  /** The range ends now for the first two readings and covers one whole
      calendar day, up to its last microsecond, for the third. */
  lemma DayRangeShape(archiveDay: int, now: int, midnight: int)
    ensures var r := DayRange(archiveDay, now, midnight);
      && (archiveDay > 30 ==> r.end == now && r.end - r.start == archiveDay * Minute)
      && (archiveDay == 0 ==> r == Range(midnight, now))
      && (archiveDay <= 30 && archiveDay != 0 ==>
            r.start == midnight - archiveDay * Day && r.end - r.start == Day - 1)
  {
  }

  // ---------------------------------------------------------------- day list

  datatype DayEntry = DayEntry(name: string, archiveDay: int)

  /** `get_archive_days_for_channels`: a short archive opens the programme
      directly; a longer one lists its days. */
  datatype Listing = Program(archiveDay: int) | DayList(entries: seq<DayEntry>)

  /** The name of day `i` of the list; `older(i)` is the weekday and date of
      `i` days ago, which depend on the clock. */
  function DayName(i: nat, older: nat -> string): string {
    if i == 0 then "Dnes" else if i == 1 then "Včera" else older(i)
  }

  function ArchiveDays(archiveHours: int, older: nat -> string): (l: Listing)
    ensures archiveHours < 24 ==> l == Program(archiveHours * 60)
    ensures archiveHours >= 24 ==> l.DayList? && |l.entries| == archiveHours / 24
    ensures l.DayList? ==> forall i :: 0 <= i < |l.entries| ==> l.entries[i].archiveDay == i
    ensures l.DayList? ==> forall i :: 0 <= i < |l.entries| ==>
      l.entries[i].name == (if i == 0 then "Dnes" else if i == 1 then "Včera" else older(i))
  {
    if archiveHours < 24 then Program(archiveHours * 60)
    else DayList(seq(archiveHours / 24, (i: int) requires 0 <= i => DayEntry(DayName(i, older), i)))
  }

  /** A short archive of at least one hour is read as minutes and its range
      reaches back exactly that many hours. */
  lemma ShortArchive(archiveHours: int, older: nat -> string, now: int, midnight: int)
    requires 1 <= archiveHours < 24
    ensures var d := ArchiveDays(archiveHours, older).archiveDay;
      d > 30 && ReadingOf(d) == MinutesBack
      && DayRange(d, now, midnight) == Range(now - archiveHours * Hour, now)
  {
  }

  /** The first day entry is today and the next thirty are whole days back. */
  lemma DayEntriesReading(archiveHours: int, older: nat -> string, i: nat)
    requires archiveHours >= 24
    requires i < archiveHours / 24
    ensures i == 0 ==> ReadingOf(ArchiveDays(archiveHours, older).entries[i].archiveDay) == Today
    ensures 1 <= i <= 30 ==> ReadingOf(ArchiveDays(archiveHours, older).entries[i].archiveDay) == DaysBack
  {
  }

  /** With 32 days of archive or more, day 31 of the list is read as minutes:
      the entry meant for the day a month ago shows the last 31 minutes. */
  lemma DayThirtyOneIsMinutes(older: nat -> string, now: int, midnight: int)
    ensures var l := ArchiveDays(32 * 24, older);
      |l.entries| == 32 && l.entries[31].archiveDay == 31
      && ReadingOf(31) == MinutesBack
      && DayRange(31, now, midnight) == Range(now - 31 * Minute, now)
  {
  }

  // ---------------------------------------------------------------- corrected day list

  /** What an archive entry means, kept apart instead of packed into one number. */
  datatype Back = BackMinutes(minutes: int) | BackDays(days: nat)

  function BackRange(b: Back, now: int, midnight: int): Range {
    match b
    case BackMinutes(m) => Range(now - m * Minute, now)
    case BackDays(d) =>
      if d == 0 then Range(midnight, now)
      else
        var start := midnight - d * Day;
        Range(start, start + Day - 1)
  }

  datatype BackEntry = BackEntry(name: string, back: Back)

  datatype BackListing = BackProgram(back: Back) | BackDayList(entries: seq<BackEntry>)

  function ArchiveBack(archiveHours: int, older: nat -> string): (l: BackListing)
    ensures archiveHours < 24 ==> l == BackProgram(BackMinutes(archiveHours * 60))
    ensures archiveHours >= 24 ==> l.BackDayList? && |l.entries| == archiveHours / 24
  {
    if archiveHours < 24 then BackProgram(BackMinutes(archiveHours * 60))
    else BackDayList(seq(archiveHours / 24, (i: int) requires 0 <= i => BackEntry(DayName(i, older), BackDays(i))))
  }

  /** Every entry of the corrected list stands for its own day, however long
      the archive, and agrees with the source's reading for the first 31. */
  lemma ArchiveBackDays(archiveHours: int, older: nat -> string, now: int, midnight: int, i: nat)
    requires archiveHours >= 24
    requires i < archiveHours / 24
    ensures var e := ArchiveBack(archiveHours, older).entries[i];
      && e.name == ArchiveDays(archiveHours, older).entries[i].name
      && (i == 0 ==> BackRange(e.back, now, midnight) == Range(midnight, now))
      && (i > 0 ==> BackRange(e.back, now, midnight) == Range(midnight - i * Day, midnight - i * Day + Day - 1))
      && (i <= 30 ==> BackRange(e.back, now, midnight) == DayRange(i, now, midnight))
  {
  }

  /** The short archive keeps the source's range. */
  lemma ArchiveBackShort(archiveHours: int, older: nat -> string, now: int, midnight: int)
    requires 1 <= archiveHours < 24
    ensures BackRange(ArchiveBack(archiveHours, older).back, now, midnight)
      == DayRange(ArchiveDays(archiveHours, older).archiveDay, now, midnight)
  {
  }
}
