/**
 * The workout record: a tagged union of the `Running` and `Cycling` classes
 * with the fields of their common `Workout` base, the id taken from the
 * clock, the description built from the type and the creation date, and the
 * derived metric (pace or speed) computed once by the constructor.
 */
module Workouts {
  import opened Decimal
  import opened Validation

  /** The value of the form's type selector. */
  datatype Kind = RunningKind | CyclingKind {

    /** The record's `type` field. */
    function Name(): string {
      match this
      case RunningKind => "running"
      case CyclingKind => "cycling"
    }

    /** The heading a reader sees: the type with its first letter upper-cased. */
    function Title(): string {
      match this
      case RunningKind => "Running"
      case CyclingKind => "Cycling"
    }
  }

  /** A map click position: `[lat, lng]`. */
  datatype Coords = Coords(lat: real, lng: real)

  /** `Date.getMonth()`: 0 for January through 11 for December. */
  type MonthIndex = m: nat | m < 12

  /** `Date.getDate()`: the day of the month. */
  type DayOfMonth = d: nat | 1 <= d <= 31 witness 1

  /** The parts of the record's `date` that the description reads. */
  datatype CalendarDay = CalendarDay(month: MonthIndex, day: DayOfMonth)

  datatype Workout =
    | Running(id: string, date: CalendarDay, coords: Coords, distance: real, duration: real,
              description: string, cadence: real, pace: real)
    | Cycling(id: string, date: CalendarDay, coords: Coords, distance: real, duration: real,
              description: string, elevationGain: Num, speed: real)
  {
    function Kind(): Kind {
      if Running? then RunningKind else CyclingKind
    }

    /**
     * Every field derived at construction agrees with the fields it was
     * derived from: the description with the type and date, the id is a
     * timestamp suffix, pace or speed with distance and duration.
     */
    predicate WellFormed() {
      && distance > 0.0
      && duration > 0.0
      && description == Describe(Kind(), date)
      && 1 <= |id| <= IdWidth
      && AllDigits(id)
      && (Running? ==> pace == duration / distance)
      && (Cycling? ==> speed == distance / (duration / 60.0))
    }
  }

  // ---------------------------------------------------------------------------
  // Id
  // ---------------------------------------------------------------------------

  /** The id keeps at most this many trailing digits of the timestamp. */
  const IdWidth: nat := 10

  /** How far apart, in milliseconds, two timestamps must be for their ids to repeat: 10^10, about 115 days. */
  const IdWindow: nat := 10_000_000_000

  /**
   * The window as a power of ten, the form the id lemmas below compute with.
   * Statements about whole sessions use the literal `IdWindow` instead, so
   * that their preconditions need no unfolding of `Pow10`.
   */
  lemma IdWindowIsPow10()
    ensures Pow10(IdWidth) == IdWindow
  {
  }

  /** `(Date.now() + '').slice(-10)`: the last (up to) ten characters of the millisecond timestamp. */
  function MakeId(now: nat): (id: string)
    ensures |id| == if |ToDecimal(now)| < IdWidth then |ToDecimal(now)| else IdWidth
    ensures id == ToDecimal(now)[|ToDecimal(now)| - |id|..]
    ensures 1 <= |id| && AllDigits(id)
  {
    var s := ToDecimal(now);
    if |s| <= IdWidth then s else s[|s| - IdWidth..]
  }

  /** An id denotes the timestamp modulo 10^10 (the clock seen through a window of about 115 days). */
  lemma IdValue(now: nat)
    ensures Value(MakeId(now)) == now % Pow10(IdWidth)
  {
    var s := ToDecimal(now);
    ValueOfDecimal(now);
    ValueOfSuffix(s, |MakeId(now)|);
    if |s| <= IdWidth {
      Pow10Monotone(|s|, IdWidth);
      ModUnique(now, Pow10(IdWidth), 0, now);
    }
  }

  /**
   * For timestamps of ten digits or more (every `Date.now()` since 2001)
   * two ids are equal exactly when the timestamps agree modulo 10^10.
   */
  lemma IdsEqualIff(t1: nat, t2: nat)
    requires t1 >= Pow10(IdWidth - 1) && t2 >= Pow10(IdWidth - 1)
    ensures MakeId(t1) == MakeId(t2) <==> t1 % Pow10(IdWidth) == t2 % Pow10(IdWidth)
  {
    IdValue(t1);
    IdValue(t2);
    DecimalLongerThan(t1, IdWidth - 1);
    DecimalLongerThan(t2, IdWidth - 1);
    if t1 % Pow10(IdWidth) == t2 % Pow10(IdWidth) {
      ValueInjective(MakeId(t1), MakeId(t2));
    }
  }

  /** Timestamps less than 10^10 ms apart give distinct ids. */
  lemma IdsDistinctWithinWindow(t1: nat, t2: nat)
    requires t1 < t2 < t1 + Pow10(IdWidth)
    ensures MakeId(t1) != MakeId(t2)
  {
    IdValue(t1);
    IdValue(t2);
    ModDistinct(t1, t2, Pow10(IdWidth));
  }

  /** Two numbers less than `p` apart leave different remainders modulo `p`. */
  lemma ModDistinct(t1: nat, t2: nat, p: nat)
    requires p >= 1 && t1 < t2 < t1 + p
    ensures t1 % p != t2 % p
  {
    var q1, q2 := t1 / p, t2 / p;
    ModUnique(t1, p, q1, t1 % p);
    ModUnique(t2, p, q2, t2 % p);
    MulAwayFromZero(q2 - q1, p);
    assert (q2 - q1) * p == t2 - t1 - (t2 % p - t1 % p);
  }

  /** The id is not collision-free: the same id comes back every 10^10 ms. */
  lemma IdRepeatsAfterWindow(t: nat)
    requires t >= Pow10(IdWidth - 1)
    ensures MakeId(t) == MakeId(t + Pow10(IdWidth))
  {
    var p := Pow10(IdWidth);
    ModUnique(t, p, t / p, t % p);
    ModUnique(t + p, p, t / p + 1, t % p);
    IdsEqualIff(t, t + p);
  }

  // ---------------------------------------------------------------------------
  // Description
  // ---------------------------------------------------------------------------

  /** The twelve month names, indexed by `Date.getMonth()`. */
  const Months: seq<string> :=
    ["January", "February", "March", "April", "May", "June",
     "July", "August", "September", "October", "November", "December"]

  function UpperAscii(c: char): char {
    if 'a' <= c <= 'z' then (c as int - 32) as char else c
  }

  /** `s[0].toUpperCase() + s.slice(1)`; an empty string has no first character. */
  function Capitalize(s: string): (r: string)
    requires |s| > 0
    ensures |r| == |s| && r[1..] == s[1..]
    ensures 'a' <= s[0] <= 'z' ==> 'A' <= r[0] <= 'Z' && r[0] as int == s[0] as int - 32
    ensures !('a' <= s[0] <= 'z') ==> r[0] == s[0]
  {
    [UpperAscii(s[0])] + s[1..]
  }

  /** Capitalizing the type name gives the title a reader sees. */
  lemma CapitalizedNameIsTitle(kind: Kind)
    ensures Capitalize(kind.Name()) == kind.Title()
  {
  }

  /**
   * `_setDescription`: "<Type> on <Month> <day>". Read back from the left, a
   * description gives the title, then " on ", then up to the next space a
   * month's name, then the day's digits.
   */
  function Describe(kind: Kind, date: CalendarDay): (d: string)
    ensures |d| > 11 && d[..7] == kind.Title() && d[7..11] == " on "
  {
    CapitalizedNameIsTitle(kind);
    HeadingParts(kind.Title(), Months[date.month], ToDecimal(date.day));
    Capitalize(kind.Name()) + " on " + Months[date.month] + " " + ToDecimal(date.day)
  }

  /** Every description reads back as the type, month and day it was built from. */
  lemma DescribeReadsBack(kind: Kind, date: CalendarDay)
    ensures ReadsBackAs(Describe(kind, date), kind, date)
  {
    var title, month, day := Capitalize(kind.Name()), Months[date.month], ToDecimal(date.day);
    CapitalizedNameIsTitle(kind);
    HeadingParts(title, month, day);
    MonthsTable(date.month);
    FirstSpaceAfter(month, day);
    ValueOfDecimal(date.day);
  }

  /**
   * `d` parses as a description of `kind` on `date`: the title, " on ", a
   * name from the month table up to the next space, then digits without a
   * leading zero denoting the day.
   */
  predicate ReadsBackAs(d: string, kind: Kind, date: CalendarDay) {
    && |d| > 11 && d[..7] == kind.Title() && d[7..11] == " on "
    && var tail := d[11..]; var gap := FirstSpace(tail);
      && gap < |tail|
      && tail[..gap] in Months
      && MonthNumber(tail[..gap]) == date.month
      && gap + 1 < |tail| && tail[gap + 1] != '0'
      && AllDigits(tail[gap + 1..])
      && Value(tail[gap + 1..]) == date.day
  }

  /** Where each part of a "<title> on <month> <day>" string sits. */
  lemma {:induction false} HeadingParts(title: string, month: string, day: string)
    ensures var d := title + " on " + month + " " + day;
      && d[..|title|] == title
      && d[|title|..|title| + 4] == " on "
      && d[|title| + 4..] == month + " " + day
      && (month + " " + day)[..|month|] == month
      && (month + " " + day)[|month| + 1..] == day
  {
  }

  predicate HasNoSpace(s: string) {
    forall i :: 0 <= i < |s| ==> s[i] != ' '
  }

  /** The index of the first space in `s`, or `|s|` when there is none. */
  function FirstSpace(s: string): (i: nat)
    ensures i <= |s|
    decreases |s|
  {
    if s == [] || s[0] == ' ' then 0 else 1 + FirstSpace(s[1..])
  }

  lemma {:induction false} FirstSpaceAfter(a: string, b: string)
    requires HasNoSpace(a)
    ensures FirstSpace(a + " " + b) == |a|
    decreases |a|
  {
    if a != [] {
      assert (a + " " + b)[1..] == a[1..] + " " + b;
      FirstSpaceAfter(a[1..], b);
    }
  }

  /** The month whose name is `name`, by table lookup. */
  function MonthNumber(name: string): nat {
    if name == "January" then 0 else if name == "February" then 1
    else if name == "March" then 2 else if name == "April" then 3
    else if name == "May" then 4 else if name == "June" then 5
    else if name == "July" then 6 else if name == "August" then 7
    else if name == "September" then 8 else if name == "October" then 9
    else if name == "November" then 10 else 11
  }

  /** The month table has no repeated names and no name contains a space. */
  lemma MonthsTable(m: MonthIndex)
    ensures |Months| == 12
    ensures MonthNumber(Months[m]) == m
    ensures HasNoSpace(Months[m])
  {
  }

  function KindOfTitle(title: string): Kind {
    if title == "Running" then RunningKind else CyclingKind
  }

  /** Different (type, month, day) triples never share a description. */
  lemma DescribeInjective(k1: Kind, date1: CalendarDay, k2: Kind, date2: CalendarDay)
    requires Describe(k1, date1) == Describe(k2, date2)
    ensures k1 == k2 && date1 == date2
  {
    DescribeReadsBack(k1, date1);
    DescribeReadsBack(k2, date2);
    assert KindOfTitle(k1.Title()) == k1 && KindOfTitle(k2.Title()) == k2;
  }

  // ---------------------------------------------------------------------------
  // Constructors
  // ---------------------------------------------------------------------------

  /**
   * `new Running(coordinates, distance, duration, cadence)`: the id from the
   * clock, the description, then `calcPace`. Pace in minutes per kilometre
   * is the time it takes to cover one kilometre.
   */
  function NewRunning(now: nat, date: CalendarDay, coords: Coords,
                      distance: real, duration: real, cadence: real): (w: Workout)
    requires distance > 0.0 && duration > 0.0
    ensures w.Running? && w.WellFormed()
    ensures w.id == MakeId(now) && w.date == date && w.coords == coords
    ensures w.distance == distance && w.duration == duration && w.cadence == cadence
    ensures w.pace > 0.0 && w.pace * distance == duration
  {
    Running(MakeId(now), date, coords, distance, duration,
            Describe(RunningKind, date), cadence, duration / distance)
  }

  /**
   * `new Cycling(coordinates, distance, duration, elevationGain)`: the id,
   * the description, then `calcSpeed`. Speed in kilometres per hour covers
   * the distance in the duration, which is given in minutes.
   */
  function NewCycling(now: nat, date: CalendarDay, coords: Coords,
                      distance: real, duration: real, elevationGain: Num): (w: Workout)
    requires distance > 0.0 && duration > 0.0
    ensures w.Cycling? && w.WellFormed()
    ensures w.id == MakeId(now) && w.date == date && w.coords == coords
    ensures w.distance == distance && w.duration == duration && w.elevationGain == elevationGain
    ensures w.speed > 0.0 && w.speed * duration == 60.0 * distance
  {
    Cycling(MakeId(now), date, coords, distance, duration,
            Describe(CyclingKind, date), elevationGain, distance / (duration / 60.0))
  }

  /** A run and a ride over the same distance in the same time: pace times speed is sixty. */
  lemma PaceTimesSpeed(run: Workout, ride: Workout)
    requires run.Running? && run.WellFormed()
    requires ride.Cycling? && ride.WellFormed()
    requires run.distance == ride.distance && run.duration == ride.duration
    ensures run.pace * ride.speed == 60.0
  {
  }
}
