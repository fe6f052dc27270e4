/** A child's day: the admin panel's arithmetic (admin/src/schedule/cycle.ts) beside the engine's
    (custom_components/nestquest/core/presence.py). */
module Cycle {
  import opened Options
  import opened IsoDates
  import opened Presence

  datatype Kind = Home | Away

  /** `weeks`: the weekdays each week of the cycle covers, Monday 0. */
  datatype Pattern = Pattern(kind: Kind, cycleLengthWeeks: int, anchor: string, weeks: map<int, seq<int>>)

  ghost predicate IsPattern(p: Pattern) {
    && 1 <= p.cycleLengthWeeks <= 4 && ParseDate(p.anchor).Some?
    && forall week :: 0 <= week < p.cycleLengthWeeks ==> week in p.weeks
  }

  // ----- the panel, in JavaScript's arithmetic

  /** `%` truncates towards zero. */
  function Rem(value: int, divisor: int): int
    requires divisor > 0
  {
    if value >= 0 then value % divisor else -((-value) % divisor)
  }

  function Mod(value: int, divisor: int): int
    requires divisor > 0
  {
    Rem(Rem(value, divisor) + divisor, divisor)
  }

  /** `Date.UTC` takes the years 0 to 99 for 1900 to 1999. */
  function UtcYear(d: Date): Date {
    if 0 <= d.year <= 99 then d.(year := 1900 + d.year) else d
  }

  lemma UtcYearIsDate(d: Date)
    requires IsDate(d)
    ensures IsDate(UtcYear(d))
    ensures forall m :: DaysInMonth(UtcYear(d).year, m) == DaysInMonth(d.year, m)
  {}

  function PanelDay(s: string): int
    requires ParseDate(s).Some?
  {
    ParseDateIff(s, ParseDate(s).value);
    UtcYearIsDate(ParseDate(s).value);
    DayNumber(UtcYear(ParseDate(s).value))
  }

  function WeekdayOf(s: string): int
    requires ParseDate(s).Some?
  {
    Mod(PanelDay(s) + 3, 7)
  }

  /** `Math.floor` is Dafny's division by a positive number. */
  function CycleWeekIndex(anchor: string, s: string, cycleLengthWeeks: int): int
    requires ParseDate(anchor).Some? && ParseDate(s).Some? && cycleLengthWeeks > 0
  {
    Mod((PanelDay(s) - PanelDay(anchor)) / 7, cycleLengthWeeks)
  }

  predicate PatternIncludes(p: Pattern, s: string)
    requires IsPattern(p) && ParseDate(s).Some?
  {
    var week := CycleWeekIndex(p.anchor, s, p.cycleLengthWeeks);
    week in p.weeks && WeekdayOf(s) in p.weeks[week]
  }

  datatype DayStates = AtHome | IsAway | OverrideHome | OverrideAway

  function Find(overrides: seq<Override>, s: string): Option<Override> {
    if overrides == [] then None
    else if Covers(overrides[0], s) then Some(overrides[0])
    else Find(overrides[1..], s)
  }

  predicate SomeIncludes(patterns: seq<Pattern>, kind: Kind, s: string)
    requires ParseDate(s).Some? && forall i :: 0 <= i < |patterns| ==> IsPattern(patterns[i])
  {
    exists i :: 0 <= i < |patterns| && patterns[i].kind == kind && PatternIncludes(patterns[i], s)
  }

  predicate HasHome(patterns: seq<Pattern>) {
    exists i :: 0 <= i < |patterns| && patterns[i].kind == Home
  }

  function PatternState(patterns: seq<Pattern>, s: string): DayStates
    requires ParseDate(s).Some? && forall i :: 0 <= i < |patterns| ==> IsPattern(patterns[i])
  {
    if SomeIncludes(patterns, Away, s) then IsAway
    else if SomeIncludes(patterns, Home, s) then AtHome
    else if HasHome(patterns) then IsAway
    else AtHome
  }

  function DayState(patterns: seq<Pattern>, overrides: seq<Override>, s: string): DayStates
    requires ParseDate(s).Some? && forall i :: 0 <= i < |patterns| ==> IsPattern(patterns[i])
  {
    var o := Find(overrides, s);
    if o.Some? then (if o.value.isPresent then OverrideHome else OverrideAway)
    else PatternState(patterns, s)
  }

  // ----- the engine, in Python's

  function Weekday(s: string): int
    requires ParseDate(s).Some?
  {
    (Day(s) + EPOCH + 6) % 7
  }

  function EngineWeekIndex(p: Pattern, s: string): int
    requires IsPattern(p) && ParseDate(s).Some?
  {
    ((Day(s) - Day(p.anchor)) / 7) % p.cycleLengthWeeks
  }

  predicate PatternCovers(p: Pattern, s: string)
    requires IsPattern(p) && ParseDate(s).Some?
  {
    Weekday(s) in p.weeks[EngineWeekIndex(p, s)]
  }

  predicate OverrideCovers(o: Override, s: string)
    requires IsRange(o) && ParseDate(s).Some?
  {
    Day(o.start) <= Day(s) <= Day(o.end)
  }

  /** The covering override with the latest start, the first of equals. */
  function Winner(overrides: seq<Override>, s: string): (w: Option<Override>)
    requires ParseDate(s).Some? && forall i :: 0 <= i < |overrides| ==> IsRange(overrides[i])
    ensures w.Some? ==> IsRange(w.value)
  {
    if overrides == [] then None
    else
      var rest := Winner(overrides[1..], s);
      if !OverrideCovers(overrides[0], s) then rest
      else if rest.None? || Day(rest.value.start) <= Day(overrides[0].start) then Some(overrides[0])
      else rest
  }

  predicate SomeCovers(patterns: seq<Pattern>, kind: Kind, s: string)
    requires ParseDate(s).Some? && forall i :: 0 <= i < |patterns| ==> IsPattern(patterns[i])
  {
    exists i :: 0 <= i < |patterns| && patterns[i].kind == kind && PatternCovers(patterns[i], s)
  }

  predicate IsPresent(patterns: seq<Pattern>, overrides: seq<Override>, s: string)
    requires ParseDate(s).Some?
    requires forall i :: 0 <= i < |patterns| ==> IsPattern(patterns[i])
    requires forall i :: 0 <= i < |overrides| ==> IsRange(overrides[i])
  {
    var w := Winner(overrides, s);
    if w.Some? then w.value.isPresent
    else if SomeCovers(patterns, Away, s) then false
    else if SomeCovers(patterns, Home, s) then true
    else !HasHome(patterns)
  }

  // ----- the arithmetic agrees

  lemma ModIsFloor(value: int, divisor: int)
    requires divisor > 0
    ensures Mod(value, divisor) == value % divisor
  {
    if value >= 0 {
      RemainderIs(value % divisor + divisor, divisor, 1, value % divisor);
    } else {
      var q, r := (-value) / divisor, (-value) % divisor;
      assert -value == q * divisor + r;
      if r == 0 {
        RemainderIs(divisor, divisor, 1, 0);
        assert value == (-q) * divisor;
        RemainderIs(value, divisor, -q, 0);
      } else {
        RemainderIs(divisor - r, divisor, 0, divisor - r);
        assert value == (-q - 1) * divisor + (divisor - r);
        RemainderIs(value, divisor, -q - 1, divisor - r);
      }
    }
  }

  lemma RemainderIs(v: int, n: int, q: int, r: int)
    requires v == q * n + r && 0 <= r < n
    ensures v % n == r && v / n == q
  {
    var k, d := v / n, v % n;
    assert v == k * n + d && 0 <= d < n;
    Unique(n, q, r, k, d);
  }

  lemma Unique(n: int, q: int, r: int, k: int, d: int)
    requires q * n + r == k * n + d && 0 <= r < n && 0 <= d < n
    ensures q == k && r == d
  {
    assert (q - k) * n == d - r;
    NoMultiple(n, q - k, d - r);
  }

  lemma NoMultiple(n: int, k: int, d: int)
    requires k * n == d && -n < d < n
    ensures k == 0
  {
    assert k >= 1 ==> k * n >= n;
    assert k <= -1 ==> k * n <= -n;
  }

  /** 1900 years are 99137 weeks and a day. */
  lemma CenturiesApart(d: Date)
    requires IsDate(d) && d.year <= 99
    ensures IsDate(UtcYear(d)) && DayNumber(UtcYear(d)) == DayNumber(d) + 693960
  {
    hide DaysBeforeYear, DaysBeforeMonth;
    UtcYearIsDate(d);
    YearsApart(d.year);
    MonthsAlike(d.year, 1900 + d.year, d.month);
  }

  lemma YearsApart(y: int)
    requires 1 <= y <= 99
    ensures DaysBeforeYear(1900 + y) == DaysBeforeYear(y) + 693960
  {
    assert (1900 + y - 1) / 4 == (y - 1) / 4 + 475;
    assert (1900 + y - 1) / 100 == (y - 1) / 100 + 19;
    assert (y - 1) / 400 == 0 && (1900 + y - 1) / 400 == 4;
  }

  lemma {:induction false} MonthsAlike(y: int, z: int, m: int)
    requires 1 <= m && forall k :: DaysInMonth(y, k) == DaysInMonth(z, k)
    ensures DaysBeforeMonth(y, m) == DaysBeforeMonth(z, m)
    decreases m
  {
    if m > 1 { MonthsAlike(y, z, m - 1); }
  }

  /** The panel counts the right day exactly from the year 100 on. */
  lemma PanelDayIff(s: string)
    requires ParseDate(s).Some?
    ensures ParseDate(s).value.year >= 100 ==> PanelDay(s) == Day(s)
    ensures ParseDate(s).value.year < 100 ==> PanelDay(s) == Day(s) + 693960
  {
    hide ParseDate, DayNumber;
    ParseDateIff(s, ParseDate(s).value);
    if ParseDate(s).value.year < 100 { CenturiesApart(ParseDate(s).value); }
  }

  /** So does its weekday agree with the engine's. */
  lemma WeekdayIff(s: string)
    requires ParseDate(s).Some?
    ensures WeekdayOf(s) == Weekday(s) <==> ParseDate(s).value.year >= 100
  {
    hide ParseDate, DayNumber, Mod, PanelDay, Day;
    PanelDayIff(s);
    ModIsFloor(PanelDay(s) + 3, 7);
    SevenDays(Day(s));
  }

  lemma SevenDays(day: int)
    ensures (day + 3) % 7 == (day + EPOCH + 6) % 7
    ensures (day + 693960 + 3) % 7 != (day + 3) % 7
  {}

  // ----- the panel shows what the engine says

  ghost predicate Modern(s: string) {
    ParseDate(s).Some? && ParseDate(s).value.year >= 100
  }

  /** The panel and the engine agree on a date: it is from the year 100 on, and so is the anchor, or the cycle hides
      the 99137 weeks, and a day, that the panel is off by. */
  ghost predicate Agrees(anchor: string, cycleLengthWeeks: int, s: string)
    requires ParseDate(anchor).Some? && cycleLengthWeeks > 0
  {
    Modern(s) &&
    (Modern(anchor) || (99137 + if (Day(s) - Day(anchor)) % 7 == 0 then 1 else 0) % cycleLengthWeeks == 0)
  }

  lemma WeeksOff(days: int)
    ensures (days - 693960) / 7 == days / 7 - (99137 + if days % 7 == 0 then 1 else 0)
  {}

  lemma SameWeekIff(w: int, off: int, n: int)
    requires n > 0
    ensures (w - off) % n == w % n <==> off % n == 0
  {
    var q, r := w / n, w % n;
    var a, b := off / n, off % n;
    assert w == q * n + r && off == a * n + b;
    if r >= b {
      assert w - off == (q - a) * n + (r - b);
      RemainderIs(w - off, n, q - a, r - b);
    } else {
      assert w - off == (q - a - 1) * n + (r - b + n);
      RemainderIs(w - off, n, q - a - 1, r - b + n);
    }
  }

  /** Both find the same week exactly under that condition, the date being from the year 100 on. */
  lemma WeekIndexIff(p: Pattern, s: string)
    requires IsPattern(p) && Modern(s)
    ensures CycleWeekIndex(p.anchor, s, p.cycleLengthWeeks) == EngineWeekIndex(p, s) <==>
            Agrees(p.anchor, p.cycleLengthWeeks, s)
  {
    hide ParseDate, DayNumber, Mod, PanelDay, Day;
    PanelDayIff(s);
    PanelDayIff(p.anchor);
    var days, n := Day(s) - Day(p.anchor), p.cycleLengthWeeks;
    ModIsFloor((PanelDay(s) - PanelDay(p.anchor)) / 7, n);
    WeeksOff(days);
    SameWeekIff(days / 7, 99137 + if days % 7 == 0 then 1 else 0, n);
  }

  lemma IncludesIsCovers(p: Pattern, s: string)
    requires IsPattern(p) && Agrees(p.anchor, p.cycleLengthWeeks, s)
    ensures PatternIncludes(p, s) <==> PatternCovers(p, s)
  {
    hide ParseDate, DayNumber, PanelDay, Day, Weekday, WeekdayOf, CycleWeekIndex;
    WeekdayIff(s);
    WeekIndexIff(p, s);
    var week := EngineWeekIndex(p, s);
    assert 0 <= week < p.cycleLengthWeeks;
  }

  /** The pattern that covers only the engine's weekday of the engine's week. */
  ghost function OnlyDay(p: Pattern, s: string): Pattern
    requires IsPattern(p) && ParseDate(s).Some?
  {
    p.(weeks := map week | 0 <= week < p.cycleLengthWeeks :: DaysOf(p, s, week))
  }

  ghost function DaysOf(p: Pattern, s: string, week: int): seq<int>
    requires IsPattern(p) && ParseDate(s).Some?
  {
    if week == EngineWeekIndex(p, s) then [Weekday(s)] else []
  }

  /** Whatever the weeks cover, a pattern of this length and anchor covers the date in the panel exactly if it does
      in the engine: for exactly the dates on which the two agree. */
  lemma PatternsAgreeIff(p: Pattern, s: string)
    requires IsPattern(p) && ParseDate(s).Some?
    ensures (forall q: Pattern :: IsPattern(q) && q.anchor == p.anchor && q.cycleLengthWeeks == p.cycleLengthWeeks ==>
               (PatternIncludes(q, s) <==> PatternCovers(q, s)))
            <==> Agrees(p.anchor, p.cycleLengthWeeks, s)
  {
    hide ParseDate, PatternIncludes, PatternCovers, Day;
    if Agrees(p.anchor, p.cycleLengthWeeks, s) {
      forall q: Pattern | IsPattern(q) && q.anchor == p.anchor && q.cycleLengthWeeks == p.cycleLengthWeeks
        ensures PatternIncludes(q, s) <==> PatternCovers(q, s)
      {
        IncludesIsCovers(q, s);
      }
    } else {
      OnlyDayDiffers(p, s);
    }
  }

  lemma OnlyDayDiffers(p: Pattern, s: string)
    requires IsPattern(p) && ParseDate(s).Some? && !Agrees(p.anchor, p.cycleLengthWeeks, s)
    ensures var q := OnlyDay(p, s);
            IsPattern(q) && q.anchor == p.anchor && q.cycleLengthWeeks == p.cycleLengthWeeks
            && PatternCovers(q, s) && !PatternIncludes(q, s)
  {
    hide ParseDate, DayNumber, PanelDay, Day, Weekday, WeekdayOf, CycleWeekIndex, Agrees;
    var q := OnlyDay(p, s);
    assert EngineWeekIndex(q, s) == EngineWeekIndex(p, s) && 0 <= EngineWeekIndex(p, s) < p.cycleLengthWeeks;
    WeekdayIff(s);
    if Modern(s) { WeekIndexIff(p, s); }
  }

  lemma CoversIsOverrideCovers(o: Override, s: string)
    requires IsRange(o) && ParseDate(s).Some?
    ensures Covers(o, s) <==> OverrideCovers(o, s)
  {
    hide ParseDate, TextBefore, Day;
    DayOrder(s, o.start);
    DayOrder(o.end, s);
  }

  lemma AtMostOne(overrides: seq<Override>, i: nat, j: nat, s: string)
    requires Disjoint(overrides) && ParseDate(s).Some?
    requires i < j < |overrides| && overrides[i].child == overrides[j].child
    ensures !(Covers(overrides[i], s) && Covers(overrides[j], s))
  {
    hide ParseDate, Covers;
    assert OneAnswer(overrides[i], overrides[j]);
  }

  lemma {:induction false} WinnerIsFound(overrides: seq<Override>, s: string, child: int)
    requires Disjoint(overrides) && ParseDate(s).Some?
    requires forall i :: 0 <= i < |overrides| ==> overrides[i].child == child
    ensures Winner(overrides, s) == Find(overrides, s)
    decreases |overrides|
  {
    hide ParseDate, TextBefore, Day, Covers, OverrideCovers;
    if overrides != [] {
      var rest := overrides[1..];
      assert Disjoint(rest);
      WinnerIsFound(rest, s, child);
      CoversIsOverrideCovers(overrides[0], s);
      FindIs(rest, s);
      forall i | 0 <= i < |rest| ensures !(Covers(overrides[0], s) && Covers(rest[i], s)) {
        AtMostOne(overrides, 0, i + 1, s);
      }
    }
  }

  /** The override at `k` covers the date, those before it that do start earlier, and those after it no later. */
  ghost predicate IsLatest(overrides: seq<Override>, s: string, k: nat)
    requires ParseDate(s).Some? && (forall i :: 0 <= i < |overrides| ==> IsRange(overrides[i])) && k < |overrides|
  {
    && OverrideCovers(overrides[k], s)
    && forall i :: 0 <= i < |overrides| && OverrideCovers(overrides[i], s) ==>
         if i < k then Day(overrides[i].start) < Day(overrides[k].start)
         else Day(overrides[i].start) <= Day(overrides[k].start)
  }

  /** The engine's override is the covering one with the latest start, the first of equals. */
  lemma {:induction false} WinnerIsLatest(overrides: seq<Override>, s: string)
    requires ParseDate(s).Some? && forall i :: 0 <= i < |overrides| ==> IsRange(overrides[i])
    ensures match Winner(overrides, s)
            case Some(w) => exists k: nat :: k < |overrides| && overrides[k] == w && IsLatest(overrides, s, k)
            case None => forall i :: 0 <= i < |overrides| ==> !OverrideCovers(overrides[i], s)
  {
    hide ParseDate, Day, OverrideCovers;
    if overrides != [] {
      var rest := overrides[1..];
      WinnerIsLatest(rest, s);
      assert forall i :: 0 <= i < |rest| ==> rest[i] == overrides[i + 1];
      var w := Winner(rest, s);
      if w.Some? {
        var k: nat :| k < |rest| && rest[k] == w.value && IsLatest(rest, s, k);
        assert forall i :: 0 < i < |overrides| ==> overrides[i] == rest[i - 1];
        if OverrideCovers(overrides[0], s) && Day(w.value.start) <= Day(overrides[0].start) {
          assert IsLatest(overrides, s, 0);
        } else {
          assert IsLatest(overrides, s, k + 1);
        }
      } else if OverrideCovers(overrides[0], s) {
        assert forall i :: 0 < i < |overrides| ==> overrides[i] == rest[i - 1];
        assert IsLatest(overrides, s, 0);
      }
    }
  }

  lemma {:induction false} FindIs(overrides: seq<Override>, s: string)
    ensures match Find(overrides, s)
            case Some(o) =>
              o in overrides && Covers(o, s) && exists i :: 0 <= i < |overrides| && Covers(overrides[i], s)
            case None => forall i :: 0 <= i < |overrides| ==> !Covers(overrides[i], s)
  {
    hide Covers;
    if overrides != [] {
      FindIs(overrides[1..], s);
      if Covers(overrides[0], s) {
      } else if Find(overrides, s).Some? {
        var i :| 0 <= i < |overrides| - 1 && Covers(overrides[1..][i], s);
        assert Covers(overrides[i + 1], s);
      }
    }
  }

  /** For one child's overrides from any reachable table, in any order, and patterns on which the two agree, the
      panel shows a day at home exactly when the engine says the child is present. */
  lemma PanelShowsPresence(patterns: seq<Pattern>, overrides: seq<Override>, s: string, child: int)
    requires Disjoint(overrides) && forall i :: 0 <= i < |overrides| ==> overrides[i].child == child
    requires ParseDate(s).Some?
    requires forall i :: 0 <= i < |patterns| ==>
               IsPattern(patterns[i]) && Agrees(patterns[i].anchor, patterns[i].cycleLengthWeeks, s)
    ensures DayState(patterns, overrides, s) in {AtHome, OverrideHome} <==> IsPresent(patterns, overrides, s)
  {
    hide ParseDate, Find, Winner, PatternIncludes, PatternCovers, Agrees;
    WinnerIsFound(overrides, s, child);
    forall i | 0 <= i < |patterns| ensures PatternIncludes(patterns[i], s) <==> PatternCovers(patterns[i], s) {
      IncludesIsCovers(patterns[i], s);
    }
    forall kind ensures SomeIncludes(patterns, kind, s) <==> SomeCovers(patterns, kind, s) {
    }
  }

  /** The panel's day of a child whose overrides share no date: the override of the date, if there is one; otherwise
      away if an away pattern includes it, or no home pattern does and there is one; otherwise at home. */
  lemma DayStateIs(patterns: seq<Pattern>, overrides: seq<Override>, s: string, child: int)
    requires Disjoint(overrides) && ParseDate(s).Some?
    requires forall i :: 0 <= i < |overrides| ==> overrides[i].child == child
    requires forall i :: 0 <= i < |patterns| ==> IsPattern(patterns[i])
    ensures var day := DayState(patterns, overrides, s);
            var overridden := exists o :: o in overrides && Covers(o, s);
            var away := exists i :: 0 <= i < |patterns| && patterns[i].kind == Away && PatternIncludes(patterns[i], s);
            var home := exists i :: 0 <= i < |patterns| && patterns[i].kind == Home && PatternIncludes(patterns[i], s);
            var homes := exists i :: 0 <= i < |patterns| && patterns[i].kind == Home;
            && (day == OverrideHome <==> exists o :: o in overrides && Covers(o, s) && o.isPresent)
            && (day == OverrideAway <==> exists o :: o in overrides && Covers(o, s) && !o.isPresent)
            && (day == IsAway <==> !overridden && (away || (homes && !home)))
            && (day == AtHome <==> !overridden && !away && (homes ==> home))
  {
    hide ParseDate, Covers, PatternIncludes;
    FindIs(overrides, s);
    if Find(overrides, s).Some? {
      var o := Find(overrides, s).value;
      forall other | other in overrides && Covers(other, s) ensures other == o {
        OnlyOne(overrides, o, other, s);
      }
    }
  }

  /** Days are counted in weeks of seven from a Thursday, 1970-01-01, Monday being 0; the week of the cycle from the
      anchor's own week 0 on, before the anchor too. */
  lemma EngineWeekIs(p: Pattern, s: string, week: int)
    requires IsPattern(p) && ParseDate(s).Some?
    requires Day(p.anchor) + 7 * week <= Day(s) < Day(p.anchor) + 7 * week + 7
    ensures Weekday(s) == (Day(s) + 3) % 7
    ensures EngineWeekIndex(p, s) == week % p.cycleLengthWeeks
  {
    hide ParseDate, Day;
    assert (Day(s) - Day(p.anchor)) / 7 == week;
  }

  /** A listing of a range that holds the date gives the answer of the whole table. */
  lemma ListingAnswers(run: seq<Op>, child: int, start: string, end: string, s: string)
    requires ListByChildAndRange(Exec(EMPTY, run), child, start, end).Listed?
    requires ParseDate(s).Some? && !TextBefore(s, start) && !TextBefore(end, s)
    ensures var t := Exec(EMPTY, run);
            var listed := ListByChildAndRange(t, child, start, end).rows;
            match Find(listed, s)
            case Some(o) => o in t.rows && o.child == child && Covers(o, s)
                            && forall other :: other in t.rows && other.child == child && Covers(other, s) ==>
                                 other == o
            case None => forall other :: other in t.rows && other.child == child ==> !Covers(other, s)
  {
    hide Exec, ParseDate, TextBefore, Covers, Overlapping, Find, Selected;
    var t := Exec(EMPTY, run);
    var listed := ListByChildAndRange(t, child, start, end).rows;
    ReachableIsDisjoint(run);
    ListingIs(run, child, start, end);
    FindIs(listed, s);
    forall other | other in t.rows && other.child == child && Covers(other, s) ensures Find(listed, s) == Some(other) {
      CoveringIsListed(t.rows, other, child, start, end, s);
      assert other in listed;
      var o := Find(listed, s).value;
      OfChild(o, child, start, end);
      OnlyOne(t.rows, o, other, s);
    }
    if Find(listed, s).Some? {
      OfChild(Find(listed, s).value, child, start, end);
    }
  }

  lemma OfChild(o: Override, child: int, start: string, end: string)
    requires Overlapping(o, child, start, end)
    ensures o.child == child
  {}

  lemma CoveringIsListed(rows: seq<Override>, o: Override, child: int, start: string, end: string, s: string)
    requires Disjoint(rows) && o in rows && o.child == child && Covers(o, s) && ParseDate(s).Some?
    requires ParseDate(start).Some? && ParseDate(end).Some? && !TextBefore(end, start)
    requires !TextBefore(s, start) && !TextBefore(end, s)
    ensures Overlapping(o, child, start, end)
  {
    hide ParseDate, TextBefore, Covers, Overlapping;
    OverlapIff(o, child, start, end);
  }

  lemma OnlyOne(rows: seq<Override>, a: Override, b: Override, s: string)
    requires Disjoint(rows) && a in rows && b in rows && a.child == b.child && ParseDate(s).Some?
    requires Covers(a, s) && Covers(b, s)
    ensures a == b
  {
    hide ParseDate, Covers;
    forall i, j | 0 <= i < j < |rows| && rows[i].child == rows[j].child
      ensures !(Covers(rows[i], s) && Covers(rows[j], s))
    {
      AtMostOne(rows, i, j, s);
    }
  }

  // ----- the order of the overrides

  ghost predicate Agree(overrides: seq<Override>, s: string) {
    forall i, j ::
      0 <= i < |overrides| && 0 <= j < |overrides| && Covers(overrides[i], s) && Covers(overrides[j], s) ==>
        overrides[i].isPresent == overrides[j].isPresent
  }

  /** The day's state does not depend on the order of the overrides exactly when those that cover it agree,
      as they do in every reachable table. */
  lemma OrderIndependentIff(patterns: seq<Pattern>, overrides: seq<Override>, s: string)
    requires ParseDate(s).Some? && forall i :: 0 <= i < |patterns| ==> IsPattern(patterns[i])
    ensures Agree(overrides, s) <==>
            forall others: seq<Override> :: multiset(others) == multiset(overrides) ==>
              DayState(patterns, others, s) == DayState(patterns, overrides, s)
  {
    hide ParseDate, Covers, Find, PatternState, TextBefore;
    if Agree(overrides, s) {
      forall others: seq<Override> | multiset(others) == multiset(overrides)
        ensures DayState(patterns, others, s) == DayState(patterns, overrides, s)
      {
        SameAnswer(overrides, others, s);
      }
    } else {
      var i, j :| 0 <= i < |overrides| && 0 <= j < |overrides| && Covers(overrides[i], s) && Covers(overrides[j], s)
                  && overrides[i].isPresent != overrides[j].isPresent;
      FirstDecides(overrides, i, s);
      FirstDecides(overrides, j, s);
      assert DayState(patterns, First(overrides, i), s) != DayState(patterns, First(overrides, j), s);
    }
  }

  lemma SameAnswer(overrides: seq<Override>, others: seq<Override>, s: string)
    requires Agree(overrides, s) && multiset(others) == multiset(overrides)
    ensures Find(others, s).Some? == Find(overrides, s).Some?
    ensures Find(others, s).Some? ==> Find(others, s).value.isPresent == Find(overrides, s).value.isPresent
  {
    hide Covers, Find;
    FindIs(overrides, s);
    FindIs(others, s);
    assert forall o :: o in overrides <==> o in multiset(overrides);
    assert forall o :: o in others <==> o in multiset(others);
    if Find(overrides, s).Some? { assert Find(overrides, s).value in others; }
    if Find(others, s).Some? { assert Find(others, s).value in overrides; }
  }

  function First(overrides: seq<Override>, i: nat): (others: seq<Override>)
    requires i < |overrides|
  {
    [overrides[i]] + overrides[..i] + overrides[i + 1..]
  }

  lemma FirstDecides(overrides: seq<Override>, i: nat, s: string)
    requires i < |overrides| && Covers(overrides[i], s)
    ensures multiset(First(overrides, i)) == multiset(overrides)
    ensures Find(First(overrides, i), s) == Some(overrides[i])
  {
    hide Covers;
    assert overrides == overrides[..i] + [overrides[i]] + overrides[i + 1..];
  }

  lemma DisjointAgree(overrides: seq<Override>, s: string, child: int)
    requires Disjoint(overrides) && ParseDate(s).Some?
    requires forall i :: 0 <= i < |overrides| ==> overrides[i].child == child
    ensures Agree(overrides, s)
  {
    hide ParseDate, Covers, Disjoint;
    forall i, j | 0 <= i < j < |overrides| ensures !(Covers(overrides[i], s) && Covers(overrides[j], s)) {
      AtMostOne(overrides, i, j, s);
    }
  }

  // ----- the period

  /** `weeks` is a multiple of every cycle length. */
  ghost predicate CommonMultiple(patterns: seq<Pattern>, weeks: int) {
    forall i :: 0 <= i < |patterns| ==> IsPattern(patterns[i]) && weeks % patterns[i].cycleLengthWeeks == 0
  }

  lemma IncludesRepeats(p: Pattern, s: string, t: string, weeks: int)
    requires IsPattern(p) && ParseDate(s).Some? && ParseDate(t).Some? && weeks % p.cycleLengthWeeks == 0
    requires PanelDay(t) == PanelDay(s) + 7 * weeks
    ensures PatternIncludes(p, s) <==> PatternIncludes(p, t)
  {
    hide ParseDate, Mod, PanelDay;
    var d, n := PanelDay(s) - PanelDay(p.anchor), p.cycleLengthWeeks;
    ModIsFloor(d / 7, n);
    ModIsFloor((d + 7 * weeks) / 7, n);
    ModIsFloor(PanelDay(s) + 3, 7);
    ModIsFloor(PanelDay(t) + 3, 7);
    assert (d + 7 * weeks) / 7 == d / 7 + weeks;
    WeeksRepeat(d / 7, weeks, n);
    assert (PanelDay(s) + 7 * weeks + 3) % 7 == (PanelDay(s) + 3) % 7;
  }

  lemma WeeksRepeat(w: int, weeks: int, n: int)
    requires 0 < n && weeks % n == 0
    ensures (w + weeks) % n == w % n
  {
    var q := weeks / n;
    assert weeks == q * n;
    assert w + weeks == (w / n + q) * n + w % n;
    RemainderIs(w + weeks, n, w / n + q, w % n);
  }

  /** Outside overrides a child's days repeat after seven times any common multiple of the cycle lengths, for
      dates before the anchors as well. */
  lemma DaysRepeat(patterns: seq<Pattern>, overrides: seq<Override>, s: string, t: string, weeks: int)
    requires CommonMultiple(patterns, weeks) && ParseDate(s).Some? && ParseDate(t).Some?
    requires PanelDay(t) == PanelDay(s) + 7 * weeks
    requires forall i :: 0 <= i < |overrides| ==> !Covers(overrides[i], s) && !Covers(overrides[i], t)
    ensures DayState(patterns, overrides, s) == DayState(patterns, overrides, t)
  {
    hide ParseDate, Covers, PatternIncludes, PanelDay, Find;
    FindIs(overrides, s);
    FindIs(overrides, t);
    forall i | 0 <= i < |patterns| ensures PatternIncludes(patterns[i], s) <==> PatternIncludes(patterns[i], t) {
      IncludesRepeats(patterns[i], s, t, weeks);
    }
    forall kind ensures SomeIncludes(patterns, kind, s) <==> SomeIncludes(patterns, kind, t) {
    }
  }

  /** Twelve weeks serve every set of patterns the table takes. */
  lemma TwelveWeeksRepeat(patterns: seq<Pattern>, k: int)
    requires forall i :: 0 <= i < |patterns| ==> IsPattern(patterns[i])
    ensures CommonMultiple(patterns, 12 * k)
  {
    forall i | 0 <= i < |patterns| ensures (12 * k) % patterns[i].cycleLengthWeeks == 0 {
      Twelve(k, patterns[i].cycleLengthWeeks);
    }
  }

  lemma Twelve(k: int, n: int)
    requires 1 <= n <= 4
    ensures (12 * k) % n == 0
  {
    var q := if n == 1 then 12 else if n == 2 then 6 else if n == 3 then 4 else 3;
    assert 12 * k == (q * k) * n;
    RemainderIs(12 * k, n, q * k, 0);
  }
}
