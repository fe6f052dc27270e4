/** The wall-clock arithmetic of the sweep scheduler (api/scheduler.py).

    Instants, wall readings and offsets are integers counting microseconds, the resolution of
    Python's datetime; a wall reading counts them from a midnight, day 0's. */
module WallTime {
  const MAX_GAP_MINUTES := 2880

  function Minutes(k: int): int { 60_000_000 * k }

  function Days(d: int): int { 86_400_000_000 * d }

  datatype Result<+T> = Ok(value: T) | NoValidWallTime

  /** From instant `at` on, `offset` is added to an instant to read the wall. */
  datatype Change = Change(at: int, offset: int)

  datatype Zone = Zone(base: int, changes: seq<Change>) {
    /** The offset in force after the first `i` changes. */
    function Offset(i: nat): int
      requires i <= |changes|
    {
      if i == 0 then base else changes[i - 1].offset
    }

    /** How many of the first `n` changes happened at or before instant `t`. */
    function Passed(t: int, n: nat): (i: nat)
      requires n <= |changes|
      ensures i <= n
      ensures i > 0 ==> changes[i - 1].at <= t
      ensures forall k :: i <= k < n ==> t < changes[k].at
    {
      if n == 0 || changes[n - 1].at <= t then n else Passed(t, n - 1)
    }

    function OffsetAt(t: int): int {
      Offset(Passed(t, |changes|))
    }

    function Wall(t: int): int {
      t + OffsetAt(t)
    }

    /** The lower and the higher of the readings on the two sides of change `i`: what lies between
        them is a gap when the offset grows, and read twice when it shrinks. */
    function Lower(i: nat): int
      requires i < |changes|
    {
      changes[i].at + if Offset(i) < Offset(i + 1) then Offset(i) else Offset(i + 1)
    }

    function Upper(i: nat): int
      requires i < |changes|
    {
      changes[i].at + if Offset(i) < Offset(i + 1) then Offset(i + 1) else Offset(i)
    }

    /** How many of the first `n` changes a `fold=0` wall reading lies after: a change counts from
        its upper reading on. */
    function FoldPassed(w: int, n: nat): (i: nat)
      requires n <= |changes|
      ensures i <= n
      ensures i > 0 ==> Upper(i - 1) <= w
      ensures forall k :: i <= k < n ==> w < Upper(k)
    {
      if n == 0 || Upper(n - 1) <= w then n else FoldPassed(w, n - 1)
    }

    /** The offset Python's `utcoffset` gives the naive wall reading `w` with `fold=0`. */
    function FoldOffset(w: int): int {
      Offset(FoldPassed(w, |changes|))
    }

    /** The instant of the aware datetime with naive reading `w` and `fold=0`. */
    function ToUtc(w: int): int {
      w - FoldOffset(w)
    }

    /** What the code tests: converting to UTC and back gives the same reading. */
    predicate RoundTrips(w: int) {
      Wall(ToUtc(w)) == w
    }

    /** Some instant reads `w`. */
    ghost predicate Readable(w: int) {
      exists t :: Wall(t) == w
    }

    /** Offset changes are well separated, on the wall as in time, and no gap outlasts the search. */
    ghost predicate Regular() {
      && (forall i, j :: 0 <= i < j < |changes| ==> Upper(i) + Minutes(1) <= Lower(j))
      && (forall i :: 0 <= i < |changes| ==> Upper(i) - Lower(i) <= Minutes(MAX_GAP_MINUTES - 1))
    }
  }

  // ----- which readings exist, and which instant reads one first

  lemma ChangesAscend(z: Zone, i: nat, j: nat)
    requires z.Regular() && i < j < |z.changes|
    ensures z.Upper(i) + Minutes(1) <= z.Lower(j)
    ensures j == i + 1 ==> z.changes[i].at < z.changes[j].at
  {}

  lemma {:induction false} InstantsAscend(z: Zone, i: nat, j: nat)
    requires z.Regular() && i < j < |z.changes|
    ensures z.changes[i].at < z.changes[j].at
  {
    ChangesAscend(z, j - 1, j);
    if i + 1 < j { InstantsAscend(z, i, j - 1); }
  }

  /** A change separates the instants before and after it, so its index is determined. */
  lemma PassedIs(z: Zone, t: int, i: nat)
    requires z.Regular() && i <= |z.changes|
    requires i > 0 ==> z.changes[i - 1].at <= t
    requires i < |z.changes| ==> t < z.changes[i].at
    ensures z.Passed(t, |z.changes|) == i
  {
    hide Zone.Passed, Zone.FoldPassed, Zone.Regular;
    var p := z.Passed(t, |z.changes|);
    if i + 1 < p {
      InstantsAscend(z, i, p - 1);
    }
  }

  lemma FoldPassedIs(z: Zone, w: int, i: nat)
    requires z.Regular() && i <= |z.changes|
    requires i > 0 ==> z.Upper(i - 1) <= w
    requires i < |z.changes| ==> w < z.Upper(i)
    ensures z.FoldPassed(w, |z.changes|) == i
  {
    hide Zone.Passed, Zone.FoldPassed, Zone.Regular;
    var p := z.FoldPassed(w, |z.changes|);
    if i + 1 < p {
      ChangesAscend(z, i, p - 1);
    }
  }

  /** `fold=0` finds the first of the instants that read a wall time, whenever there is one. */
  lemma FirstReading(z: Zone, t: int)
    requires z.Regular()
    ensures z.RoundTrips(z.Wall(t)) && z.ToUtc(z.Wall(t)) <= t
  {
    hide Zone.Passed, Zone.FoldPassed, Zone.Regular;
    var n, w := |z.changes|, z.Wall(t);
    var i := z.Passed(t, n);
    if i > 1 { ChangesAscend(z, i - 2, i - 1); }
    if i == 0 || z.Upper(i - 1) <= w {
      FoldPassedIs(z, w, i);
    } else {
      FoldPassedIs(z, w, i - 1);
      PassedIs(z, w - z.Offset(i - 1), i - 1);
    }
  }

  lemma RoundTripIffReadable(z: Zone, w: int)
    requires z.Regular()
    ensures z.RoundTrips(w) <==> z.Readable(w)
  {
    hide Zone.Passed, Zone.FoldPassed, Zone.Regular;
    if z.Readable(w) {
      var t :| z.Wall(t) == w;
      FirstReading(z, t);
    }
  }

  /** An unreadable reading lies in the gap of exactly the change `fold=0` points at. */
  lemma UnreadableIsGap(z: Zone, w: int) returns (i: nat)
    requires z.Regular() && !z.RoundTrips(w)
    ensures i < |z.changes| && z.Offset(i) < z.Offset(i + 1) && i == z.FoldPassed(w, |z.changes|)
    ensures z.Lower(i) <= w < z.Upper(i)
  {
    hide Zone.Passed, Zone.FoldPassed, Zone.Regular;
    i := z.FoldPassed(w, |z.changes|);
    var t := w - z.Offset(i);
    if i == |z.changes| || t < z.changes[i].at {
      PassedIs(z, t, i);
      assert false;
    }
    assert z.changes[i].at + z.Offset(i) <= w < z.Upper(i);
  }

  /** A reading less than a minute past a gap is first read as long after the change. */
  lemma AfterGap(z: Zone, i: nat, w: int)
    requires z.Regular() && i < |z.changes| && z.Offset(i) < z.Offset(i + 1)
    requires z.Upper(i) <= w < z.Upper(i) + Minutes(1)
    ensures z.RoundTrips(w) && z.ToUtc(w) == w - z.Offset(i + 1)
  {
    hide Zone.Passed, Zone.FoldPassed, Zone.Regular;
    if i + 1 < |z.changes| { ChangesAscend(z, i, i + 1); }
    PassedIs(z, w - z.Offset(i + 1), i + 1);
    FoldPassedIs(z, w, i + 1);
  }

  /** First readings come in the order of the wall times they read. */
  lemma FirstReadingsAscend(z: Zone, w1: int, w2: int)
    requires z.Regular() && z.RoundTrips(w1) && z.RoundTrips(w2) && w1 < w2
    ensures z.ToUtc(w1) < z.ToUtc(w2)
  {
    hide Zone.Passed, Zone.FoldPassed, Zone.Regular;
    var n := |z.changes|;
    var i, j := z.FoldPassed(w1, n), z.FoldPassed(w2, n);
    assert i <= j;
    FoldBeforeChange(z, w1);
    FoldAfterChange(z, w2);
    if i + 1 < j { InstantsAscend(z, i, j - 1); }
  }

  lemma FoldBeforeChange(z: Zone, w: int)
    requires z.Regular() && z.RoundTrips(w)
    ensures var i := z.FoldPassed(w, |z.changes|); i < |z.changes| ==> z.ToUtc(w) < z.changes[i].at
  {
    hide Zone.Passed, Zone.FoldPassed, Zone.Regular;
    var i, t := z.FoldPassed(w, |z.changes|), z.ToUtc(w);
    var p := z.Passed(t, |z.changes|);
    if i < |z.changes| && z.changes[i].at <= t {
      assert z.changes[i].at + z.Offset(i) <= w < z.Upper(i);
      if i + 1 < p { ChangesAscend(z, i, p - 1); }
      assert false;
    }
  }

  lemma FoldAfterChange(z: Zone, w: int)
    requires z.Regular()
    ensures var i := z.FoldPassed(w, |z.changes|); i > 0 ==> z.changes[i - 1].at <= z.ToUtc(w)
  {}

  // ----- _resolve_wall_time

  /** The naive target on `day`; `target` counts minutes, as a strict HH:MM does. */
  function Target(day: int, target: int): int {
    Days(day) + Minutes(target)
  }

  /** Whether the reading `k` minutes after `w` round-trips. */
  predicate GoodMinute(z: Zone, w: int, k: nat) {
    z.RoundTrips(w + Minutes(k))
  }

  /** The search stops at minute `m`. */
  ghost predicate StopsAt(z: Zone, w: int, m: nat) {
    m < MAX_GAP_MINUTES && GoodMinute(z, w, m) && forall k: nat :: k < m ==> !GoodMinute(z, w, k)
  }

  /** The naive wall reading the search from `w` ends with. */
  ghost function Resolved(z: Zone, w: int): Result<int> {
    if m: nat :| StopsAt(z, w, m) then Ok(w + Minutes(m)) else NoValidWallTime
  }

  lemma StopsOnce(z: Zone, w: int, m: nat, m': nat)
    requires StopsAt(z, w, m) && StopsAt(z, w, m')
    ensures m == m'
  {}

  lemma ResolvedIs(z: Zone, w: int, m: nat)
    requires StopsAt(z, w, m)
    ensures Resolved(z, w) == Ok(w + Minutes(m))
  {
    var m': nat :| StopsAt(z, w, m') && Resolved(z, w) == Ok(w + Minutes(m'));
    StopsOnce(z, w, m, m');
  }

  lemma ResolvedNone(z: Zone, w: int)
    requires forall k: nat :: k < MAX_GAP_MINUTES ==> !GoodMinute(z, w, k)
    ensures Resolved(z, w) == NoValidWallTime
  {}

  lemma MinutesToCover(span: int) returns (k: nat)
    requires 0 < span <= Minutes(MAX_GAP_MINUTES - 1)
    ensures k < MAX_GAP_MINUTES && span <= Minutes(k) < span + Minutes(1)
  {
    k := (span + 59_999_999) / 60_000_000;
  }

  lemma GapIsLeft(z: Zone, w: int) returns (k: nat)
    requires z.Regular() && !z.RoundTrips(w)
    ensures k < MAX_GAP_MINUTES && z.RoundTrips(w + Minutes(k))
  {
    hide Zone.Passed, Zone.FoldPassed, Zone.RoundTrips;
    var i := UnreadableIsGap(z, w);
    k := MinutesToCover(z.Upper(i) - w);
    AfterGap(z, i, w + Minutes(k));
  }

  lemma SomeMinuteIsGood(z: Zone, w: int) returns (k: nat)
    requires z.Regular()
    ensures k < MAX_GAP_MINUTES && GoodMinute(z, w, k)
  {
    hide Zone.Passed, Zone.FoldPassed, Zone.Regular, Zone.RoundTrips;
    if z.RoundTrips(w) {
      k := 0;
      assert w + Minutes(k) == w;
    } else {
      k := GapIsLeft(z, w);
    }
  }

  /** A target is the reading of its day at its minute. */
  lemma TargetIs(day: int, target: nat)
    requires target < 1440
    ensures Target(day, target) / 86_400_000_000 == day && Target(day, target) % 86_400_000_000 == 60_000_000 * target
  {}

  /** From the start of a gap of `n` minutes the search gets to its end exactly if they are less than two days, and
      otherwise gives up. */
  lemma SearchEndsIff(at: int, n: nat)
    requires n > 0
    ensures Resolved(Zone(0, [Change(at, Minutes(n))]), at) ==
            if n < 2880 then Ok(at + 60_000_000 * n) else NoValidWallTime
  {
    hide Resolved;
    var z := Zone(0, [Change(at, Minutes(n))]);
    forall k: nat ensures GoodMinute(z, at, k) <==> n <= k {
      assert z.Upper(0) == at + Minutes(n);
      assert z.FoldPassed(at + Minutes(k), 0) == 0;
      assert z.ToUtc(at + Minutes(k)) == if n <= k then at + Minutes(k) - Minutes(n) else at + Minutes(k);
      assert z.Passed(z.ToUtc(at + Minutes(k)), 1) == 1;
    }
    if n < MAX_GAP_MINUTES { ResolvedIs(z, at, n); } else { ResolvedNone(z, at); }
  }

  lemma {:induction false} SearchStops(z: Zone, w: int, k: nat) returns (m: nat)
    requires k < MAX_GAP_MINUTES && GoodMinute(z, w, k)
    ensures m <= k && StopsAt(z, w, m)
  {
    m := k;
    if j: nat :| j < k && GoodMinute(z, w, j) {
      m := SearchStops(z, w, j);
    }
  }

  /** `r` is the first readable of the readings `w`, `w` + 1 min, `w` + 2 min, ... */
  ghost predicate IsFirstMinute(z: Zone, w: int, r: int) {
    && z.Readable(r)
    && exists m: nat :: r == w + Minutes(m) && forall k: nat :: k < m ==> !z.Readable(w + Minutes(k))
  }

  ghost predicate EarliestReading(z: Zone, t: int, w: int) {
    z.Wall(t) == w && forall u :: z.Wall(u) == w ==> t <= u
  }

  /** The search succeeds, at the first readable minute and the earliest instant that reads it. */
  lemma ResolvedInRegularZone(z: Zone, w: int)
    requires z.Regular()
    ensures Resolved(z, w).Ok?
    ensures var r := Resolved(z, w).value; IsFirstMinute(z, w, r) && EarliestReading(z, z.ToUtc(r), r)
  {
    hide Zone.Passed, Zone.FoldPassed, Zone.Regular;
    var k := SomeMinuteIsGood(z, w);
    var m := SearchStops(z, w, k);
    ResolvedIs(z, w, m);
    var r := w + Minutes(m);
    RoundTripIffReadable(z, r);
    forall k: nat | k < m ensures !z.Readable(w + Minutes(k)) {
      assert !GoodMinute(z, w, k);
      RoundTripIffReadable(z, w + Minutes(k));
    }
    forall u | z.Wall(u) == r ensures z.ToUtc(r) <= u {
      FirstReading(z, u);
    }
  }

  /** Returns the naive wall reading; the aware datetime it stands for has `fold=0`. */
  method ResolveWallTime(day: int, target: int, z: Zone) returns (r: Result<int>)
    ensures r == Resolved(z, Target(day, target))
  {
    hide Zone.RoundTrips, Resolved, Target;
    ghost var w := Target(day, target);
    var wall := Target(day, target);
    for i := 0 to MAX_GAP_MINUTES
      invariant wall == w + Minutes(i)
      invariant forall k: nat :: k < i ==> !GoodMinute(z, w, k)
    {
      if z.RoundTrips(wall) {
        assert GoodMinute(z, w, i);
        ResolvedIs(z, w, i);
        return Ok(wall);
      }
      assert !GoodMinute(z, w, i);
      wall := wall + Minutes(1);
    }
    ResolvedNone(z, w);
    return NoValidWallTime;
  }

  // ----- _delay_seconds

  function DayOf(w: int): int { w / 86_400_000_000 }

  /** datetime itself rejects an offset of a day or more. */
  ghost predicate Bounded(z: Zone) {
    forall i :: 0 <= i <= |z.changes| ==> -Days(1) < z.Offset(i) < Days(1)
  }

  /** The instant day `d`'s target is resolved to. */
  ghost function Scheduled(z: Zone, target: nat, d: int): Result<int> {
    match Resolved(z, Target(d, target))
    case Ok(w) => Ok(z.ToUtc(w))
    case NoValidWallTime => NoValidWallTime
  }

  ghost predicate ScheduledAfter(z: Zone, target: nat, now: int, d: int) {
    Scheduled(z, target, d).Ok? && now < Scheduled(z, target, d).value
  }

  ghost predicate ScheduledBy(z: Zone, target: nat, now: int, d: int) {
    Scheduled(z, target, d).Ok? && Scheduled(z, target, d).value <= now
  }

  /** `d` is the first day, from `now`'s own on, that is not scheduled at or before `now`. */
  ghost predicate LandsOn(z: Zone, target: nat, now: int, d: int) {
    && DayOf(z.Wall(now)) <= d
    && !ScheduledBy(z, target, now, d)
    && forall e :: DayOf(z.Wall(now)) <= e < d ==> ScheduledBy(z, target, now, e)
  }

  /** Of the instants any day's target resolves to, earlier days included, day `d`'s is the first
      after `now`. */
  ghost predicate IsNext(z: Zone, target: nat, now: int, d: int) {
    && ScheduledAfter(z, target, now, d)
    && forall e :: ScheduledAfter(z, target, now, e) ==>
         Scheduled(z, target, d).value <= Scheduled(z, target, e).value
  }

  /** The result is the wait from now until the instant of the first day not scheduled by now; or that day has none. */
  method DelaySeconds(target: nat, now: int, z: Zone) returns (r: Result<int>)
    requires target < 1440 && Bounded(z)
    ensures exists d :: LandsOn(z, target, now, d) &&
              if r.Ok? then r.value > 0 && Scheduled(z, target, d) == Ok(now + r.value)
              else Scheduled(z, target, d) == NoValidWallTime
  {
    hide Zone.Wall, Zone.ToUtc, Resolved, Target, DayOf, Bounded;
    var d := DayOf(z.Wall(now));
    while true
      invariant DayOf(z.Wall(now)) <= d
      invariant forall e :: DayOf(z.Wall(now)) <= e < d ==> ScheduledBy(z, target, now, e)
      decreases now + Days(2) - Days(d)
    {
      var scheduled := ResolveWallTime(d, target, z);
      if scheduled.NoValidWallTime? {
        assert LandsOn(z, target, now, d) && Scheduled(z, target, d) == NoValidWallTime;
        return NoValidWallTime;
      }
      var scheduledUtc := z.ToUtc(scheduled.value);
      if now < scheduledUtc {
        assert LandsOn(z, target, now, d) && Scheduled(z, target, d) == Ok(scheduledUtc);
        return Ok(scheduledUtc - now);
      }
      assert ScheduledBy(z, target, now, d);
      ResolvedIsLater(z, target, d);
      d := d + 1;
    }
  }

  lemma ResolvedIsLater(z: Zone, target: nat, d: int)
    requires Bounded(z) && Scheduled(z, target, d).Ok?
    ensures Days(d - 1) < Scheduled(z, target, d).value
  {}

  // ----- the scheduled instant is the next one of all

  lemma ScheduledInRegularZone(z: Zone, target: nat, d: int) returns (w: int)
    requires z.Regular()
    ensures Scheduled(z, target, d) == Ok(z.ToUtc(w)) && Resolved(z, Target(d, target)) == Ok(w)
    ensures IsFirstMinute(z, Target(d, target), w) && EarliestReading(z, z.ToUtc(w), w)
    ensures z.RoundTrips(w) && Target(d, target) <= w
  {
    ResolvedInRegularZone(z, Target(d, target));
    w := Resolved(z, Target(d, target)).value;
  }

  /** If the first minute from `w` on is read no later than `v`, so is the instant it resolves to. */
  lemma ReadNoLater(z: Zone, r: int, v: int)
    requires z.Regular() && z.RoundTrips(r) && z.RoundTrips(v) && r <= v
    ensures z.ToUtc(r) <= z.ToUtc(v)
  {
    if r < v { FirstReadingsAscend(z, r, v); }
  }

  /** A later day's target is scheduled no earlier. */
  lemma ScheduledAscends(z: Zone, target: nat, d: int, e: int)
    requires z.Regular() && d <= e
    ensures Scheduled(z, target, d).Ok? && Scheduled(z, target, e).Ok?
    ensures Scheduled(z, target, d).value <= Scheduled(z, target, e).value
  {
    hide Zone.Passed, Zone.FoldPassed, Zone.Regular, Zone.RoundTrips;
    var r := ScheduledInRegularZone(z, target, d);
    var s := ScheduledInRegularZone(z, target, e);
    TargetsAligned(z, target, d, e, s);
    FirstMinuteIsLeast(z, Target(d, target), r, s);
    ReadNoLater(z, r, s);
  }

  lemma TargetsAligned(z: Zone, target: nat, d: int, e: int, s: int)
    requires d <= e && IsFirstMinute(z, Target(e, target), s)
    ensures Aligned(Target(d, target), s) && Target(d, target) <= s && z.Readable(s)
  {
    var m: nat :| s == Target(e, target) + Minutes(m);
    assert s == Target(d, target) + Minutes(1440 * (e - d) + m);
  }

  lemma GapUnreadable(z: Zone, i: nat, w: int)
    requires z.Regular() && i < |z.changes| && z.Offset(i) < z.Offset(i + 1)
    requires z.Lower(i) <= w < z.Upper(i)
    ensures !z.RoundTrips(w)
  {
    if i > 0 { ChangesAscend(z, i - 1, i); }
    FoldPassedIs(z, w, i);
    if z.RoundTrips(w) { FoldBeforeChange(z, w); }
  }

  /** The last whole minute at or before a reading. */
  function MinuteOf(w: int): int { Minutes(w / 60_000_000) }

  /** A target of an earlier day can only be due after `now` when one gap swallows every minute from
      the target to `now`'s, and ends inside `now`'s. */
  lemma {:induction false} EarlierDayDue(z: Zone, target: nat, now: int, e: int) returns (i: nat)
    requires z.Regular() && target < 1440
    requires e < DayOf(z.Wall(now)) && ScheduledAfter(z, target, now, e)
    ensures i < |z.changes| && z.Offset(i) < z.Offset(i + 1)
    ensures z.Lower(i) <= Target(e, target) <= MinuteOf(z.Wall(now)) < z.Upper(i) <= z.Wall(now)
  {
    var r := ScheduledInRegularZone(z, target, e);
    TargetBeforeMinute(z.Wall(now), target, e);
    i := DueAfterGap(z, Target(e, target), MinuteOf(z.Wall(now)), now, r);
  }

  lemma TargetBeforeMinute(n: int, target: nat, e: int)
    requires target < 1440 && e < DayOf(n)
    ensures Target(e, target) <= MinuteOf(n) <= n && Aligned(Target(e, target), MinuteOf(n))
  {
    assert Target(e, target) == Minutes(1440 * e + target);
    assert MinuteOf(n) == Target(e, target) + Minutes(n / 60_000_000 - 1440 * e - target);
  }

  /** Two readings a whole number of minutes apart. */
  ghost predicate Aligned(v: int, w: int) {
    exists k :: w == v + Minutes(k)
  }

  /** The first minute from `T` on is resolved after `now`, though `now` reads a wall past minute `f`. */
  lemma DueAfterGap(z: Zone, T: int, f: int, now: int, r: int) returns (i: nat)
    requires z.Regular() && IsFirstMinute(z, T, r) && z.RoundTrips(r) && now < z.ToUtc(r)
    requires T <= f <= z.Wall(now) && Aligned(T, f)
    ensures i < |z.changes| && z.Offset(i) < z.Offset(i + 1)
    ensures z.Lower(i) <= T && f < z.Upper(i) <= z.Wall(now)
  {
    hide *;
    FirstReading(z, now);
    NotDueByMinute(z, T, now, r, f);
    i := UnreadableIsGap(z, f);
    if z.Wall(now) < z.Upper(i) { GapUnreadable(z, i, z.Wall(now)); }
    if T < z.Lower(i) {
      var v := MinuteBefore(f, z.Lower(i), T);
      NotDueByMinute(z, T, now, r, v);
      var j := UnreadableIsGap(z, v);
      OneGap(z, i, j, v);
    }
  }

  /** The last of the whole minutes from `T` to `f` before `x`. */
  lemma MinuteBefore(f: int, x: int, T: int) returns (v: int)
    requires Aligned(T, f) && T < x <= f
    ensures Aligned(T, v) && T <= v < x <= v + Minutes(1) && v <= f
  {
    var k :| f == T + Minutes(k);
    var m := (f - x) / 60_000_000 + 1;
    v := f - Minutes(m);
    assert v == T + Minutes(k - m);
  }

  /** Gaps are a minute apart, so two readings less than a minute apart lie in one. */
  lemma OneGap(z: Zone, i: nat, j: nat, v: int)
    requires z.Regular() && i < |z.changes| && j < |z.changes|
    requires z.Lower(j) <= v < z.Upper(j)
    requires v < z.Upper(i) && z.Lower(i) <= v + Minutes(1)
    ensures z.Lower(i) <= v
  {
    hide Zone.Regular, Zone.Upper, Zone.Lower;
    if j < i { ChangesAscend(z, j, i); }
    if i < j { ChangesAscend(z, i, j); }
  }

  lemma NotDueByMinute(z: Zone, T: int, now: int, r: int, v: int)
    requires z.Regular() && IsFirstMinute(z, T, r) && z.RoundTrips(r) && now < z.ToUtc(r)
    requires T <= v <= z.Wall(now) && Aligned(T, v)
    ensures !z.RoundTrips(v)
  {
    hide *;
    if z.RoundTrips(v) {
      RoundTripIffReadable(z, v);
      FirstMinuteIsLeast(z, T, r, v);
      FirstReading(z, now);
      ReadNoLater(z, r, v);
      ReadNoLater(z, v, z.Wall(now));
    }
  }

  lemma FirstMinuteIsLeast(z: Zone, w: int, r: int, v: int)
    requires IsFirstMinute(z, w, r) && w <= v && Aligned(w, v) && z.Readable(v)
    ensures r <= v
  {
    var k :| v == w + Minutes(k);
  }

  // ----- exactly when the scheduled instant is the next one

  /** A gap that swallows one day's target and all that is left of the day, and then ends off the minute, a minute
      or more before the next day's. */
  ghost predicate MidnightGap(z: Zone, i: nat, target: nat) {
    && i < |z.changes| && z.Offset(i) < z.Offset(i + 1)
    && var d := DayOf(z.Upper(i));
    && z.Lower(i) <= Target(d - 1, target)
    && z.Upper(i) % 60_000_000 != 0
    && z.Upper(i) < Target(d, target) - Minutes(1)
  }

  /** A minute boundary inside the minute that ends gap `i` is the next one. */
  lemma AfterUnalignedGap(z: Zone, T: int, r: int, i: nat)
    requires z.Regular() && i < |z.changes| && z.Offset(i) < z.Offset(i + 1)
    requires z.Lower(i) <= T < z.Upper(i) && IsFirstMinute(z, T, r)
    ensures z.Upper(i) <= r < z.Upper(i) + Minutes(1)
    ensures z.ToUtc(r) == r - z.Offset(i + 1)
  {
    hide *;
    var v := MinuteAfter(T, z.Upper(i));
    AfterGap(z, i, v);
    RoundTripIffReadable(z, v);
    FirstMinuteIsLeast(z, T, r, v);
    FirstMinuteReads(z, T, r);
    if r < z.Upper(i) { GapUnreadable(z, i, r); }
    AfterGap(z, i, r);
  }

  lemma FirstMinuteReads(z: Zone, T: int, r: int)
    requires z.Regular() && IsFirstMinute(z, T, r)
    ensures z.RoundTrips(r) && T <= r && Aligned(T, r)
  {
    RoundTripIffReadable(z, r);
  }

  lemma MinuteAfter(T: int, x: int) returns (v: int)
    requires T < x
    ensures Aligned(T, v) && T < v && x <= v < x + Minutes(1)
  {
    var k := (x - T + 59_999_999) / 60_000_000;
    v := T + Minutes(k);
  }

  /** What EarlierDayDue finds is a midnight gap, unless it ends about the next day's target. */
  lemma GapEndsLate(z: Zone, i: nat, n: int, target: nat, e: int, r: int)
    requires target < 1440 && e < DayOf(n) && Aligned(Target(e, target), r) && i < |z.changes|
    requires z.Offset(i) < z.Offset(i + 1) && !MidnightGap(z, i, target)
    requires z.Lower(i) <= Target(e, target) <= MinuteOf(n) < z.Upper(i) <= n && z.Upper(i) <= r
    ensures Target(DayOf(n), target) <= r && Aligned(Target(DayOf(n), target), r)
  {
    hide Zone.Upper, Zone.Lower, Zone.Offset, DayOf, MinuteOf;
    var D := DayOf(n);
    EndsInMinuteOf(n, z.Upper(i));
    var k :| r == Target(e, target) + Minutes(k);
    assert Target(e, target) <= Target(D - 1, target);
    NextMinute(z.Upper(i), r, 1440 * D + target, 1440 * e + target + k);
    assert r == Target(D, target) + Minutes(k - 1440 * (D - e));
  }

  lemma EndsInMinuteOf(n: int, x: int)
    requires MinuteOf(n) < x <= n
    ensures DayOf(x) == DayOf(n) && x % 60_000_000 != 0
  {
    var m := n / 60_000_000;
    assert x / 60_000_000 == m;
    assert DayOf(x) == m / 1440 && DayOf(n) == m / 1440;
  }

  lemma NextMinute(x: int, r: int, t: int, m: int)
    requires Minutes(t) - Minutes(1) <= x <= r && x % 60_000_000 != 0 && r == Minutes(m)
    ensures Minutes(t) <= r
  {
    MinutesDivide(t - 1);
    assert x != Minutes(t - 1);
    assert t - 1 < m;
  }

  lemma MinutesDivide(k: int)
    ensures Minutes(k) % 60_000_000 == 0
  {}

  lemma EarlierDayIsNoSooner(z: Zone, target: nat, now: int, e: int)
    requires z.Regular() && target < 1440 && (forall i: nat :: !MidnightGap(z, i, target))
    requires e < DayOf(z.Wall(now)) && ScheduledAfter(z, target, now, e)
    ensures var D := DayOf(z.Wall(now)); Scheduled(z, target, D) == Scheduled(z, target, e)
  {
    hide Zone.Regular, Zone.Wall, Zone.RoundTrips, Zone.ToUtc, Target, Resolved, IsFirstMinute, EarliestReading,
      MidnightGap, DayOf, MinuteOf, Zone.Upper, Zone.Lower;
    var D := DayOf(z.Wall(now));
    var i := EarlierDayDue(z, target, now, e);
    var r := ScheduledInRegularZone(z, target, e);
    var s := ScheduledInRegularZone(z, target, D);
    FirstMinuteReads(z, Target(e, target), r);
    RoundTripIffReadable(z, r);
    AfterUnalignedGap(z, Target(e, target), r, i);
    GapEndsLate(z, i, z.Wall(now), target, e, r);
    FirstMinuteIsLeast(z, Target(D, target), s, r);
    ReadNoLater(z, s, r);
    ScheduledAscends(z, target, e, D);
  }

  /** Without such a gap the scheduler's instant is the next of all days' resolved targets. */
  lemma DelayIsNext(z: Zone, target: nat, now: int, d: int)
    requires z.Regular() && target < 1440 && forall i: nat :: !MidnightGap(z, i, target)
    requires LandsOn(z, target, now, d)
    ensures IsNext(z, target, now, d)
  {
    hide Scheduled, DayOf, MidnightGap, Zone.Regular, Zone.Wall;
    var D := DayOf(z.Wall(now));
    ScheduledAscends(z, target, d, d);
    forall e | ScheduledAfter(z, target, now, e)
      ensures Scheduled(z, target, d).value <= Scheduled(z, target, e).value
    {
      if e < D {
        EarlierDayIsNoSooner(z, target, now, e);
        assert D < d ==> ScheduledBy(z, target, now, D);
      } else {
        assert e < d ==> ScheduledBy(z, target, now, e);
        ScheduledAscends(z, target, d, e);
      }
    }
  }

  /** With one, the day before is skipped: at the gap's end its rollover is due within the minute, and the scheduler
      waits for a later one. */
  lemma {:induction false} MidnightGapSkipsADay(z: Zone, i: nat, target: nat, d: int)
    requires z.Regular() && target < 1440 && MidnightGap(z, i, target)
    requires LandsOn(z, target, z.changes[i].at, d)
    ensures !IsNext(z, target, z.changes[i].at, d)
  {
    hide Zone.Regular, Zone.Wall, Zone.RoundTrips, Resolved, IsFirstMinute, EarliestReading, Zone.Lower,
      Zone.FoldOffset, DayOf, MidnightGap, Target, Aligned, ScheduledBy;
    GapHoldsTarget(z, i, target);
    var now, D := z.changes[i].at, DayOf(z.Upper(i));
    var r := ScheduledInRegularZone(z, target, D - 1);
    var s := ScheduledInRegularZone(z, target, D);
    AfterUnalignedGap(z, Target(D - 1, target), r, i);
    FirstMinuteReads(z, Target(D - 1, target), r);
    EndsBeforeTarget(z, i, target, r);
    GapEndIsRead(z, i);
    FirstReadingsAscend(z, r, s);
    ScheduledAscends(z, target, D, d);
    assert ScheduledAfter(z, target, now, D - 1);
  }

  /** The search for a day not yet due ends. */
  lemma {:induction false} SomeDayLands(z: Zone, target: nat, now: int, e: int) returns (d: int)
    requires Bounded(z) && DayOf(z.Wall(now)) <= e
    requires forall k :: DayOf(z.Wall(now)) <= k < e ==> ScheduledBy(z, target, now, k)
    ensures LandsOn(z, target, now, d)
    decreases now + Days(2) - Days(e)
  {
    hide Zone.Wall, Zone.ToUtc, Resolved, Target, DayOf, Bounded;
    d := e;
    if ScheduledBy(z, target, now, e) {
      ResolvedIsLater(z, target, e);
      d := SomeDayLands(z, target, now, e + 1);
    }
  }

  /** The scheduler always waits for the next of all days' rollovers exactly when no gap of the zone swallows one
      like that. */
  lemma NextIffNoMidnightGap(z: Zone, target: nat)
    requires z.Regular() && Bounded(z) && target < 1440
    ensures (forall now, d :: LandsOn(z, target, now, d) ==> IsNext(z, target, now, d)) <==>
            (forall i: nat :: !MidnightGap(z, i, target))
  {
    hide Zone.Regular, Zone.Wall, Bounded, DayOf, LandsOn, IsNext, MidnightGap;
    if forall i: nat :: !MidnightGap(z, i, target) {
      forall now, d | LandsOn(z, target, now, d) ensures IsNext(z, target, now, d) {
        DelayIsNext(z, target, now, d);
      }
    } else {
      var i: nat :| MidnightGap(z, i, target);
      GapHoldsTarget(z, i, target);
      var d := SomeDayLands(z, target, z.changes[i].at, DayOf(z.Wall(z.changes[i].at)));
      MidnightGapSkipsADay(z, i, target, d);
    }
  }

  /** A clock that jumps from half past eleven at night by an hour and half a second: for a rollover at 23:45, such
      a zone. */
  lemma MidnightGapExists()
    ensures var z := Zone(0, [Change(Days(1) - Minutes(30), Minutes(60) + 500_000)]);
            z.Regular() && Bounded(z) && MidnightGap(z, 0, 1425) && !MidnightGap(z, 0, 30)
  {}

  lemma GapHoldsTarget(z: Zone, i: nat, target: nat)
    requires target < 1440 && MidnightGap(z, i, target)
    ensures i < |z.changes| && z.Offset(i) < z.Offset(i + 1)
    ensures z.Lower(i) <= Target(DayOf(z.Upper(i)) - 1, target) < z.Upper(i)
  {}

  lemma EndsBeforeTarget(z: Zone, i: nat, target: nat, r: int)
    requires MidnightGap(z, i, target) && z.Upper(i) <= r < z.Upper(i) + Minutes(1)
    requires Aligned(Target(DayOf(z.Upper(i)) - 1, target), r)
    ensures z.Upper(i) < r < Target(DayOf(z.Upper(i)), target)
  {
    hide DayOf, Zone.Upper, Zone.Lower;
    var D := DayOf(z.Upper(i));
    var k :| r == Target(D - 1, target) + Minutes(k);
    MinutesDivide(1440 * (D - 1) + target + k);
  }

  lemma GapEndIsRead(z: Zone, i: nat)
    requires z.Regular() && i < |z.changes| && z.Offset(i) < z.Offset(i + 1)
    ensures z.Wall(z.changes[i].at) == z.Upper(i)
  {
    hide Zone.Regular, Zone.Passed, Zone.FoldPassed;
    if i + 1 < |z.changes| { InstantsAscend(z, i, i + 1); }
    PassedIs(z, z.changes[i].at, i + 1);
  }

  // ----- how long the scheduler waits

  /** How far the first whole minute lies past the gap that `w` is in; 0 if it ends on a minute. */
  ghost function Rounding(z: Zone, w: int): int {
    var i := z.FoldPassed(w, |z.changes|);
    if z.RoundTrips(w) || i == |z.changes| then 0 else (-z.Upper(i)) % 60_000_000
  }

  lemma ScheduledNoLater(z: Zone, target: nat, d: int)
    requires z.Regular()
    ensures Scheduled(z, target, d).Ok?
    ensures Scheduled(z, target, d).value <= z.ToUtc(Target(d, target)) + Rounding(z, Target(d, target))
  {
    hide Zone.Regular, Zone.Wall, Zone.RoundTrips, Resolved, IsFirstMinute, EarliestReading, Zone.Passed,
      Zone.FoldPassed, Aligned, Target;
    var T := Target(d, target);
    var r := ScheduledInRegularZone(z, target, d);
    FirstMinuteReads(z, T, r);
    if z.RoundTrips(T) {
      RoundTripIffReadable(z, T);
      AlignedWithItself(T);
      FirstMinuteIsLeast(z, T, r, T);
    } else {
      var i := UnreadableIsGap(z, T);
      AfterUnalignedGap(z, T, r, i);
      RoundUp(z.Upper(i), r, d, target);
    }
  }

  lemma AlignedWithItself(w: int)
    ensures Aligned(w, w)
  {
    assert w == w + Minutes(0);
  }

  lemma RoundUp(x: int, r: int, d: int, target: nat)
    requires Aligned(Target(d, target), r) && x <= r < x + Minutes(1)
    ensures r - x == (-x) % 60_000_000
  {
    var k :| r == Target(d, target) + Minutes(k);
    assert r == Minutes(1440 * d + target + k);
  }

  /** The offset the wait is measured from: `now`'s, or the one the day before was resolved with. */
  ghost function OffsetBefore(z: Zone, target: nat, now: int, d: int): int {
    if d == DayOf(z.Wall(now)) || Scheduled(z, target, d - 1).NoValidWallTime? then z.OffsetAt(now)
    else z.OffsetAt(Scheduled(z, target, d - 1).value)
  }

  /** The wait is at most a day, plus what the zone's offset changes by in between. */
  lemma DelayIsBounded(z: Zone, target: nat, now: int, d: int)
    requires z.Regular() && target < 1440 && LandsOn(z, target, now, d)
    ensures Scheduled(z, target, d).Ok?
    ensures 0 < Scheduled(z, target, d).value - now
              <= Days(1) + Rounding(z, Target(d, target))
                 + OffsetBefore(z, target, now, d) - z.FoldOffset(Target(d, target))
  {
    hide Zone.Regular, Zone.RoundTrips, Resolved, IsFirstMinute, Rounding, Zone.OffsetAt, Zone.FoldOffset;
    ScheduledNoLater(z, target, d);
    if d != DayOf(z.Wall(now)) {
      assert ScheduledBy(z, target, now, d - 1);
      var w := ScheduledInRegularZone(z, target, d - 1);
    }
  }
}
