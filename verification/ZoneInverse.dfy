/** The admin panel's inverse of the wall clock (admin/src/time/zone.ts), over the zones of the scheduler's
    arithmetic. `wall` is the requested reading as an instant of UTC. */
module ZoneInverse {
  import opened WallTime

  const SECOND := 1_000_000

  function FloorSecond(t: int): int { (t / SECOND) * SECOND }

  /** The formatted parts stop at the second, so both sides of the difference do. */
  function OffsetAt(z: Zone, instant: int): int {
    FloorSecond(z.Wall(instant)) - FloorSecond(instant)
  }

  function WallClockInstant(z: Zone, wall: int): int {
    var guess := wall - OffsetAt(z, wall);
    wall - OffsetAt(z, guess)
  }

  ghost predicate WholeSeconds(z: Zone) {
    z.base % SECOND == 0 && forall i :: 0 <= i < |z.changes| ==> z.changes[i].offset % SECOND == 0
  }

  /** Only the offsets `a` and `b` occur at the two guesses and wherever `wall` is read. */
  ghost predicate TwoOffsets(z: Zone, wall: int, a: int, b: int) {
    forall t :: z.Wall(t) == wall || t == wall || t == wall - a || t == wall - b ==>
      z.OffsetAt(t) == a || z.OffsetAt(t) == b
  }

  lemma SecondsCancel(t: int, offset: int)
    requires offset % SECOND == 0
    ensures FloorSecond(t + offset) - FloorSecond(t) == offset
  {
    var q := offset / SECOND;
    assert offset == q * SECOND;
    assert (t + q * SECOND) / SECOND == t / SECOND + q;
  }

  /** Where offsets are whole seconds the truncation cancels. */
  lemma OffsetIs(z: Zone, instant: int)
    requires WholeSeconds(z)
    ensures OffsetAt(z, instant) == z.OffsetAt(instant)
  {
    hide FloorSecond;
    SecondsCancel(instant, z.OffsetAt(instant));
  }

  /** With two offsets about, the two passes find an instant that reads the requested time exactly when there
      is one; in a gap they land off it by the change. */
  lemma ReadsItIff(z: Zone, wall: int, a: int, b: int)
    requires WholeSeconds(z) && TwoOffsets(z, wall, a, b)
    ensures z.Wall(WallClockInstant(z, wall)) == wall <==> z.Readable(wall)
    ensures !z.Readable(wall) ==> z.Wall(WallClockInstant(z, wall)) - wall in {a - b, b - a}
  {
    hide Zone.OffsetAt, WholeSeconds, OffsetAt;
    OffsetIs(z, wall);
    OffsetIs(z, wall - z.OffsetAt(wall));
    assert z.OffsetAt(wall) == a || z.OffsetAt(wall) == b;
    assert z.OffsetAt(wall - a) == a || z.OffsetAt(wall - a) == b;
    assert z.OffsetAt(wall - b) == a || z.OffsetAt(wall - b) == b;
    if z.Readable(wall) {
      var t :| z.Wall(t) == wall;
      assert t == wall - a || t == wall - b;
    }
    if z.Wall(WallClockInstant(z, wall)) == wall {
      assert z.Readable(wall);
    }
  }

  /** No offset of the zone is further than `bound` from UTC. */
  ghost predicate Within(z: Zone, bound: int) {
    -bound <= z.base <= bound && forall i :: 0 <= i < |z.changes| ==> -bound <= z.changes[i].offset <= bound
  }

  lemma OffsetWithin(z: Zone, bound: int, t: int)
    requires Within(z, bound)
    ensures -bound <= z.OffsetAt(t) <= bound
  {}

  /** What "two offsets" asks of a zone: its changes are in order and no other change than `i` comes within
      the largest offset of the requested time. */
  lemma OneChangeIsTwoOffsets(z: Zone, wall: int, i: nat, bound: int)
    requires z.Regular() && Within(z, bound) && i < |z.changes|
    requires i > 0 ==> z.changes[i - 1].at <= wall - bound
    requires i + 1 < |z.changes| ==> wall + bound < z.changes[i + 1].at
    ensures TwoOffsets(z, wall, z.Offset(i), z.Offset(i + 1))
  {
    hide Zone.OffsetAt, Within;
    forall t | z.Wall(t) == wall || t == wall || t == wall - z.Offset(i) || t == wall - z.Offset(i + 1)
      ensures z.OffsetAt(t) == z.Offset(i) || z.OffsetAt(t) == z.Offset(i + 1)
    {
      OffsetWithin(z, bound, t);
      SidesWithin(z, bound, i);
      NearOffset(z, i, t);
    }
  }

  lemma SidesWithin(z: Zone, bound: int, i: nat)
    requires Within(z, bound) && i < |z.changes|
    ensures -bound <= z.Offset(i) <= bound && -bound <= z.Offset(i + 1) <= bound
  {}

  lemma NearOffset(z: Zone, i: nat, t: int)
    requires z.Regular() && i < |z.changes|
    requires i > 0 ==> z.changes[i - 1].at <= t
    requires i + 1 < |z.changes| ==> t < z.changes[i + 1].at
    ensures z.OffsetAt(t) == z.Offset(i) || z.OffsetAt(t) == z.Offset(i + 1)
  {
    PassedIs(z, t, if t < z.changes[i].at then i else i + 1);
    hide Zone.Passed, Zone.Regular;
  }

  /** The offset the truncated difference gives between two changes. */
  lemma OffsetBetween(z: Zone, t: int, i: nat)
    requires z.Regular() && WholeSeconds(z) && i <= |z.changes|
    requires i > 0 ==> z.changes[i - 1].at <= t
    requires i < |z.changes| ==> t < z.changes[i].at
    ensures OffsetAt(z, t) == z.OffsetAt(t) == z.Offset(i)
  {
    PassedIs(z, t, i);
    OffsetIs(z, t);
    hide OffsetAt, WholeSeconds, Zone.Passed, Zone.Regular;
  }

  lemma FoldedOffset(z: Zone, wall: int, i: nat)
    requires z.Regular() && i < |z.changes| && z.Lower(i) <= wall < z.Upper(i)
    ensures z.FoldOffset(wall) == z.Offset(i)
  {
    if i > 0 { ChangesAscend(z, i - 1, i); }
    FoldPassedIs(z, wall, i);
    hide Zone.FoldPassed, Zone.Regular;
  }

  /** A time read twice, at change `i` and with no other change within the largest offset of it: the panel takes
      the first of the two readings, as the scheduler does, exactly when the time comes before the change read as
      UTC, and otherwise the second. */
  lemma TakesTheFirstIff(z: Zone, wall: int, i: nat, bound: int)
    requires z.Regular() && WholeSeconds(z) && Within(z, bound) && i < |z.changes|
    requires z.Offset(i + 1) < z.Offset(i) && z.Lower(i) <= wall < z.Upper(i)
    requires i > 0 ==> z.changes[i - 1].at <= wall - bound
    requires i + 1 < |z.changes| ==> wall + bound < z.changes[i + 1].at
    ensures z.Wall(z.ToUtc(wall)) == wall && z.Wall(WallClockInstant(z, wall)) == wall
    ensures WallClockInstant(z, wall) == z.ToUtc(wall) <==> wall < z.changes[i].at
    ensures wall >= z.changes[i].at ==> WallClockInstant(z, wall) == z.ToUtc(wall) + (z.Offset(i) - z.Offset(i + 1))
  {
    hide OffsetAt, WholeSeconds, Zone.FoldOffset, Zone.OffsetAt, Zone.Regular;
    var a, b := z.Offset(i), z.Offset(i + 1);
    SidesWithin(z, bound, i);
    FoldedOffset(z, wall, i);
    OffsetBetween(z, wall - a, i);
    OffsetBetween(z, wall - b, i + 1);
    OffsetBetween(z, wall, if wall < z.changes[i].at then i else i + 1);
    hide Within;
  }

  /** East of Greenwich that is always the second reading, west of it always the first. */
  lemma EastTakesTheSecond(z: Zone, wall: int, i: nat, bound: int)
    requires z.Regular() && WholeSeconds(z) && Within(z, bound) && i < |z.changes|
    requires z.Offset(i + 1) < z.Offset(i) && z.Lower(i) <= wall < z.Upper(i)
    requires i > 0 ==> z.changes[i - 1].at <= wall - bound
    requires i + 1 < |z.changes| ==> wall + bound < z.changes[i + 1].at
    ensures z.Offset(i + 1) >= 0 ==> WallClockInstant(z, wall) != z.ToUtc(wall)
    ensures z.Offset(i) <= 0 ==> WallClockInstant(z, wall) == z.ToUtc(wall)
  {
    TakesTheFirstIff(z, wall, i, bound);
    hide WallClockInstant, Zone.ToUtc, Zone.Regular, Within, WholeSeconds;
  }
}
