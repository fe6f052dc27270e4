/** Presence overrides as stored (custom_components/nestquest/core/dao_presence.py), and a child's day in the
    admin panel (admin/src/schedule/cycle.ts) and in the engine (core/presence.py). */
module Presence {
  import opened Options
  import opened IsoDates
  import opened Sorting

  datatype Override = Override(id: nat, child: int, start: string, end: string, isPresent: bool, note: Option<string>)

  /** `start <= date <= end` on texts. */
  predicate Covers(o: Override, date: string) {
    !TextBefore(date, o.start) && !TextBefore(o.end, date)
  }

  // ----- the table

  datatype Table = Table(children: set<int>, rows: seq<Override>, nextId: nat)

  datatype Error = BadDate(field: string) | NoChild | Overlaps(id: nat) | CheckFailed

  datatype Created = Stored(row: Override) | Refused(error: Error)

  predicate Overlapping(o: Override, child: int, start: string, end: string) {
    o.child == child && !TextBefore(o.end, start) && !TextBefore(end, o.start)
  }

  /** The first row, by id, in the way of a new range. */
  function Conflict(rows: seq<Override>, child: int, start: string, end: string): Option<Override> {
    if rows == [] then None
    else if Overlapping(rows[0], child, start, end) then Some(rows[0])
    else Conflict(rows[1..], child, start, end)
  }

  function Create(t: Table, child: int, start: string, end: string, isPresent: bool, note: Option<string>): Created {
    if ParseDate(start).None? then Refused(BadDate("start_date"))
    else if ParseDate(end).None? then Refused(BadDate("end_date"))
    else if child !in t.children then Refused(NoChild)
    else if TextBefore(end, start) then Refused(CheckFailed)
    else
      var conflict := Conflict(t.rows, child, start, end);
      if conflict.Some? then Refused(Overlaps(conflict.value.id))
      else Stored(Override(t.nextId, child, start, end, isPresent, note))
  }

  function Inserted(t: Table, c: Created): Table {
    if c.Stored? then t.(rows := t.rows + [c.row], nextId := t.nextId + 1) else t
  }

  function Without(rows: seq<Override>, id: nat): seq<Override> {
    if rows == [] then []
    else if rows[0].id == id then Without(rows[1..], id)
    else [rows[0]] + Without(rows[1..], id)
  }

  class PresenceOverridesDao {
    var children: set<int>
    var rows: seq<Override>
    var nextId: nat

    function View(): Table
      reads this
    {
      Table(children, rows, nextId)
    }

    constructor (children: set<int>)
      ensures View() == Table(children, [], 1)
    {
      this.children := children;
      rows, nextId := [], 1;
    }

    method CreateOverride(child: int, start: string, end: string, isPresent: bool, note: Option<string>)
      returns (r: Created)
      modifies this`rows, this`nextId
      ensures r == Create(old(View()), child, start, end, isPresent, note)
      ensures View() == Inserted(old(View()), r)
    {
      if ParseDate(start).None? { return Refused(BadDate("start_date")); }
      if ParseDate(end).None? { return Refused(BadDate("end_date")); }
      if child !in children { return Refused(NoChild); }
      var conflicting := None;
      if !TextBefore(end, start) {
        conflicting := Conflict(rows, child, start, end);
      }
      if conflicting.Some? { return Refused(Overlaps(conflicting.value.id)); }
      // the INSERT, and the table's end_date >= start_date
      if TextBefore(end, start) { return Refused(CheckFailed); }
      var row := Override(nextId, child, start, end, isPresent, note);
      rows, nextId := rows + [row], nextId + 1;
      return Stored(row);
    }

    method Delete(id: nat) returns (removed: bool)
      modifies this`rows
      ensures View() == old(View()).(rows := Without(old(rows), id))
      ensures removed == (|rows| < |old(rows)|)
    {
      var rest := Without(rows, id);
      removed := |rest| < |rows|;
      rows := rest;
    }

    method List(child: int, start: string, end: string) returns (r: Listing)
      ensures r == ListByChildAndRange(View(), child, start, end)
    {
      if ParseDate(start).None? { return BadRange("range_start"); }
      if ParseDate(end).None? { return BadRange("range_end"); }
      if TextBefore(end, start) { return BadRange("range_end"); }
      return Listed(Rows(Sort(Selected(rows, child, start, end))));
    }
  }

  // ----- reading a range

  function KeyOf(o: Override): Key {
    Key(if ParseDate(o.start).Some? then Day(o.start) else 0, 0, 0)
  }

  /** The child's rows that overlap the range, in id order. */
  function Selected(rows: seq<Override>, child: int, start: string, end: string): seq<Keyed<Override>> {
    if rows == [] then []
    else
      var rest := Selected(rows[1..], child, start, end);
      if Overlapping(rows[0], child, start, end) then [Keyed(KeyOf(rows[0]), rows[0])] + rest else rest
  }

  datatype Listing = Listed(rows: seq<Override>) | BadRange(field: string)

  function ListByChildAndRange(t: Table, child: int, start: string, end: string): Listing {
    if ParseDate(start).None? then BadRange("range_start")
    else if ParseDate(end).None? || TextBefore(end, start) then BadRange("range_end")
    else Listed(Rows(Sort(Selected(t.rows, child, start, end))))
  }

  // ----- every reachable table

  datatype Op =
    | AddChild(child: int)
    | CreateOp(child: int, start: string, end: string, isPresent: bool, note: Option<string>)
    | DeleteOp(id: nat)

  function Next(t: Table, op: Op): Table {
    match op
    case AddChild(child) => t.(children := t.children + {child})
    case CreateOp(child, start, end, isPresent, note) => Inserted(t, Create(t, child, start, end, isPresent, note))
    case DeleteOp(id) => t.(rows := Without(t.rows, id))
  }

  function Exec(t: Table, run: seq<Op>): Table
    decreases |run|
  {
    if run == [] then t else Exec(Next(t, run[0]), run[1..])
  }

  const EMPTY := Table({}, [], 1)

  ghost predicate IsRange(o: Override) {
    ParseDate(o.start).Some? && ParseDate(o.end).Some? && !TextBefore(o.end, o.start)
  }

  function Day(s: string): int
    requires ParseDate(s).Some?
  {
    ParseDateIff(s, ParseDate(s).value);
    DayNumber(ParseDate(s).value)
  }

  lemma DayOrder(s: string, t: string)
    requires ParseDate(s).Some? && ParseDate(t).Some?
    ensures TextBefore(s, t) <==> Day(s) < Day(t)
    ensures s == t <==> Day(s) == Day(t)
  {
    hide ParseDate, TextBefore, Isoformat, DayNumber;
    ParseDateIff(s, ParseDate(s).value);
    ParseDateIff(t, ParseDate(t).value);
    TextOrderIsCalendarOrder(ParseDate(s).value, ParseDate(t).value);
  }

  /** No date has two answers for one child. */
  ghost predicate OneAnswer(a: Override, b: Override) {
    a.child == b.child ==> forall date :: ParseDate(date).Some? ==> !(Covers(a, date) && Covers(b, date))
  }

  ghost predicate Disjoint(rows: seq<Override>) {
    && (forall i :: 0 <= i < |rows| ==> IsRange(rows[i]))
    && (forall i, j :: 0 <= i < j < |rows| ==> OneAnswer(rows[i], rows[j]))
  }

  /** Two ranges overlap exactly when they share a date: the later of the two starts. */
  lemma {:induction false} OverlapIff(o: Override, child: int, start: string, end: string)
    requires IsRange(o) && ParseDate(start).Some? && ParseDate(end).Some? && !TextBefore(end, start)
    ensures Overlapping(o, child, start, end) <==>
            o.child == child && exists date ::
              ParseDate(date).Some? && Covers(o, date) && !TextBefore(date, start) && !TextBefore(end, date)
  {
    hide ParseDate, TextBefore, Day;
    DayOrder(o.end, start);
    DayOrder(end, o.start);
    DayOrder(end, start);
    DayOrder(o.end, o.start);
    DayOrder(start, o.start);
    DayOrder(o.start, start);
    DayOrder(start, start);
    DayOrder(o.start, o.start);
    if Overlapping(o, child, start, end) {
      var later := if TextBefore(start, o.start) then o.start else start;
      assert Covers(o, later) && !TextBefore(later, start) && !TextBefore(end, later);
    }
    if date :| ParseDate(date).Some? && Covers(o, date) && !TextBefore(date, start) && !TextBefore(end, date) {
      DayOrder(date, o.start);
      DayOrder(o.end, date);
      DayOrder(date, start);
      DayOrder(end, date);
    }
  }

  lemma {:induction false} ConflictIs(rows: seq<Override>, child: int, start: string, end: string)
    ensures match Conflict(rows, child, start, end)
            case Some(o) => o in rows && Overlapping(o, child, start, end)
            case None => forall i :: 0 <= i < |rows| ==> !Overlapping(rows[i], child, start, end)
  {
    hide Overlapping;
    if rows != [] { ConflictIs(rows[1..], child, start, end); }
  }

  lemma {:induction false} WithoutIs(rows: seq<Override>, id: nat)
    requires Disjoint(rows)
    ensures Disjoint(Without(rows, id))
    ensures forall o :: o in Without(rows, id) <==> o in rows && o.id != id
  {
    hide OneAnswer, IsRange;
    if rows != [] {
      assert Disjoint(rows[1..]);
      WithoutIs(rows[1..], id);
      var rest := Without(rows[1..], id);
      assert rows == [rows[0]] + rows[1..];
      forall i | 0 <= i < |rest| ensures OneAnswer(rows[0], rest[i]) {
        assert rest[i] in rows[1..];
        var j :| 0 <= j < |rows| - 1 && rows[1..][j] == rest[i];
        assert rows[j + 1] == rest[i];
      }
      assert forall i :: 0 <= i < |rest| ==> IsRange(rest[i]);
    }
  }

  lemma CreateKeepsDisjoint(t: Table, child: int, start: string, end: string, isPresent: bool, note: Option<string>)
    requires Disjoint(t.rows)
    ensures Disjoint(Inserted(t, Create(t, child, start, end, isPresent, note)).rows)
  {
    hide ParseDate, TextBefore, Overlapping, Covers, Conflict;
    var c := Create(t, child, start, end, isPresent, note);
    if c.Stored? {
      ConflictIs(t.rows, child, start, end);
      forall i | 0 <= i < |t.rows| ensures OneAnswer(t.rows[i], c.row) {
        NoOverlapIsOneAnswer(t.rows[i], c.row);
      }
    }
  }

  lemma NoOverlapIsOneAnswer(o: Override, new_: Override)
    requires IsRange(o) && IsRange(new_) && !Overlapping(o, new_.child, new_.start, new_.end)
    ensures OneAnswer(o, new_)
  {
    hide ParseDate, TextBefore, Overlapping;
    OverlapIff(o, new_.child, new_.start, new_.end);
  }

  lemma {:induction false} ExecKeepsDisjoint(t: Table, run: seq<Op>)
    requires Disjoint(t.rows)
    ensures Disjoint(Exec(t, run).rows)
    decreases |run|
  {
    hide Disjoint, Create, Without;
    if run != [] {
      match run[0] {
        case AddChild(_) =>
        case CreateOp(child, start, end, isPresent, note) => CreateKeepsDisjoint(t, child, start, end, isPresent, note);
        case DeleteOp(id) => WithoutIs(t.rows, id);
      }
      ExecKeepsDisjoint(Next(t, run[0]), run[1..]);
    }
  }

  /** In every reachable table the overrides of one child never share a date. */
  lemma ReachableIsDisjoint(run: seq<Op>)
    ensures Disjoint(Exec(EMPTY, run).rows)
  {
    ExecKeepsDisjoint(EMPTY, run);
  }

  /** A well-formed range of a known child is refused exactly when it shares a date with a stored one. */
  lemma CreateIff(run: seq<Op>, child: int, start: string, end: string, isPresent: bool, note: Option<string>)
    requires ParseDate(start).Some? && ParseDate(end).Some? && !TextBefore(end, start)
    requires child in Exec(EMPTY, run).children
    ensures var t := Exec(EMPTY, run);
            Create(t, child, start, end, isPresent, note).Refused? <==>
              exists o, date :: o in t.rows && o.child == child && ParseDate(date).Some?
                                && Covers(o, date) && !TextBefore(date, start) && !TextBefore(end, date)
  {
    hide Exec, ParseDate, TextBefore, Covers, Overlapping, Conflict;
    var t := Exec(EMPTY, run);
    ReachableIsDisjoint(run);
    ConflictIs(t.rows, child, start, end);
    forall i | 0 <= i < |t.rows| {
      OverlapIff(t.rows[i], child, start, end);
    }
  }

  /** Which error a refused creation names, and the row a successful one stores. */
  lemma CreateIs(t: Table, child: int, start: string, end: string, isPresent: bool, note: Option<string>)
    ensures var c := Create(t, child, start, end, isPresent, note);
            var dated := ParseDate(start).Some? && ParseDate(end).Some?;
            var ordered := dated && child in t.children && !TextBefore(end, start);
            && (c == Refused(BadDate("start_date")) <==> ParseDate(start).None?)
            && (c == Refused(BadDate("end_date")) <==> ParseDate(start).Some? && ParseDate(end).None?)
            && (c == Refused(NoChild) <==> dated && child !in t.children)
            && (c == Refused(CheckFailed) <==> dated && child in t.children && TextBefore(end, start))
            && (c.Refused? && c.error.Overlaps? <==>
                 ordered && exists o :: o in t.rows && Overlapping(o, child, start, end))
            && (c.Refused? && c.error.Overlaps? ==>
                  exists o :: o in t.rows && o.id == c.error.id && Overlapping(o, child, start, end))
            && (c.Stored? ==> c.row == Override(t.nextId, child, start, end, isPresent, note)
                              && Inserted(t, c) == t.(rows := t.rows + [c.row], nextId := t.nextId + 1))
            && (c.Refused? ==> Inserted(t, c) == t)
  {
    hide ParseDate, TextBefore, Overlapping, Conflict;
    ConflictIs(t.rows, child, start, end);
  }

  /** A listing is refused for a bad date, naming the range's side, and for an inverted range. */
  lemma ListingRefusedIff(t: Table, child: int, start: string, end: string)
    ensures var l := ListByChildAndRange(t, child, start, end);
            && (l == BadRange("range_start") <==> ParseDate(start).None?)
            && (l == BadRange("range_end") <==>
                  ParseDate(start).Some? && (ParseDate(end).None? || TextBefore(end, start)))
            && (l.Listed? <==> ParseDate(start).Some? && ParseDate(end).Some? && !TextBefore(end, start))
  {}

  /** A deletion takes the rows of the id and leaves the others in their order. */
  lemma {:induction false} WithoutSplits(a: seq<Override>, b: seq<Override>, id: nat)
    ensures Without(a + b, id) == Without(a, id) + Without(b, id)
    ensures |a| == 1 ==> Without(a, id) == if a[0].id == id then [] else a
  {
    if a == [] {
      assert a + b == b;
    } else {
      assert (a + b)[1..] == a[1..] + b;
      WithoutSplits(a[1..], b, id);
      assert |a| == 1 ==> a[1..] == [];
    }
  }

  lemma StepsAre(t: Table, child: int, id: nat)
    ensures Next(t, AddChild(child)) == t.(children := t.children + {child})
    ensures Next(t, DeleteOp(id)) == t.(rows := Without(t.rows, id))
  {}

  lemma {:induction false} SelectedIs(rows: seq<Override>, child: int, start: string, end: string)
    ensures forall p :: p in Selected(rows, child, start, end) ==>
              p.key == KeyOf(p.row) && p.row in rows && Overlapping(p.row, child, start, end)
    ensures forall o :: o in rows && Overlapping(o, child, start, end) ==>
              Keyed(KeyOf(o), o) in Selected(rows, child, start, end)
  {
    hide Overlapping, KeyOf;
    if rows != [] {
      SelectedIs(rows[1..], child, start, end);
    }
  }

  lemma {:induction false} SelectedIsDistinct(rows: seq<Override>, child: int, start: string, end: string)
    requires Disjoint(rows)
    ensures DistinctKeys(Selected(rows, child, start, end))
  {
    hide Overlapping, KeyOf, IsRange, OneAnswer;
    if rows != [] {
      var rest := Selected(rows[1..], child, start, end);
      assert Disjoint(rows[1..]);
      SelectedIsDistinct(rows[1..], child, start, end);
      if Overlapping(rows[0], child, start, end) {
        SelectedIs(rows[1..], child, start, end);
        forall i | 0 <= i < |rest| ensures rest[i].key != KeyOf(rows[0]) {
          assert rest[i] in rest;
          var j :| 0 <= j < |rows| - 1 && rows[1..][j] == rest[i].row;
          assert OneAnswer(rows[0], rows[j + 1]) && IsRange(rows[j + 1]) && IsRange(rows[0]);
          DistinctStarts(rows[0], rows[j + 1], child, start, end);
        }
      }
    }
  }

  lemma DistinctStarts(a: Override, b: Override, child: int, start: string, end: string)
    requires IsRange(a) && IsRange(b) && OneAnswer(a, b)
    requires Overlapping(a, child, start, end) && Overlapping(b, child, start, end)
    ensures KeyOf(a) != KeyOf(b)
  {
    hide ParseDate, TextBefore, Day;
    DayOrder(a.start, b.start);
    DayOrder(a.start, a.start);
    DayOrder(a.end, a.start);
    DayOrder(b.end, b.start);
    assert a.start == b.start ==> Covers(a, a.start) && Covers(b, a.start);
  }

  /** A listing of a reachable table: exactly the child's overrides that share a date with the range, by
      start date; no two of them share a date. */
  lemma ListingIs(run: seq<Op>, child: int, start: string, end: string)
    requires ListByChildAndRange(Exec(EMPTY, run), child, start, end).Listed?
    ensures var t := Exec(EMPTY, run);
            var rows := ListByChildAndRange(t, child, start, end).rows;
            && (forall o :: o in rows <==> o in t.rows && Overlapping(o, child, start, end))
            && (forall i, j :: 0 <= i < j < |rows| ==> TextBefore(rows[i].start, rows[j].start))
            && Disjoint(rows)
  {
    hide Exec, ParseDate, TextBefore, Overlapping, Sort, Selected, Rows, IsRange, OneAnswer, KeyOf, Ascends;
    ReachableIsDisjoint(run);
    ListingOf(Exec(EMPTY, run).rows, child, start, end);
  }

  lemma ListingOf(rows: seq<Override>, child: int, start: string, end: string)
    requires Disjoint(rows)
    ensures var listed := Rows(Sort(Selected(rows, child, start, end)));
            && (forall o :: o in listed <==> o in rows && Overlapping(o, child, start, end))
            && (forall i, j :: 0 <= i < j < |listed| ==> TextBefore(listed[i].start, listed[j].start))
            && Disjoint(listed)
  {
    hide ParseDate, TextBefore, Overlapping, Sort, Selected, Rows, IsRange, OneAnswer, KeyOf, Ascends, DistinctKeys;
    var selected := Selected(rows, child, start, end);
    var sorted := Sort(selected);
    var listed := Rows(sorted);
    SelectedIs(rows, child, start, end);
    SelectedIsDistinct(rows, child, start, end);
    SortKeeps(selected);
    SortAscends(selected);
    RowsAre(sorted);
    forall i | 0 <= i < |sorted|
      ensures sorted[i].key == KeyOf(listed[i]) && listed[i] in rows && Overlapping(listed[i], child, start, end)
    {
      assert sorted[i] in multiset(selected);
      assert sorted[i] in selected;
    }
    forall o | o in rows && Overlapping(o, child, start, end) ensures o in listed {
      assert Keyed(KeyOf(o), o) in multiset(sorted);
      var k :| 0 <= k < |sorted| && sorted[k] == Keyed(KeyOf(o), o);
      assert listed[k] == o;
    }
    forall i | 0 <= i < |listed| ensures IsRange(listed[i]) {
      assert listed[i] in rows;
    }
    forall i, j | 0 <= i < j < |listed|
      ensures TextBefore(listed[i].start, listed[j].start) && OneAnswer(listed[i], listed[j])
    {
      KeysApart(sorted, i, j);
      StartsBefore(rows, listed[i], listed[j]);
    }
  }

  lemma KeysApart(sorted: seq<Keyed<Override>>, i: nat, j: nat)
    requires Ascends(sorted) && i < j < |sorted|
    ensures Before(sorted[i].key, sorted[j].key)
  {}

  lemma StartsBefore(rows: seq<Override>, a: Override, b: Override)
    requires Disjoint(rows) && a in rows && b in rows && IsRange(a) && IsRange(b) && Before(KeyOf(a), KeyOf(b))
    ensures TextBefore(a.start, b.start) && OneAnswer(a, b)
  {
    hide ParseDate, TextBefore, Day, OneAnswer;
    DayOrder(a.start, b.start);
    var i :| 0 <= i < |rows| && rows[i] == a;
    var j :| 0 <= j < |rows| && rows[j] == b;
    assert i != j;
    if j < i { OneAnswerIsSymmetric(b, a); }
  }

  lemma OneAnswerIsSymmetric(a: Override, b: Override)
    requires OneAnswer(a, b)
    ensures OneAnswer(b, a)
  {}
}
