/** The nightly missed sweep (custom_components/nestquest/core/sweep.py) and the database-level claim
    that gates it (dao_meta.py), run by any number of processes over one database. */
module MissedSweep {
  import opened Options
  import opened Sorting

  /** A calendar date by its day number; the stored ISO dates order the same way (module IsoDates). */
  type Day = int

  const SWEEP_WATERMARK_KEY := "missed_sweep_last_run_date"

  // ----- nestquest_meta_state

  /** Whether the conditional upsert of `value` changes the row. */
  predicate ClaimWins(stored: Option<Day>, value: Day) { stored != Some(value) }

  class MetaStateDao {
    var rows: map<string, Day>

    function Stored(key: string): Option<Day>
      reads this
    {
      if key in rows then Some(rows[key]) else None
    }

    constructor ()
      ensures rows == map[]
    {
      rows := map[];
    }

    method Get(key: string) returns (value: Option<Day>)
      ensures value == Stored(key)
    {
      if key in rows { return Some(rows[key]); }
      return None;
    }

    method Set(key: string, value: Day)
      modifies this
      ensures Stored(key) == Some(value) && forall k :: k != key ==> Stored(k) == old(Stored(k))
    {
      rows := rows[key := value];
    }

    method Claim(key: string, value: Day) returns (claimed: bool)
      modifies this
      ensures claimed == ClaimWins(old(Stored(key)), value)
      ensures Stored(key) == Some(value) && forall k :: k != key ==> Stored(k) == old(Stored(k))
    {
      var rowcount := 0;
      if key !in rows || rows[key] != value {
        rows, rowcount := rows[key := value], 1;
      }
      return rowcount == 1;
    }
  }

  // ----- quest_instances, as far as the sweep reads it

  /** Ids are given out in order and never again: `due[i]` is the due date of instance `i`, alive or
      not. `evented`: the instances with a completion event. */
  datatype Table = Table(due: seq<Day>, alive: set<nat>, evented: set<nat>)

  predicate InWindow(t: Table, i: nat, today: Day, mark: Option<Day>) {
    i < |t.due| && i in t.alive && t.due[i] < today && (mark.Some? ==> mark.value <= t.due[i])
  }

  predicate Missed(t: Table, i: nat, today: Day, mark: Option<Day>) {
    InWindow(t, i, today, mark) && i !in t.evented
  }

  /** The matching rows among the first `n` ids, in id order. */
  function Scan(t: Table, today: Day, mark: Option<Day>, n: nat): seq<Keyed<nat>>
    requires n <= |t.due|
  {
    if n == 0 then []
    else
      Scan(t, today, mark, n - 1)
      + if Missed(t, n - 1, today, mark) then [Keyed(Key(t.due[n - 1], n - 1, 0), n - 1)] else []
  }

  function ListMissedUnswept(t: Table, today: Day, mark: Option<Day>): seq<nat> {
    Rows(Sort(Scan(t, today, mark, |t.due|)))
  }

  ghost predicate NoDuplicates(ids: seq<nat>) {
    forall i, j :: 0 <= i < j < |ids| ==> ids[i] != ids[j]
  }

  lemma {:induction false} ScanIs(t: Table, today: Day, mark: Option<Day>, n: nat)
    requires n <= |t.due|
    ensures forall k :: 0 <= k < |Scan(t, today, mark, n)| ==>
              var p := Scan(t, today, mark, n)[k];
              p.row < n && Missed(t, p.row, today, mark) && p.key == Key(t.due[p.row], p.row, 0)
    ensures forall i: nat :: i < n && Missed(t, i, today, mark) ==>
              Keyed(Key(t.due[i], i, 0), i) in Scan(t, today, mark, n)
    ensures DistinctKeys(Scan(t, today, mark, n))
  {
    hide Missed;
    if n > 0 {
      ScanIs(t, today, mark, n - 1);
    }
  }

  predicate DueBefore(t: Table, i: nat, j: nat) {
    i < |t.due| && j < |t.due| && (t.due[i] < t.due[j] || (t.due[i] == t.due[j] && i < j))
  }

  /** The query's answer: exactly the missed instances, each once, in order of due date and id. */
  lemma ListMissedUnsweptIs(t: Table, today: Day, mark: Option<Day>)
    ensures var ids := ListMissedUnswept(t, today, mark);
            && (forall i: nat :: i in ids <==>
                  i < |t.due| && i in t.alive && t.due[i] < today && (mark.Some? ==> mark.value <= t.due[i])
                  && i !in t.evented)
            && NoDuplicates(ids)
            && forall j, k :: 0 <= j < k < |ids| ==>
                 && ids[j] < |t.due| && ids[k] < |t.due| && t.due[ids[j]] <= t.due[ids[k]]
                 && (t.due[ids[j]] == t.due[ids[k]] ==> ids[j] < ids[k])
  {
    hide ListMissedUnswept;
    AnswerIs(t, today, mark);
    var ids := ListMissedUnswept(t, today, mark);
    forall j, k | 0 <= j < k < |ids|
      ensures ids[j] < |t.due| && ids[k] < |t.due| && t.due[ids[j]] <= t.due[ids[k]]
      ensures t.due[ids[j]] == t.due[ids[k]] ==> ids[j] < ids[k]
    {
      assert DueBefore(t, ids[j], ids[k]);
    }
  }

  lemma AnswerIs(t: Table, today: Day, mark: Option<Day>)
    ensures var ids := ListMissedUnswept(t, today, mark);
            && (forall i: nat :: i in ids <==> Missed(t, i, today, mark))
            && NoDuplicates(ids)
            && forall j, k :: 0 <= j < k < |ids| ==> DueBefore(t, ids[j], ids[k])
  {
    hide Missed, Sort, Scan, Rows, Ascends, DueBefore, DistinctKeys;
    var scan := Scan(t, today, mark, |t.due|);
    var sorted := Sort(scan);
    var ids := Rows(sorted);
    ScanIs(t, today, mark, |t.due|);
    SortAscends(scan);
    SortKeeps(scan);
    RowsAre(sorted);
    forall k | 0 <= k < |sorted| ensures Missed(t, ids[k], today, mark) && RowKeyed(t, sorted[k]) {
      assert sorted[k] in multiset(scan);
      var j :| 0 <= j < |scan| && scan[j] == sorted[k];
    }
    forall i: nat | Missed(t, i, today, mark) ensures i in ids {
      MissedIsThere(t, i, today, mark);
      assert Keyed(Key(t.due[i], i, 0), i) in multiset(sorted);
      var k :| 0 <= k < |sorted| && sorted[k] == Keyed(Key(t.due[i], i, 0), i);
      assert ids[k] == i;
    }
    AscendingRows(t, sorted);
  }

  ghost predicate RowKeyed(t: Table, p: Keyed<nat>) {
    p.row < |t.due| && p.key == Key(t.due[p.row], p.row, 0)
  }

  lemma AscendingRows(t: Table, sorted: seq<Keyed<nat>>)
    requires Ascends(sorted) && forall k :: 0 <= k < |sorted| ==> RowKeyed(t, sorted[k])
    ensures NoDuplicates(Rows(sorted))
    ensures forall j, k :: 0 <= j < k < |Rows(sorted)| ==> DueBefore(t, Rows(sorted)[j], Rows(sorted)[k])
  {
    RowsAre(sorted);
    hide Rows;
    forall j, k | 0 <= j < k < |sorted| ensures DueBefore(t, sorted[j].row, sorted[k].row) {
      assert Before(sorted[j].key, sorted[k].key);
    }
    assert forall j, k :: 0 <= j < k < |sorted| ==> Rows(sorted)[j] != Rows(sorted)[k];
  }

  lemma MissedIsThere(t: Table, i: nat, today: Day, mark: Option<Day>)
    requires Missed(t, i, today, mark)
    ensures i < |t.due|
  {}

  // ----- one run of one process

  datatype MissedEvent = MissedEvent(instance: nat, dueDate: Day)

  ghost predicate Announces(events: seq<MissedEvent>, i: nat) {
    exists k :: 0 <= k < |events| && events[k].instance == i
  }

  /** `other`: the watermark another process stores between this run's query and its claim. The events
      are those of the instances of the window since the watermark that have no completion event, each once, by due
      date and id, and none if today's are already claimed; the watermark is today's in every case. */
  method RunMissedSweep(dao: MetaStateDao, t: Table, today: Day, other: Option<Day>) returns (events: seq<MissedEvent>)
    modifies dao
    ensures var mark := old(dao.Stored(SWEEP_WATERMARK_KEY));
            if mark == Some(today) then events == [] && dao.Stored(SWEEP_WATERMARK_KEY) == mark
            else
              && dao.Stored(SWEEP_WATERMARK_KEY) == Some(today)
              && (other == Some(today) ==> events == [])
              && (other != Some(today) ==>
                    forall i: nat :: Announces(events, i) <==>
                      i < |t.due| && i in t.alive && t.due[i] < today && (mark.Some? ==> mark.value <= t.due[i])
                      && i !in t.evented)
    ensures forall k :: 0 <= k < |events| ==>
              events[k].instance < |t.due| && events[k].dueDate == t.due[events[k].instance]
    ensures forall j, k :: 0 <= j < k < |events| ==>
              events[j].dueDate <= events[k].dueDate &&
              (events[j].dueDate == events[k].dueDate ==> events[j].instance < events[k].instance)
    ensures forall k :: k != SWEEP_WATERMARK_KEY ==> dao.Stored(k) == old(dao.Stored(k))
  {
    var watermark := dao.Get(SWEEP_WATERMARK_KEY);
    if watermark == Some(today) { return []; }
    var rows := ListMissedUnswept(t, today, watermark);
    ListMissedUnsweptIs(t, today, watermark);
    events := [];
    for n := 0 to |rows|
      invariant |events| == n
      invariant forall k :: 0 <= k < n ==> rows[k] < |t.due| && events[k] == MissedEvent(rows[k], t.due[rows[k]])
    {
      assert rows[n] in rows;
      events := events + [MissedEvent(rows[n], t.due[rows[n]])];
    }
    forall i: nat ensures Announces(events, i) <==> i in rows {
      if k :| 0 <= k < |rows| && rows[k] == i { assert events[k].instance == i; }
    }
    if other.Some? { dao.Set(SWEEP_WATERMARK_KEY, other.value); }
    var claimed := dao.Claim(SWEEP_WATERMARK_KEY, today);
    if !claimed { return []; }
  }

  // ----- any number of processes

  datatype Run = Run(id: nat)

  /** Where a run is. `rows` is what its query returned, `had` the instances of its window that had a
      completion event then. */
  datatype Stage =
    | Over
    | Started(today: Day)
    | Marked(today: Day, mark: Option<Day>)
    | Queried(today: Day, mark: Option<Day>, rows: seq<nat>, had: set<nat>)

  /** `announced`: what the claimants returned, in order. `excused`: what a claimant left out for its
      completion event. `lost`: what a run had claimed when it was cancelled before returning. */
  datatype State = State(
    day: Day, watermark: Option<Day>, table: Table, runs: map<Run, Stage>,
    announced: seq<nat>, excused: set<nat>, lost: set<nat>)

  datatype Event =
    | NextDay(day: Day)
    | Insert(due: Day)
    | Complete(instance: nat)
    | Delete(instance: nat)
    | Start(run: Run)
    | ReadMark(run: Run)
    | Query(run: Run)
    | Abort(run: Run)
    | Claim(run: Run)
    | ClaimInterrupted(run: Run)

  function StageOf(s: State, r: Run): Stage {
    if r in s.runs then s.runs[r] else Over
  }

  function Goes(s: State, r: Run, stage: Stage): State {
    s.(runs := s.runs[r := stage])
  }

  /** The instances of the window a completion event keeps out of the query's answer. */
  function HadEvent(t: Table, today: Day, mark: Option<Day>): set<nat> {
    set i: nat | i in t.evented && InWindow(t, i, today, mark)
  }

  /** Runs that overlap are for the same day. */
  predicate MayStart(s: State, r: Run) {
    StageOf(s, r).Over? && forall q :: q in s.runs && !s.runs[q].Over? ==> s.runs[q].today == s.day
  }

  function Claimed(s: State, r: Run, stage: Stage, returned: bool): State
    requires stage.Queried?
  {
    var over := Goes(s, r, Over);
    if !ClaimWins(s.watermark, stage.today) then over
    else
      over.(
        watermark := Some(stage.today), excused := s.excused + stage.had,
        announced := if returned then s.announced + stage.rows else s.announced,
        lost := if returned then s.lost else s.lost + set i | i in stage.rows)
  }

  /** One event; one that cannot happen in `s` changes nothing. Days do not go back, and nothing is
      inserted before the current day. */
  function Next(s: State, e: Event): State {
    match e
    case NextDay(day) => if s.day < day then s.(day := day) else s
    case Insert(due) =>
      if s.day <= due
      then s.(table := Table(s.table.due + [due], s.table.alive + {|s.table.due|}, s.table.evented)) else s
    case Complete(i) => if i in s.table.alive then s.(table := s.table.(evented := s.table.evented + {i})) else s
    case Delete(i) => s.(table := s.table.(alive := s.table.alive - {i}))
    case Start(r) => if MayStart(s, r) then Goes(s, r, Started(s.day)) else s
    case ReadMark(r) =>
      var p := StageOf(s, r);
      if !p.Started? then s
      else if s.watermark == Some(p.today) then Goes(s, r, Over)
      else Goes(s, r, Marked(p.today, s.watermark))
    case Query(r) =>
      var p := StageOf(s, r);
      if !p.Marked? then s
      else Goes(s, r, Queried(p.today, p.mark, ListMissedUnswept(s.table, p.today, p.mark),
                              HadEvent(s.table, p.today, p.mark)))
    case Abort(r) => Goes(s, r, Over)
    case Claim(r) => var p := StageOf(s, r); if p.Queried? then Claimed(s, r, p, true) else s
    case ClaimInterrupted(r) => var p := StageOf(s, r); if p.Queried? then Claimed(s, r, p, false) else s
  }

  function Exec(s: State, run: seq<Event>): State
    decreases |run|
  {
    if run == [] then s else Exec(Next(s, run[0]), run[1..])
  }

  function Initial(day: Day): State {
    State(day, None, Table([], {}, {}), map[], [], {}, {})
  }

  // ----- what every step keeps

  ghost predicate DueBy(s: State, i: nat) {
    i < |s.table.due| && s.watermark.Some? && s.table.due[i] < s.watermark.value
  }

  /** Everything announced or lost is due before the watermark, each once. */
  ghost predicate Once(s: State) {
    && NoDuplicates(s.announced)
    && (forall i :: i in s.announced ==> DueBy(s, i) && i !in s.lost)
    && (forall i :: i in s.lost ==> DueBy(s, i))
    && (forall i :: i in s.excused ==> DueBy(s, i) && i !in s.announced && i !in s.lost)
  }

  ghost predicate Covered(s: State) {
    && (forall i :: i in s.table.alive && DueBy(s, i) ==> i in s.announced || i in s.excused || i in s.lost)
    && s.excused <= s.table.evented
  }

  /** A run under way reads the watermark that stands, or today's has been claimed by another. */
  ghost predicate RunFits(s: State, p: Stage) {
    !p.Over? ==>
      && p.today <= s.day
      && (s.watermark.Some? ==> s.watermark.value <= p.today)
      && (p.Marked? || p.Queried? ==> p.mark == s.watermark || s.watermark == Some(p.today))
      && (p.Marked? || p.Queried? ==> p.mark != Some(p.today))
  }

  /** What a run holds is what its query saw. */
  ghost predicate AnswerFits(s: State, p: Stage) {
    p.Queried? ==>
      && NoDuplicates(p.rows) && p.had <= s.table.evented
      && (forall i :: i in p.had ==>
            i !in p.rows && i < |s.table.due| && s.table.due[i] < p.today
            && (p.mark.Some? ==> p.mark.value <= s.table.due[i]))
      && (forall i :: i in p.rows ==>
            i < |s.table.due| && s.table.due[i] < p.today && (p.mark.Some? ==> p.mark.value <= s.table.due[i]))
      && (forall i :: InWindow(s.table, i, p.today, p.mark) ==> i in p.rows || i in p.had)
  }

  ghost predicate RunsFit(s: State) {
    && (s.watermark.Some? ==> s.watermark.value <= s.day)
    && (forall i :: i in s.table.alive ==> i < |s.table.due|)
    && (forall r :: RunFits(s, StageOf(s, r)) && AnswerFits(s, StageOf(s, r)))
    && (forall q, r :: SameDay(StageOf(s, q), StageOf(s, r)))
  }

  ghost predicate SameDay(p: Stage, q: Stage) {
    !p.Over? && !q.Over? ==> p.today == q.today
  }

  ghost predicate Inv(s: State) {
    RunsFit(s) && Once(s) && Covered(s)
  }

  lemma SameDayStays(s: State, s': State)
    requires forall q, r :: SameDay(StageOf(s, q), StageOf(s, r))
    requires forall r :: SameDay(StageOf(s', r), StageOf(s, r)) && (StageOf(s, r).Over? ==> StageOf(s', r).Over?)
    ensures forall q, r :: SameDay(StageOf(s', q), StageOf(s', r))
  {
    forall q, r ensures SameDay(StageOf(s', q), StageOf(s', r)) {
      assert SameDay(StageOf(s, q), StageOf(s, r));
      assert SameDay(StageOf(s', q), StageOf(s, q)) && SameDay(StageOf(s', r), StageOf(s, r));
    }
  }

  /** What a run still able to claim holds was neither announced nor lost before. */
  lemma RowsAreNew(s: State, p: Stage)
    requires Once(s) && RunFits(s, p) && AnswerFits(s, p) && p.Queried? && ClaimWins(s.watermark, p.today)
    ensures forall i :: i in p.rows || i in p.had ==> i !in s.announced && i !in s.lost && i !in s.excused
    ensures NoDuplicates(s.announced + p.rows)
  {
    forall i | i in p.rows || i in p.had ensures i !in s.announced && i !in s.lost && i !in s.excused {
      assert !DueBy(s, i);
    }
    JoinIsUnique(s.announced, p.rows);
  }

  lemma JoinIsUnique(a: seq<nat>, b: seq<nat>)
    requires NoDuplicates(a) && NoDuplicates(b) && forall i :: i in b ==> i !in a
    ensures NoDuplicates(a + b)
  {
    forall i, j | 0 <= i < j < |a + b| ensures (a + b)[i] != (a + b)[j] {
      if i < |a| <= j {
        assert a[i] in a && b[j - |a|] in b;
      }
    }
  }

  lemma OthersStay(s: State, s': State, r: Run, stage: Stage)
    requires RunsFit(s) && s' == Goes(s, r, stage)
    requires RunFits(s', stage) && AnswerFits(s', stage)
    requires !stage.Over? ==> !StageOf(s, r).Over? && stage.today == StageOf(s, r).today
    ensures RunsFit(s')
  {
    forall q ensures RunFits(s', StageOf(s', q)) && AnswerFits(s', StageOf(s', q)) {
      assert RunFits(s, StageOf(s, q)) && AnswerFits(s, StageOf(s, q));
    }
    SameDayStays(s, s');
  }

  lemma TableKeepsInv(s: State, e: Event)
    requires Inv(s) && (e.NextDay? || e.Insert? || e.Complete? || e.Delete?)
    ensures Inv(Next(s, e))
  {
    var s' := Next(s, e);
    forall r ensures RunFits(s', StageOf(s', r)) && AnswerFits(s', StageOf(s', r)) {
      assert StageOf(s', r) == StageOf(s, r);
      assert RunFits(s, StageOf(s, r)) && AnswerFits(s, StageOf(s, r));
    }
    SameDayStays(s, s');
  }

  lemma StartKeepsInv(s: State, r: Run)
    requires Inv(s)
    ensures Inv(Next(s, Start(r)))
  {
    var s' := Next(s, Start(r));
    forall q ensures RunFits(s', StageOf(s', q)) && AnswerFits(s', StageOf(s', q)) {
      assert RunFits(s, StageOf(s, q)) && AnswerFits(s, StageOf(s, q));
    }
  }

  lemma StepKeepsInv(s: State, e: Event)
    requires Inv(s) && (e.ReadMark? || e.Query? || e.Abort?)
    ensures Inv(Next(s, e))
  {
    hide ListMissedUnswept, HadEvent, NoDuplicates;
    var p := StageOf(s, e.run);
    var s' := Next(s, e);
    assert RunFits(s, p) && AnswerFits(s, p);
    if s' != s {
      if e.Query? { QueryFits(s, p); }
      OthersStay(s, s', e.run, StageOf(s', e.run));
    }
  }

  lemma QueryFits(s: State, p: Stage)
    requires p.Marked?
    ensures AnswerFits(s, Queried(p.today, p.mark, ListMissedUnswept(s.table, p.today, p.mark),
                                  HadEvent(s.table, p.today, p.mark)))
  {
    hide ListMissedUnswept, NoDuplicates;
    ListMissedUnsweptIs(s.table, p.today, p.mark);
  }

  lemma ClaimKeepsInv(s: State, r: Run, returned: bool)
    requires Inv(s) && StageOf(s, r).Queried?
    ensures Inv(Claimed(s, r, StageOf(s, r), returned))
  {
    var p := StageOf(s, r);
    var s' := Claimed(s, r, p, returned);
    assert RunFits(s, p) && AnswerFits(s, p);
    if ClaimWins(s.watermark, p.today) { RowsAreNew(s, p); }
    forall q ensures RunFits(s', StageOf(s', q)) && AnswerFits(s', StageOf(s', q)) {
      assert RunFits(s, StageOf(s, q)) && AnswerFits(s, StageOf(s, q)) && SameDay(StageOf(s, q), p);
    }
    SameDayStays(s, s');
  }

  lemma {:induction false} ExecKeepsInv(s: State, run: seq<Event>)
    requires Inv(s)
    ensures Inv(Exec(s, run))
    decreases |run|
  {
    if run != [] {
      match run[0] {
        case NextDay(_) => TableKeepsInv(s, run[0]);
        case Insert(_) => TableKeepsInv(s, run[0]);
        case Complete(_) => TableKeepsInv(s, run[0]);
        case Delete(_) => TableKeepsInv(s, run[0]);
        case Start(r) => StartKeepsInv(s, r);
        case Claim(r) => if StageOf(s, r).Queried? { ClaimKeepsInv(s, r, true); }
        case ClaimInterrupted(r) => if StageOf(s, r).Queried? { ClaimKeepsInv(s, r, false); }
        case _ => StepKeepsInv(s, run[0]);
      }
      ExecKeepsInv(Next(s, run[0]), run[1..]);
    }
  }

  lemma Reachable(day: Day, run: seq<Event>)
    ensures Inv(Exec(Initial(day), run))
  {
    assert forall r :: StageOf(Initial(day), r) == Over;
    ExecKeepsInv(Initial(day), run);
  }

  /** What happens around the sweeps: days pass, instances are inserted under new ids from today on, completed and
      deleted; a run under way does not start again, and an aborted one is over. */
  lemma WorldMoves(s: State, day: Day, i: nat, r: Run)
    ensures Next(s, NextDay(day)) == s.(day := if day <= s.day then s.day else day)
    ensures Next(s, Insert(day)) ==
            if day < s.day then s
            else s.(table := Table(s.table.due + [day], s.table.alive + {|s.table.due|}, s.table.evented))
    ensures var after := Next(s, Complete(i));
            after == s.(table := after.table) && after.table.due == s.table.due && after.table.alive == s.table.alive
            && forall j :: j in after.table.evented <==> j in s.table.evented || (j == i && i in s.table.alive)
    ensures var after := Next(s, Delete(i));
            after == s.(table := after.table) && after.table.due == s.table.due &&
                after.table.evented == s.table.evented
            && forall j :: j in after.table.alive <==> j in s.table.alive && j != i
    ensures r in s.runs && !s.runs[r].Over? ==> Next(s, Start(r)) == s
    ensures Next(s, Abort(r)) == s.(runs := s.runs[r := Over])
  {}

  /** A sweep that is let run, no run for another day being under way, announces what its query finds and moves the
      watermark to today, once a day. */
  lemma SweepAnnounces(s: State, r: Run)
    requires StageOf(s, r).Over? && forall q :: q in s.runs && !s.runs[q].Over? ==> s.runs[q].today == s.day
    ensures var after := Next(Next(Next(Next(s, Start(r)), ReadMark(r)), Query(r)), Claim(r));
            after == if s.watermark == Some(s.day) then s.(runs := s.runs[r := Over])
                     else s.(runs := s.runs[r := Over], watermark := Some(s.day),
                             announced := s.announced + ListMissedUnswept(s.table, s.day, s.watermark),
                             excused := s.excused + HadEvent(s.table, s.day, s.watermark))
  {
    hide ListMissedUnswept, HadEvent;
    var s1 := Next(s, Start(r));
    var s2 := Next(s1, ReadMark(r));
    assert s1 == Goes(s, r, Started(s.day));
    if s.watermark == Some(s.day) {
      assert s2 == Goes(s, r, Over);
    } else {
      assert s2 == Goes(s, r, Marked(s.day, s.watermark));
      assert Next(s2, Query(r)) == Goes(s, r, Queried(s.day, s.watermark,
        ListMissedUnswept(s.table, s.day, s.watermark), HadEvent(s.table, s.day, s.watermark)));
    }
  }

  /** In every interleaving of processes, completions, insertions and deletions no instance is
      announced twice. */
  lemma AnnouncedAtMostOnce(day: Day, run: seq<Event>)
    ensures NoDuplicates(Exec(Initial(day), run).announced)
  {
    Reachable(day, run);
  }

  /** After a claim for day `D` every surviving instance due before `D` was announced, or had a
      completion event when the winning run queried, or was lost by an interrupted claimant; and
      nothing else was announced. */
  lemma ClaimCovers(day: Day, run: seq<Event>, i: nat)
    ensures var s := Exec(Initial(day), run);
            s.watermark.Some? && i in s.table.alive && i < |s.table.due| && s.table.due[i] < s.watermark.value ==>
              i in s.announced || (i in s.excused && i in s.table.evented) || i in s.lost
    ensures var s := Exec(Initial(day), run);
            i in s.announced ==> i < |s.table.due| && s.watermark.Some? && s.table.due[i] < s.watermark.value <= s.day
  {
    Reachable(day, run);
    var s := Exec(Initial(day), run);
    assert i in s.table.alive && DueBy(s, i) ==> i in s.announced || i in s.excused || i in s.lost;
  }

  ghost predicate Uninterrupted(run: seq<Event>) {
    forall i :: 0 <= i < |run| ==> !run[i].ClaimInterrupted?
  }

  lemma LostGrows(s: State, e: Event)
    ensures s.lost <= Next(s, e).lost
    ensures !e.ClaimInterrupted? ==> Next(s, e).lost == s.lost
  {}

  lemma {:induction false} LostStays(s: State, run: seq<Event>)
    ensures s.lost <= Exec(s, run).lost
    ensures Uninterrupted(run) ==> Exec(s, run).lost == s.lost
    decreases |run|
  {
    hide Next;
    if run != [] {
      LostGrows(s, run[0]);
      LostStays(Next(s, run[0]), run[1..]);
    }
  }

  lemma {:induction false} ExecConcat(s: State, a: seq<Event>, b: seq<Event>)
    ensures Exec(s, a + b) == Exec(Exec(s, a), b)
    decreases |a|
  {
    hide Next;
    if a == [] {
      assert a + b == b;
    } else {
      assert (a + b)[1..] == a[1..] + b;
      ExecConcat(Next(s, a[0]), a[1..], b);
    }
  }

  // ----- only instances without an event are announced

  /** At some query of the run the instance was stored and past due and had no completion event. */
  ghost predicate SeenFree(day: Day, run: seq<Event>, i: nat) {
    exists k :: 0 <= k < |run| && SeenFreeAt(day, run, i, k)
  }

  ghost predicate SeenFreeAt(day: Day, run: seq<Event>, i: nat, k: nat)
    requires k < |run|
  {
    var s := Exec(Initial(day), run[..k]);
    run[k].Query? && i < |s.table.due| && i in s.table.alive && s.table.due[i] < s.day && i !in s.table.evented
  }

  lemma SeenFreeStays(day: Day, run: seq<Event>, e: Event, i: nat)
    requires SeenFree(day, run, i)
    ensures SeenFree(day, run + [e], i)
  {
    hide Exec;
    var k :| 0 <= k < |run| && SeenFreeAt(day, run, i, k);
    assert (run + [e])[..k] == run[..k];
    assert SeenFreeAt(day, run + [e], i, k);
  }

  ghost predicate Held(s: State, i: nat) {
    i in s.announced || i in s.lost || exists r :: r in s.runs && s.runs[r].Queried? && i in s.runs[r].rows
  }

  lemma HeldBefore(s: State, e: Event, i: nat)
    requires Held(Next(s, e), i) && !Held(s, i)
    ensures e.Query? && StageOf(s, e.run).Marked?
    ensures i in ListMissedUnswept(s.table, StageOf(s, e.run).today, StageOf(s, e.run).mark)
  {
    hide ListMissedUnswept, HadEvent, MayStart;
  }

  /** In every run what is announced, or lost, or held by a run that has queried, was without a completion event, and
      past due, when some run queried. */
  lemma {:induction false} OnlyFreeAreAnnounced(day: Day, run: seq<Event>, i: nat)
    requires Held(Exec(Initial(day), run), i)
    ensures SeenFree(day, run, i)
    decreases |run|
  {
    hide Held, Next, SeenFree, SeenFreeAt, Inv;
    if run == [] {
      NothingHeld(day, i);
    } else {
      var front, e := run[..|run| - 1], run[|run| - 1];
      assert run == front + [e];
      ExecConcat(Initial(day), front, [e]);
      var s := Exec(Initial(day), front);
      assert Exec(s, [e]) == Next(s, e) by { assert [e][1..] == []; }
      if Held(s, i) {
        OnlyFreeAreAnnounced(day, front, i);
        SeenFreeStays(day, front, e, i);
      } else {
        HeldBefore(s, e, i);
        Reachable(day, front);
        TodayIsPast(s, e.run);
        ListMissedUnsweptIs(s.table, StageOf(s, e.run).today, StageOf(s, e.run).mark);
        SeenNow(day, run, i, front);
      }
    }
  }

  lemma NothingHeld(day: Day, i: nat)
    ensures !Held(Exec(Initial(day), []), i)
  {}

  lemma TodayIsPast(s: State, r: Run)
    requires Inv(s) && StageOf(s, r).Marked?
    ensures StageOf(s, r).today <= s.day
  {
    assert RunFits(s, StageOf(s, r));
  }

  lemma SeenNow(day: Day, run: seq<Event>, i: nat, front: seq<Event>)
    requires run != [] && front == run[..|run| - 1] && run[|run| - 1].Query?
    requires var s := Exec(Initial(day), front);
             i < |s.table.due| && i in s.table.alive && s.table.due[i] < s.day && i !in s.table.evented
    ensures SeenFree(day, run, i)
  {
    assert SeenFreeAt(day, run, i, |run| - 1);
  }

  /** In every run an instance is announced, or left out for its event by a claimant, or lost: never two of them. */
  lemma NeverTwo(day: Day, run: seq<Event>, i: nat)
    ensures var s := Exec(Initial(day), run);
            && (i in s.excused ==> i !in s.announced && i !in s.lost && i in s.table.evented)
            && (i in s.announced ==> i !in s.lost)
  {
    Reachable(day, run);
  }

  /** Without an interrupted claimant nothing is lost. With one, what it had claimed is never announced,
      however the run goes on. */
  lemma LostIsNeverAnnounced(day: Day, before: seq<Event>, after: seq<Event>)
    ensures Uninterrupted(before) ==> Exec(Initial(day), before).lost == {}
    ensures forall i :: i in Exec(Initial(day), before).lost ==> i !in Exec(Initial(day), before + after).announced
  {
    LostStays(Initial(day), before);
    LostStays(Exec(Initial(day), before), after);
    ExecConcat(Initial(day), before, after);
    Reachable(day, before + after);
  }

  /** What is lost by an interruption is all that the claimant had to announce: exactly when its claim
      wins, and its answer is not empty, the interruption loses something. */
  lemma InterruptionLosesIff(day: Day, run: seq<Event>, r: Run)
    requires StageOf(Exec(Initial(day), run), r).Queried?
    ensures var s := Exec(Initial(day), run);
            var p := StageOf(s, r);
            Next(s, ClaimInterrupted(r)).lost != s.lost <==> ClaimWins(s.watermark, p.today) && p.rows != []
  {
    Reachable(day, run);
    var s := Exec(Initial(day), run);
    var p := StageOf(s, r);
    assert RunFits(s, p) && AnswerFits(s, p);
    if ClaimWins(s.watermark, p.today) && p.rows != [] {
      RowsAreNew(s, p);
      assert p.rows[0] in p.rows && p.rows[0] in Next(s, ClaimInterrupted(r)).lost;
    }
  }

  /** One instance due today, and tomorrow a sweep whose claim commits and whose caller never gets the answer. */
  function SweepInterrupted(day: Day, r: Run): seq<Event> {
    [Insert(day), NextDay(day + 1), Start(r)] + [ReadMark(r), Query(r), ClaimInterrupted(r)]
  }

  /** After it the instance is past due, the watermark is past it, and it was not and never will be announced. */
  lemma InterruptedSweepLoses(day: Day, r: Run, after: seq<Event>)
    ensures var s := Exec(Initial(day), SweepInterrupted(day, r));
            0 in s.table.alive && s.table.due == [day] && s.watermark == Some(day + 1) && s.lost == {0}
    ensures 0 !in Exec(Initial(day), SweepInterrupted(day, r) + after).announced
  {
    hide ListMissedUnswept, HadEvent;
    var s := Initial(day);
    var first, second := [Insert(day), NextDay(day + 1), Start(r)], [ReadMark(r), Query(r), ClaimInterrupted(r)];
    var t := Table([day], {0}, {});
    var s3 := State(day + 1, None, t, map[r := Started(day + 1)], [], {}, {});
    ExecThree(s, first);
    assert s.table.alive + {0} == {0} && s.table.due + [day] == [day];
    assert Exec(s, first) == s3;
    var ids := ListMissedUnswept(t, day + 1, None);
    var s5 := Goes(s3, r, Queried(day + 1, None, ids, HadEvent(t, day + 1, None)));
    ExecThree(s3, second);
    assert Goes(Goes(s3, r, Marked(day + 1, None)), r, s5.runs[r]) == s5;
    ListMissedUnsweptIs(t, day + 1, None);
    assert (set i | i in ids) == {0};
    ExecConcat(s, first, second);
    LostIsNeverAnnounced(day, SweepInterrupted(day, r), after);
  }

  lemma ExecThree(s: State, run: seq<Event>)
    requires |run| == 3
    ensures Exec(s, run) == Next(Next(Next(s, run[0]), run[1]), run[2])
  {
    hide Next;
    var s1 := Next(s, run[0]);
    var s2 := Next(s1, run[1]);
    assert run[1..][0] == run[1] && run[1..][1..] == run[2..] && run[2..][0] == run[2] && run[2..][1..] == [];
    assert Exec(s, run) == Exec(s1, run[1..]) == Exec(s2, run[2..]) == Exec(Next(s2, run[2]), []);
  }
}
