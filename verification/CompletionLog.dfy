/** Completing and un-completing instances over the append-only log
    (custom_components/nestquest/core/completion.py). */
module CompletionLog {
  import opened Options
  import opened Tables
  import opened Daos
  import IsoDates
  import opened Texts

  // ----- derived state

  datatype Derived = Open | Done | IsMissed

  function DerivedState(x: Instance, latest: Option<EventType>, today: Day): Derived {
    if latest.None? || latest.value == Uncompleted then
      if x.dueDate < today then IsMissed else Open
    else Done
  }

  /** The kind of the instance's last event. */
  function LatestKind(events: seq<LogEvent>, i: nat): Option<EventType> {
    match Latest(events, |events|, i)
    case Some(k) => Some(events[k].kind)
    case None => None
  }

  /** Done if the last event is a completion; otherwise missed from the day after the due date on, and open before. */
  lemma DerivedIff(x: Instance, latest: Option<EventType>, today: Day)
    ensures DerivedState(x, latest, today) == Done <==> latest == Some(Completed)
    ensures DerivedState(x, latest, today) == IsMissed <==> latest != Some(Completed) && x.dueDate < today
    ensures DerivedState(x, latest, today) == Open <==> latest != Some(Completed) && today <= x.dueDate
  {}

  // ----- on time or late

  /** A household-local date and time of day, in microseconds. */
  datatype Moment = Moment(date: Day, time: int)

  const DAY := 86_400_000_000
  const MINUTE := 60_000_000

  datatype Timing = OnTime(onTime: bool) | NeedsNow | BadDueTime

  /** `strptime(s, "%H:%M")`: one or two digits each. */
  function DueMinutes(s: string): Option<int> {
    if |s| >= 3 && (s[1] == ':' || s[2] == ':') then
      var n := if s[1] == ':' then 1 else 2;
      var hours, minutes := s[..n], s[n + 1..];
      if 1 <= |minutes| <= 2 && IsoDates.AllDigits(hours) && IsoDates.AllDigits(minutes)
         && IsoDates.Number(hours) <= 23 && IsoDates.Number(minutes) <= 59
      then Some(60 * IsoDates.Number(hours) + IsoDates.Number(minutes)) else None
    else None
  }

  /** The text is hours and minutes, of one or two digits each, and so many minutes after midnight. */
  ghost predicate ReadsAs(s: string, hours: string, minutes: string, m: int) {
    && s == hours + ":" + minutes && 1 <= |hours| <= 2 && 1 <= |minutes| <= 2
    && IsoDates.AllDigits(hours) && IsoDates.AllDigits(minutes)
    && IsoDates.Number(hours) < 24 && IsoDates.Number(minutes) < 60
    && m == 60 * IsoDates.Number(hours) + IsoDates.Number(minutes)
  }

  lemma DueMinutesIff(s: string, m: int)
    ensures DueMinutes(s) == Some(m) <==> exists hours, minutes :: ReadsAs(s, hours, minutes, m)
  {
    hide IsoDates.Number;
    if DueMinutes(s) == Some(m) {
      var n := if s[1] == ':' then 1 else 2;
      assert s == s[..n] + ":" + s[n + 1..];
      assert ReadsAs(s, s[..n], s[n + 1..], m);
    }
    if hours, minutes :| ReadsAs(s, hours, minutes, m) {
      assert s[..|hours|] == hours && s[|hours| + 1..] == minutes;
      assert s[1] == ':' <==> |hours| == 1;
    }
  }

  /** `host`: the host's calendar date, when neither is given. */
  function CompletionDate(now: Option<Moment>, today: Option<Day>, host: Day): Day {
    if today.Some? then today.value else if now.Some? then now.value.date else host
  }

  function WasOnTime(x: Instance, now: Option<Moment>, today: Option<Day>, host: Day): Timing {
    var date := CompletionDate(now, today, host);
    if date < x.dueDate then OnTime(true)
    else if date > x.dueDate then OnTime(false)
    else if x.dueTime.None? then OnTime(true)
    else if now.None? then NeedsNow
    else
      match DueMinutes(x.dueTime.value)
      case None => BadDueTime
      case Some(m) => OnTime(now.value.time <= m * MINUTE)
  }

  /** The last moment that is on time: the due time of the due date, or its end. */
  function Deadline(x: Instance): int
    requires x.dueTime.Some? ==> DueMinutes(x.dueTime.value).Some?
  {
    86_400_000_000 * x.dueDate
    + if x.dueTime.Some? then 60_000_000 * DueMinutes(x.dueTime.value).value else 86_399_999_999
  }

  lemma {:induction false} NumberIsNotNegative(s: string)
    requires IsoDates.AllDigits(s)
    ensures 0 <= IsoDates.Number(s)
  {
    if s != "" { NumberIsNotNegative(s[..|s| - 1]); }
  }

  /** A completion is on time exactly when its moment is not after the deadline. */
  lemma OnTimeIff(x: Instance, now: Moment, today: Option<Day>, host: Day)
    requires 0 <= now.time < DAY && (x.dueTime.Some? ==> DueMinutes(x.dueTime.value).Some?)
    ensures WasOnTime(x, Some(now), today, host) ==
            OnTime((if today.Some? then today.value else now.date) * DAY + now.time <= Deadline(x))
  {
    var date := CompletionDate(Some(now), today, host);
    if x.dueTime.Some? {
      var s := x.dueTime.value;
      var n := if s[1] == ':' then 1 else 2;
      NumberIsNotNegative(s[..n]);
      NumberIsNotNegative(s[n + 1..]);
    }
    var late := if x.dueTime.Some? then DueMinutes(x.dueTime.value).value * MINUTE else DAY - 1;
    assert 0 <= late < DAY;
    DaysDecide(date, x.dueDate, now.time, late);
  }

  lemma DaysDecide(a: int, b: int, s: int, t: int)
    requires 0 <= s < DAY && 0 <= t < DAY
    ensures a < b ==> a * DAY + s <= b * DAY + t
    ensures a > b ==> a * DAY + s > b * DAY + t
  {}

  /** The clock is missing exactly on the due date of an instance with a due time. */
  lemma NeedsNowIff(x: Instance, now: Option<Moment>, today: Option<Day>, host: Day)
    ensures WasOnTime(x, now, today, host).NeedsNow? <==>
            now.None? && x.dueTime.Some? && CompletionDate(now, today, host) == x.dueDate
  {}

  // ----- one call

  datatype Actor = AsUser(id: string) | AsPanel(child: nat)

  /** `kind`: complete or un-complete; `stamp`: the UTC text of the moment. */
  datatype Request = Request(
    kind: EventType, instance: nat, source: string, userId: Option<string>, tapped: Option<nat>,
    now: Option<Moment>, today: Option<Day>, host: Day, stamp: string)

  function ValidateActor(q: Request): Option<Actor> {
    if q.source == "user" then
      if q.userId.Some? && Strip(q.userId.value) != "" && q.tapped.None?
      then Some(AsUser(Strip(q.userId.value))) else None
    else if q.source == "panel" then
      if q.userId.None? && q.tapped.Some? then Some(AsPanel(q.tapped.value)) else None
    else None
  }

  /** Who is accepted: a user with an id that is not blank and no profile, or a panel with a profile and no user. */
  lemma ActorIff(q: Request, actor: Actor)
    ensures ValidateActor(q) == Some(actor) <==>
              match actor
              case AsUser(id) =>
                q.source == "user" && q.tapped.None? && q.userId.Some? && id != "" && StripsFrom(q.userId.value, id)
              case AsPanel(child) => q.source == "panel" && q.userId.None? && q.tapped == Some(child)
  {
    hide Strip, StripsFrom;
    if q.userId.Some? && actor.AsUser? { StripIff(q.userId.value, actor.id); }
  }

  function EventOf(q: Request, actor: Actor, x: Instance, wasOnTime: Option<bool>): LogEvent {
    match actor
    case AsUser(id) => LogEvent(q.instance, x.child, q.kind, "user", Some(id), None, q.stamp, wasOnTime)
    case AsPanel(child) => LogEvent(q.instance, x.child, q.kind, "panel", None, Some(child), q.stamp, wasOnTime)
  }

  function Today(q: Request): Day {
    if q.today.Some? then q.today.value else q.host
  }

  /** What the call decides from one look at the tables. */
  datatype Verdict = Raises | NoOp(state: Derived) | Appends(event: LogEvent)

  function Decide(db: Db, q: Request): Verdict {
    var actor := ValidateActor(q);
    if actor.None? || q.instance !in db.instances then Raises
    else
      var x, latest := db.instances[q.instance], LatestKind(db.events, q.instance);
      if q.kind == Completed then
        if latest == Some(Completed) then NoOp(Done)
        else
          var timing := WasOnTime(x, q.now, q.today, q.host);
          if !timing.OnTime? then Raises else Appends(EventOf(q, actor.value, x, Some(timing.onTime)))
      else if latest.None? || latest.value == Uncompleted then NoOp(DerivedState(x, latest, Today(q)))
      else Appends(EventOf(q, actor.value, x, None))
  }

  /** The state a call that appended returns. */
  function ReturnedState(db: Db, q: Request): Derived
    requires q.instance in db.instances
  {
    DerivedState(db.instances[q.instance], Some(q.kind), Today(q))
  }

  /** `None` is a ValueError. */
  datatype CompletionResult = CompletionResult(state: Derived, appended: bool, wasOnTime: Option<bool>)

  function Called(db: Db, q: Request): Option<CompletionResult> {
    match Decide(db, q)
    case Raises => None
    case NoOp(state) => Some(CompletionResult(state, false, None))
    case Appends(e) =>
      if MayAppend(db, e) then Some(CompletionResult(ReturnedState(db, q), true, e.wasOnTime)) else None
  }

  function AfterCall(db: Db, q: Request): Db {
    match Decide(db, q)
    case Appends(e) => Next(db, AppendOp(e))
    case _ => db
  }

  method CompleteInstance(database: Database, q: Request) returns (r: Option<CompletionResult>)
    requires q.kind == Completed
    modifies database
    ensures r == Called(old(database.db), q) && database.db == AfterCall(old(database.db), q)
  {
    hide ValidateActor, WasOnTime, MayAppend;
    var events := new CompletionEventsDao(database);
    var actor := ValidateActor(q);
    if actor.None? { return None; }
    if q.instance !in database.db.instances { return None; }
    var x := database.db.instances[q.instance];
    var latest := LatestKind(database.db.events, q.instance);
    if latest == Some(Completed) {
      return Some(CompletionResult(Done, false, None));
    }
    var timing := WasOnTime(x, q.now, q.today, q.host);
    if !timing.OnTime? { return None; }
    var ok := events.AppendEvent(EventOf(q, actor.value, x, Some(timing.onTime)));
    if !ok { return None; }
    return Some(CompletionResult(Done, true, Some(timing.onTime)));
  }

  method UncompleteInstance(database: Database, q: Request) returns (r: Option<CompletionResult>)
    requires q.kind == Uncompleted
    modifies database
    ensures r == Called(old(database.db), q) && database.db == AfterCall(old(database.db), q)
  {
    hide ValidateActor, MayAppend;
    var events := new CompletionEventsDao(database);
    var actor := ValidateActor(q);
    if actor.None? { return None; }
    if q.instance !in database.db.instances { return None; }
    var x := database.db.instances[q.instance];
    var latest := LatestKind(database.db.events, q.instance);
    if latest.None? || latest.value == Uncompleted {
      return Some(CompletionResult(DerivedState(x, latest, Today(q)), false, None));
    }
    var ok := events.AppendEvent(EventOf(q, actor.value, x, None));
    if !ok { return None; }
    return Some(CompletionResult(DerivedState(x, Some(Uncompleted), Today(q)), true, None));
  }

  // ----- calls interleaved

  datatype Call = Call(id: nat)

  /** Where a call is; from `Holding` on it has the connection lock (module ReentrantLock). */
  datatype Stage = Outside | Queued(q: Request) | Holding(q: Request) | Writing(q: Request, event: LogEvent)

  /** What a call came to. `told`: it returned, so its caller knows; otherwise it was cancelled when its event
      was already in the log. */
  datatype Outcome = Outcome(instance: nat, kind: EventType, appended: bool, told: bool)

  datatype State = State(db: Db, lock: Option<Call>, calls: map<Call, Stage>, outcomes: seq<Outcome>)

  const INITIAL := State(EMPTY, None, map[], [])

  /** `Other`: any other operation on the tables, at any time. */
  datatype Event =
    | Ask(call: Call, q: Request)
    | Enter(call: Call)
    | Look(call: Call)
    | Write(call: Call, told: bool)
    | Leave(call: Call)
    | Other(op: Op)

  function StageOf(s: State, c: Call): Stage {
    if c in s.calls then s.calls[c] else Outside
  }

  function Goes(s: State, c: Call, stage: Stage): State {
    s.(calls := s.calls[c := stage])
  }

  function Over(s: State, c: Call, outcomes: seq<Outcome>): State {
    Goes(s, c, Outside).(lock := None, outcomes := s.outcomes + outcomes)
  }

  function Step(s: State, e: Event): State {
    match e
    case Ask(c, q) => if StageOf(s, c).Outside? && ValidateActor(q).Some? then Goes(s, c, Queued(q)) else s
    case Enter(c) =>
      if StageOf(s, c).Queued? && s.lock.None? then Goes(s, c, Holding(s.calls[c].q)).(lock := Some(c)) else s
    case Look(c) =>
      var p := StageOf(s, c);
      if !p.Holding? then s
      else
        (match Decide(s.db, p.q)
         case Raises => Over(s, c, [])
         case NoOp(_) => Over(s, c, [Outcome(p.q.instance, p.q.kind, false, true)])
         case Appends(event) => Goes(s, c, Writing(p.q, event)))
    case Write(c, told) =>
      var p := StageOf(s, c);
      if !p.Writing? then s
      else if !MayAppend(s.db, p.event) then Over(s, c, [])
      else
        Over(s, c, [Outcome(p.q.instance, p.q.kind, true, told)]).(db := s.db.(events := s.db.events + [p.event]))
    case Leave(c) =>
      if StageOf(s, c).Queued? then Goes(s, c, Outside)
      else if StageOf(s, c).Holding? || StageOf(s, c).Writing? then Over(s, c, [])
      else s
    case Other(op) => if op.AppendOp? then s else s.(db := Next(s.db, op))
  }

  function Exec(s: State, run: seq<Event>): State
    decreases |run|
  {
    if run == [] then s else Exec(Step(s, run[0]), run[1..])
  }

  /** A call that finds the lock free and is let run does to the tables what the call does, records its outcome if it
      returns, and gives the lock back. */
  lemma CallRuns(s: State, c: Call, q: Request)
    requires StageOf(s, c).Outside? && s.lock.None?
    ensures var after := Step(Step(Step(Step(s, Ask(c, q)), Enter(c)), Look(c)), Write(c, true));
            && StageOf(after, c).Outside? && after.lock.None? && after.db == AfterCall(s.db, q)
            && after.outcomes == s.outcomes + match Called(s.db, q)
                                              case None => []
                                              case Some(r) => [Outcome(q.instance, q.kind, r.appended, true)]
  {
    hide ValidateActor, WasOnTime, MayAppend, LatestKind;
    assert s.outcomes + [] == s.outcomes;
    if ValidateActor(q).Some? {
      var s2 := Goes(s, c, Holding(q)).(lock := Some(c));
      assert Step(Step(s, Ask(c, q)), Enter(c)) == s2;
    } else {
      assert Step(Step(s, Ask(c, q)), Enter(c)) == s;
    }
  }

  /** A call that is cancelled or fails before its event is written leaves the tables and the outcomes alone, and the
      lock free if it had it; any other operation happens as it does. */
  lemma CallLeaves(s: State, c: Call, op: Op)
    ensures var after := Step(s, Leave(c));
            && after.db == s.db && after.outcomes == s.outcomes && StageOf(after, c).Outside?
            && after.lock == if StageOf(s, c).Holding? || StageOf(s, c).Writing? then None else s.lock
    ensures !op.AppendOp? ==> Step(s, Other(op)) == s.(db := Next(s.db, op))
  {
    hide Next;
    assert s.outcomes + [] == s.outcomes;
  }

  // ----- the log of one instance

  function Kinds(events: seq<LogEvent>, i: nat): seq<EventType> {
    if events == [] then []
    else
      var last := events[|events| - 1];
      Kinds(events[..|events| - 1], i) + if last.instance == i then [last.kind] else []
  }

  /** Completed first, then in turns. */
  ghost predicate Alternates(kinds: seq<EventType>) {
    forall k :: 0 <= k < |kinds| ==> kinds[k] == if k % 2 == 0 then Completed else Uncompleted
  }

  lemma KindsGrow(events: seq<LogEvent>, e: LogEvent, i: nat)
    ensures Kinds(events + [e], i) == Kinds(events, i) + if e.instance == i then [e.kind] else []
  {
    assert (events + [e])[..|events|] == events;
  }

  lemma {:induction false} LatestIsLast(events: seq<LogEvent>, n: nat, i: nat)
    requires n <= |events|
    ensures match Latest(events, n, i)
            case Some(k) => Kinds(events[..n], i) != [] &&
                events[k].kind == Kinds(events[..n], i)[|Kinds(events[..n], i)| - 1]
            case None => Kinds(events[..n], i) == []
  {
    if n > 0 {
      assert events[..n][..n - 1] == events[..n - 1];
      assert events[..n][n - 1] == events[n - 1];
      LatestIsLast(events, n - 1, i);
    }
  }

  lemma LatestKindIs(events: seq<LogEvent>, i: nat)
    ensures LatestKind(events, i) ==
            if Kinds(events, i) == [] then None else Some(Kinds(events, i)[|Kinds(events, i)| - 1])
  {
    hide Kinds, Latest;
    LatestIsLast(events, |events|, i);
    assert events[..|events|] == events;
  }

  /** How many calls put this kind of event of the instance into the log. */
  function Count(outcomes: seq<Outcome>, i: nat, kind: EventType): nat {
    if outcomes == [] then 0
    else
      var o := outcomes[|outcomes| - 1];
      Count(outcomes[..|outcomes| - 1], i, kind) + if o.instance == i && o.kind == kind && o.appended then 1 else 0
  }

  lemma CountGrows(outcomes: seq<Outcome>, o: Outcome, i: nat, kind: EventType)
    ensures Count(outcomes + [o], i, kind) ==
            Count(outcomes, i, kind) + if o.instance == i && o.kind == kind && o.appended then 1 else 0
  {
    assert (outcomes + [o])[..|outcomes|] == outcomes;
  }

  // ----- what every step keeps

  ghost predicate LogFits(s: State, i: nat) {
    var n := |Kinds(s.db.events, i)|;
    && Alternates(Kinds(s.db.events, i))
    && Count(s.outcomes, i, Completed) == (n + 1) / 2
    && Count(s.outcomes, i, Uncompleted) == n / 2
  }

  /** A call about to write holds the lock, and its event is the one whose turn it is. */
  ghost predicate CallFits(s: State, c: Call) {
    var p := StageOf(s, c);
    && (p.Holding? || p.Writing? <==> s.lock == Some(c))
    && (p.Writing? ==>
          && p.event.instance == p.q.instance && p.event.kind == p.q.kind
          && (p.q.kind == Completed <==> |Kinds(s.db.events, p.q.instance)| % 2 == 0))
  }

  ghost predicate Inv(s: State) {
    (forall i: nat :: LogFits(s, i)) && (forall c :: CallFits(s, c))
  }

  lemma DecidedInTurn(db: Db, q: Request)
    requires Alternates(Kinds(db.events, q.instance)) && Decide(db, q).Appends?
    ensures var e := Decide(db, q).event;
            e.instance == q.instance && e.kind == q.kind
            && (q.kind == Completed <==> |Kinds(db.events, q.instance)| % 2 == 0)
  {
    hide Kinds, ValidateActor, WasOnTime, LatestKind;
    LatestKindIs(db.events, q.instance);
  }

  lemma WriteFits(s: State, c: Call, told: bool, i: nat)
    requires Inv(s) && StageOf(s, c).Writing? && MayAppend(s.db, StageOf(s, c).event)
    ensures LogFits(Step(s, Write(c, told)), i)
  {
    hide Kinds, Count, MayAppend;
    var p := StageOf(s, c);
    assert CallFits(s, c) && LogFits(s, i);
    KindsGrow(s.db.events, p.event, i);
    CountGrows(s.outcomes, Outcome(p.q.instance, p.q.kind, true, told), i, Completed);
    CountGrows(s.outcomes, Outcome(p.q.instance, p.q.kind, true, told), i, Uncompleted);
  }

  lemma StepKeepsInv(s: State, e: Event)
    requires Inv(s)
    ensures Inv(Step(s, e))
  {
    hide Kinds, Count, MayAppend, Decide, ValidateActor, Next, LogFits, Inv;
    assert forall i: nat :: LogFits(s, i) by { InvParts(s); }
    assert forall c :: CallFits(s, c) by { InvParts(s); }
    var s' := Step(s, e);
    forall i: nat ensures LogFits(s', i) {
      StepLogFits(s, e, i);
    }
    forall c ensures CallFits(s', c) {
      StepCallFits(s, e, c);
    }
    InvWhole(s');
  }

  lemma InvParts(s: State)
    requires Inv(s)
    ensures forall i: nat :: LogFits(s, i)
    ensures forall c :: CallFits(s, c)
  {
    hide LogFits, CallFits;
  }

  lemma InvWhole(s: State)
    requires forall i: nat :: LogFits(s, i)
    requires forall c :: CallFits(s, c)
    ensures Inv(s)
  {
    hide LogFits, CallFits;
  }

  lemma StepLogFits(s: State, e: Event, i: nat)
    requires Inv(s)
    ensures LogFits(Step(s, e), i)
  {
    hide Kinds, MayAppend, Decide, ValidateActor, Next, Alternates, CallFits;
    assert LogFits(s, i);
    match e {
      case Write(c, told) =>
        if StageOf(s, c).Writing? && MayAppend(s.db, StageOf(s, c).event) { WriteFits(s, c, told, i); }
        assert s.outcomes + [] == s.outcomes;
      case Other(op) => if !op.AppendOp? { LogUnchanged(s.db, op); }
      case Look(c) =>
        assert s.outcomes + [] == s.outcomes;
        if StageOf(s, c).Holding? {
          var q := StageOf(s, c).q;
          CountGrows(s.outcomes, Outcome(q.instance, q.kind, false, true), i, Completed);
          CountGrows(s.outcomes, Outcome(q.instance, q.kind, false, true), i, Uncompleted);
        }
        hide Count;
      case _ => assert s.outcomes + [] == s.outcomes;
    }
  }

  lemma StepCallFits(s: State, e: Event, c: Call)
    requires Inv(s)
    ensures CallFits(Step(s, e), c)
  {
    hide Kinds, Count, MayAppend, Decide, ValidateActor, Next, LogFits;
    assert CallFits(s, c);
    if e.Other? {
      if !e.op.AppendOp? { LogUnchanged(s.db, e.op); }
    } else {
      assert CallFits(s, e.call);
      var p := StageOf(s, e.call);
      if e.Look? && p.Holding? && Decide(s.db, p.q).Appends? {
        assert LogFits(s, p.q.instance);
        LogFitsAlternates(s, p.q.instance);
        DecidedInTurn(s.db, p.q);
      }
    }
  }

  lemma LogFitsAlternates(s: State, i: nat)
    requires LogFits(s, i)
    ensures Alternates(Kinds(s.db.events, i))
  {}

  lemma {:induction false} ExecKeepsInv(s: State, run: seq<Event>)
    requires Inv(s)
    ensures Inv(Exec(s, run))
    decreases |run|
  {
    hide Inv, Step;
    if run != [] {
      StepKeepsInv(s, run[0]);
      ExecKeepsInv(Step(s, run[0]), run[1..]);
    }
  }

  lemma Reachable(run: seq<Event>)
    ensures Inv(Exec(INITIAL, run))
  {
    assert Inv(INITIAL);
    ExecKeepsInv(INITIAL, run);
  }

  // ----- what the calls promise

  /** In every interleaving an instance's log is completed, uncompleted, completed, … in turns, and the events
      of completes less those of un-completes are 1 if it is done and 0 if not. */
  lemma LogAlternates(run: seq<Event>, i: nat)
    ensures var s := Exec(INITIAL, run);
            && Alternates(Kinds(s.db.events, i))
            && Count(s.outcomes, i, Completed) - Count(s.outcomes, i, Uncompleted) ==
                 if LatestKind(s.db.events, i) == Some(Completed) then 1 else 0
  {
    hide Kinds, Count, Exec, LatestKind;
    Reachable(run);
    var s := Exec(INITIAL, run);
    assert LogFits(s, i);
    LatestKindIs(s.db.events, i);
  }

  /** A step that records an outcome grew the log, by that one event, exactly if the outcome says so; every
      other step leaves the log alone. */
  lemma AppendedIffGrew(run: seq<Event>, e: Event)
    ensures var s := Exec(INITIAL, run);
            var after := Step(s, e);
            || (after.outcomes == s.outcomes && after.db.events == s.db.events)
            || exists o :: after.outcomes == s.outcomes + [o] &&
                 if o.appended then
                   |after.db.events| == |s.db.events| + 1 && after.db.events[..|s.db.events|] == s.db.events
                   && after.db.events[|s.db.events|].instance == o.instance
                   && after.db.events[|s.db.events|].kind == o.kind
                 else after.db.events == s.db.events
  {
    hide Exec, Kinds, Count, MayAppend, Decide, ValidateActor, Next;
    Reachable(run);
    var s := Exec(INITIAL, run);
    assert s.outcomes + [] == s.outcomes;
    if e.Other? {
      if !e.op.AppendOp? { LogUnchanged(s.db, e.op); }
    } else {
      assert CallFits(s, e.call);
      var p := StageOf(s, e.call);
      if e.Write? && p.Writing? && MayAppend(s.db, p.event) {
        assert Step(s, e).outcomes == s.outcomes + [Outcome(p.q.instance, p.q.kind, true, e.told)];
      } else if e.Look? && p.Holding? && Decide(s.db, p.q).NoOp? {
        assert Step(s, e).outcomes == s.outcomes + [Outcome(p.q.instance, p.q.kind, false, true)];
      }
    }
  }

  lemma LatestAfterAppend(events: seq<LogEvent>, e: LogEvent)
    ensures LatestKind(events + [e], e.instance) == Some(e.kind)
  {
    hide Kinds, LatestKind;
    KindsGrow(events, e, e.instance);
    LatestKindIs(events + [e], e.instance);
  }

  /** A call that returns leaves the instance in the state it returns: done after a complete, never after an
      un-complete. */
  lemma ReturnsDerivedState(db: Db, q: Request)
    requires Called(db, q).Some?
    ensures var r, after := Called(db, q).value, AfterCall(db, q);
            && q.instance in after.instances
            && r.state == DerivedState(after.instances[q.instance], LatestKind(after.events, q.instance), Today(q))
            && (r.state == Done <==> q.kind == Completed)
            && (r.state == IsMissed <==>
                  (q.kind == Uncompleted
                   && after.instances[q.instance].dueDate < (if q.today.Some? then q.today.value else q.host)))
            && (LatestKind(after.events, q.instance) == Some(Completed) <==> q.kind == Completed)
            && (r.appended <==> after != db)
  {
    hide ValidateActor, WasOnTime, LatestKind;
    if Decide(db, q).Appends? {
      LatestAfterAppend(db.events, Decide(db, q).event);
      assert |(db.events + [Decide(db, q).event])| == |db.events| + 1;
    }
  }

  /** Repeating a call that returned appends nothing; reversing one that appended brings back the state the
      instance had. */
  lemma TwiceIsOnceAndBack(db: Db, q: Request, again: Request, back: Request)
    requires Called(db, q).Some? && Called(AfterCall(db, q), again).Some? && Called(AfterCall(db, q), back).Some?
    requires again.instance == q.instance == back.instance && again.kind == q.kind != back.kind
    ensures !Called(AfterCall(db, q), again).value.appended && AfterCall(AfterCall(db, q), again) == AfterCall(db, q)
    ensures Called(db, q).value.appended ==>
              Called(AfterCall(db, q), back).value.appended &&
              forall today :: DerivedState(db.instances[q.instance], LatestKind(db.events, q.instance), today) ==
                DerivedState(db.instances[q.instance],
                    LatestKind(AfterCall(AfterCall(db, q), back).events, q.instance), today)
  {
    ReturnsDerivedState(db, q);
    ReturnsDerivedState(AfterCall(db, q), again);
    ReturnsDerivedState(AfterCall(db, q), back);
    hide ValidateActor, WasOnTime, LatestKind, MayAppend;
  }

  /** What a call that appended wrote: the instance's child, the validated actor and the stamp; a complete says
      whether its moment was on time, as its result does, and an un-complete says nothing. */
  lemma RecordsWhatHappened(db: Db, q: Request)
    requires Called(db, q).Some? && Called(db, q).value.appended
    ensures var events := AfterCall(db, q).events;
            var x := db.instances[q.instance];
            && |events| == |db.events| + 1
            && var e := events[|db.events|];
               && e.instance == q.instance && e.child == x.child && e.kind == q.kind && e.occurredAt == q.stamp
               && e.wasOnTime == Called(db, q).value.wasOnTime
               && (q.kind == Completed <==> e.wasOnTime.Some?)
               && (if e.source == "user"
                    then q.userId.Some? && e.userId == Some(Strip(q.userId.value)) && e.tapped.None?
                   else e.source == "panel" && e.tapped == q.tapped && e.tapped.Some? && e.userId.None?)
               && (q.kind == Completed && q.now.Some? && 0 <= q.now.value.time < DAY
                   && (x.dueTime.Some? ==> DueMinutes(x.dueTime.value).Some?) ==>
                     e.wasOnTime == Some((if q.today.Some? then q.today.value else q.now.value.date) * DAY +
                         q.now.value.time <= Deadline(x)))
  {
    hide LatestKind, Deadline, WasOnTime, DueMinutes, Strip;
    var x := db.instances[q.instance];
    if q.kind == Completed && q.now.Some? && 0 <= q.now.value.time < DAY
       && (x.dueTime.Some? ==> DueMinutes(x.dueTime.value).Some?)
    {
      OnTimeIff(x, q.now.value, q.today, q.host);
    }
  }

  /** The call would turn the instance: a complete of one that is not done, or an un-complete of one that is. */
  predicate Turns(db: Db, q: Request) {
    (LatestKind(db.events, q.instance) == Some(Completed)) != (q.kind == Completed)
  }

  /** Exactly when a call raises: for an invalid actor, for an instance that does not exist, and, if it would turn the
      instance, for a panel profile that does not exist, or a complete on the due date with a due time and no clock,
      or with a due time that does not parse. */
  lemma RaisesIff(db: Db, q: Request)
    requires WellFormed(db)
    ensures Called(db, q).None? <==>
            || ValidateActor(q).None?
            || q.instance !in db.instances
            || (Turns(db, q) && q.tapped.Some? && q.tapped.value !in db.children)
            || (Turns(db, q) && q.kind == Completed
                && db.instances[q.instance].dueDate ==
                     (if q.today.Some? then q.today.value else if q.now.Some? then q.now.value.date else q.host)
                && db.instances[q.instance].dueTime.Some?
                && (q.now.None? || DueMinutes(db.instances[q.instance].dueTime.value).None?))
  {
    hide LatestKind, DueMinutes, Strip, EventsFit, KeysUnique, DefinitionsFit, LinksFit, WindowsFit, RulesFit,
      ChildrenFit;
    if q.instance in db.instances {
      NeedsNowIff(db.instances[q.instance], q.now, q.today, q.host);
    }
  }
}
