/** The protocol between the sleeping missed-sweep loop (api/scheduler.py) and the settings writer
    (api/routes_admin.py), as interleaved steps over one settings lock. */
module SweepScheduler {
  import opened Options

  datatype Settings = Settings(timezone: string, rollover: string, rest: string)
  datatype Plan = Plan(timezone: string, rollover: string)
  datatype Writer = Writer(id: nat)

  function PlanOf(s: Settings): Plan { Plan(s.timezone, s.rollover) }

  /** What the two sides tell each other: the recorded plan and the wake flag. */
  datatype Signal = Signal(planned: Option<Plan>, wake: bool)

  function Notified(g: Signal, settings: Settings): Signal {
    if g.planned == Some(PlanOf(settings)) then g else g.(wake := true)
  }

  /** A plan reading forgets the wake-ups before it; what it reads is recorded. */
  function Begun(g: Signal): Signal { g.(wake := false) }

  function Recorded(g: Signal, settings: Settings): Signal { g.(planned := Some(PlanOf(settings))) }

  /** What the wait comes to, `None` being the sleeper's exception: a sleeper that is done outranks the wake-up. */
  function Slept(sleeperDone: bool, sleeperFailed: bool): Option<bool> {
    if !sleeperDone then Some(false) else if sleeperFailed then None else Some(true)
  }

  class MissedSweepScheduler {
    var planned: Option<Plan>
    var wake: bool

    function View(): Signal
      reads this
    {
      Signal(planned, wake)
    }

    constructor ()
      ensures View() == Signal(None, false)
    {
      planned, wake := None, false;
    }

    method SettingsChanged(settings: Settings)
      modifies this`wake
      ensures View() == Notified(old(View()), settings)
    {
      if Some(PlanOf(settings)) != planned {
        wake := true;
      }
    }

    method BeginPlan()
      modifies this`wake
      ensures View() == Begun(old(View()))
    {
      wake := false;
    }

    method RecordPlan(settings: Settings)
      modifies this`planned
      ensures View() == Recorded(old(View()), settings)
    {
      planned := Some(PlanOf(settings));
    }

    /** The loop's decision after the wait. */
    method SleptUnlessWoken(sleeperDone: bool, sleeperFailed: bool) returns (r: Option<bool>)
      requires sleeperDone || wake
      ensures r == Slept(sleeperDone, sleeperFailed)
      ensures r == Some(false) ==> wake
    {
      if sleeperDone {
        if sleeperFailed { return None; }
        return Some(true);
      }
      return Some(false);
    }
  }

  // ----- the two sides

  /** Where the loop is. The argument `plan` is its local variable. */
  datatype Place =
    | Stopped
    | NeedPlan
    | Reading
    | Read(settings: Settings)
    | Waiting(plan: Plan)
    | NeedCheck(plan: Plan)
    | Checking(plan: Plan)
    | Checked(plan: Plan, settings: Settings)
    | Sweeping(plan: Plan)
    | Backoff

  datatype Stage = Outside | Queued | Writing | Written

  datatype Lock = Free | Loop | Held(writer: Writer)

  /** `missed`: since the last plan a write moved the plan and was cancelled before it could say so. */
  datatype State = State(
    stored: Settings, signal: Signal, lock: Lock, place: Place, writers: map<Writer, Stage>, missed: bool)

  datatype Event =
    | Start
    | Stop
    | AcquireForPlan
    | ReadPlan(ok: bool)
    | FinishPlan(rolloverOk: bool, delayOk: bool)
    | Timeout(ok: bool)
    | Woken
    | AcquireForCheck
    | ReadCheck(ok: bool)
    | Compare
    | FinishSweep(ok: bool)
    | Retry
    | Request(writer: Writer)
    | Acquire(writer: Writer)
    | Store(writer: Writer, settings: Settings)
    | Reject(writer: Writer)
    | Notify(writer: Writer)
    | Interrupt(writer: Writer)

  predicate LoopInside(p: Place) {
    p.Reading? || p.Read? || p.Checking? || p.Checked? || p.Sweeping?
  }

  function StageOf(s: State, w: Writer): Stage {
    if w in s.writers then s.writers[w] else Outside
  }

  function Moves(s: State, w: Writer, stage: Stage): State {
    s.(writers := s.writers[w := stage])
  }

  function Leaves(s: State, place: Place): State {
    s.(lock := Free, place := place)
  }

  function AfterWait(plan: Plan, slept: Option<bool>): Place {
    match slept
    case None => Backoff
    case Some(true) => NeedCheck(plan)
    case Some(false) => NeedPlan
  }

  function LoopNext(s: State, e: Event): State {
    match e
    case Start => if s.place.Stopped? then s.(place := NeedPlan) else s
    case Stop => if LoopInside(s.place) then Leaves(s, Stopped) else s.(place := Stopped)
    case AcquireForPlan =>
      if s.place.NeedPlan? && s.lock.Free?
      then s.(lock := Loop, place := Reading, signal := Begun(s.signal), missed := false) else s
    case ReadPlan(ok) =>
      if !s.place.Reading? then s else if ok then s.(place := Read(s.stored)) else Leaves(s, Backoff)
    case FinishPlan(rolloverOk, delayOk) =>
      if !s.place.Read? then s
      else if !rolloverOk then Leaves(s, Backoff)
      else
        var plan := PlanOf(s.place.settings);
        // the delay is computed outside every try: an error there ends the loop
        Leaves(s, if delayOk then Waiting(plan) else Stopped).(signal := Recorded(s.signal, s.place.settings))
    case Timeout(ok) =>
      if s.place.Waiting? then s.(place := AfterWait(s.place.plan, Slept(true, !ok))) else s
    case Woken =>
      if s.place.Waiting? && s.signal.wake then s.(place := AfterWait(s.place.plan, Slept(false, false))) else s
    case AcquireForCheck =>
      if s.place.NeedCheck? && s.lock.Free? then s.(lock := Loop, place := Checking(s.place.plan)) else s
    case ReadCheck(ok) =>
      if !s.place.Checking? then s
      else if ok then s.(place := Checked(s.place.plan, s.stored)) else Leaves(s, Backoff)
    case Compare =>
      if !s.place.Checked? then s
      else if PlanOf(s.place.settings) != s.place.plan then Leaves(s, NeedPlan)
      else s.(place := Sweeping(s.place.plan))
    case FinishSweep(ok) =>
      if s.place.Sweeping? then Leaves(s, if ok then NeedPlan else Backoff) else s
    case Retry => if s.place.Backoff? then s.(place := NeedPlan) else s
    case _ => s
  }

  function WriterNext(s: State, w: Writer, e: Event): State {
    match e
    case Request(_) => if StageOf(s, w).Outside? then Moves(s, w, Queued) else s
    case Acquire(_) =>
      if StageOf(s, w).Queued? && s.lock.Free? then Moves(s, w, Writing).(lock := Held(w)) else s
    case Store(_, settings) =>
      if StageOf(s, w).Writing? then Moves(s, w, Written).(stored := settings) else s
    case Reject(_) =>
      if StageOf(s, w).Queued? then Moves(s, w, Outside)
      else if StageOf(s, w).Writing? then Moves(s, w, Outside).(lock := Free)
      else s
    case Notify(_) =>
      if StageOf(s, w).Written?
      then Moves(s, w, Outside).(lock := Free, signal := Notified(s.signal, s.stored)) else s
    case Interrupt(_) =>
      if StageOf(s, w).Written?
      then Moves(s, w, Outside).(lock := Free, missed := s.missed || s.signal.planned != Some(PlanOf(s.stored)))
      else s
    case _ => s
  }

  predicate FromWriter(e: Event) {
    e.Request? || e.Acquire? || e.Store? || e.Reject? || e.Notify? || e.Interrupt?
  }

  /** One event; one that cannot happen in `s` changes nothing. */
  function Next(s: State, e: Event): State {
    if FromWriter(e) then WriterNext(s, e.writer, e) else LoopNext(s, e)
  }

  function Exec(s: State, run: seq<Event>): State
    decreases |run|
  {
    if run == [] then s else Exec(Next(s, run[0]), run[1..])
  }

  function Initial(settings: Settings): State {
    State(settings, Signal(None, false), Free, Stopped, map[], false)
  }

  // ----- what every step keeps

  /** A writer has stored its settings and not told the loop yet. */
  predicate Untold(s: State) {
    s.lock.Held? && StageOf(s, s.lock.writer).Written?
  }

  ghost predicate Exclusive(s: State) {
    && (s.lock.Loop? <==> LoopInside(s.place))
    && (forall w :: StageOf(s, w).Writing? || StageOf(s, w).Written? <==> s.lock == Held(w))
  }

  ghost predicate PlanKept(s: State) {
    && (s.place.Waiting? || s.place.NeedCheck? || s.place.Checking? || s.place.Checked? || s.place.Sweeping? ==>
          s.signal.planned == Some(s.place.plan))
    && (s.place.Read? || s.place.Checked? ==> s.place.settings == s.stored)
    && (s.place.Reading? || s.place.Read? ==> !s.signal.wake)
    && (s.place.Sweeping? ==> PlanOf(s.stored) == s.place.plan)
  }

  /** The sleeping loop's plan is the stored one, or something will wake it. */
  ghost predicate WakeKept(s: State) {
    s.place.Waiting? ==> PlanOf(s.stored) == s.place.plan || s.signal.wake
  }

  ghost predicate Inv(s: State) {
    Exclusive(s) && PlanKept(s) && (Untold(s) || s.missed || WakeKept(s))
  }

  lemma LoopKeepsInv(s: State, e: Event)
    requires Inv(s) && !FromWriter(e)
    ensures Inv(LoopNext(s, e))
  {
    var s' := LoopNext(s, e);
    assert forall w :: StageOf(s', w) == StageOf(s, w);
  }

  lemma WriterKeepsInv(s: State, w: Writer, e: Event)
    requires Inv(s)
    ensures Inv(WriterNext(s, w, e))
  {
    var s' := WriterNext(s, w, e);
    assert forall v :: v != w ==> StageOf(s', v) == StageOf(s, v);
  }

  lemma {:induction false} ExecKeepsInv(s: State, run: seq<Event>)
    requires Inv(s)
    ensures Inv(Exec(s, run))
    decreases |run|
  {
    hide Inv, LoopNext, WriterNext;
    if run != [] {
      if FromWriter(run[0]) { WriterKeepsInv(s, run[0].writer, run[0]); } else { LoopKeepsInv(s, run[0]); }
      ExecKeepsInv(Next(s, run[0]), run[1..]);
    }
  }

  lemma Reachable(settings: Settings, run: seq<Event>)
    ensures Inv(Exec(Initial(settings), run))
  {
    assert Inv(Initial(settings));
    ExecKeepsInv(Initial(settings), run);
  }

  // ----- no sweep for a replaced plan

  /** In every run, whatever is cancelled, a running sweep is for the plan the stored settings have,
      and no writer is between its lock and its release. */
  lemma SweepIsForStoredPlan(settings: Settings, run: seq<Event>)
    ensures var s := Exec(Initial(settings), run);
            s.place.Sweeping? ==>
              && s.place.plan == PlanOf(s.stored) && s.signal.planned == Some(s.place.plan)
              && forall w :: StageOf(s, w).Outside? || StageOf(s, w).Queued?
  {
    Reachable(settings, run);
  }

  // ----- what comes of a loop and a writer that are let run

  /** A plan is a time zone and a rollover, whatever else the settings say. */
  lemma SamePlanIff(a: Settings, b: Settings)
    ensures PlanOf(a) == PlanOf(b) <==> a.timezone == b.timezone && a.rollover == b.rollover
  {}

  /** A loop that slept through, with no writer in its way, sweeps exactly if the stored settings still have the time
      zone and the rollover it slept for, and otherwise plans again. One that is woken plans again too, and one whose
      sleep failed backs off. */
  lemma SweepsIff(s: State)
    requires s.place.Waiting? && s.lock.Free?
    ensures var plan := s.place.plan;
            Exec(s, [Timeout(true), AcquireForCheck, ReadCheck(true), Compare]) ==
              if s.stored.timezone == plan.timezone && s.stored.rollover == plan.rollover
              then s.(place := Sweeping(plan), lock := Loop) else s.(place := NeedPlan)
    ensures Next(s, Woken) == if s.signal.wake then s.(place := NeedPlan) else s
    ensures Next(s, Timeout(false)) == s.(place := Backoff)
  {
    var run := [Timeout(true), AcquireForCheck, ReadCheck(true), Compare];
    var s1 := Next(s, run[0]);
    var s2 := Next(s1, run[1]);
    var s3 := Next(s2, run[2]);
    assert Exec(s, run) == Exec(s1, run[1..]);
    assert run[1..][1..] == run[2..] && Exec(s1, run[1..]) == Exec(s2, run[2..]);
    assert run[2..][1..] == run[3..] && Exec(s2, run[2..]) == Exec(s3, run[3..]);
    assert run[3..][1..] == [] && Exec(s3, run[3..]) == Next(s3, Compare);
  }

  /** What the loop does next when nothing fails and nobody wakes it. */
  function OnTrack(p: Place): Event {
    match p
    case Stopped => Start
    case NeedPlan => AcquireForPlan
    case Reading => ReadPlan(true)
    case Read(_) => FinishPlan(true, true)
    case Waiting(_) => Timeout(true)
    case NeedCheck(_) => AcquireForCheck
    case Checking(_) => ReadCheck(true)
    case Checked(_, _) => Compare
    case Sweeping(_) => FinishSweep(true)
    case Backoff => Retry
  }

  /** How many such steps a sweep is away; one that sleeps for another plan than the stored one plans again first. */
  function Distance(s: State): nat {
    match s.place
    case Sweeping(_) => 0
    case Checked(plan, _) => if plan == PlanOf(s.stored) then 1 else 8
    case Checking(plan) => if plan == PlanOf(s.stored) then 2 else 9
    case NeedCheck(plan) => if plan == PlanOf(s.stored) then 3 else 10
    case Waiting(plan) => if plan == PlanOf(s.stored) then 4 else 11
    case Read(_) => 5
    case Reading => 6
    case NeedPlan => 7
    case _ => 8
  }

  lemma StepIsNearer(s: State)
    requires Inv(s) && !s.lock.Held? && !s.place.Sweeping?
    ensures var s' := Next(s, OnTrack(s.place));
            Inv(s') && !s'.lock.Held? && s'.stored == s.stored && Distance(s') == Distance(s) - 1
  {
    LoopKeepsInv(s, OnTrack(s.place));
  }

  lemma {:induction false} SweepIsNear(s: State) returns (way: seq<Event>)
    requires Inv(s) && !s.lock.Held?
    ensures |way| == Distance(s) && forall i :: 0 <= i < |way| ==> !FromWriter(way[i])
    ensures Exec(s, way).place == Sweeping(PlanOf(s.stored))
    decreases Distance(s)
  {
    way := [];
    if !s.place.Sweeping? {
      StepIsNearer(s);
      hide Inv, Next, Distance;
      var e := OnTrack(s.place);
      var rest := SweepIsNear(Next(s, e));
      way := [e] + rest;
      assert way[1..] == rest;
    }
  }

  /** From every reachable state with no writer inside the lock, at most eleven steps of the loop, none of which fails,
      lead to a sweep for the plan that is stored. */
  lemma SweepIsReached(settings: Settings, run: seq<Event>) returns (way: seq<Event>)
    requires !Exec(Initial(settings), run).lock.Held?
    ensures |way| <= 11 && forall i :: 0 <= i < |way| ==> !FromWriter(way[i])
    ensures Exec(Exec(Initial(settings), run), way).place == Sweeping(PlanOf(Exec(Initial(settings), run).stored))
  {
    Reachable(settings, run);
    way := SweepIsNear(Exec(Initial(settings), run));
  }

  /** The loop backs off exactly when a read, the rollover, its sleep or its sweep fails, and then without the lock. */
  lemma BacksOffIff(settings: Settings, run: seq<Event>, e: Event)
    requires !Exec(Initial(settings), run).place.Backoff?
    ensures var s := Exec(Initial(settings), run);
            && (Next(s, e).place.Backoff? <==>
                  || (s.place.Reading? && e == ReadPlan(false))
                  || (s.place.Read? && e.FinishPlan? && !e.rolloverOk)
                  || (s.place.Waiting? && e == Timeout(false))
                  || (s.place.Checking? && e == ReadCheck(false))
                  || (s.place.Sweeping? && e == FinishSweep(false)))
            && (Next(s, e).place.Backoff? ==> !Next(s, e).lock.Loop?)
  {
    Reachable(settings, run);
  }

  /** A writer that gets the lock stores its settings, and wakes the loop exactly if their time zone or rollover is not
      that of the recorded plan. */
  lemma WriterGetsThrough(s: State, w: Writer, next: Settings)
    requires StageOf(s, w).Outside? && s.lock.Free?
    ensures var queued := Next(s, Request(w));
            var inside := Next(queued, Acquire(w));
            var after := Next(Next(inside, Store(w, next)), Notify(w));
            && inside.lock == Held(w) && after.lock.Free? && StageOf(after, w).Outside? && after.place == s.place
            && after.stored == next && after.signal.planned == s.signal.planned
            && Next(s, Acquire(w)) == s
            && (after.signal.wake <==>
                  s.signal.wake || s.signal.planned != Some(Plan(next.timezone, next.rollover)))
  {}

  /** One that turns back, before or after it has the lock, leaves everything as it was. */
  lemma WriterTurnsBack(s: State, w: Writer)
    requires StageOf(s, w).Outside? && s.lock.Free?
    ensures var queued := Next(s, Request(w));
            var inside := Next(queued, Acquire(w));
            Next(queued, Reject(w)) == Next(inside, Reject(w)) == s.(writers := s.writers[w := Outside])
  {}

  // ----- no lost wake-up

  /** A scheduler that was not started does nothing. */
  lemma NothingBeforeStart(settings: Settings, e: Event)
    requires !FromWriter(e) && !e.Start?
    ensures Next(Initial(settings), e) == Initial(settings)
  {}

  /** The event cancels a writer that moved the recorded plan, before it could say so. */
  predicate MovesUnsaid(s: State, e: Event) {
    e.Interrupt? && StageOf(s, e.writer).Written? && s.signal.planned != Some(PlanOf(s.stored))
  }

  predicate TakesPlan(s: State, e: Event) {
    e.AcquireForPlan? && s.place.NeedPlan? && s.lock.Free?
  }

  /** Event `k` of the run moves the plan unsaid, and no plan is read after it. */
  ghost predicate UnsaidAt(s: State, run: seq<Event>, k: nat)
    requires k < |run|
  {
    && MovesUnsaid(Exec(s, run[..k]), run[k])
    && forall j :: k < j < |run| ==> !TakesPlan(Exec(s, run[..j]), run[j])
  }

  ghost predicate Unsaid(s: State, run: seq<Event>) {
    exists k: nat :: k < |run| && UnsaidAt(s, run, k)
  }

  lemma UnsaidGrows(s: State, run: seq<Event>, e: Event)
    ensures Unsaid(s, run + [e]) <==>
            MovesUnsaid(Exec(s, run), e) || (Unsaid(s, run) && !TakesPlan(Exec(s, run), e))
  {
    hide Exec, MovesUnsaid, TakesPlan;
    var more, n := run + [e], |run|;
    assert forall k: nat :: k <= n ==> more[..k] == run[..k];
    assert run[..n] == run;
    if MovesUnsaid(Exec(s, run), e) { assert UnsaidAt(s, more, n); }
    if Unsaid(s, run) && !TakesPlan(Exec(s, run), e) {
      var k: nat :| k < n && UnsaidAt(s, run, k);
      assert UnsaidAt(s, more, k);
    }
    if Unsaid(s, more) {
      var k: nat :| k < n + 1 && UnsaidAt(s, more, k);
      if k < n {
        assert UnsaidAt(s, run, k) by { UnsaidBefore(s, run, e, k); }
        assert !TakesPlan(Exec(s, more[..n]), more[n]);
      }
    }
  }

  lemma UnsaidBefore(s: State, run: seq<Event>, e: Event, k: nat)
    requires k < |run| && UnsaidAt(s, run + [e], k)
    ensures UnsaidAt(s, run, k)
  {
    hide Exec, MovesUnsaid, TakesPlan;
    forall j | k < j < |run| ensures !TakesPlan(Exec(s, run[..j]), run[j]) {
      assert (run + [e])[..j] == run[..j] && (run + [e])[j] == run[j];
    }
    assert (run + [e])[..k] == run[..k];
  }

  lemma MissedGrows(s: State, e: Event)
    ensures Next(s, e).missed <==> MovesUnsaid(s, e) || (s.missed && !TakesPlan(s, e))
  {}

  lemma {:induction false} MissedIsUnsaid(s: State, run: seq<Event>)
    requires !s.missed
    ensures Exec(s, run).missed <==> Unsaid(s, run)
    decreases |run|
  {
    hide Next, MovesUnsaid, TakesPlan, UnsaidAt;
    if run != [] {
      var front, last := run[..|run| - 1], run[|run| - 1];
      assert run == front + [last];
      MissedIsUnsaid(s, front);
      ExecExtend(s, front, last);
      UnsaidGrows(s, front, last);
      MissedGrows(Exec(s, front), last);
    }
  }

  /** Whenever the loop waits and no writer is inside the lock, the stored settings have the plan it waits for or
      the wake flag is set, unless since its plan was read a writer has moved the plan and was cancelled before
      it could say so. */
  lemma NoWakeupIsLost(settings: Settings, run: seq<Event>)
    requires !Unsaid(Initial(settings), run)
    ensures var s := Exec(Initial(settings), run);
            s.place.Waiting? && !s.lock.Held? ==>
              && s.signal.planned == Some(s.place.plan)
              && (s.place.plan == PlanOf(s.stored) || s.signal.wake)
  {
    Reachable(settings, run);
    MissedIsUnsaid(Initial(settings), run);
  }

  /** A loop that goes to sleep is not woken yet, and sleeps for the stored plan. */
  lemma FallsAsleepFresh(settings: Settings, run: seq<Event>)
    ensures var s := Exec(Initial(settings), run);
            var after := Next(s, FinishPlan(true, true));
            s.place.Read? ==> after.place == Waiting(PlanOf(after.stored)) && !after.signal.wake
                              && after.signal.planned == Some(PlanOf(after.stored))
  {
    Reachable(settings, run);
  }

  /** What writers do that leave the plan as it is. */
  ghost predicate KeepsPlan(run: seq<Event>, plan: Plan) {
    forall i :: 0 <= i < |run| ==> FromWriter(run[i]) && (run[i].Store? ==> PlanOf(run[i].settings) == plan)
  }

  /** An unchanged plan is left sleeping, however many writers come and go. */
  lemma {:induction false} UnchangedPlanSleeps(s: State, run: seq<Event>)
    requires s.place.Waiting? && !s.signal.wake && s.signal.planned == Some(s.place.plan)
    requires PlanOf(s.stored) == s.place.plan && KeepsPlan(run, s.place.plan)
    ensures Exec(s, run).place == s.place && Exec(s, run).signal == s.signal
    decreases |run|
  {
    if run != [] {
      var e := run[0];
      assert FromWriter(e);
      UnchangedPlanSleeps(Next(s, e), run[1..]);
    }
  }

  /** A writer about to store `next` and be cancelled there loses the wake-up exactly when the loop sleeps, nothing
      has woken it yet, and `next` does not have the recorded plan; one that gets to `settings_changed` never does. */
  lemma InterruptLosesIff(settings: Settings, run: seq<Event>, w: Writer, next: Settings)
    requires StageOf(Exec(Initial(settings), run), w).Writing?
    ensures var s := Exec(Initial(settings), run);
            var stored := Next(s, Store(w, next));
            && (!WakeKept(Next(stored, Interrupt(w))) <==>
                  s.place.Waiting? && !s.signal.wake && s.signal.planned != Some(PlanOf(next)))
            && WakeKept(Next(stored, Notify(w)))
            && StageOf(Next(stored, Interrupt(w)), w).Outside? && Next(stored, Interrupt(w)).lock.Free?
  {
    Reachable(settings, run);
  }

  /** The loop ends by `stop`, or by an error in computing the delay of a plan it has just recorded, and by nothing
      else: every other failure is retried. */
  lemma StopsIff(s: State, e: Event)
    requires !s.place.Stopped?
    ensures Next(s, e).place.Stopped? <==> e.Stop? || (s.place.Read? && e == FinishPlan(true, false))
  {}

  lemma {:induction false} ExecExtend(s: State, run: seq<Event>, e: Event)
    ensures Exec(s, run + [e]) == Next(Exec(s, run), e)
    decreases |run|
  {
    hide Next;
    if run == [] {
      assert [e][1..] == [];
    } else {
      assert (run + [e])[1..] == run[1..] + [e];
      ExecExtend(Next(s, run[0]), run[1..], e);
    }
  }

  /** The loop's first plan, then a write that is cancelled at its commit. */
  function PlanThenInterrupt(w: Writer, settings: Settings): seq<Event> {
    PlanFirst() + [Request(w)] + [Acquire(w)] + [Store(w, settings)] + [Interrupt(w)]
  }

  function PlanFirst(): seq<Event> {
    [] + [Start] + [AcquireForPlan] + [ReadPlan(true)] + [FinishPlan(true, true)]
  }

  /** Such a run exists, for every write that moves the plan and for no other. */
  lemma InterruptCanLose(was: Settings, settings: Settings, w: Writer)
    ensures var s := Exec(Initial(was), PlanThenInterrupt(w, settings));
            s.place.Waiting? && s.lock.Free? && (!WakeKept(s) <==> PlanOf(was) != PlanOf(settings))
  {
    hide Exec, Next, WakeKept;
    var s, planned := Initial(was), PlanFirst();
    ExecExtend(s, planned + [Request(w)] + [Acquire(w)] + [Store(w, settings)], Interrupt(w));
    ExecExtend(s, planned + [Request(w)] + [Acquire(w)], Store(w, settings));
    ExecExtend(s, planned + [Request(w)], Acquire(w));
    ExecExtend(s, planned, Request(w));
    PlanFirstSleeps(was);
    InterruptedWrite(Exec(s, planned), settings, w);
  }

  lemma PlanFirstSleeps(was: Settings)
    ensures Exec(Initial(was), PlanFirst()) ==
            Initial(was).(place := Waiting(PlanOf(was)), signal := Signal(Some(PlanOf(was)), false))
  {
    hide Exec;
    var s := Initial(was);
    ExecExtend(s, [] + [Start] + [AcquireForPlan] + [ReadPlan(true)], FinishPlan(true, true));
    ExecExtend(s, [] + [Start] + [AcquireForPlan], ReadPlan(true));
    ExecExtend(s, [] + [Start], AcquireForPlan);
    ExecExtend(s, [], Start);
    ExecEmpty(s);
  }

  lemma InterruptedWrite(s: State, settings: Settings, w: Writer)
    requires s.lock.Free? && s.writers == map[]
    requires s.place == Waiting(PlanOf(s.stored)) && s.signal == Signal(Some(PlanOf(s.stored)), false)
    ensures var after := Next(Next(Next(Next(s, Request(w)), Acquire(w)), Store(w, settings)), Interrupt(w));
            after.place.Waiting? && after.lock.Free? && (!WakeKept(after) <==> PlanOf(s.stored) != PlanOf(settings))
  {}

  lemma ExecEmpty(s: State)
    ensures Exec(s, []) == s
  {}

  // ----- a writer waits for one read or one sweep at most

  /** How many of its own steps the loop has left before it frees the lock, at most. */
  function StepsInside(p: Place): nat {
    match p
    case Checking(_) => 3
    case Checked(_, _) => 2
    case Reading => 2
    case Read(_) => 1
    case Sweeping(_) => 1
    case _ => 0
  }

  /** While the loop holds the lock it never waits for it or for the clock: each of its steps, however
      it turns out, frees the lock or brings that at least one step nearer; and a writer's step never
      takes the lock from it. */
  lemma LockIsReleasedSoon(settings: Settings, run: seq<Event>, e: Event)
    ensures var s := Exec(Initial(settings), run);
            var s' := Next(s, e);
            s.lock.Loop? ==>
              && 0 < StepsInside(s.place) <= 3
              && (!FromWriter(e) && s' != s ==>
                    s'.lock.Free? || (s'.lock.Loop? && StepsInside(s'.place) < StepsInside(s.place)))
              && (FromWriter(e) ==> s'.lock.Loop? && s'.place == s.place && s'.stored == s.stored)
  {
    Reachable(settings, run);
  }
}
