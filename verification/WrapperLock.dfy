/** How the SQLite wrapper (custom_components/nestquest/core/db.py) serializes its executor jobs: any
    number of tasks of one event loop, each cancelled at any await, over one connection. */
module WrapperLock {
  import opened Options

  datatype Task = Task(id: nat)
  type Handle = nat

  datatype Op = Open | Statement | Transaction | Close

  /** A job handed to the executor, and what its task goes on to do. */
  datatype Job =
    | Connect
    | CloseAbandoned(handle: Handle)
    | CloseConn(handle: Handle)
    | Run
    | Begin
    | Commit
    | Rollback
    | Cleanup

  /** Where a task is: outside the wrapper, queued on its lock, in the settlement loop of a job it
      started, or in the block of its transaction. */
  datatype Place = Outside | Queued(op: Op) | Awaiting(job: Job, cancelled: bool) | InBlock

  /** A job in the executor: still running, or settled, with the connection it made. */
  datatype Progress = InFlight | Settled(ok: bool, made: Option<Handle>)

  /** `handles`: the SQLite connections open in the process; `leaked`: those whose closing failed. */
  datatype State = State(
    lock: Option<Task>, conn: Option<Handle>, inTransaction: bool, txTask: Option<Task>,
    places: map<Task, Place>, jobs: map<Task, Progress>,
    handles: set<Handle>, leaked: set<Handle>, nextHandle: Handle)

  const INITIAL := State(None, None, false, None, map[], map[], {}, {}, 0)

  /** What can happen next. `refused`: the executor raises instead of taking the job. */
  datatype Event =
    | Request(task: Task, op: Op)
    | Enter(task: Task, refused: bool)
    | Settle(task: Task, ok: bool, leaves: bool)
    | Resume(task: Task, refused: bool)
    | Cancel(task: Task)
    | StatementInBlock(task: Task, refused: bool)
    | EndBlock(task: Task, raises: bool, refused: bool)

  function PlaceOf(s: State, t: Task): Place {
    if t in s.places then s.places[t] else Outside
  }

  function Goes(s: State, t: Task, p: Place): State {
    s.(places := s.places[t := p])
  }

  function Released(s: State, t: Task): State {
    Goes(s, t, Outside).(lock := None)
  }

  /** The `finally` of a transaction, and the lock with it. */
  function TransactionOver(s: State, t: Task): State {
    Released(s, t).(inTransaction := false, txTask := None)
  }

  function Starts(s: State, t: Task, j: Job): State {
    Goes(s, t, Awaiting(j, false)).(jobs := s.jobs[t := InFlight])
  }

  /** The lock is free and the task has it: the first step of each operation. */
  function Entered(s: State, t: Task, op: Op, refused: bool): State {
    var held := s.(lock := Some(t));
    match op
    case Open =>
      if s.conn.Some? || refused then Released(held, t) else Starts(held, t, Connect)
    case Statement =>
      if s.conn.None? || refused then Released(held, t) else Starts(held, t, Run)
    case Transaction =>
      if s.conn.None? then Released(held, t)
      else
        var owned := held.(inTransaction := true, txTask := Some(t));
        if refused then TransactionOver(owned, t) else Starts(owned, t, Begin)
    case Close =>
      if s.conn.None? then Released(held, t)
      else
        var h := s.conn.value;
        var dropped := held.(conn := None);
        if refused then Released(dropped, t).(leaked := s.leaked + {h})
        else Starts(dropped, t, CloseConn(h))
  }

  /** The worker thread is done with the task's job. `leaves`: a failing connect did not close what
      it had opened. */
  function Worked(s: State, t: Task, j: Job, ok: bool, leaves: bool): State {
    match j
    case Connect =>
      if ok then
        s.(jobs := s.jobs[t := Settled(true, Some(s.nextHandle))],
           handles := s.handles + {s.nextHandle}, nextHandle := s.nextHandle + 1)
      else if leaves then
        s.(jobs := s.jobs[t := Settled(false, None)],
           handles := s.handles + {s.nextHandle}, leaked := s.leaked + {s.nextHandle}, nextHandle := s.nextHandle + 1)
      else s.(jobs := s.jobs[t := Settled(false, None)])
    case CloseAbandoned(h) => Closed(s, t, h, ok)
    case CloseConn(h) => Closed(s, t, h, ok)
    case _ => s.(jobs := s.jobs[t := Settled(ok, None)])
  }

  function Closed(s: State, t: Task, h: Handle, ok: bool): State {
    var settled := s.(jobs := s.jobs[t := Settled(ok, None)]);
    if ok then settled.(handles := s.handles - {h}) else settled.(leaked := s.leaked + {h})
  }

  /** The task leaves the settlement loop: its job is done. */
  function Resumed(s: State, t: Task, j: Job, cancelled: bool, p: Progress, refused: bool): State
    requires p.Settled?
  {
    var done := s.(jobs := s.jobs - {t});
    match j
    case Connect =>
      if p.made.None? then Released(done, t)
      else if !cancelled then Released(done, t).(conn := p.made)
      else if refused then Released(done, t).(leaked := s.leaked + {p.made.value})
      else Starts(done, t, CloseAbandoned(p.made.value))
    case CloseAbandoned(_) => Released(done, t)
    case CloseConn(_) => Released(done, t)
    case Run => if s.txTask == Some(t) then Goes(done, t, InBlock) else Released(done, t)
    case Cleanup => TransactionOver(done, t)
    case _ =>
      if !p.ok || cancelled then
        if refused then TransactionOver(done, t) else Starts(done, t, Cleanup)
      else if j == Begin then Goes(done, t, InBlock)
      else TransactionOver(done, t)
  }

  /** One event; one that cannot happen in `s` changes nothing. */
  function Next(s: State, e: Event): State {
    var t := e.task;
    var p := PlaceOf(s, t);
    match e
    case Request(_, op) =>
      if p != Outside || (op == Transaction && s.inTransaction) || (op == Open && s.conn.Some?) then s
      else Goes(s, t, Queued(op))
    case Enter(_, refused) =>
      if p.Queued? && s.lock.None? then Entered(s, t, p.op, refused) else s
    case Settle(_, ok, leaves) =>
      if p.Awaiting? && t in s.jobs && s.jobs[t] == InFlight then Worked(s, t, p.job, ok, leaves) else s
    case Resume(_, refused) =>
      if p.Awaiting? && t in s.jobs && s.jobs[t].Settled?
      then Resumed(s, t, p.job, p.cancelled, s.jobs[t], refused) else s
    case Cancel(_) =>
      if p.Queued? then Goes(s, t, Outside)
      else if p.Awaiting? then Goes(s, t, Awaiting(p.job, true))
      else s
    case StatementInBlock(_, refused) =>
      // _serialized lets the transaction's own task through without the lock
      if p == InBlock && s.inTransaction && s.txTask == Some(t) && !refused then Starts(s, t, Run) else s
    case EndBlock(_, raises, refused) =>
      if p != InBlock then s
      else if refused then TransactionOver(s, t)
      else Starts(s, t, if raises then Rollback else Commit)
  }

  function Exec(s: State, run: seq<Event>): State
    decreases |run|
  {
    if run == [] then s else Exec(Next(s, run[0]), run[1..])
  }

  // ----- what every step keeps

  /** The connections only the lock holder's job knows of. */
  ghost function Transient(s: State): set<Handle> {
    if s.lock.None? || s.lock.value !in s.jobs then {}
    else
      var p := PlaceOf(s, s.lock.value);
      var progress := s.jobs[s.lock.value];
      if !p.Awaiting? then {}
      else if p.job.Connect? && progress.Settled? && progress.made.Some? then {progress.made.value}
      else if p.job.CloseAbandoned? && progress.InFlight? then {p.job.handle}
      else if p.job.CloseConn? && progress.InFlight? then {p.job.handle}
      else {}
  }

  ghost function Adopted(s: State): set<Handle> {
    if s.conn.Some? then {s.conn.value} else {}
  }

  ghost predicate TransactionJob(j: Job) {
    j.Run? || j.Begin? || j.Commit? || j.Rollback? || j.Cleanup?
  }

  ghost predicate Idle(s: State, t: Task) {
    (PlaceOf(s, t).Outside? || PlaceOf(s, t).Queued?) && t !in s.jobs
  }

  ghost predicate Busy(s: State, t: Task) {
    (PlaceOf(s, t).Awaiting? && t in s.jobs) || (PlaceOf(s, t).InBlock? && t !in s.jobs)
  }

  /** Exactly the lock holder is past the lock, with a job or in its block; nobody else has one. */
  ghost predicate Serialized(s: State) {
    && (forall t :: s.lock != Some(t) ==> Idle(s, t))
    && (s.lock.Some? ==> Busy(s, s.lock.value))
    && (s.inTransaction <==> s.txTask.Some?)
    && (s.txTask.Some? ==> s.lock == s.txTask)
  }

  ghost predicate PlacesFit(s: State) {
    s.lock.Some? ==>
      var p := PlaceOf(s, s.lock.value);
      && (p.InBlock? ==> s.inTransaction)
      && (p.Awaiting? && (p.job.Begin? || p.job.Commit? || p.job.Rollback? || p.job.Cleanup?) ==> s.inTransaction)
      && (p.Awaiting? && !TransactionJob(p.job) ==> !s.inTransaction && s.conn.None?)
  }

  /** Every open connection is the adopted one, one a job holds, or one whose closing failed. */
  ghost predicate Accounted(s: State) {
    && s.handles == Adopted(s) + Transient(s) + s.leaked
    && Adopted(s) !! Transient(s) && Adopted(s) !! s.leaked && Transient(s) !! s.leaked
    && forall h :: h in s.handles ==> h < s.nextHandle
  }

  ghost predicate Inv(s: State) {
    Serialized(s) && PlacesFit(s) && Accounted(s)
  }

  /** Only the lock holder's place, and its job, say anything about the invariant. */
  lemma HolderOf(s: State, t: Task)
    requires Serialized(s) && (PlaceOf(s, t).Awaiting? || PlaceOf(s, t).InBlock?)
    ensures s.lock == Some(t) && Busy(s, t)
  {
    assert s.lock != Some(t) ==> Idle(s, t);
  }

  ghost predicate OthersIdle(s: State, t: Task) {
    forall u :: u != t ==> Idle(s, u)
  }

  lemma OthersAreIdle(s: State, t: Task)
    requires Serialized(s) && (s.lock == Some(t) || s.lock.None?)
    ensures OthersIdle(s, t)
  {}

  ghost predicate TransactionOf(s: State, t: Task) {
    (s.inTransaction && s.txTask == Some(t)) || (!s.inTransaction && s.txTask == None)
  }

  lemma ReleaseSerializes(s: State, t: Task)
    requires OthersIdle(s, t) && t !in s.jobs && !s.inTransaction && s.txTask.None?
    ensures Serialized(Released(s, t)) && PlacesFit(Released(s, t))
  {
    var s' := Released(s, t);
    forall u ensures Idle(s', u) {
      assert u != t ==> Idle(s, u);
    }
  }

  lemma StartSerializes(s: State, t: Task, j: Job)
    requires OthersIdle(s, t) && s.lock == Some(t) && TransactionOf(s, t)
    requires if TransactionJob(j) then j.Run? || s.inTransaction else !s.inTransaction && s.conn.None?
    ensures Serialized(Starts(s, t, j)) && PlacesFit(Starts(s, t, j))
  {
    var s' := Starts(s, t, j);
    forall u | u != t ensures Idle(s', u) {
      assert Idle(s, u);
    }
  }

  lemma BlockSerializes(s: State, t: Task)
    requires OthersIdle(s, t) && s.lock == Some(t) && t !in s.jobs && s.inTransaction && s.txTask == Some(t)
    ensures Serialized(Goes(s, t, InBlock)) && PlacesFit(Goes(s, t, InBlock))
  {
    var s' := Goes(s, t, InBlock);
    forall u | u != t ensures Idle(s', u) {
      assert Idle(s, u);
    }
  }

  /** The lock holder's own job may come and go, and fields other than its place may change. */
  lemma SameIdle(s: State, s': State, t: Task)
    requires OthersIdle(s, t) && s'.places == s.places
    requires forall u :: u != t ==> (u in s'.jobs <==> u in s.jobs)
    ensures OthersIdle(s', t)
  {
    forall u | u != t ensures Idle(s', u) {
      assert Idle(s, u);
    }
  }

  lemma RequestKeepsInv(s: State, t: Task, op: Op)
    requires Inv(s)
    ensures Inv(Next(s, Request(t, op)))
  {
    var s' := Next(s, Request(t, op));
    forall u | s.lock != Some(u) ensures Idle(s', u) {
      assert Idle(s, u);
    }
  }

  lemma EnterKeepsInv(s: State, t: Task, refused: bool)
    requires Inv(s)
    ensures Inv(Next(s, Enter(t, refused)))
  {
    hide Accounted, Entered;
    if s.lock.None? && PlaceOf(s, t).Queued? {
      assert Idle(s, t);
      EnterSerializes(s, t, PlaceOf(s, t).op, refused);
      EnterAccounts(s, t, PlaceOf(s, t).op, refused);
    }
  }

  lemma EnterSerializes(s: State, t: Task, op: Op, refused: bool)
    requires Serialized(s) && s.lock.None? && t !in s.jobs
    ensures Serialized(Entered(s, t, op, refused)) && PlacesFit(Entered(s, t, op, refused))
  {
    OthersAreIdle(s, t);
    var held := s.(lock := Some(t));
    var owned, dropped := held.(inTransaction := true, txTask := Some(t)), held.(conn := None);
    var lost := if s.conn.Some? then dropped.(leaked := s.leaked + {s.conn.value}) else dropped;
    SameIdle(s, held, t);
    SameIdle(s, owned, t);
    SameIdle(s, dropped, t);
    SameIdle(s, lost, t);
    ReleaseSerializes(held, t);
    ReleaseSerializes(lost, t);
    StartSerializes(owned, t, Begin);
    StartSerializes(held, t, Run);
    StartSerializes(dropped, t, if s.conn.Some? then CloseConn(s.conn.value) else Connect);
    hide Serialized, PlacesFit, OthersIdle;
  }

  lemma EnterAccounts(s: State, t: Task, op: Op, refused: bool)
    requires Accounted(s) && s.lock.None? && t !in s.jobs
    ensures Accounted(Entered(s, t, op, refused))
  {}

  lemma SettleKeepsInv(s: State, t: Task, ok: bool, leaves: bool)
    requires Inv(s)
    ensures Inv(Next(s, Settle(t, ok, leaves)))
  {
    hide Idle, OthersIdle, Accounted;
    var s' := Next(s, Settle(t, ok, leaves));
    if s' != s {
      HolderOf(s, t);
      OthersAreIdle(s, t);
      SameIdle(s, s', t);
      StaysSerialized(s', t);
      SettleAccounts(s, t, PlaceOf(s, t).job, ok, leaves);
    }
  }

  lemma StaysSerialized(s: State, t: Task)
    requires OthersIdle(s, t) && s.lock == Some(t) && Busy(s, t) && TransactionOf(s, t)
    ensures Serialized(s)
  {}

  lemma SettleAccounts(s: State, t: Task, j: Job, ok: bool, leaves: bool)
    requires s.lock == Some(t) && t in s.jobs && s.jobs[t] == InFlight && PlaceOf(s, t).Awaiting? &&
               PlaceOf(s, t).job == j
    requires Accounted(s)
    ensures Accounted(Worked(s, t, j, ok, leaves))
  {}

  lemma {:induction false} ResumeKeepsInv(s: State, t: Task, refused: bool)
    requires Inv(s)
    ensures Inv(Next(s, Resume(t, refused)))
  {
    hide Accounted, Resumed, Idle;
    var p := PlaceOf(s, t);
    if p.Awaiting? && t in s.jobs && s.jobs[t].Settled? {
      HolderOf(s, t);
      ResumeSerializes(s, t, p.job, p.cancelled, refused);
      ResumeAccounts(s, t, p.job, p.cancelled, refused);
    }
  }

  lemma ResumeSerializes(s: State, t: Task, j: Job, cancelled: bool, refused: bool)
    requires Serialized(s) && PlacesFit(s) && s.lock == Some(t) && PlaceOf(s, t) == Awaiting(j, cancelled)
    requires t in s.jobs && s.jobs[t].Settled?
    ensures var s' := Resumed(s, t, j, cancelled, s.jobs[t], refused); Serialized(s') && PlacesFit(s')
  {
    OthersAreIdle(s, t);
    var done, made := s.(jobs := s.jobs - {t}), s.jobs[t].made;
    SameIdle(s, done, t);
    if TransactionJob(j) && s.inTransaction {
      var over := done.(inTransaction := false, txTask := None);
      SameIdle(done, over, t);
      ReleaseSerializes(over, t);
      BlockSerializes(done, t);
      StartSerializes(done, t, Cleanup);
    } else {
      ReleaseSerializes(done, t);
      if made.Some? && !TransactionJob(j) {
        var adopted, lost := done.(conn := made), done.(leaked := s.leaked + {made.value});
        SameIdle(done, adopted, t);
        SameIdle(done, lost, t);
        ReleaseSerializes(adopted, t);
        ReleaseSerializes(lost, t);
        StartSerializes(done, t, CloseAbandoned(made.value));
      }
    }
  }

  lemma ResumeAccounts(s: State, t: Task, j: Job, cancelled: bool, refused: bool)
    requires Accounted(s) && PlacesFit(s) && s.lock == Some(t) && PlaceOf(s, t) == Awaiting(j, cancelled)
    requires t in s.jobs && s.jobs[t].Settled?
    ensures Accounted(Resumed(s, t, j, cancelled, s.jobs[t], refused))
  {}

  lemma CancelKeepsInv(s: State, t: Task)
    requires Inv(s)
    ensures Inv(Next(s, Cancel(t)))
  {
    var s' := Next(s, Cancel(t));
    forall u | s.lock != Some(u) ensures Idle(s', u) {
      assert Idle(s, u);
    }
  }

  lemma BlockKeepsInv(s: State, t: Task, raises: bool, refused: bool)
    requires Inv(s)
    ensures Inv(Next(s, StatementInBlock(t, refused)))
    ensures Inv(Next(s, EndBlock(t, raises, refused)))
  {
    hide Idle, OthersIdle;
    if PlaceOf(s, t).InBlock? {
      HolderOf(s, t);
      OthersAreIdle(s, t);
      var over := s.(inTransaction := false, txTask := None);
      SameIdle(s, over, t);
      ReleaseSerializes(over, t);
      StartSerializes(s, t, Run);
      StartSerializes(s, t, if raises then Rollback else Commit);
    }
  }

  lemma NextKeepsInv(s: State, e: Event)
    requires Inv(s)
    ensures Inv(Next(s, e))
  {
    hide *;
    match e
    case Request(t, op) => RequestKeepsInv(s, t, op);
    case Enter(t, refused) => EnterKeepsInv(s, t, refused);
    case Settle(t, ok, leaves) => SettleKeepsInv(s, t, ok, leaves);
    case Resume(t, refused) => ResumeKeepsInv(s, t, refused);
    case Cancel(t) => CancelKeepsInv(s, t);
    case StatementInBlock(t, refused) => BlockKeepsInv(s, t, false, refused);
    case EndBlock(t, raises, refused) => BlockKeepsInv(s, t, raises, refused);
  }

  lemma {:induction false} ExecKeepsInv(s: State, run: seq<Event>)
    requires Inv(s)
    ensures Inv(Exec(s, run))
    decreases |run|
  {
    hide Inv, Next;
    if run != [] {
      NextKeepsInv(s, run[0]);
      ExecKeepsInv(Next(s, run[0]), run[1..]);
    }
  }

  lemma InitialInv()
    ensures Inv(INITIAL)
  {}

  /** In every run at most one job is with the executor, whichever task it belongs to; while there is
      one the lock is not free, and its task is the one that holds it. */
  lemma JobsAreSerialized(run: seq<Event>, t: Task)
    requires t in Exec(INITIAL, run).jobs
    ensures Exec(INITIAL, run).lock == Some(t)
    ensures forall u :: u in Exec(INITIAL, run).jobs ==> u == t
  {
    hide Exec;
    InitialInv();
    ExecKeepsInv(INITIAL, run);
    var s := Exec(INITIAL, run);
    forall u | u in s.jobs ensures s.lock == Some(u) {
      assert s.lock != Some(u) ==> Idle(s, u);
    }
  }

  /** A job that has not settled keeps its task in the settlement loop, whatever cancels it. */
  lemma UnsettledJobHoldsItsTask(run: seq<Event>, t: Task, e: Event)
    requires t in Exec(INITIAL, run).jobs && Exec(INITIAL, run).jobs[t] == InFlight
    requires !(e.Settle? && e.task == t)
    ensures var s := Next(Exec(INITIAL, run), e);
            && t in s.jobs && s.jobs[t] == InFlight && s.lock == Some(t)
            && PlaceOf(s, t).Awaiting?
  {
    hide Exec, Accounted, PlacesFit;
    InitialInv();
    ExecKeepsInv(INITIAL, run);
    JobsAreSerialized(run, t);
    var s := Exec(INITIAL, run);
    assert e.task != t ==> Idle(s, e.task);
  }

  /** The event hands the executor a job for the task. */
  ghost predicate StartsJob(s: State, e: Event, t: Task) {
    t in Next(s, e).jobs && Next(s, e).jobs[t] == InFlight && !(t in s.jobs && s.jobs[t] == InFlight)
  }

  /** A job that starts without the lock being taken for it, in a transaction's block, at its end or as a follow-up,
      is the lock holder's own; in a block or at its end, that of the transaction's task. */
  lemma OnlyTheOwnerBypasses(run: seq<Event>, e: Event, t: Task)
    requires StartsJob(Exec(INITIAL, run), e, t) && !e.Enter?
    ensures e.task == t && Exec(INITIAL, run).lock == Some(t) && Next(Exec(INITIAL, run), e).lock == Some(t)
    ensures !e.Resume? ==> Exec(INITIAL, run).txTask == Some(t)
  {
    hide Exec, Accounted, Serialized, PlacesFit, Next, StartsJob, Idle;
    InitialInv();
    ExecKeepsInv(INITIAL, run);
    var s := Exec(INITIAL, run);
    StarterIsPast(s, e, t);
    HolderOf(s, t);
    TxTaskOf(s, t);
    LockStays(s, e, t);
  }

  lemma StarterIsPast(s: State, e: Event, t: Task)
    requires StartsJob(s, e, t) && !e.Enter?
    ensures e.task == t && (PlaceOf(s, t).Awaiting? || PlaceOf(s, t).InBlock?)
    ensures !e.Resume? ==> PlaceOf(s, t).InBlock?
  {}

  lemma TxTaskOf(s: State, t: Task)
    requires Serialized(s) && PlacesFit(s) && s.lock == Some(t)
    ensures PlaceOf(s, t).InBlock? ==> s.txTask == Some(t)
  {}

  lemma LockStays(s: State, e: Event, t: Task)
    requires StartsJob(s, e, t) && e.task == t && s.lock == Some(t)
    ensures Next(s, e).lock == Some(t)
  {}

  // ----- lost connections

  /** The event loses a connection: closing it fails or is refused, or a failing connect does not close it. */
  predicate Loses(s: State, e: Event) {
    var t := e.task;
    var p := PlaceOf(s, t);
    match e
    case Enter(_, refused) => p == Queued(Close) && s.lock.None? && s.conn.Some? && refused
    case Settle(_, ok, leaves) =>
      p.Awaiting? && t in s.jobs && s.jobs[t] == InFlight && !ok
      && (p.job.CloseConn? || p.job.CloseAbandoned? || (p.job.Connect? && leaves))
    case Resume(_, refused) =>
      p.Awaiting? && t in s.jobs && s.jobs[t].Settled? && p.job.Connect? && s.jobs[t].made.Some? && p.cancelled &&
          refused
    case _ => false
  }

  ghost predicate LosesNothing(run: seq<Event>) {
    forall k :: 0 <= k < |run| ==> !Loses(Exec(INITIAL, run[..k]), run[k])
  }

  lemma LeakedGrows(s: State, e: Event)
    ensures s.leaked <= Next(s, e).leaked
    ensures Loses(s, e) ==> Next(s, e).leaked != {}
    ensures !Loses(s, e) ==> Next(s, e).leaked == s.leaked
  {
    if e.Settle? {
      SettleLeaks(s, e);
      hide Next, Loses;
    } else if e.Resume? {
      ResumeLeaks(s, e);
      hide Next, Loses;
    } else {
      hide Worked, Resumed;
    }
  }

  lemma SettleLeaks(s: State, e: Event)
    requires e.Settle?
    ensures s.leaked <= Next(s, e).leaked
    ensures Loses(s, e) ==> Next(s, e).leaked != {}
    ensures !Loses(s, e) ==> Next(s, e).leaked == s.leaked
  {
    hide Entered, Resumed;
  }

  lemma ResumeLeaks(s: State, e: Event)
    requires e.Resume?
    ensures s.leaked <= Next(s, e).leaked
    ensures Loses(s, e) ==> Next(s, e).leaked != {}
    ensures !Loses(s, e) ==> Next(s, e).leaked == s.leaked
  {
    hide Entered, Worked;
  }

  lemma {:induction false} ExecExtend(s: State, run: seq<Event>, e: Event)
    ensures Exec(s, run + [e]) == Next(Exec(s, run), e)
    decreases |run|
  {
    hide Next;
    if run == [] {
      assert [e][1..] == [];
    } else {
      assert (run + [e])[1..] == run[1..] + [e];
      ExecExtend(Next(s, run[0]), run[1..], e);
    }
  }

  lemma LosesNothingGrows(run: seq<Event>, e: Event)
    ensures LosesNothing(run + [e]) <==> LosesNothing(run) && !Loses(Exec(INITIAL, run), e)
  {
    hide Exec, Loses;
    var more, n := run + [e], |run|;
    assert forall k: nat :: k <= n ==> more[..k] == run[..k];
    assert run[..n] == run;
    if LosesNothing(more) {
      assert !Loses(Exec(INITIAL, more[..n]), more[n]);
      forall k | 0 <= k < n ensures !Loses(Exec(INITIAL, run[..k]), run[k]) {
        assert !Loses(Exec(INITIAL, more[..k]), more[k]);
      }
    }
  }

  lemma {:induction false} LeakedIff(run: seq<Event>)
    ensures Exec(INITIAL, run).leaked == {} <==> LosesNothing(run)
    decreases |run|
  {
    hide Next, Loses, LosesNothing;
    if run == [] {
      EmptyLosesNothing();
    } else {
      var front, last := run[..|run| - 1], run[|run| - 1];
      assert run == front + [last];
      LeakedIff(front);
      ExecExtend(INITIAL, front, last);
      LosesNothingGrows(front, last);
      LeakedGrows(Exec(INITIAL, front), last);
    }
  }

  lemma EmptyLosesNothing()
    ensures LosesNothing([])
  {}

  /** While the lock is free the process holds exactly the wrapper's connection if it has one and none otherwise,
      in exactly the runs in which no connection's closing fails or is refused and no failing connect leaves one. */
  lemma HandlesWhenFree(run: seq<Event>)
    requires Exec(INITIAL, run).lock.None?
    ensures var s := Exec(INITIAL, run);
            && (s.handles == Adopted(s) <==> LosesNothing(run))
            && |s.handles| == (if s.conn.Some? then 1 else 0) + |s.leaked|
            && !s.inTransaction
  {
    hide Exec, PlacesFit, LosesNothing;
    InitialInv();
    ExecKeepsInv(INITIAL, run);
    LeakedIff(run);
    var s := Exec(INITIAL, run);
    assert s.handles == Adopted(s) + s.leaked;
  }

  /** An open, then a close the executor refuses. */
  function OpenThenRefusedClose(t: Task): seq<Event> {
    [] + [Request(t, Open)] + [Enter(t, false)] + [Settle(t, true, false)] + [Resume(t, false)]
    + [Request(t, Close)] + [Enter(t, true)]
  }

  /** After it the wrapper has forgotten a connection that is still open. */
  lemma RefusedCloseLeaks(t: Task)
    ensures var s := Exec(INITIAL, OpenThenRefusedClose(t));
            s.lock.None? && s.conn.None? && s.handles == {0} && !LosesNothing(OpenThenRefusedClose(t))
  {
    hide Exec, LosesNothing;
    var r1 := [] + [Request(t, Open)];
    var r2 := r1 + [Enter(t, false)];
    var r3 := r2 + [Settle(t, true, false)];
    var r4 := r3 + [Resume(t, false)];
    var r5 := r4 + [Request(t, Close)];
    ExecEmpty(INITIAL);
    ExecExtend(INITIAL, [], Request(t, Open));
    ExecExtend(INITIAL, r1, Enter(t, false));
    ExecExtend(INITIAL, r2, Settle(t, true, false));
    ExecExtend(INITIAL, r3, Resume(t, false));
    ExecExtend(INITIAL, r4, Request(t, Close));
    ExecExtend(INITIAL, r5, Enter(t, true));
    assert Exec(INITIAL, r4).conn == Some(0) && Exec(INITIAL, r4).handles == {0};
    LeakedIff(OpenThenRefusedClose(t));
  }

  lemma ExecEmpty(s: State)
    ensures Exec(s, []) == s
  {}

  // ----- what each operation comes to

  /** The task's turn has come for its operation. */
  ghost predicate AtTurn(s: State, t: Task, op: Op) {
    PlaceOf(s, t) == Queued(op) && s.lock.None? && t !in s.jobs && !s.inTransaction && s.txTask.None?
  }

  /** The task is back outside; everything else, the free lock included, is as it was at its turn. */
  function Back(s: State, t: Task): State {
    s.(places := s.places[t := Outside])
  }

  lemma JobGone(s: State, t: Task, p: Progress)
    requires t !in s.jobs
    ensures s.jobs[t := p] - {t} == s.jobs
  {}

  /** An open adopts the connection its job makes, unless it fails or is cancelled: then it closes what was made. */
  lemma OpenRuns(s: State, t: Task, leaves: bool, refused: bool)
    requires AtTurn(s, t, Open) && s.conn.None?
    ensures var started := Next(s, Enter(t, false));
            && started.lock == Some(t) && PlaceOf(started, t) == Awaiting(Connect, false)
            && Next(Next(started, Settle(t, true, leaves)), Resume(t, refused)) ==
                 Back(s, t).(conn := Some(s.nextHandle), handles := s.handles + {s.nextHandle},
                     nextHandle := s.nextHandle + 1)
            && Next(Next(started, Settle(t, false, false)), Resume(t, refused)) == Back(s, t)
  {
    JobGone(s, t, Settled(true, Some(s.nextHandle)));
    JobGone(s, t, Settled(false, None));
    var started := Starts(s.(lock := Some(t)), t, Connect);
    assert Next(s, Enter(t, false)) == started;
  }

  /** A connect that fails without closing what it opened leaves that behind. */
  lemma FailedOpenLeaves(s: State, t: Task, refused: bool)
    requires AtTurn(s, t, Open) && s.conn.None?
    ensures Next(Next(Next(s, Enter(t, false)), Settle(t, false, true)), Resume(t, refused)) ==
            Back(s, t).(handles := s.handles + {s.nextHandle}, leaked := s.leaked + {s.nextHandle},
                        nextHandle := s.nextHandle + 1)
  {
    JobGone(s, t, Settled(false, None));
    assert Next(s, Enter(t, false)) == Starts(s.(lock := Some(t)), t, Connect);
  }

  /** A task queues exactly if it is outside, and does not begin a transaction while there is one or open an open
      connection; an operation whose job the executor refuses gives the lock back. */
  lemma QueuesIff(s: State, t: Task, op: Op)
    ensures Next(s, Request(t, op)) ==
            if PlaceOf(s, t).Outside? && !(op.Transaction? && s.inTransaction) && !(op.Open? && s.conn.Some?)
            then s.(places := s.places[t := Queued(op)]) else s
  {}

  lemma RefusedGivesBack(s: State, t: Task, op: Op)
    requires AtTurn(s, t, op)
    ensures Next(s, Enter(t, true)) ==
            if op.Close? && s.conn.Some?
            then Back(s, t).(conn := None, leaked := s.leaked + {s.conn.value}) else Back(s, t)
  {}

  lemma CancelledOpenCloses(s: State, t: Task)
    requires AtTurn(s, t, Open) && s.conn.None? && s.nextHandle !in s.handles
    ensures var made := Next(Next(Next(s, Enter(t, false)), Cancel(t)), Settle(t, true, false));
            var closing := Next(made, Resume(t, false));
            && PlaceOf(closing, t) == Awaiting(CloseAbandoned(s.nextHandle), false) && closing.lock == Some(t)
            && Next(Next(closing, Settle(t, true, false)), Resume(t, false)) ==
                 Back(s, t).(nextHandle := s.nextHandle + 1)
  {
    var h := s.nextHandle;
    var started := Starts(s.(lock := Some(t)), t, Connect);
    assert Next(s, Enter(t, false)) == started;
    var cancelled := Goes(started, t, Awaiting(Connect, true));
    assert Next(started, Cancel(t)) == cancelled;
    var made := Worked(cancelled, t, Connect, true, false);
    assert Next(cancelled, Settle(t, true, false)) == made;
    JobGone(s, t, Settled(true, Some(h)));
    JobGone(s, t, Settled(true, None));
    assert s.handles + {h} - {h} == s.handles;
  }

  /** A statement runs one job of its own under the lock, or none without a connection. */
  lemma StatementRuns(s: State, t: Task, ok: bool, refused: bool)
    requires AtTurn(s, t, Statement)
    ensures var started := Next(s, Enter(t, false));
            if s.conn.None? then started == Back(s, t)
            else
              && started.lock == Some(t) && PlaceOf(started, t) == Awaiting(Run, false) && t in started.jobs
              && Next(Next(started, Settle(t, ok, false)), Resume(t, refused)) == Back(s, t)
  {
    JobGone(s, t, Settled(ok, None));
  }

  /** A close gives up the connection at once, and its job closes it. */
  lemma CloseRuns(s: State, t: Task, refused: bool)
    requires AtTurn(s, t, Close)
    ensures var started := Next(s, Enter(t, false));
            if s.conn.None? then started == Back(s, t)
            else
              && started.lock == Some(t) && started.conn.None?
              && Next(Next(started, Settle(t, true, false)), Resume(t, refused)) ==
                   Back(s, t).(conn := None, handles := s.handles - {s.conn.value})
  {
    JobGone(s, t, Settled(true, None));
  }

  /** The task is in the block of its transaction. */
  function Inside(s: State, t: Task): State {
    Goes(s, t, InBlock).(lock := Some(t), inTransaction := true, txTask := Some(t))
  }

  /** A transaction whose BEGIN is done enters its block; one whose BEGIN the executor refuses is
      over. */
  lemma BeginRuns(s: State, t: Task, refused: bool)
    requires AtTurn(s, t, Transaction) && s.conn.Some?
    ensures var started := Next(s, Enter(t, false));
            && PlaceOf(started, t) == Awaiting(Begin, false)
            && Next(Next(started, Settle(t, true, false)), Resume(t, refused)) == Inside(s, t)
    ensures Next(s, Enter(t, true)) == Back(s, t)
  {
    JobGone(s, t, Settled(true, None));
  }

  /** A statement in the block runs and comes back to it. */
  lemma BlockRuns(s: State, t: Task, ok: bool, refused: bool)
    requires AtTurn(s, t, Transaction)
    ensures var running := Next(Inside(s, t), StatementInBlock(t, false));
            && PlaceOf(running, t) == Awaiting(Run, false)
            && Next(Next(running, Settle(t, ok, false)), Resume(t, refused)) == Inside(s, t)
    ensures Next(Inside(s, t), StatementInBlock(t, true)) == Inside(s, t)
  {
    JobGone(s, t, Settled(ok, None));
  }

  /** At its end COMMIT, or ROLLBACK if the block raised, is the last job and gives everything up. */
  lemma EndRuns(s: State, t: Task, raises: bool, refused: bool)
    requires AtTurn(s, t, Transaction)
    ensures var ending := Next(Inside(s, t), EndBlock(t, raises, false));
            && PlaceOf(ending, t) == Awaiting(if raises then Rollback else Commit, false)
            && Next(Next(ending, Settle(t, true, false)), Resume(t, refused)) == Back(s, t)
    ensures Next(Inside(s, t), EndBlock(t, raises, true)) == Back(s, t)
  {
    JobGone(s, t, Settled(true, None));
  }

  /** A BEGIN, COMMIT or ROLLBACK that fails, or whose task was cancelled, is followed by the cleanup job under the same
      lock; after that one, however it ends, or if the executor refuses it, the transaction is over. */
  lemma FailedLifecycleCleansUp(s: State, t: Task, j: Job, cancelled: bool, p: Progress)
    requires s.lock == Some(t) && PlaceOf(s, t) == Awaiting(j, cancelled) && t in s.jobs && s.jobs[t] == p && p.Settled?
    requires ((j.Begin? || j.Commit? || j.Rollback?) && (!p.ok || cancelled)) || j.Cleanup?
    ensures !j.Cleanup? ==> Next(s, Resume(t, false)) == s.(places := s.places[t := Awaiting(Cleanup, false)],
                                                           jobs := s.jobs[t := InFlight])
    ensures Next(s, Resume(t, true)) == s.(places := s.places[t := Outside], jobs := s.jobs - {t}, lock := None,
                                           inTransaction := false, txTask := None)
    ensures j.Cleanup? ==> Next(s, Resume(t, false)) == Next(s, Resume(t, true))
  {
    assert (s.jobs - {t})[t := InFlight] == s.jobs[t := InFlight];
  }
}
