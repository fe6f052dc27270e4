/** One `transaction()` of the SQLite wrapper (custom_components/nestquest/core/db.py): what reaches
    the file when its jobs fail, are refused by the executor, or are cancelled. */
module Transaction {
  import opened Options

  datatype Write = Write(sql: string, parameters: seq<string>)

  /** SQLite's side of the connection: the rows in the file, and the uncommitted ones. */
  datatype Conn = Conn(durable: seq<Write>, open: bool, pending: seq<Write>)

  datatype Statement = Begin | Commit | Rollback | Insert(write: Write)

  /** How a statement ends on the worker thread. A raising one may have taken effect, or have made
      SQLite roll the open transaction back on its own. */
  datatype Outcome = Done | RaisedBefore | RaisedAfter | RaisedAborted

  /** A job handed to the executor: refused on the spot, or settled, its task cancelled meanwhile or not. */
  datatype Attempt = Refused | Settled(outcome: Outcome, cancelled: bool)

  /** What the statement does when it runs; `None` when SQLite rejects it in this state. */
  function Effect(c: Conn, s: Statement): Option<Conn> {
    match s
    case Begin => if c.open then None else Some(c.(open := true, pending := []))
    case Commit => if c.open then Some(Conn(c.durable + c.pending, false, [])) else None
    case Rollback => if c.open then Some(Aborted(c)) else None
    case Insert(w) => Some(if c.open then c.(pending := c.pending + [w]) else c.(durable := c.durable + [w]))
  }

  function Aborted(c: Conn): Conn {
    if c.open then Conn(c.durable, false, []) else c
  }

  /** The connection after the statement, and whether it raised. */
  function Execute(c: Conn, s: Statement, o: Outcome): (Conn, bool) {
    match o
    case RaisedBefore => (c, true)
    case RaisedAborted => (Aborted(c), true)
    case Done => if Effect(c, s).Some? then (Effect(c, s).value, false) else (c, true)
    case RaisedAfter => if Effect(c, s).Some? then (Effect(c, s).value, true) else (c, true)
  }

  /** The follow-up job that rolls back what a failed lifecycle statement left open. */
  function CleanedUp(c: Conn, a: Attempt): Conn {
    if c.open && a.Settled? then Execute(c, Rollback, a.outcome).0 else c
  }

  /** One BEGIN, COMMIT or ROLLBACK with its cleanup; the flag says that it raises. */
  function Lifecycle(c: Conn, s: Statement, a: Attempt, cleanup: Attempt): (Conn, bool)
    requires a.Settled?
  {
    var (c1, raised) := Execute(c, s, a.outcome);
    if raised || a.cancelled then (CleanedUp(c1, cleanup), true) else (c1, false)
  }

  /** A write of the block; `caught`: the block goes on when it raises. */
  datatype Step = Step(write: Write, attempt: Attempt, caught: bool)

  function StepConn(c: Conn, s: Step): Conn {
    if s.attempt.Refused? then c else Execute(c, Insert(s.write), s.attempt.outcome).0
  }

  predicate StepRaises(c: Conn, s: Step) {
    s.attempt.Refused? || s.attempt.cancelled || Execute(c, Insert(s.write), s.attempt.outcome).1
  }

  /** The connection after the block, and whether the block raised out of one of its writes. */
  function Block(c: Conn, steps: seq<Step>): (Conn, bool)
    decreases |steps|
  {
    if steps == [] then (c, false)
    else if Stops(c, steps[0]) then (StepConn(c, steps[0]), true)
    else Block(StepConn(c, steps[0]), steps[1..])
  }

  /** Everything that can go differently in one transaction; `raises`: the block ends by raising. */
  datatype Script = Script(begin: Attempt, beginCleanup: Attempt, steps: seq<Step>, raises: bool,
                           finish: Attempt, finishCleanup: Attempt)

  datatype Exit = Normal | Raised | AlreadyActive | NotConnected

  predicate Entered(c: Conn, s: Script) {
    s.begin.Settled? && !Lifecycle(c, Begin, s.begin, s.beginCleanup).1
  }

  /** The connection the block starts from. */
  function Opened(c: Conn): Conn {
    c.(open := true, pending := [])
  }

  function RunTransaction(c: Conn, s: Script): (Conn, Exit) {
    if s.begin.Refused? then (c, Raised)
    else
      var (c1, failed) := Lifecycle(c, Begin, s.begin, s.beginCleanup);
      if failed then (c1, Raised)
      else
        var (c2, raised) := Block(c1, s.steps);
        if s.finish.Refused? then (c2, Raised)
        else
          var last := if raised || s.raises then Rollback else Commit;
          var (c3, broken) := Lifecycle(c2, last, s.finish, s.finishCleanup);
          (c3, if raised || s.raises || broken then Raised else Normal)
  }

  /** The wrapper object. `conn` is None while it is closed. */
  class NestQuestDatabase {
    var conn: Option<Conn>
    var inTransaction: bool
    var txTask: Option<nat>

    constructor ()
      ensures conn == None && !inTransaction && txTask == None
    {
      conn, inTransaction, txTask := None, false, None;
    }

    method ExecuteJob(s: Statement, o: Outcome) returns (raised: bool)
      requires conn.Some?
      modifies this`conn
      ensures conn.Some? && (conn.value, raised) == Execute(old(conn.value), s, o)
    {
      var (c, r) := Execute(conn.value, s, o);
      conn, raised := Some(c), r;
    }

    method EnsureNoStrayTransaction(cleanup: Attempt)
      requires conn.Some?
      modifies this`conn
      ensures conn == Some(CleanedUp(old(conn.value), cleanup))
    {
      if cleanup.Settled? && conn.value.open {
        var raised := ExecuteJob(Rollback, cleanup.outcome);
      }
    }

    method SettleLifecycle(s: Statement, job: Attempt, cleanup: Attempt) returns (raised: bool)
      requires conn.Some? && job.Settled?
      modifies this`conn
      ensures conn.Some? && (conn.value, raised) == Lifecycle(old(conn.value), s, job, cleanup)
    {
      raised := ExecuteJob(s, job.outcome);
      if raised || job.cancelled {
        EnsureNoStrayTransaction(cleanup);
        raised := true;
      }
    }

    method Transaction(task: nat, script: Script) returns (exit: Exit)
      modifies this
      ensures old(inTransaction) ==> exit == AlreadyActive && unchanged(this)
      ensures !old(inTransaction) ==> !inTransaction && (old(conn).Some? ==> txTask == None)
      ensures !old(inTransaction) && old(conn).None? ==> exit == NotConnected && conn == None
      ensures !old(inTransaction) && old(conn).Some? ==>
                conn.Some? && (conn.value, exit) == RunTransaction(old(conn.value), script)
    {
      hide Execute, Effect;
      if inTransaction { return AlreadyActive; }
      if conn.None? { return NotConnected; }
      inTransaction, txTask := true, Some(task);
      exit := Span(script);
      inTransaction, txTask := false, None;
    }

    /** What the lock is held for, up to the `finally`. */
    method Span(script: Script) returns (exit: Exit)
      requires conn.Some?
      modifies this`conn
      ensures conn.Some? && (conn.value, exit) == RunTransaction(old(conn.value), script)
    {
      hide Execute, Effect, Lifecycle;
      if script.begin.Refused? { return Raised; }
      var failed := SettleLifecycle(Begin, script.begin, script.beginCleanup);
      if failed { return Raised; }
      var raised := RunBlock(script.steps);
      if script.finish.Refused? { return Raised; }
      if raised || script.raises {
        var broken := SettleLifecycle(Rollback, script.finish, script.finishCleanup);
        return Raised;
      }
      var broken := SettleLifecycle(Commit, script.finish, script.finishCleanup);
      return if broken then Raised else Normal;
    }

    method RunBlock(steps: seq<Step>) returns (raised: bool)
      requires conn.Some?
      modifies this`conn
      ensures conn.Some? && (conn.value, raised) == Block(old(conn.value), steps)
    {
      hide Execute, Effect;
      for i := 0 to |steps|
        invariant conn.Some? && Block(old(conn.value), steps) == Block(conn.value, steps[i..])
      {
        var s := steps[i];
        assert steps[i..][1..] == steps[i + 1..];
        var failed := s.attempt.Refused? || s.attempt.cancelled;
        if s.attempt.Settled? {
          var broken := ExecuteJob(Insert(s.write), s.attempt.outcome);
          failed := failed || broken;
        }
        if failed && !s.caught { return true; }
      }
      return false;
    }
  }

  // ----- what the block wrote

  predicate Aborts(s: Step) {
    s.attempt.Settled? && s.attempt.outcome.RaisedAborted?
  }

  /** The write, if it took effect. */
  function Effective(s: Step): seq<Write> {
    if s.attempt.Settled? && (s.attempt.outcome.Done? || s.attempt.outcome.RaisedAfter?) then [s.write] else []
  }

  /** Whether the block ends with this write's error. */
  predicate Stops(c: Conn, s: Step) {
    StepRaises(c, s) && !s.caught
  }

  /** The writes of the block that took effect, up to where it raised. */
  function Written(c: Conn, steps: seq<Step>): seq<Write>
    decreases |steps|
  {
    if steps == [] then []
    else if Stops(c, steps[0]) then Effective(steps[0])
    else Effective(steps[0]) + Written(StepConn(c, steps[0]), steps[1..])
  }

  /** Those of them that ran after SQLite had rolled the transaction back, and so went straight to the file. */
  function Leaked(c: Conn, steps: seq<Step>): seq<Write>
    decreases |steps|
  {
    if steps == [] then []
    else if !c.open then Written(c, steps)
    else if Stops(c, steps[0]) then []
    else Leaked(StepConn(c, steps[0]), steps[1..])
  }

  lemma StepWrites(c: Conn, s: Step)
    requires !c.open ==> c.pending == []
    ensures var next := StepConn(c, s);
            if !c.open then next == Conn(c.durable + Effective(s), false, [])
            else if next.open then next == Conn(c.durable, true, c.pending + Effective(s))
            else next == Conn(c.durable, false, []) && Effective(s) == []
  {}

  lemma Assoc<T>(a: seq<T>, b: seq<T>, c: seq<T>)
    ensures (a + b) + c == a + (b + c)
  {}

  /** After a rollback of SQLite's own every write goes straight to the file. */
  lemma {:induction false} ClosedBlockWrites(c: Conn, steps: seq<Step>)
    requires !c.open && c.pending == []
    ensures Block(c, steps).0 == Conn(c.durable + Written(c, steps), false, [])
    decreases |steps|
  {
    hide StepConn, StepRaises, Effective;
    if steps != [] {
      StepWrites(c, steps[0]);
      if !Stops(c, steps[0]) {
        var next := StepConn(c, steps[0]);
        ClosedBlockWrites(next, steps[1..]);
        Assoc(c.durable, Effective(steps[0]), Written(next, steps[1..]));
      }
    }
  }

  /** The block ends with its writes pending and none leaked, or with the transaction gone. */
  lemma {:induction false} BlockWrites(c: Conn, steps: seq<Step>)
    requires c.open
    ensures var b := Block(c, steps).0;
            if b.open then b == Conn(c.durable, true, c.pending + Written(c, steps)) && Leaked(c, steps) == []
            else b == Conn(c.durable + Leaked(c, steps), false, []) && |Leaked(c, steps)| <= |Written(c, steps)|
    decreases |steps|
  {
    hide StepConn, StepRaises, Effective;
    if steps != [] {
      StepWrites(c, steps[0]);
      var next := StepConn(c, steps[0]);
      if !Stops(c, steps[0]) {
        if next.open {
          BlockWrites(next, steps[1..]);
          Assoc(c.pending, Effective(steps[0]), Written(next, steps[1..]));
        } else {
          ClosedBlockWrites(next, steps[1..]);
        }
      }
    }
  }

  // ----- atomicity

  /** The writes of the transaction that took effect, none if its block never started. */
  function AllWrites(c: Conn, s: Script): seq<Write> {
    if Entered(c, s) then Written(Opened(c), s.steps) else []
  }

  function LeakedWrites(c: Conn, s: Script): seq<Write> {
    if Entered(c, s) then Leaked(Opened(c), s.steps) else []
  }

  /** Normal exit means that every write is in the file and the connection is outside a transaction. */
  lemma NormalExitCommitsAll(c: Conn, s: Script)
    requires !c.open && RunTransaction(c, s).1 == Normal
    ensures RunTransaction(c, s).0 == Conn(c.durable + AllWrites(c, s), false, [])
  {
    BlockWrites(Opened(c), s.steps);
  }

  lemma LifecycleDurable(c: Conn, s: Statement, a: Attempt, cleanup: Attempt)
    requires a.Settled? && !s.Insert?
    ensures var d := Lifecycle(c, s, a, cleanup).0.durable;
            d == c.durable || (s.Commit? && c.open && d == c.durable + c.pending)
  {}

  lemma EnteredOpens(c: Conn, s: Script)
    requires !c.open && Entered(c, s)
    ensures Lifecycle(c, Begin, s.begin, s.beginCleanup) == (Opened(c), false)
  {}

  /** On every exit the file holds the rows it held before, then all of the block's writes or else
      only those that leaked. */
  lemma DurableAfter(c: Conn, s: Script)
    requires !c.open
    ensures var d := RunTransaction(c, s).0.durable;
            d == c.durable + LeakedWrites(c, s) || d == c.durable + AllWrites(c, s)
    ensures LeakedWrites(c, s) != [] ==> RunTransaction(c, s).0.durable == c.durable + LeakedWrites(c, s)
    ensures |LeakedWrites(c, s)| <= |AllWrites(c, s)|
  {
    hide Lifecycle, Block, Written, Leaked;
    if s.begin.Settled? { LifecycleDurable(c, Begin, s.begin, s.beginCleanup); }
    if Entered(c, s) {
      EnteredOpens(c, s);
      var b := Block(Opened(c), s.steps);
      BlockWrites(Opened(c), s.steps);
      if s.finish.Settled? {
        LifecycleDurable(b.0, if b.1 || s.raises then Rollback else Commit, s.finish, s.finishCleanup);
      }
    }
  }

  /** Whether the write raises, which no state of the connection decides. */
  predicate Raises(s: Step) {
    s.attempt.Refused? || s.attempt.cancelled || !s.attempt.outcome.Done?
  }

  /** The block ends with this write's error. */
  predicate Leaves(s: Step) { Raises(s) && !s.caught }

  /** A write of the block, before any error leaves it, makes SQLite roll back on its own. */
  predicate SomeAborts(steps: seq<Step>) {
    steps != [] && (Aborts(steps[0]) || (!Leaves(steps[0]) && SomeAborts(steps[1..])))
  }

  /** The writes that take effect, up to where an error leaves the block. */
  function Effects(steps: seq<Step>): seq<Write> {
    if steps == [] then []
    else if Leaves(steps[0]) then Effective(steps[0])
    else Effective(steps[0]) + Effects(steps[1..])
  }

  /** Those before the first such rollback, and those after it. */
  function BeforeAbort(steps: seq<Step>): seq<Write> {
    if steps == [] || Aborts(steps[0]) then []
    else if Leaves(steps[0]) then Effective(steps[0])
    else Effective(steps[0]) + BeforeAbort(steps[1..])
  }

  function AfterAbort(steps: seq<Step>): seq<Write> {
    if steps == [] || Leaves(steps[0]) then []
    else if Aborts(steps[0]) then Effects(steps[1..])
    else AfterAbort(steps[1..])
  }

  lemma {:induction false} WrittenIs(c: Conn, steps: seq<Step>)
    ensures Written(c, steps) == Effects(steps)
    decreases |steps|
  {
    hide StepConn, Effective;
    if steps != [] {
      RaisesAnywhere(c, steps[0]);
      WrittenIs(StepConn(c, steps[0]), steps[1..]);
    }
  }

  lemma RaisesAnywhere(c: Conn, s: Step)
    ensures StepRaises(c, s) <==> Raises(s)
    ensures c.open ==> (StepConn(c, s).open <==> !Aborts(s))
  {}

  /** What the block leaves of the transaction, and what it leaked, by the fates of its writes alone. */
  lemma {:induction false} BlockByFates(c: Conn, steps: seq<Step>)
    requires c.open
    ensures Block(c, steps).0.open <==> !SomeAborts(steps)
    ensures Leaked(c, steps) == AfterAbort(steps)
    decreases |steps|
  {
    hide StepConn, StepRaises, Effective, Written, Effects;
    if steps != [] {
      RaisesAnywhere(c, steps[0]);
      var next := StepConn(c, steps[0]);
      if !Stops(c, steps[0]) {
        if next.open {
          BlockByFates(next, steps[1..]);
        } else {
          StaysShut(next, steps[1..]);
          ShutLeaksAll(next, steps[1..]);
          WrittenIs(next, steps[1..]);
        }
      }
    }
  }

  lemma {:induction false} StaysShut(c: Conn, steps: seq<Step>)
    requires !c.open
    ensures !Block(c, steps).0.open
    decreases |steps|
  {
    if steps != [] && !Stops(c, steps[0]) { StaysShut(StepConn(c, steps[0]), steps[1..]); }
  }

  lemma ShutLeaksAll(c: Conn, steps: seq<Step>)
    requires !c.open
    ensures Leaked(c, steps) == Written(c, steps)
  {}

  lemma {:induction false} EffectsSplit(steps: seq<Step>)
    ensures Effects(steps) == BeforeAbort(steps) + AfterAbort(steps)
  {
    if steps != [] {
      EffectsSplit(steps[1..]);
      assert Aborts(steps[0]) ==> Effective(steps[0]) == [];
      Assoc(Effective(steps[0]), BeforeAbort(steps[1..]), AfterAbort(steps[1..]));
    }
  }

  ghost predicate Atomic(c: Conn, s: Script) {
    var d := RunTransaction(c, s).0.durable;
    d == c.durable || d == c.durable + AllWrites(c, s)
  }

  /** BEGIN succeeds and is not cancelled: the block is entered. */
  predicate BeginsCleanly(s: Script) { s.begin == Settled(Done, false) }

  /** All or nothing, exactly unless SQLite itself rolls back in the middle of a block that goes on: with writes
      before that, which are gone, and writes after it, which stay. */
  lemma AtomicIff(c: Conn, s: Script)
    requires !c.open
    ensures Atomic(c, s) <==> !BeginsCleanly(s) || BeforeAbort(s.steps) == [] || AfterAbort(s.steps) == []
    ensures Atomic(c, s) <==> LeakedWrites(c, s) == [] || LeakedWrites(c, s) == AllWrites(c, s)
  {
    hide Lifecycle, Block, Written, Leaked, RunTransaction, Effects, BeforeAbort, AfterAbort;
    AtomicByLeak(c, s);
    EnteredIff(c, s);
    BlockByFates(Opened(c), s.steps);
    WrittenIs(Opened(c), s.steps);
    EffectsSplit(s.steps);
  }

  lemma EnteredIff(c: Conn, s: Script)
    requires !c.open
    ensures Entered(c, s) <==> BeginsCleanly(s)
  {}

  lemma AtomicByLeak(c: Conn, s: Script)
    requires !c.open
    ensures Atomic(c, s) <==> LeakedWrites(c, s) == [] || LeakedWrites(c, s) == AllWrites(c, s)
  {
    hide Entered, Written, Leaked, RunTransaction;
    DurableAfter(c, s);
    var l, a := LeakedWrites(c, s), AllWrites(c, s);
    var d := RunTransaction(c, s).0.durable;
    if d == c.durable + l {
      assert l == d[|c.durable|..];
      if d == c.durable + a { assert a == d[|c.durable|..]; }
    }
  }

  /** A block of three writes: the second makes SQLite roll back and its error is caught, so of the first and the
      third only the third is kept. */
  lemma KeepsOnlyTheLast(c: Conn, first: Write, second: Write, third: Write)
    requires !c.open
    ensures var ok := Settled(Done, false);
            var s := Script(ok, ok, [Step(first, ok, false), Step(second, Settled(RaisedAborted, false), true),
                                     Step(third, ok, false)], false, ok, ok);
            RunTransaction(c, s).0.durable == c.durable + [third] && RunTransaction(c, s).1 == Raised && !Atomic(c, s)
  {
    var ok := Settled(Done, false);
    var steps := [Step(first, ok, false), Step(second, Settled(RaisedAborted, false), true), Step(third, ok, false)];
    var s := Script(ok, ok, steps, false, ok, ok);
    ThirdLeaks(steps[0], steps[1], steps[2]);
    EnteredIff(c, s);
    BlockByFates(Opened(c), steps);
    AtomicIff(c, s);
    DurableAfter(c, s);
    if RunTransaction(c, s).1 == Normal { NormalExitCommitsAll(c, s); }
    hide Block, BeforeAbort, AfterAbort, Leaked, Written;
  }

  lemma ThirdLeaks(first: Step, second: Step, third: Step)
    requires first.attempt == third.attempt == Settled(Done, false) && Aborts(second) && second.caught
    ensures BeforeAbort([first, second, third]) == [first.write] && AfterAbort([first, second, third]) == [third.write]
  {
    var steps := [first, second, third];
    assert steps[1..] == [second, third] && [second, third][1..] == [third] && [third][1..] == [];
    assert BeforeAbort(steps) == [first.write] + BeforeAbort([second, third]);
    assert AfterAbort(steps) == AfterAbort([second, third]) == Effects([third]);
    assert Effects([third]) == [third.write] + Effects([]);
  }

  /** A block that lets its errors out never leaks. */
  lemma {:induction false} UncaughtNeverLeaks(c: Conn, steps: seq<Step>)
    requires c.open && forall i :: 0 <= i < |steps| && Aborts(steps[i]) ==> !steps[i].caught
    ensures Leaked(c, steps) == []
    decreases |steps|
  {
    if steps != [] && !Stops(c, steps[0]) {
      UncaughtNeverLeaks(StepConn(c, steps[0]), steps[1..]);
    }
  }

  // ----- how it ends, by the fates of its jobs alone

  /** An error leaves the block: it raises itself, or out of one of its writes. */
  predicate BlockRaises(s: Script) {
    s.raises || exists i :: 0 <= i < |s.steps| && Leaves(s.steps[i])
  }

  lemma {:induction false} BlockRaisesIff(c: Conn, steps: seq<Step>)
    ensures Block(c, steps).1 <==> exists i :: 0 <= i < |steps| && Leaves(steps[i])
    decreases |steps|
  {
    hide StepConn, StepRaises, Raises;
    if steps != [] {
      RaisesAnywhere(c, steps[0]);
      if Stops(c, steps[0]) {
        assert Leaves(steps[0]);
      } else {
        BlockRaisesIff(StepConn(c, steps[0]), steps[1..]);
        if i :| 0 <= i < |steps| && Leaves(steps[i]) { assert steps[1..][i - 1] == steps[i]; }
      }
    }
  }

  lemma {:induction false} AbortsIfSome(steps: seq<Step>)
    requires forall i :: 0 <= i < |steps| ==> !Leaves(steps[i])
    ensures SomeAborts(steps) <==> exists i :: 0 <= i < |steps| && Aborts(steps[i])
  {
    if steps != [] {
      AbortsIfSome(steps[1..]);
      if i :| 0 <= i < |steps| && Aborts(steps[i]) { assert i == 0 || steps[1..][i - 1] == steps[i]; }
    }
  }

  /** The transaction exits normally exactly if its BEGIN and COMMIT are done and not cancelled, its block does not
      raise, every write is done and not cancelled or has its error caught, and none makes SQLite roll back. */
  lemma NormalIff(c: Conn, s: Script)
    requires !c.open
    ensures RunTransaction(c, s).1 == Normal <==>
              && s.begin == Settled(Done, false) && s.finish == Settled(Done, false) && !s.raises
              && forall i :: 0 <= i < |s.steps| ==>
                   (s.steps[i].attempt == Settled(Done, false) || s.steps[i].caught) && !Aborts(s.steps[i])
    ensures RunTransaction(c, s).1 == Normal || RunTransaction(c, s).1 == Raised
  {
    hide Block, SomeAborts;
    EnteredIff(c, s);
    BlockRaisesIff(Opened(c), s.steps);
    BlockByFates(Opened(c), s.steps);
    if forall i :: 0 <= i < |s.steps| ==> !Leaves(s.steps[i]) {
      AbortsIfSome(s.steps);
    } else {
      var i :| 0 <= i < |s.steps| && Leaves(s.steps[i]);
      assert s.steps[i].attempt != Settled(Done, false) && !s.steps[i].caught;
    }
  }

  /** The COMMIT takes effect: it is sent, on a transaction that is still open, and it is done, even if it raises. */
  predicate Commits(s: Script) {
    && BeginsCleanly(s) && !BlockRaises(s) && !SomeAborts(s.steps)
    && s.finish.Settled? && (s.finish.outcome.Done? || s.finish.outcome.RaisedAfter?)
  }

  /** What the file holds afterwards: all that the block wrote if the COMMIT takes effect, and otherwise only what the
      block wrote after SQLite had rolled back. A transaction left open has the block's writes pending. */
  lemma KeptIs(c: Conn, s: Script)
    requires !c.open
    ensures RunTransaction(c, s).0.durable ==
            c.durable + if Commits(s) then Effects(s.steps)
                        else if BeginsCleanly(s) then AfterAbort(s.steps) else []
    ensures RunTransaction(c, s).0.open ==>
              RunTransaction(c, s).0.pending == if BeginsCleanly(s) then Effects(s.steps) else []
  {
    hide Block, SomeAborts, Written, Leaked, Effects, AfterAbort;
    EnteredIff(c, s);
    BlockRaisesIff(Opened(c), s.steps);
    BlockByFates(Opened(c), s.steps);
    BlockWrites(Opened(c), s.steps);
    WrittenIs(Opened(c), s.steps);
  }

  /** With nothing wrong outside the block, a block that ends normally is committed and one that raises is rolled
      back, its error going on. */
  lemma CommitsOrRollsBack(c: Conn, s: Script)
    requires !c.open && s.begin == s.finish == Settled(Done, false) && !SomeAborts(s.steps)
    ensures RunTransaction(c, s) ==
            if s.raises || exists i :: 0 <= i < |s.steps| && Leaves(s.steps[i])
            then (Conn(c.durable, false, []), Raised)
            else (Conn(c.durable + Effects(s.steps), false, []), Normal)
  {
    hide Block, SomeAborts, Written, Leaked, Effects, AfterAbort;
    EnteredIff(c, s);
    BlockRaisesIff(Opened(c), s.steps);
    BlockByFates(Opened(c), s.steps);
    BlockWrites(Opened(c), s.steps);
    WrittenIs(Opened(c), s.steps);
    assert [] + Effects(s.steps) == Effects(s.steps);
  }

  // ----- the connection afterwards

  predicate CleanupFails(a: Attempt) {
    a.Refused? || a.outcome.RaisedBefore?
  }

  /** The faults that leave a transaction open behind, by the fates of the jobs alone. */
  predicate LeavesStray(s: Script) {
    if s.begin.Refused? then false
    else if !BeginsCleanly(s) then
      (s.begin.outcome.Done? || s.begin.outcome.RaisedAfter?) && CleanupFails(s.beginCleanup)
    else
      && !SomeAborts(s.steps)
      && (s.finish.Refused? || (s.finish.outcome.RaisedBefore? && CleanupFails(s.finishCleanup)))
  }

  /** On every exit the connection is outside a transaction, exactly unless the cleanup itself failed
      or the executor refused the COMMIT or ROLLBACK, in which case no cleanup is tried. */
  lemma StrayIff(c: Conn, s: Script)
    requires !c.open
    ensures RunTransaction(c, s).0.open <==> LeavesStray(s)
  {
    hide Block, SomeAborts;
    EnteredIff(c, s);
    BlockByFates(Opened(c), s.steps);
  }

  /** A transaction whose COMMIT the executor refuses stays open, with the block's writes pending. */
  lemma RefusedCommitStrays(c: Conn, w: Write)
    requires !c.open
    ensures var ok := Settled(Done, false);
            RunTransaction(c, Script(ok, ok, [Step(w, ok, false)], false, Refused, ok)) ==
              (Conn(c.durable, true, [w]), Raised)
  {
    var ok := Settled(Done, false);
    var steps := [Step(w, ok, false)];
    assert steps[1..] == [];
    assert Block(Opened(c), steps) == Block(StepConn(Opened(c), steps[0]), []);
    assert [] + [w] == [w];
  }

  /** A stray transaction makes the next one fail, and that one's cleanup ends it without a trace. */
  lemma NextTransactionHeals(c: Conn, s: Script)
    requires c.open && s.begin.Settled?
    ensures RunTransaction(c, s).1 == Raised && RunTransaction(c, s).0.durable == c.durable
    ensures !CleanupFails(s.beginCleanup) ==> !RunTransaction(c, s).0.open
  {}
}
