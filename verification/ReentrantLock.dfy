/** The shared connection lock (custom_components/nestquest/core/dao_children.py) and the task-reentrant
    wrapper put in its place while it may be held (completion.py). */
module ReentrantLock {
  import opened Options

  datatype Task = Task(id: nat)

  /** The owner and the depth of a wrapper. */
  datatype Owner = Owner(task: Option<Task>, depth: int)

  const UNOWNED := Owner(None, 0)

  function Entered(o: Owner, t: Task): Owner {
    if o.task == Some(t) then Owner(o.task, o.depth + 1) else Owner(Some(t), 1)
  }

  function Left(o: Owner): Owner {
    if o.depth == 1 then Owner(None, 0) else Owner(o.task, o.depth - 1)
  }

  // ----- the objects

  class AsyncLock {
    var locked: bool

    constructor ()
      ensures !locked
    {
      locked := false;
    }
  }

  class TaskReentrantLock {
    const inner: AsyncLock
    var task: Option<Task>
    var depth: int

    function View(): Owner
      reads this
    {
      Owner(task, depth)
    }

    constructor (inner: AsyncLock)
      ensures this.inner == inner && View() == UNOWNED
    {
      this.inner := inner;
      task, depth := None, 0;
    }

    /** Called at the moment its wait, if it has one, is over. */
    method Acquire(current: Task)
      requires task == Some(current) || !inner.locked
      modifies this, inner
      ensures View() == Entered(old(View()), current)
      ensures inner.locked == (old(inner.locked) || old(task) != Some(current))
    {
      if task == Some(current) {
        depth := depth + 1;
        return;
      }
      inner.locked := true;
      task := Some(current);
      depth := 1;
    }

    /** `ok`: no RuntimeError for a release by a task that is not the owner. */
    method Release(current: Task) returns (ok: bool)
      modifies this, inner
      ensures ok == (old(task) == Some(current))
      ensures View() == if ok then Left(old(View())) else old(View())
      ensures inner.locked == (old(inner.locked) && !(ok && old(depth) == 1))
    {
      if task != Some(current) { return false; }
      depth := depth - 1;
      if depth == 0 {
        task := None;
        inner.locked := false;
      }
      return true;
    }
  }

  /** What the shared table holds for one database and event loop. */
  datatype Shared = Plain(plain: AsyncLock) | Wrapped(wrapper: TaskReentrantLock)

  class LockTable {
    var entries: map<int, Shared>

    constructor ()
      ensures entries == map[]
    {
      entries := map[];
    }

    method ConnectionLock(key: int) returns (lock: Shared)
      modifies this
      ensures key in old(entries) ==> lock == old(entries)[key] && entries == old(entries)
      ensures key !in old(entries) ==> lock.Plain? && fresh(lock.plain) && !lock.plain.locked
      ensures entries == old(entries)[key := lock]
    {
      if key in entries { return entries[key]; }
      var made := new AsyncLock();
      lock := Plain(made);
      entries := entries[key := lock];
    }

    /** The wrapper goes around the very lock tasks may hold, and is the one everybody finds later. */
    method ReentrantConnectionLock(key: int) returns (lock: TaskReentrantLock)
      modifies this
      ensures key in old(entries) && old(entries)[key].Wrapped? ==> lock == old(entries)[key].wrapper
      ensures key in old(entries) && old(entries)[key].Plain? ==>
                fresh(lock) && lock.inner == old(entries)[key].plain && lock.View() == UNOWNED
      ensures key !in old(entries) ==> fresh(lock) && fresh(lock.inner) && !lock.inner.locked && lock.View() == UNOWNED
      ensures entries == old(entries)[key := Wrapped(lock)]
    {
      if key in entries {
        match entries[key] {
          case Wrapped(wrapper) => return wrapper;
          case Plain(plain) => lock := new TaskReentrantLock(plain);
        }
      } else {
        var made := new AsyncLock();
        lock := new TaskReentrantLock(made);
      }
      entries := entries[key := Wrapped(lock)];
    }
  }

  // ----- tasks interleaved over one entry of the table

  /** A reference a task has taken from the table: lock objects are numbered as they are created. */
  datatype Ref = PlainRef(lock: nat) | WrapRef(wrapper: nat)

  datatype Wrapper = Wrapper(inner: nat, owner: Owner)

  /** A task's nested `async with` blocks, outermost first, and the lock it is waiting for. */
  datatype Position = Position(held: seq<Ref>, pending: Option<Ref>)

  /** `locks`: who holds each asyncio lock. */
  datatype State = State(
    entry: Option<Ref>, locks: seq<Option<Task>>, wrappers: seq<Wrapper>, tasks: map<Task, Position>)

  datatype Event =
    | AskPlain(task: Task)
    | AskReentrant(task: Task)
    | Acquire(task: Task)
    | Cancel(task: Task)
    | Release(task: Task)

  const INITIAL := State(None, [], [], map[])
  const ELSEWHERE := Position([], None)

  function At(s: State, t: Task): Position {
    if t in s.tasks then s.tasks[t] else ELSEWHERE
  }

  function Goes(s: State, t: Task, p: Position): State {
    s.(tasks := s.tasks[t := p])
  }

  /** `_connection_lock`. */
  function PlainLookup(s: State): State {
    if s.entry.Some? then s else s.(entry := Some(PlainRef(|s.locks|)), locks := s.locks + [None])
  }

  /** `_reentrant_connection_lock`. */
  function ReentrantLookup(s: State): State {
    match s.entry
    case Some(WrapRef(_)) => s
    case Some(PlainRef(l)) => s.(entry := Some(WrapRef(|s.wrappers|)), wrappers := s.wrappers + [Wrapper(l, UNOWNED)])
    case None =>
      s.(entry := Some(WrapRef(|s.wrappers|)), locks := s.locks + [None],
         wrappers := s.wrappers + [Wrapper(|s.locks|, UNOWNED)])
  }

  predicate CanAcquire(s: State, t: Task, r: Ref) {
    match r
    case PlainRef(l) => l < |s.locks| && s.locks[l].None?
    case WrapRef(w) =>
      w < |s.wrappers| && (s.wrappers[w].owner.task == Some(t) ||
                           (s.wrappers[w].inner < |s.locks| && s.locks[s.wrappers[w].inner].None?))
  }

  function Acquired(s: State, t: Task, r: Ref): State
    requires CanAcquire(s, t, r)
  {
    var p := At(s, t);
    var inside := Goes(s, t, Position(p.held + [r], None));
    match r
    case PlainRef(l) => inside.(locks := s.locks[l := Some(t)])
    case WrapRef(w) =>
      var was := s.wrappers[w];
      inside.(
        wrappers := s.wrappers[w := was.(owner := Entered(was.owner, t))],
        locks := if was.owner.task == Some(t) then s.locks else s.locks[was.inner := Some(t)])
  }

  /** A release the wrapper refuses leaves the lock as it is. */
  function Released(s: State, t: Task, r: Ref): State {
    var p := At(s, t);
    if p.held == [] then s
    else
      var outside := Goes(s, t, Position(p.held[..|p.held| - 1], None));
      match r
      case PlainRef(l) => if l < |s.locks| then outside.(locks := s.locks[l := None]) else outside
      case WrapRef(w) =>
        if w < |s.wrappers| && s.wrappers[w].owner.task == Some(t) && s.wrappers[w].inner < |s.locks| then
          var was := s.wrappers[w];
          outside.(
            wrappers := s.wrappers[w := was.(owner := Left(was.owner))],
            locks := if was.owner.depth == 1 then s.locks[was.inner := None] else s.locks)
        else outside
  }

  function Next(s: State, e: Event): State {
    var t := e.task;
    var p := At(s, t);
    match e
    case AskPlain(_) =>
      if p.pending.Some? then s
      else var s1 := PlainLookup(s); Goes(s1, t, Position(p.held, s1.entry))
    case AskReentrant(_) =>
      if p.pending.Some? then s
      else var s1 := ReentrantLookup(s); Goes(s1, t, Position(p.held, s1.entry))
    case Acquire(_) =>
      if p.pending.Some? && CanAcquire(s, t, p.pending.value) then Acquired(s, t, p.pending.value) else s
    case Cancel(_) => Goes(s, t, Position(p.held, None))
    case Release(_) =>
      if p.pending.Some? || p.held == [] then s else Released(s, t, p.held[|p.held| - 1])
  }

  function Exec(s: State, run: seq<Event>): State
    decreases |run|
  {
    if run == [] then s else Exec(Next(s, run[0]), run[1..])
  }

  // ----- what every step keeps

  /** One asyncio lock is ever made, and one wrapper, around it. */
  ghost predicate OneLock(s: State) {
    match s.entry
    case None => s.locks == [] && s.wrappers == []
    case Some(PlainRef(l)) => l == 0 && |s.locks| == 1 && s.wrappers == []
    case Some(WrapRef(w)) => w == 0 && |s.locks| == 1 && |s.wrappers| == 1 && s.wrappers[0].inner == 0
  }

  function Owned(s: State): Owner {
    if s.wrappers == [] then UNOWNED else s.wrappers[0].owner
  }

  function Holder(s: State): Option<Task> {
    if s.locks == [] then None else s.locks[0]
  }

  ghost predicate Wraps(refs: seq<Ref>) {
    forall i :: 0 <= i < |refs| ==> refs[i] == WrapRef(0)
  }

  /** What a task holds, it holds through one of the two objects alone; what it waits for was in the table. */
  ghost predicate PositionFits(s: State, t: Task) {
    var p := At(s, t);
    && (p.held != [] <==> Holder(s) == Some(t))
    && (p.held != [] ==>
          || (p.held == [PlainRef(0)] && Owned(s).task != Some(t))
          || (Wraps(p.held) && Owned(s) == Owner(Some(t), |p.held|)))
    && (p.pending.Some? ==>
          || (p.pending == Some(WrapRef(0)) && s.wrappers != [])
          || (p.pending == Some(PlainRef(0)) && s.locks != [] && Owned(s).task != Some(t)))
  }

  ghost predicate Inv(s: State) {
    && OneLock(s)
    && (forall t :: PositionFits(s, t))
    && (Owned(s).task.Some? ==> Owned(s).task == Holder(s) && Owned(s).depth > 0)
    && (Owned(s).task.None? ==> Owned(s).depth == 0)
  }

  lemma AskKeepsInv(s: State, e: Event)
    requires Inv(s) && (e.AskPlain? || e.AskReentrant? || e.Cancel?)
    ensures Inv(Next(s, e))
  {
    var s' := Next(s, e);
    assert PositionFits(s, e.task);
    forall t ensures PositionFits(s', t) {
      assert PositionFits(s, t);
    }
  }

  lemma AcquireKeepsInv(s: State, t: Task)
    requires Inv(s)
    ensures Inv(Next(s, Acquire(t)))
  {
    var s' := Next(s, Acquire(t));
    assert PositionFits(s, t);
    forall u ensures PositionFits(s', u) {
      assert PositionFits(s, u);
    }
  }

  lemma ReleaseKeepsInv(s: State, t: Task)
    requires Inv(s)
    ensures Inv(Next(s, Release(t)))
  {
    var s' := Next(s, Release(t));
    assert PositionFits(s, t);
    forall u ensures PositionFits(s', u) {
      assert PositionFits(s, u);
    }
  }

  lemma {:induction false} ExecKeepsInv(s: State, run: seq<Event>)
    requires Inv(s)
    ensures Inv(Exec(s, run))
    decreases |run|
  {
    hide Inv, Next;
    if run != [] {
      match run[0] {
        case Acquire(t) => AcquireKeepsInv(s, t);
        case Release(t) => ReleaseKeepsInv(s, t);
        case _ => AskKeepsInv(s, run[0]);
      }
      ExecKeepsInv(Next(s, run[0]), run[1..]);
    }
  }

  lemma Reachable(run: seq<Event>)
    ensures Inv(Exec(INITIAL, run))
  {
    ExecKeepsInv(INITIAL, run);
  }

  // ----- what the lock is for

  /** In every run at most one task is inside, whichever object each came in by, and the wrapper's depth
      is the number of blocks its owner is in, positive exactly while there is one. */
  lemma MutualExclusion(run: seq<Event>, t: Task, u: Task)
    ensures var s := Exec(INITIAL, run);
            && (At(s, t).held != [] && At(s, u).held != [] ==> t == u)
            && (Owned(s).depth > 0 <==> Owned(s).task.Some?)
            && (Owned(s).task == Some(t) ==> Owned(s).depth == |At(s, t).held|)
  {
    Reachable(run);
    var s := Exec(INITIAL, run);
    assert PositionFits(s, t) && PositionFits(s, u);
  }

  /** A task inside that asks again goes on at once exactly when it came in through the wrapper; nobody
      else can go in meanwhile. */
  lemma NestedNeverBlocksIff(run: seq<Event>, t: Task, u: Task)
    ensures var s := Exec(INITIAL, run);
            At(s, t).held != [] && At(s, t).pending.Some? ==>
              (CanAcquire(s, t, At(s, t).pending.value) <==> Owned(s).task == Some(t))
    ensures var s := Exec(INITIAL, run);
            At(s, t).held != [] && u != t && At(s, u).pending.Some? ==> !CanAcquire(s, u, At(s, u).pending.value)
  {
    Reachable(run);
    var s := Exec(INITIAL, run);
    assert PositionFits(s, t) && PositionFits(s, u);
  }

  /** In every run a waiting task can go in exactly if nobody is inside, or it is itself, through the wrapper. */
  lemma GoesInIff(run: seq<Event>, t: Task)
    requires At(Exec(INITIAL, run), t).pending.Some?
    ensures var s := Exec(INITIAL, run);
            CanAcquire(s, t, At(s, t).pending.value) <==>
              (forall u :: At(s, u).held == []) || Owned(s).task == Some(t)
  {
    Reachable(run);
    var s := Exec(INITIAL, run);
    assert PositionFits(s, t);
    if Holder(s).Some? {
      assert PositionFits(s, Holder(s).value);
    } else {
      forall u ensures At(s, u).held == [] { assert PositionFits(s, u); }
    }
  }

  /** A task that asks waits for the table's object, which the reentrant lookup leaves the wrapper; it keeps its
      blocks. */
  lemma AsksFor(run: seq<Event>, t: Task)
    requires At(Exec(INITIAL, run), t).pending.None?
    ensures var s := Exec(INITIAL, run);
            var plain, wrapped := Next(s, AskPlain(t)), Next(s, AskReentrant(t));
            && At(plain, t) == Position(At(s, t).held, plain.entry)
            && plain.entry == (if s.entry.None? then Some(PlainRef(0)) else s.entry)
            && At(wrapped, t) == Position(At(s, t).held, wrapped.entry) && wrapped.entry == Some(WrapRef(0))
            && Holder(plain) == Holder(wrapped) == Holder(s) && Owned(plain) == Owned(wrapped) == Owned(s)
  {
    Reachable(run);
  }

  /** Once it can it is one block deeper inside; leaving a block brings it back, and out of the last one nobody is
      inside; giving up the wait changes nothing else. */
  lemma GoesInAndOut(run: seq<Event>, t: Task)
    ensures var s := Exec(INITIAL, run);
            var p, within := At(s, t), Next(s, Acquire(t));
            p.pending.Some? && CanAcquire(s, t, p.pending.value) ==>
              && At(within, t) == Position(p.held + [p.pending.value], None) && Holder(within) == Some(t)
              && At(Next(within, Release(t)), t) == Position(p.held, None)
              && Holder(Next(within, Release(t))) == (if p.held == [] then None else Some(t))
    ensures var s := Exec(INITIAL, run);
            Next(s, Cancel(t)) == s.(tasks := s.tasks[t := Position(At(s, t).held, None)])
  {
    Reachable(run);
    var s := Exec(INITIAL, run);
    assert PositionFits(s, t);
    if At(s, t).pending.Some? && CanAcquire(s, t, At(s, t).pending.value) {
      var held := At(s, t).held;
      var within := Next(s, Acquire(t));
      AcquireKeepsInv(s, t);
      assert PositionFits(within, t);
      assert (held + [At(s, t).pending.value])[..|held|] == held;
    }
  }

  /** Every release of an `async with` block is by the owner: the wrapper never refuses one. */
  lemma ReleaseIsByOwner(run: seq<Event>, t: Task)
    ensures var s := Exec(INITIAL, run);
            At(s, t).held != [] && At(s, t).held[|At(s, t).held| - 1].WrapRef? ==> Owned(s).task == Some(t)
  {
    Reachable(run);
    assert PositionFits(Exec(INITIAL, run), t);
  }

  ghost predicate NeverCancelled(run: seq<Event>, t: Task) {
    forall i :: 0 <= i < |run| ==> run[i] != Cancel(t)
  }

  ghost predicate Stuck(s: State, t: Task) {
    Inv(s) && At(s, t).held == [PlainRef(0)] && At(s, t).pending.Some?
  }

  lemma StuckStays(s: State, e: Event, t: Task)
    requires Stuck(s, t) && e != Cancel(t)
    ensures Stuck(Next(s, e), t) && At(Next(s, e), t) == At(s, t)
  {
    assert Inv(Next(s, e)) by {
      hide Next;
      match e {
        case Acquire(u) => AcquireKeepsInv(s, u);
        case Release(u) => ReleaseKeepsInv(s, u);
        case _ => AskKeepsInv(s, e);
      }
    }
    assert PositionFits(s, t);
    assert At(Next(s, e), t) == At(s, t) by {
      if e.task == t {
        assert At(s, t).held[0] == PlainRef(0);
        assert s.locks != [] && !CanAcquire(s, t, At(s, t).pending.value);
        assert Next(s, e) == s;
      }
    }
  }

  /** A task that holds the plain lock and asks again waits for itself, until it is cancelled. */
  lemma {:induction false} PlainHolderDeadlocks(s: State, run: seq<Event>, t: Task)
    requires Stuck(s, t) && NeverCancelled(run, t)
    ensures At(Exec(s, run), t) == At(s, t)
    decreases |run|
  {
    hide Inv, Next;
    if run != [] {
      StuckStays(s, run[0], t);
      PlainHolderDeadlocks(Next(s, run[0]), run[1..], t);
    }
  }

  /** The first task to ask gets the plain lock, and asks again, by either lookup: it is stuck. */
  lemma NestedPlainIsStuck(t: Task, again: Event)
    requires again == AskPlain(t) || again == AskReentrant(t)
    ensures Stuck(Exec(INITIAL, [AskPlain(t), Acquire(t), again]), t)
  {
    var run := [AskPlain(t), Acquire(t), again];
    var s1 := Next(INITIAL, run[0]);
    var s2 := Next(s1, run[1]);
    assert At(s1, t) == Position([], Some(PlainRef(0))) && s1.locks == [None];
    assert [] + [PlainRef(0)] == [PlainRef(0)];
    assert At(s2, t) == Position([PlainRef(0)], None);
    assert run[1..][0] == run[1] && run[1..][1..] == run[2..] && run[2..][0] == again && run[2..][1..] == [];
    assert Exec(INITIAL, run) == Exec(s1, run[1..]) == Exec(s2, run[2..]) == Exec(Next(s2, again), []) ==
             Next(s2, again);
    Reachable(run);
  }
}
