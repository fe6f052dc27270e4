/** The provider key cache of the admin plane (`JwksCache` in api/auth.py): how it decides whether a
    `get` is served, refused or fetches, and what that bounds over whole runs. */
module KeyCache {
  import opened Options

  datatype Document = Document(keys: seq<string>)
  datatype Fault = Fault(message: string)

  /** Durations in seconds of the monotonic clock. */
  datatype Config = Config(ttl: real, backoff: real, kidRefetch: real) {
    ghost predicate Valid() {
      0.0 <= ttl && 0.0 <= backoff && 0.0 <= kidRefetch
    }
  }

  datatype Cache = Cache(
    document: Option<Document>, fetchedAt: Option<real>,
    failedUntil: Option<real>, lastError: Option<Fault>, forcedAt: Option<real>)

  const EMPTY := Cache(None, None, None, None, None)

  datatype Verdict = Serve(document: Document) | Raise(fault: Fault) | Fetch

  predicate IsFresh(c: Cache, cfg: Config, now: real) {
    c.document.Some? && c.fetchedAt.Some? && now - c.fetchedAt.value < cfg.ttl
  }

  predicate InBackoff(c: Cache, now: real) {
    c.failedUntil.Some? && c.lastError.Some? && now < c.failedUntil.value
  }

  predicate IsThrottled(c: Cache, cfg: Config, now: real) {
    c.forcedAt.Some? && now - c.forcedAt.value < cfg.kidRefetch
  }

  /** What a `get` decides from one look at the cache: `r1`, `r2` and `r3` are the clock readings of
      the freshness, backoff and throttle tests. */
  function Decide(c: Cache, cfg: Config, force: bool, r1: real, r2: real, r3: real): Verdict {
    if !force && IsFresh(c, cfg, r1) then Serve(c.document.value)
    else if InBackoff(c, r2) then
      if force && c.document.Some? then Serve(c.document.value) else Raise(c.lastError.value)
    else if force && IsThrottled(c, cfg, r3) && c.document.Some? then Serve(c.document.value)
    else Fetch
  }

  function Started(c: Cache, force: bool, now: real): Cache {
    if force then c.(forcedAt := Some(now)) else c
  }

  function Stored(c: Cache, document: Document, now: real): Cache {
    c.(document := Some(document), fetchedAt := Some(now), failedUntil := None, lastError := None)
  }

  function Failed(c: Cache, cfg: Config, fault: Fault, now: real): Cache {
    c.(failedUntil := Some(now + cfg.backoff), lastError := Some(fault))
  }

  /** The object itself. `get` awaits only the lock and the fetcher, so what lies between is a method. */
  class JwksCache {
    const cfg: Config
    var document: Option<Document>
    var fetchedAt: Option<real>
    var failedUntil: Option<real>
    var lastError: Option<Fault>
    var forcedAt: Option<real>

    function View(): Cache
      reads this
    {
      Cache(document, fetchedAt, failedUntil, lastError, forcedAt)
    }

    constructor (cfg: Config)
      ensures this.cfg == cfg && View() == EMPTY
    {
      this.cfg := cfg;
      document, fetchedAt, failedUntil, lastError, forcedAt := None, None, None, None, None;
    }

    method FreshDocument(now: real) returns (r: Option<Document>)
      ensures r == if IsFresh(View(), cfg, now) then document else None
    {
      if document.Some? && fetchedAt.Some? && now - fetchedAt.value < cfg.ttl {
        return document;
      }
      return None;
    }

    method BackoffError(now: real) returns (r: Option<Fault>)
      ensures r == if InBackoff(View(), now) then lastError else None
    {
      if failedUntil.Some? && lastError.Some? && now < failedUntil.value {
        return lastError;
      }
      return None;
    }

    /** The tests `get` makes before it waits for the lock; `None` when it has to. */
    method GetUnlocked(force: bool, r1: real, r2: real) returns (v: Option<Verdict>)
      ensures v.Some? ==> forall r3 :: v.value == Decide(View(), cfg, force, r1, r2, r3)
      ensures v.None? <==> !InBackoff(View(), r2) && !(!force && IsFresh(View(), cfg, r1))
    {
      if !force {
        var current := FreshDocument(r1);
        if current.Some? { return Some(Serve(current.value)); }
      }
      var error := BackoffError(r2);
      if error.Some? {
        if force && document.Some? { return Some(Serve(document.value)); }
        return Some(Raise(error.value));
      }
      return None;
    }

    /** The tests `get` repeats with the lock held, and the stamp a fetch starts with. */
    method GetLocked(force: bool, r1: real, r2: real, r3: real, start: real) returns (v: Verdict)
      modifies this`forcedAt
      ensures v == old(Decide(View(), cfg, force, r1, r2, r3))
      ensures View() == if v.Fetch? then Started(old(View()), force, start) else old(View())
    {
      var early := GetUnlocked(force, r1, r2);
      if early.Some? { return early.value; }
      if force && forcedAt.Some? && r3 - forcedAt.value < cfg.kidRefetch && document.Some? {
        return Serve(document.value);
      }
      if force { forcedAt := Some(start); }
      return Fetch;
    }

    method FetchFailed(fault: Fault, now: real)
      modifies this`failedUntil, this`lastError
      ensures View() == Failed(old(View()), cfg, fault, now)
      ensures failedUntil == Some(now + cfg.backoff) && lastError == Some(fault)
    {
      failedUntil, lastError := Some(now + cfg.backoff), Some(fault);
    }

    method FetchSucceeded(fetched: Document, now: real)
      modifies this`document, this`fetchedAt, this`failedUntil, this`lastError
      ensures View() == Stored(old(View()), fetched, now)
      ensures document == Some(fetched) && fetchedAt == Some(now) && failedUntil.None? && lastError.None?
    {
      document, fetchedAt := Some(fetched), Some(now);
      failedUntil, lastError := None, None;
    }
  }

  // ----- runs

  /** A cancelled fetch ends in `CancelledError`, which `except Exception` lets through. */
  datatype Outcome = Pending | Ended | Cancelled

  /** `cached`: a document was at hand when the fetch started. */
  datatype Start = Start(at: real, forced: bool, cached: bool, outcome: Outcome)
  datatype Fetched = Fetched(document: Document, at: real)

  /** `starts` and `history` record the fetches of the run; `inFlight` says that one holds the lock. */
  datatype System = System(cache: Cache, now: real, inFlight: bool, starts: seq<Start>, history: seq<Fetched>)

  const INITIAL_CACHE := System(EMPTY, 0.0, false, [], [])

  ghost predicate Init(s: System) {
    s.cache == EMPTY && !s.inFlight && s.starts == [] && s.history == []
  }

  /** The last start has come to this. */
  function Over(starts: seq<Start>, outcome: Outcome): seq<Start> {
    if starts == [] then [] else starts[..|starts| - 1] + [starts[|starts| - 1].(outcome := outcome)]
  }

  /** A `get` whose locked tests decide to fetch; its four clock readings come in order. */
  ghost predicate StartFetch(s: System, s': System, cfg: Config, force: bool, r1: real, r2: real, r3: real) {
    && !s.inFlight
    && s.now <= r1 <= r2 <= r3 <= s'.now
    && Decide(s.cache, cfg, force, r1, r2, r3) == Fetch
    && s' == System(Started(s.cache, force, s'.now), s'.now, true,
                    s.starts + [Start(s'.now, force, s.cache.document.Some?, Pending)], s.history)
  }

  ghost predicate EndFetch(s: System, s': System, cfg: Config, document: Document) {
    && s.inFlight && s.now <= s'.now
    && s' == System(Stored(s.cache, document, s'.now), s'.now, false,
                    Over(s.starts, Ended), s.history + [Fetched(document, s'.now)])
  }

  ghost predicate FailFetch(s: System, s': System, cfg: Config, fault: Fault) {
    && s.inFlight && s.now <= s'.now
    && s' == System(Failed(s.cache, cfg, fault, s'.now), s'.now, false, Over(s.starts, Ended), s.history)
  }

  /** The awaiting request is cancelled: the lock is released and nothing is recorded. */
  ghost predicate CancelFetch(s: System, s': System) {
    && s.inFlight && s.now <= s'.now
    && s' == System(s.cache, s'.now, false, Over(s.starts, Cancelled), s.history)
  }

  ghost predicate Next(s: System, s': System, cfg: Config) {
    || (exists force, r1, r2, r3 :: StartFetch(s, s', cfg, force, r1, r2, r3))
    || (exists document :: EndFetch(s, s', cfg, document))
    || (exists fault :: FailFetch(s, s', cfg, fault))
    || CancelFetch(s, s')
  }

  ghost predicate Run(run: seq<System>, cfg: Config) {
    && |run| > 0 && Init(run[0])
    && forall i :: 0 <= i < |run| - 1 ==> Next(run[i], run[i + 1], cfg)
  }

  function Min(a: real, b: real): real { if a < b then a else b }

  /** How far apart fetches of a kind are. */
  function Gap(cfg: Config, forced: bool): real {
    Min(if forced then cfg.kidRefetch else cfg.ttl, cfg.backoff)
  }

  /** Two starts of one kind are `gap` apart if some fetch from the first on has ended before the second. */
  ghost predicate Apart(starts: seq<Start>, forced: bool, gap: real) {
    forall i, m, j ::
      0 <= i <= m < j < |starts| && starts[i].forced == forced == starts[j].forced && starts[m].outcome.Ended? ==>
        starts[i].at + gap <= starts[j].at
  }

  /** A forced start made with a document at hand is `gap` after every earlier forced one. */
  ghost predicate Throttled(starts: seq<Start>, gap: real) {
    forall i, j :: 0 <= i < j < |starts| && starts[i].forced && starts[j].forced && starts[j].cached ==>
      starts[i].at + gap <= starts[j].at
  }

  /** Only the last start can be under way. */
  ghost predicate Settled(s: System) {
    && (forall i :: 0 <= i < |s.starts| - 1 ==> !s.starts[i].outcome.Pending?)
    && (s.inFlight <==> s.starts != [] && s.starts[|s.starts| - 1].outcome.Pending?)
  }

  /** Why the next fetch has to wait for the earlier start `at`. */
  ghost predicate Held(c: Cache, cfg: Config, at: real) {
    || (c.failedUntil.Some? && c.lastError.Some? && at + cfg.backoff <= c.failedUntil.value)
    || (c.document.Some? && c.fetchedAt.Some? && at <= c.fetchedAt.value)
  }

  ghost predicate StartsFit(s: System, cfg: Config) {
    && (forall i :: 0 <= i < |s.starts| ==> s.starts[i].at <= s.now)
    && (forall i :: 0 <= i < |s.starts| && s.starts[i].forced ==>
          s.cache.forcedAt.Some? && s.starts[i].at <= s.cache.forcedAt.value)
    && (forall i, m :: 0 <= i <= m < |s.starts| && s.starts[m].outcome.Ended? ==> Held(s.cache, cfg, s.starts[i].at))
  }

  ghost predicate DocumentFits(s: System) {
    match s.cache.document
    case Some(d) => s.cache.fetchedAt.Some? && Fetched(d, s.cache.fetchedAt.value) in s.history
    case None => s.cache.fetchedAt.None?
  }

  ghost predicate Spacing(starts: seq<Start>, cfg: Config) {
    Apart(starts, true, Gap(cfg, true)) && Apart(starts, false, Gap(cfg, false)) && Throttled(starts, cfg.kidRefetch)
  }

  ghost predicate Inv(s: System, cfg: Config) {
    Settled(s) && StartsFit(s, cfg) && DocumentFits(s) && Spacing(s.starts, cfg)
  }

  /** A cache that holds `at` back lets no fetch of either kind start before the gap is over. */
  lemma HeldWaits(c: Cache, cfg: Config, at: real, force: bool, r1: real, r2: real, r3: real, now: real)
    requires Held(c, cfg, at) && Decide(c, cfg, force, r1, r2, r3) == Fetch && r1 <= r2 <= r3 <= now
    requires force ==> c.forcedAt.Some? && at <= c.forcedAt.value
    ensures at + Gap(cfg, force) <= now
  {}

  lemma StartKeepsSpacing(s: System, s': System, cfg: Config, force: bool, r1: real, r2: real, r3: real)
    requires Inv(s, cfg) && StartFetch(s, s', cfg, force, r1, r2, r3)
    ensures Spacing(s'.starts, cfg)
  {
    hide Held, Gap, Settled, DocumentFits;
    forall i, m | 0 <= i <= m < |s.starts| && s.starts[i].forced == force && s.starts[m].outcome.Ended?
      ensures s.starts[i].at + Gap(cfg, force) <= s'.now
    {
      HeldWaits(s.cache, cfg, s.starts[i].at, force, r1, r2, r3, s'.now);
    }
  }

  lemma StartKeepsInv(s: System, s': System, cfg: Config, force: bool, r1: real, r2: real, r3: real)
    requires Inv(s, cfg) && StartFetch(s, s', cfg, force, r1, r2, r3)
    ensures Inv(s', cfg)
  {
    hide Held, Decide, Spacing;
    StartKeepsSpacing(s, s', cfg, force, r1, r2, r3);
    forall i, m | 0 <= i <= m < |s'.starts| && s'.starts[m].outcome.Ended?
      ensures Held(s'.cache, cfg, s'.starts[i].at)
    {
      assert s.starts[m].outcome.Ended?;
      SameHold(s.cache, s'.cache, cfg, s.starts[i].at);
    }
  }

  lemma SameHold(c: Cache, d: Cache, cfg: Config, at: real)
    requires Held(c, cfg, at) && d == c.(forcedAt := d.forcedAt)
    ensures Held(d, cfg, at)
  {}

  lemma OverKeepsSpacing(starts: seq<Start>, outcome: Outcome, cfg: Config)
    requires Spacing(starts, cfg)
    ensures Spacing(Over(starts, outcome), cfg)
  {
    hide Gap;
  }

  lemma EndKeepsInv(s: System, s': System, cfg: Config)
    requires Inv(s, cfg) && ((exists document :: EndFetch(s, s', cfg, document)) ||
               (exists fault :: FailFetch(s, s', cfg, fault)))
    ensures Inv(s', cfg)
  {
    hide Spacing;
    OverKeepsSpacing(s.starts, Ended, cfg);
  }

  lemma CancelKeepsInv(s: System, s': System, cfg: Config)
    requires Inv(s, cfg) && CancelFetch(s, s')
    ensures Inv(s', cfg)
  {
    hide Spacing, Held;
    OverKeepsSpacing(s.starts, Cancelled, cfg);
    forall i, m | 0 <= i <= m < |s'.starts| && s'.starts[m].outcome.Ended?
      ensures Held(s'.cache, cfg, s'.starts[i].at)
    {
      assert s.starts[m].outcome.Ended?;
    }
  }

  lemma NextKeepsInv(s: System, s': System, cfg: Config)
    requires Inv(s, cfg) && Next(s, s', cfg)
    ensures Inv(s', cfg)
  {
    hide Inv, StartFetch, EndFetch, FailFetch, CancelFetch;
    if force, r1, r2, r3 :| StartFetch(s, s', cfg, force, r1, r2, r3) {
      StartKeepsInv(s, s', cfg, force, r1, r2, r3);
    } else if CancelFetch(s, s') {
      CancelKeepsInv(s, s', cfg);
    } else {
      EndKeepsInv(s, s', cfg);
    }
  }

  lemma {:induction false} RunKeepsInv(run: seq<System>, cfg: Config, i: nat)
    requires Run(run, cfg) && i < |run|
    ensures Inv(run[i], cfg)
  {
    hide Next;
    if i > 0 {
      hide Inv;
      RunKeepsInv(run, cfg, i - 1);
      NextKeepsInv(run[i - 1], run[i], cfg);
    }
  }

  /** In every run, cancellations included, two starts of one kind between which a fetch has ended are at
      least the refetch interval (forced) or the TTL (unforced) apart, or the backoff if that is shorter; and
      a forced start made with a document at hand is the whole interval after every earlier one. */
  lemma FetchesAreApart(run: seq<System>, cfg: Config, i: nat)
    requires Run(run, cfg) && i < |run|
    ensures Apart(run[i].starts, true, Min(cfg.kidRefetch, cfg.backoff))
    ensures Apart(run[i].starts, false, Min(cfg.ttl, cfg.backoff))
    ensures Throttled(run[i].starts, cfg.kidRefetch)
  {
    RunKeepsInv(run, cfg, i);
  }

  /** The record of the fetches is never rewritten, and each document cached was fetched by a start of its own. */
  lemma RecordStands(run: seq<System>, cfg: Config, i: nat, s': System)
    requires Run(run, cfg) && i < |run| && Next(run[i], s', cfg)
    ensures var s := run[i];
            && |s.starts| <= |s'.starts| && s.history <= s'.history
            && (forall k :: 0 <= k < |s.starts| && !s.starts[k].outcome.Pending? ==> s'.starts[k] == s.starts[k])
            && |s.history| + (if s.inFlight then 1 else 0) <= |s.starts|
  {
    RunKeepsInv(run, cfg, i);
    DocumentsAreFetched(run, cfg, i);
  }

  lemma {:induction false} DocumentsAreFetched(run: seq<System>, cfg: Config, i: nat)
    requires Run(run, cfg) && i < |run|
    ensures |run[i].history| + (if run[i].inFlight then 1 else 0) <= |run[i].starts|
  {
    hide Decide;
    if i > 0 {
      DocumentsAreFetched(run, cfg, i - 1);
      assert Next(run[i - 1], run[i], cfg);
    }
  }

  // ----- when a get has to fetch

  /** What each `get` comes to: a forced one fetches exactly if the backoff is over and there is no document or the
      last forced fetch is the interval ago, an unforced one exactly if the document is missing or too old and the
      backoff is over. In the backoff the fault is raised, unless a forced one has a document to fall back on. */
  lemma FetchesIff(c: Cache, cfg: Config, r1: real, r2: real, r3: real)
    ensures var inBackoff := c.failedUntil.Some? && c.lastError.Some? && r2 < c.failedUntil.value;
            var isFresh := c.document.Some? && c.fetchedAt.Some? && r1 < c.fetchedAt.value + cfg.ttl;
            var forced, plain := Decide(c, cfg, true, r1, r2, r3), Decide(c, cfg, false, r1, r2, r3);
            && (forced == Fetch <==>
                  !inBackoff && (c.document.None? || c.forcedAt.None? || c.forcedAt.value + cfg.kidRefetch <= r3))
            && (plain == Fetch <==> !inBackoff && !isFresh)
            && (forced.Serve? ==> Some(forced.document) == c.document)
            && (plain.Serve? <==> isFresh) && (plain.Serve? ==> Some(plain.document) == c.document)
            && (forced.Raise? <==> inBackoff && c.document.None?) &&
                 (forced.Raise? ==> Some(forced.fault) == c.lastError)
            && (plain.Raise? <==> inBackoff && !isFresh) && (plain.Raise? ==> Some(plain.fault) == c.lastError)
  {}

  /** A fetch of the kind may start at `t`. */
  ghost predicate CanStartAt(s: System, cfg: Config, force: bool, t: real) {
    exists s' :: StartFetch(s, s', cfg, force, t, t, t) && s'.now == t
  }

  /** In every run, with no fetch under way, one can start at `t` exactly when the last failure is the backoff ago and,
      if there is a document, the last forced fetch is the interval ago (forced), or the document is as old as the TTL
      (unforced). So a cache that stays in use picks up a new key as soon as the bounds allow. */
  lemma CanStartIff(run: seq<System>, cfg: Config, i: nat, force: bool, t: real)
    requires Run(run, cfg) && i < |run| && !run[i].inFlight && run[i].now <= t
    ensures var c := run[i].cache;
            CanStartAt(run[i], cfg, force, t) <==>
              && (c.lastError.Some? && c.failedUntil.Some? ==> c.failedUntil.value <= t)
              && (c.document.None? ||
                  if force then c.forcedAt.None? || c.forcedAt.value + cfg.kidRefetch <= t
                  else c.fetchedAt.Some? && c.fetchedAt.value + cfg.ttl <= t)
  {
    RunKeepsInv(run, cfg, i);
    var s := run[i];
    FetchesIff(s.cache, cfg, t, t, t);
    hide Decide, Inv;
    if s.cache.document.Some? { DocumentIsDated(s, cfg); }
    var s' := System(Started(s.cache, force, t), t, true,
                     s.starts + [Start(t, force, s.cache.document.Some?, Pending)], s.history);
    assert Decide(s.cache, cfg, force, t, t, t) == Fetch ==> StartFetch(s, s', cfg, force, t, t, t);
  }

  lemma DocumentIsDated(s: System, cfg: Config)
    requires Inv(s, cfg) && s.cache.document.Some?
    ensures s.cache.fetchedAt.Some?
  {}

  // ----- what a cancellation costs

  /** The state after the fetch under way, and whether it was cancelled. */
  ghost predicate Finish(s: System, s': System, cfg: Config, cancelled: bool) {
    if cancelled then CancelFetch(s, s')
    else (exists document :: EndFetch(s, s', cfg, document)) || (exists fault :: FailFetch(s, s', cfg, fault))
  }

  /** A fetch of the kind may start before `end`. */
  ghost predicate StartsBefore(s: System, cfg: Config, force: bool, end: real) {
    exists s', r1, r2, r3 :: StartFetch(s, s', cfg, force, r1, r2, r3) && s'.now < end
  }

  /** From every reachable state: once a fetch has started, the next of its kind can start inside the gap exactly
      if this one is cancelled inside it, unless it was forced with a document at hand. */
  lemma EarlyStartIffCancelled(run: seq<System>, cfg: Config, started: System, finished: System, force: bool,
                               cancelled: bool, r1: real, r2: real, r3: real)
    requires cfg.Valid() && Run(run, cfg)
    requires StartFetch(run[|run| - 1], started, cfg, force, r1, r2, r3) && Finish(started, finished, cfg, cancelled)
    ensures StartsBefore(finished, cfg, force, started.now + Gap(cfg, force)) <==>
              cancelled && finished.now < started.now + Gap(cfg, force) &&
                  !(force && run[|run| - 1].cache.document.Some?)
  {
    var s := run[|run| - 1];
    RunKeepsInv(run, cfg, |run| - 1);
    var end := started.now + Gap(cfg, force);
    StartKeepsInv(s, started, cfg, force, r1, r2, r3);
    if StartsBefore(finished, cfg, force, end) {
      var next, q1, q2, q3 :| StartFetch(finished, next, cfg, force, q1, q2, q3) && next.now < end;
      NoEarlyStart(s, started, finished, next, cfg, force, cancelled, q1, q2, q3);
    }
    if cancelled && finished.now < end && !(force && s.cache.document.Some?) {
      StartsAgain(s, started, finished, cfg, force, r1, r2, r3);
    }
  }

  lemma NoEarlyStart(s: System, started: System, finished: System, next: System, cfg: Config, force: bool,
                     cancelled: bool, q1: real, q2: real, q3: real)
    requires cfg.Valid() && Inv(started, cfg) && Finish(started, finished, cfg, cancelled)
    requires started.cache == Started(s.cache, force, started.now)
    requires started.starts == s.starts + [Start(started.now, force, s.cache.document.Some?, Pending)]
    requires StartFetch(finished, next, cfg, force, q1, q2, q3) && next.now < started.now + Gap(cfg, force)
    ensures cancelled && finished.now < started.now + Gap(cfg, force) && !(force && s.cache.document.Some?)
  {
    hide Inv;
    var c := finished.cache;
    assert force ==> c.forcedAt == Some(started.now);
    if !cancelled {
      assert Held(c, cfg, started.now);
      HeldWaits(c, cfg, started.now, force, q1, q2, q3, next.now);
    }
  }

  lemma StartsAgain(s: System, started: System, finished: System, cfg: Config, force: bool, r1: real,
                    r2: real, r3: real)
    requires StartFetch(s, started, cfg, force, r1, r2, r3) && CancelFetch(started, finished)
    requires force ==> s.cache.document.None?
    requires finished.now < started.now + Gap(cfg, force)
    ensures StartsBefore(finished, cfg, force, started.now + Gap(cfg, force))
  {
    hide Gap;
    var t := finished.now;
    var next := System(Started(finished.cache, force, t), t, true,
                       finished.starts + [Start(t, force, finished.cache.document.Some?, Pending)], finished.history);
    assert StartFetch(finished, next, cfg, force, t, t, t);
  }

  /** So no number of starts at one instant is out of reach: all but the last are cancelled. */
  lemma {:induction false} CancellationsAreUnbounded(cfg: Config, n: nat) returns (run: seq<System>)
    requires cfg.Valid() && n > 0
    ensures Run(run, cfg)
    ensures var s := run[|run| - 1];
            && s.inFlight && s.cache == EMPTY && s.now == 0.0 && |s.starts| == n
            && forall i :: 0 <= i < |s.starts| ==>
                 s.starts[i] == Start(0.0, false, false, if i < n - 1 then Cancelled else Pending)
  {
    if n == 1 {
      var started := System(EMPTY, 0.0, true, [Start(0.0, false, false, Pending)], []);
      assert StartFetch(INITIAL_CACHE, started, cfg, false, 0.0, 0.0, 0.0);
      run := [INITIAL_CACHE, started];
    } else {
      var before := CancellationsAreUnbounded(cfg, n - 1);
      var s := before[|before| - 1];
      var cancelled := System(EMPTY, 0.0, false, Over(s.starts, Cancelled), s.history);
      var started := System(EMPTY, 0.0, true, cancelled.starts + [Start(0.0, false, false, Pending)], s.history);
      assert CancelFetch(s, cancelled);
      assert StartFetch(cancelled, started, cfg, false, 0.0, 0.0, 0.0);
      RunGrows(before, cancelled, cfg);
      RunGrows(before + [cancelled], started, cfg);
      run := before + [cancelled] + [started];
    }
  }

  lemma RunGrows(run: seq<System>, s: System, cfg: Config)
    requires Run(run, cfg) && Next(run[|run| - 1], s, cfg)
    ensures Run(run + [s], cfg)
  {
    hide Next;
  }

  // ----- the refetch interval

  ghost predicate Uncancelled(starts: seq<Start>) {
    forall i :: 0 <= i < |starts| ==> !starts[i].outcome.Cancelled?
  }

  /** All starts of one kind, pairwise. */
  ghost predicate AllApart(starts: seq<Start>, forced: bool, gap: real) {
    forall i, j :: 0 <= i < j < |starts| && starts[i].forced == forced == starts[j].forced ==>
      starts[i].at + gap <= starts[j].at
  }

  lemma UncancelledAreApart(s: System, forced: bool, gap: real)
    requires Settled(s) && Apart(s.starts, forced, gap) && Uncancelled(s.starts)
    ensures AllApart(s.starts, forced, gap)
  {
    forall i, j | 0 <= i < j < |s.starts| && s.starts[i].forced == forced == s.starts[j].forced
      ensures s.starts[i].at + gap <= s.starts[j].at
    {
      assert s.starts[i].outcome.Ended?;
    }
  }

  ghost predicate ForcedKeepInterval(cfg: Config) {
    forall run: seq<System>, i :: Run(run, cfg) && 0 <= i < |run| && Uncancelled(run[i].starts) ==>
      AllApart(run[i].starts, true, cfg.kidRefetch)
  }

  /** Forced fetches keep the refetch interval itself, with or without a document, in all runs whose fetches end
      in success or an exception, exactly when the backoff is no shorter, as in the defaults. */
  lemma ForcedIntervalIffBackoffCovers(cfg: Config)
    requires cfg.Valid()
    ensures ForcedKeepInterval(cfg) <==> cfg.kidRefetch <= cfg.backoff
  {
    hide Run, AllApart, Uncancelled;
    if cfg.kidRefetch <= cfg.backoff {
      forall run: seq<System>, i | Run(run, cfg) && 0 <= i < |run| && Uncancelled(run[i].starts)
        ensures AllApart(run[i].starts, true, cfg.kidRefetch)
      {
        RunKeepsInv(run, cfg, i);
        UncancelledAreApart(run[i], true, Gap(cfg, true));
      }
    } else {
      var run := ForcedTooSoon(cfg);
    }
  }

  /** Two forced fetches a backoff apart, the first failing with nothing cached. */
  lemma ForcedTooSoon(cfg: Config) returns (run: seq<System>)
    requires cfg.Valid() && cfg.backoff < cfg.kidRefetch
    ensures Run(run, cfg) && |run| == 4 && Uncancelled(run[3].starts) && !AllApart(run[3].starts, true, cfg.kidRefetch)
  {
    var fault, t := Fault("unreachable"), cfg.backoff;
    var s1 := System(Started(EMPTY, true, 0.0), 0.0, true, [Start(0.0, true, false, Pending)], []);
    var s2 := System(Failed(s1.cache, cfg, fault, 0.0), 0.0, false, [Start(0.0, true, false, Ended)], []);
    var s3 := System(Started(s2.cache, true, t), t, true, s2.starts + [Start(t, true, false, Pending)], []);
    assert StartFetch(INITIAL_CACHE, s1, cfg, true, 0.0, 0.0, 0.0);
    assert FailFetch(s1, s2, cfg, fault);
    assert StartFetch(s2, s3, cfg, true, t, t, t);
    hide StartFetch, FailFetch;
    assert Run([INITIAL_CACHE], cfg);
    RunGrows([INITIAL_CACHE], s1, cfg);
    RunGrows([INITIAL_CACHE] + [s1], s2, cfg);
    RunGrows([INITIAL_CACHE] + [s1] + [s2], s3, cfg);
    run := [INITIAL_CACHE] + [s1] + [s2] + [s3];
    assert run[3] == s3 && s3.starts[0].at + cfg.kidRefetch > s3.starts[1].at;
  }

  /** An unforced get is served a document fetched less than the TTL before, in every run. */
  lemma UnforcedIsFresh(run: seq<System>, cfg: Config, i: nat, r1: real, r2: real, r3: real)
    requires Run(run, cfg) && i < |run|
    requires Decide(run[i].cache, cfg, false, r1, r2, r3).Serve?
    ensures exists f :: f in run[i].history && r1 - f.at < cfg.ttl &&
              f.document == Decide(run[i].cache, cfg, false, r1, r2, r3).document
  {
    RunKeepsInv(run, cfg, i);
    var c := run[i].cache;
    assert Fetched(c.document.value, c.fetchedAt.value) in run[i].history;
  }

  // ----- the rate bound

  /** The counted starts in the window from `a` to `b`, in order. */
  function InWindow(starts: seq<Start>, counts: Start -> bool, a: real, b: real): seq<real> {
    if starts == [] then []
    else
      var last := starts[|starts| - 1];
      InWindow(starts[..|starts| - 1], counts, a, b) + if counts(last) && a <= last.at <= b then [last.at] else []
  }

  /** No counted start of the window is left out. */
  lemma {:induction false} InWindowHas(starts: seq<Start>, counts: Start -> bool, a: real, b: real, k: nat)
    requires k < |starts| && counts(starts[k]) && a <= starts[k].at <= b
    ensures starts[k].at in InWindow(starts, counts, a, b)
  {
    if k < |starts| - 1 { InWindowHas(starts[..|starts| - 1], counts, a, b, k); }
  }

  /** The length of the gaps between `n` starts, `n` - 1 of them. */
  ghost function Gaps(n: nat, gap: real): (r: real)
    ensures n > 0 ==> r == (n - 1) as real * gap
  {
    if n <= 1 then 0.0
    else
      assert (n - 1) as real * gap == (n - 2) as real * gap + gap;
      gap + Gaps(n - 1, gap)
  }

  lemma OneMoreGap(n: nat, gap: real)
    requires n > 0
    ensures Gaps(n + 1, gap) == gap + Gaps(n, gap)
  {}

  /** The counted starts are pairwise `gap` apart. */
  ghost predicate Spaced(starts: seq<Start>, counts: Start -> bool, gap: real) {
    forall i, j :: 0 <= i < j < |starts| && counts(starts[i]) && counts(starts[j]) ==>
        starts[i].at + gap <= starts[j].at
  }

  ghost predicate LastIs(starts: seq<Start>, counts: Start -> bool, at: real) {
    exists k :: 0 <= k < |starts| && counts(starts[k]) && starts[k].at == at
  }

  lemma {:induction false} WindowEnds(starts: seq<Start>, counts: Start -> bool, a: real, b: real)
    ensures var w := InWindow(starts, counts, a, b);
            w != [] ==> a <= w[|w| - 1] <= b && LastIs(starts, counts, w[|w| - 1])
  {
    if starts != [] {
      var n := |starts| - 1;
      var front := starts[..n];
      WindowEnds(front, counts, a, b);
      var w := InWindow(front, counts, a, b);
      if counts(starts[n]) && a <= starts[n].at <= b {
        assert LastIs(starts, counts, starts[n].at);
      } else if w != [] {
        var k :| 0 <= k < |front| && counts(front[k]) && front[k].at == w[|w| - 1];
        assert starts[k] == front[k];
      }
    }
  }

  lemma LastIsApart(starts: seq<Start>, counts: Start -> bool, gap: real, at: real)
    requires Spaced(starts, counts, gap) && starts != [] && counts(starts[|starts| - 1])
    requires LastIs(starts[..|starts| - 1], counts, at)
    ensures at + gap <= starts[|starts| - 1].at
  {
    var front := starts[..|starts| - 1];
    var k :| 0 <= k < |front| && counts(front[k]) && front[k].at == at;
    assert starts[k] == front[k];
  }

  /** Counted starts that are pairwise `gap` apart leave room in a window for so many of them. */
  lemma {:induction false} WindowIsApart(starts: seq<Start>, counts: Start -> bool, a: real, b: real, gap: real)
    requires Spaced(starts, counts, gap)
    ensures var w := InWindow(starts, counts, a, b); w != [] ==>
              a <= w[|w| - 1] <= b && Gaps(|w|, gap) <= w[|w| - 1] - a
  {
    hide Gaps, LastIs;
    WindowEnds(starts, counts, a, b);
    if starts != [] {
      var n := |starts| - 1;
      var front, last := starts[..n], starts[n];
      WindowIsApart(front, counts, a, b, gap);
      WindowEnds(front, counts, a, b);
      var w := InWindow(front, counts, a, b);
      if counts(last) && a <= last.at <= b && w != [] {
        LastIsApart(starts, counts, gap, w[|w| - 1]);
        GapFits(|w|, gap, w[|w| - 1], last.at, a);
      }
      NoGap(gap);
    }
  }

  lemma NoGap(gap: real)
    ensures Gaps(1, gap) == 0.0
  {}

  lemma GapFits(n: nat, gap: real, before: real, at: real, a: real)
    requires n > 0 && Gaps(n, gap) <= before - a && before + gap <= at
    ensures Gaps(n + 1, gap) <= at - a
  {
    OneMoreGap(n, gap);
    hide Gaps;
  }

  /** In any window of length `T` at most T / gap + 1 fetches of each kind start, those that are cancelled apart;
      and of the forced ones made with a document at hand, cancelled or not, at most T / kidRefetch + 1. */
  lemma RateIsBounded(run: seq<System>, cfg: Config, i: nat, a: real, T: real)
    requires Run(run, cfg) && i < |run| && 0.0 <= T
    ensures Gaps(|InWindow(run[i].starts, (s: Start) => s.forced && !s.outcome.Cancelled?, a, a + T)|,
              Gap(cfg, true)) <= T
    ensures Gaps(|InWindow(run[i].starts, (s: Start) => !s.forced && !s.outcome.Cancelled?, a, a + T)|,
              Gap(cfg, false)) <= T
    ensures Gaps(|InWindow(run[i].starts, (s: Start) => s.forced && s.cached, a, a + T)|, cfg.kidRefetch) <= T
  {
    hide Gaps, Gap;
    RunKeepsInv(run, cfg, i);
    WindowHolds(run[i].starts, (s: Start) => s.forced && !s.outcome.Cancelled?, a, T, Gap(cfg, true));
    WindowHolds(run[i].starts, (s: Start) => !s.forced && !s.outcome.Cancelled?, a, T, Gap(cfg, false));
    WindowHolds(run[i].starts, (s: Start) => s.forced && s.cached, a, T, cfg.kidRefetch);
  }

  lemma WindowHolds(starts: seq<Start>, counts: Start -> bool, a: real, T: real, gap: real)
    requires Spaced(starts, counts, gap) && 0.0 <= T
    ensures Gaps(|InWindow(starts, counts, a, a + T)|, gap) <= T
  {
    WindowIsApart(starts, counts, a, a + T, gap);
  }
}
