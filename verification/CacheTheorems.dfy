/** What the cache guarantees over whole runs: refinement of direct sync, single flight, refresh rate, counters. */
module CacheTheorems {
  import opened Wrappers
  import opened Extraction
  import opened Selector
  import opened Lookup
  import opened VaultCache
  import opened Census

  /** The state a run reaches from a fresh client. */
  ghost predicate Reaches(cfg: Config, start: Instant, events: seq<Event>, s: State) {
    cfg.minInstant <= start && Run(cfg, Init(start), events) == Some(s)
  }

  lemma ReachableInv(cfg: Config, start: Instant, events: seq<Event>, s: State)
    requires Reaches(cfg, start, events, s)
    ensures Inv(cfg, s) && CountersInv(s)
  {
    InvInit(cfg, start);
    InvRun(cfg, Init(start), events);
    CountersInit(start);
    CountersRun(cfg, Init(start), events);
  }

  // ---- Refinement of "sync, then look up" ----

  /** The task answered as a plain lookup on this vault, which came from one fetch, recent enough for the task. */
  predicate AnswersFrom(cfg: Config, s: State, task: Task, v: CachedVault)
    requires task.pc.Done?
  {
    && FromOneFetch(cfg, s, v)
    && (if cfg.ttl == 0 then v.fetchedAt >= task.started else v.fetchedAt > task.started - cfg.ttl)
    && task.pc.answer == Resolve(cfg.p, v.sync, v.session.userKey, task.selector)
  }

  /**
   Every task that ends normally answers as a plain lookup on one installed vault, whose session and sync come from
   the same fetch, fetched less than a TTL before the task started (with no TTL: not before it started). A task that
   ends with an error reports the one its own login or sync request returned.
   */
  lemma AnswersAreDirectSyncs(cfg: Config, start: Instant, events: seq<Event>, s: State, t: TaskId)
    requires Reaches(cfg, start, events, s) && t in s.tasks && s.tasks[t].pc.Done?
    ensures var task := s.tasks[t];
            if task.pc.outcome.Failed? then
              && task.pc.answer == Err(task.pc.outcome.error)
              && exists k :: 0 <= k < |events| && FetchFails(events[k], t, task.pc.outcome.error)
            else exists i :: 0 <= i < |s.installs| && AnswersFrom(cfg, s, task, s.installs[i])
  {
    ReachableInv(cfg, start, events, s);
    var task := s.tasks[t];
    assert TaskInv(cfg, s, task);
    if !task.pc.outcome.Failed? {
      var i :| 0 <= i < |s.installs| && Recent(cfg, task.started, s.installs[i].fetchedAt)
               && task.pc.answer == Resolve(cfg.p, s.installs[i].sync, s.installs[i].session.userKey, task.selector);
      assert AnswersFrom(cfg, s, task, s.installs[i]);
    } else {
      FailureRun(cfg, Init(start), events, t);
    }
  }

  /** The login or the sync request of this task failed with this error. */
  predicate FetchFails(e: Event, t: TaskId, error: ClientError) {
    e.task == t && (e.action == LoginReturns(Err(error)) || e.action == SyncReturns(Err(error)))
  }

  /** The error a task is about to report, or has reported. */
  function FailureOf(pc: Pc): Option<ClientError> {
    match pc
    case CountFailure(e) => Some(e)
    case ReleaseRefresh(Failed(e)) => Some(e)
    case Done(Failed(e), _) => Some(e)
    case _ => None
  }

  function FailureAt(s: State, t: TaskId): Option<ClientError> {
    if t in s.tasks then FailureOf(s.tasks[t].pc) else None
  }

  /** An error appears only when a request of the task itself fails. */
  lemma OwnFailureStep(cfg: Config, s: State, t: TaskId, a: Action)
    requires Next(cfg, s, t, a).Some?
    requires t in s.tasks && (s.tasks[t].pc.AwaitLookup? || s.tasks[t].pc.HoldLookup?) ==> !s.tasks[t].pc.outcome.Failed?
    ensures var e := FailureAt(Next(cfg, s, t, a).value, t);
            e.Some? ==> FailureAt(s, t) == e || FetchFails(Event(t, a), t, e.value)
  {
  }

  lemma FailureStep(cfg: Config, s: State, u: TaskId, a: Action, t: TaskId)
    requires Inv(cfg, s) && Next(cfg, s, u, a).Some?
    ensures var e := FailureAt(Next(cfg, s, u, a).value, t);
            e.Some? ==> FailureAt(s, t) == e || FetchFails(Event(u, a), t, e.value)
  {
    if t == u {
      if t in s.tasks {
        assert TaskInv(cfg, s, s.tasks[t]);
      }
      OwnFailureStep(cfg, s, t, a);
    } else if t in s.tasks {
      OthersStay(cfg, s, u, a, t);
    } else {
      NoNewcomers(cfg, s, u, a, t);
    }
  }

  /** Every error a task reports came out of one of its own requests during the run. */
  lemma {:induction false} FailureRun(cfg: Config, s: State, events: seq<Event>, t: TaskId)
    requires Inv(cfg, s) && Run(cfg, s, events).Some?
    ensures var e := FailureAt(Run(cfg, s, events).value, t);
            e.Some? ==> FailureAt(s, t) == e || exists k :: 0 <= k < |events| && FetchFails(events[k], t, e.value)
    decreases |events|
  {
    if events != [] {
      var (u, a) := (events[0].task, events[0].action);
      var m := Next(cfg, s, u, a).value;
      InvStep(cfg, s, u, a);
      FailureStep(cfg, s, u, a, t);
      FailureRun(cfg, m, events[1..], t);
      var e := FailureAt(Run(cfg, m, events[1..]).value, t);
      if e.Some? && FailureAt(m, t) != e {
        var k :| 0 <= k < |events[1..]| && FetchFails(events[1..][k], t, e.value);
        assert FetchFails(events[k + 1], t, e.value);
      } else if e.Some? && FailureAt(s, t) != e {
        assert FetchFails(events[0], t, e.value);
      }
    }
  }

  /** A task that reaches the lookup finds a vault, so it never reports a missing sync. */
  lemma LookupFindsAVault(cfg: Config, start: Instant, events: seq<Event>, s: State, t: TaskId)
    requires Reaches(cfg, start, events, s) && t in s.tasks && s.tasks[t].pc.HoldLookup?
    ensures s.cache.Some? && Next(cfg, s, t, LookUp).Some?
  {
    ReachableInv(cfg, start, events, s);
    assert TaskInv(cfg, s, s.tasks[t]);
  }

  // ---- Single flight ----

  /** At most one task is inside the refresh lock, so at most one fetch is in flight. */
  lemma SingleFlight(cfg: Config, start: Instant, events: seq<Event>, s: State, t: TaskId, u: TaskId)
    requires Reaches(cfg, start, events, s) && t in s.tasks && u in s.tasks
    requires HoldsRefresh(s.tasks[t].pc) && HoldsRefresh(s.tasks[u].pc)
    ensures t == u
  {
    ReachableInv(cfg, start, events, s);
    assert s.refreshLock == Some(t) && s.refreshLock == Some(u);
  }

  /** Only the holder of the refresh lock changes the cache, and the vault only gets newer. */
  lemma CacheOnlyGetsNewer(cfg: Config, start: Instant, events: seq<Event>, s: State, t: TaskId, a: Action)
    requires Reaches(cfg, start, events, s) && Next(cfg, s, t, a).Some?
    ensures var u := Next(cfg, s, t, a).value;
            && (u.cache != s.cache ==> s.refreshLock == Some(t) && a.Install?)
            && (s.cache.Some? ==> u.cache.Some? && u.cache.value.fetchedAt >= s.cache.value.fetchedAt)
  {
    ReachableInv(cfg, start, events, s);
    StepEffects(cfg, s, t, a);
    if a.Install? {
      assert TaskInv(cfg, s, s.tasks[t]);
      assert s.refreshLock == Some(t);
    }
  }

  /** What comes next for a task at this position, with some outcome for what it awaits. */
  function Pending(pc: Pc): Action {
    match pc
    case AwaitCache(_) => LockCache
    case HoldCache(_) => TestFreshness
    case CountHit(_) => BumpHits
    case AwaitRefresh => LockRefresh
    case AwaitLogin => LoginReturns(Err(Api(Http)))
    case AwaitSync(_) => SyncReturns(Err(Api(Http)))
    case CountSuccess(_) => BumpSuccesses
    case CountFailure(_) => BumpFailures
    case AwaitInstall(_) => LockCache
    case HoldInstall(_) => Install
    case ReleaseRefresh(_) => UnlockRefresh
    case AwaitLookup(_) => LockCache
    case HoldLookup(_) => LookUp
    case _ => Cancel
  }

  /** Only a held lock can keep a task from its next step. */
  lemma PendingIsEnabled(cfg: Config, s: State, t: TaskId)
    requires t in s.tasks && TaskInv(cfg, s, s.tasks[t]) && !Finished(s.tasks[t].pc)
    requires HoldsCacheMutex(s.tasks[t].pc) || s.cacheMutex.None?
    requires s.tasks[t].pc.AwaitRefresh? ==> s.refreshLock.None?
    ensures Next(cfg, s, t, Pending(s.tasks[t].pc)).Some?
  {
  }

  /** No deadlock: while some task is unfinished, some task has a step of its own to take. */
  lemma SomeTaskCanMove(cfg: Config, start: Instant, events: seq<Event>, s: State, t: TaskId)
    requires Reaches(cfg, start, events, s) && t in s.tasks && !Finished(s.tasks[t].pc)
    ensures exists u: TaskId :: u in s.tasks && !Finished(s.tasks[u].pc) && Next(cfg, s, u, Pending(s.tasks[u].pc)).Some?
  {
    ReachableInv(cfg, start, events, s);
    var u := if s.cacheMutex.Some? then s.cacheMutex.value
             else if s.tasks[t].pc.AwaitRefresh? && s.refreshLock.Some? then s.refreshLock.value
             else t;
    assert s.cacheMutex == Some(u) || s.refreshLock == Some(u) || u == t;
    assert u in s.tasks && TaskInv(cfg, s, s.tasks[u]);
    PendingIsEnabled(cfg, s, u);
  }

  // ---- Refresh rate ----

  /** Consecutive installs are apart by at least the time the earlier vault stayed fresh. */
  lemma InstallsAreSpaced(cfg: Config, start: Instant, events: seq<Event>, s: State, i: nat)
    requires Reaches(cfg, start, events, s) && i + 1 < |s.installs|
    ensures s.installs[i + 1].fetchedAt >= s.installs[i].fetchedAt + FreshFor(cfg, s.installs[i].session, s.installs[i].fetchedAt)
    ensures s.installs[i + 1].fetchedAt >= s.installs[i].fetchedAt
  {
    ReachableInv(cfg, start, events, s);
    var v := s.installs[i];
    assert FromOneFetch(cfg, s, v);
    assert StaleAt(cfg, Some(v), s.installs[i + 1].fetchedAt);
    DeadlineIsFreshFor(cfg, s.logins[v.fetch], s.syncs[v.fetch], v.fetchedAt, v.fetch);
  }

  lemma {:induction false} SpacingAddsUp(cfg: Config, start: Instant, events: seq<Event>, s: State, gap: nat, i: nat, j: nat)
    requires Reaches(cfg, start, events, s) && i <= j < |s.installs|
    requires forall v :: v in s.installs ==> FreshFor(cfg, v.session, v.fetchedAt) >= gap
    ensures s.installs[j].fetchedAt >= s.installs[i].fetchedAt + (j - i) * gap
    decreases j - i
  {
    if i < j {
      SpacingAddsUp(cfg, start, events, s, gap, i, j - 1);
      InstallsAreSpaced(cfg, start, events, s, j - 1);
      assert s.installs[j - 1] in s.installs;
      assert (j - i) * gap == (j - 1 - i) * gap + gap;
    }
  }

  function InstalledWithin(s: State, from: Instant, window: nat): set<nat> {
    set i: nat | i < |s.installs| && from <= s.installs[i].fetchedAt <= from + window
  }

  /** With every vault good for at least `gap`, a window of time sees at most window / gap + 1 installs. */
  lemma RefreshRateIsBounded(cfg: Config, start: Instant, events: seq<Event>, s: State, gap: nat, from: Instant, window: nat)
    requires Reaches(cfg, start, events, s) && gap > 0
    requires forall v :: v in s.installs ==> FreshFor(cfg, v.session, v.fetchedAt) >= gap
    ensures |InstalledWithin(s, from, window)| <= window / gap + 1
  {
    var inside := InstalledWithin(s, from, window);
    if inside != {} {
      var low := Least(inside);
      forall j | j in inside
        ensures low <= j < low + window / gap + 1
      {
        SpacingAddsUp(cfg, start, events, s, gap, low, j);
        assert (j - low) * gap <= window;
        Quotient(j - low, gap, window);
      }
      IntervalSize(inside, low, low + window / gap + 1);
    }
  }

  lemma MultiplyKeepsOrder(a: nat, b: nat, factor: nat)
    requires a <= b
    ensures a * factor <= b * factor
  {
    assert b * factor == a * factor + (b - a) * factor;
  }

  lemma Quotient(k: nat, gap: nat, window: nat)
    requires gap > 0 && k * gap <= window
    ensures k <= window / gap
  {
    var bound: nat := window / gap + 1;
    assert window < bound * gap;
    if bound <= k {
      MultiplyKeepsOrder(bound, k, gap);
    }
  }

  lemma {:induction false} Least(indices: set<nat>) returns (low: nat)
    requires indices != {}
    ensures low in indices && forall i :: i in indices ==> low <= i
    decreases |indices|
  {
    var some :| some in indices;
    var rest := indices - {some};
    assert forall i :: i in indices ==> i == some || i in rest;
    low := some;
    if rest != {} {
      var other := Least(rest);
      if other < some {
        low := other;
      }
    }
  }

  // ---- Counters ----

  predicate CountedHit(task: Task) {
    Counted(task.pc) == Some(CacheHit)
  }

  predicate CountedSuccess(task: Task) {
    Counted(task.pc) == Some(Refreshed)
  }

  predicate CountedFailure(task: Task) {
    Counted(task.pc).Some? && Counted(task.pc).value.Failed?
  }

  /** Some counter knows of the task. */
  predicate CountedAtAll(task: Task) {
    Counted(task.pc).Some?
  }

  /** Counted as a success but not installed yet. */
  predicate Installing(task: Task) {
    task.pc.AwaitInstall? || task.pc.HoldInstall?
  }

  /** Cancelled in that gap. */
  predicate Abandoned(task: Task) {
    task.pc.Cancelled? && task.pc.at.AwaitInstall?
  }

  predicate Installed(task: Task) {
    CountedSuccess(task) && !Installing(task) && !Abandoned(task)
  }

  ghost predicate CountersInv(s: State) {
    && s.hits == |Where(s.tasks, CountedHit)|
    && s.successes == |Where(s.tasks, CountedSuccess)|
    && s.failures == |Where(s.tasks, CountedFailure)|
    && |s.installs| == |Where(s.tasks, Installed)|
  }

  lemma CountersInit(start: Instant)
    ensures CountersInv(Init(start))
  {
    assert Where(Init(start).tasks, CountedHit) == {};
    assert Where(Init(start).tasks, CountedSuccess) == {};
    assert Where(Init(start).tasks, CountedFailure) == {};
    assert Where(Init(start).tasks, Installed) == {};
  }

  /** Which counter a step bumps, read off the positions before and after. */
  lemma CountedStep(cfg: Config, s: State, t: TaskId, a: Action)
    requires Next(cfg, s, t, a).Some? && t in s.tasks && t in Next(cfg, s, t, a).value.tasks
    requires !a.Tick? && !a.Spawn? && !a.Cancel?
    requires s.tasks[t].pc.AwaitLookup? || s.tasks[t].pc.HoldLookup? ==> !s.tasks[t].pc.outcome.Failed?
    ensures var u := Next(cfg, s, t, a).value;
            var (before, after) := (s.tasks[t], u.tasks[t]);
            && u.hits == s.hits + One(CountedHit(after)) - One(CountedHit(before))
            && u.successes == s.successes + One(CountedSuccess(after)) - One(CountedSuccess(before))
            && u.failures == s.failures + One(CountedFailure(after)) - One(CountedFailure(before))
  {
  }

  /** Cancelling does not change what is known of the outcome. */
  lemma CancelKeepsCounted(cfg: Config, s: State, t: TaskId)
    requires Next(cfg, s, t, Cancel).Some?
    ensures var u := Next(cfg, s, t, Cancel).value;
            && t in s.tasks && t in u.tasks
            && Counted(u.tasks[t].pc) == Counted(s.tasks[t].pc) && (Installed(u.tasks[t]) <==> Installed(s.tasks[t]))
  {
  }

  lemma InstalledStep(cfg: Config, s: State, t: TaskId, a: Action)
    requires Next(cfg, s, t, a).Some? && t in s.tasks && t in Next(cfg, s, t, a).value.tasks
    requires !a.Tick? && !a.Spawn? && !a.Cancel?
    requires s.tasks[t].pc.AwaitLookup? || s.tasks[t].pc.HoldLookup? ==> !s.tasks[t].pc.outcome.Failed?
    ensures One(Installed(Next(cfg, s, t, a).value.tasks[t])) == One(a.Install?) + One(Installed(s.tasks[t]))
  {
  }

  /** A state whose one changed task accounts for every counter that moved. */
  lemma CountersMove(s: State, u: State, t: TaskId)
    requires CountersInv(s) && t in u.tasks && u.tasks == s.tasks[t := u.tasks[t]]
    requires u.hits == s.hits + One(CountedHit(u.tasks[t])) - One(t in s.tasks && CountedHit(s.tasks[t]))
    requires u.successes == s.successes + One(CountedSuccess(u.tasks[t])) - One(t in s.tasks && CountedSuccess(s.tasks[t]))
    requires u.failures == s.failures + One(CountedFailure(u.tasks[t])) - One(t in s.tasks && CountedFailure(s.tasks[t]))
    requires |u.installs| == |s.installs| + One(Installed(u.tasks[t])) - One(t in s.tasks && Installed(s.tasks[t]))
    ensures CountersInv(u)
  {
    WhereUpdate(s.tasks, t, u.tasks[t], CountedHit);
    WhereUpdate(s.tasks, t, u.tasks[t], CountedSuccess);
    WhereUpdate(s.tasks, t, u.tasks[t], CountedFailure);
    WhereUpdate(s.tasks, t, u.tasks[t], Installed);
  }

  lemma CountersStep(cfg: Config, s: State, t: TaskId, a: Action)
    requires Inv(cfg, s) && CountersInv(s) && Next(cfg, s, t, a).Some?
    ensures CountersInv(Next(cfg, s, t, a).value)
  {
    var u := Next(cfg, s, t, a).value;
    StepEffects(cfg, s, t, a);
    if a.Spawn? {
      CountersMove(s, u, t);
    } else if a.Cancel? {
      StepShape(cfg, s, t, a);
      CancelKeepsCounted(cfg, s, t);
      CountersMove(s, u, t);
    } else if !a.Tick? {
      StepShape(cfg, s, t, a);
      assert TaskInv(cfg, s, s.tasks[t]);
      CountedStep(cfg, s, t, a);
      InstalledStep(cfg, s, t, a);
      CountersMove(s, u, t);
    }
  }

  lemma {:induction false} CountersRun(cfg: Config, s: State, events: seq<Event>)
    requires Inv(cfg, s) && CountersInv(s) && Run(cfg, s, events).Some?
    ensures CountersInv(Run(cfg, s, events).value)
    decreases |events|
  {
    if events != [] {
      var (t, a) := (events[0].task, events[0].action);
      InvStep(cfg, s, t, a);
      CountersStep(cfg, s, t, a);
      CountersRun(cfg, Next(cfg, s, t, a).value, events[1..]);
    }
  }

  /**
   Every task whose outcome is known is counted once, in the counter of its outcome; and each success was installed,
   is about to be, or was cancelled in that gap. At most one is about to be.
   */
  lemma CountersAreConserved(cfg: Config, start: Instant, events: seq<Event>, s: State)
    requires Reaches(cfg, start, events, s)
    ensures s.hits == |Where(s.tasks, CountedHit)| && s.failures == |Where(s.tasks, CountedFailure)|
    ensures s.hits + s.successes + s.failures == |Where(s.tasks, CountedAtAll)|
    ensures s.successes == |s.installs| + |Where(s.tasks, Installing)| + |Where(s.tasks, Abandoned)|
    ensures |Where(s.tasks, Installing)| <= 1
  {
    ReachableInv(cfg, start, events, s);
    WhereSplits(s.tasks, CountedAtAll, CountedHit, CountedSuccess, CountedFailure);
    SuccessesSplit(s);
    AtMostOneInstalls(cfg, s);
  }

  lemma SuccessesSplit(s: State)
    ensures |Where(s.tasks, CountedSuccess)|
         == |Where(s.tasks, Installed)| + |Where(s.tasks, Installing)| + |Where(s.tasks, Abandoned)|
  {
    forall t | t in s.tasks && Abandoned(s.tasks[t])
      ensures CountedSuccess(s.tasks[t])
    {
      assert Counted(s.tasks[t].pc.at) == Some(Refreshed);
    }
    WhereSplits(s.tasks, CountedSuccess, Installed, Installing, Abandoned);
  }

  lemma AtMostOneInstalls(cfg: Config, s: State)
    requires Inv(cfg, s)
    ensures |Where(s.tasks, Installing)| <= 1
  {
    var installing := Where(s.tasks, Installing);
    if installing != {} {
      var t :| t in installing;
      forall u | u in installing
        ensures u == t
      {
        assert s.refreshLock == Some(t) && s.refreshLock == Some(u);
      }
      assert installing == {t};
    }
  }

  // ---- A burst of calls on a stale cache ----

  /** Time and history only move forward, and a finished task stays as it is. */
  ghost predicate Extends(s: State, u: State) {
    && s.now <= u.now
    && s.installs <= u.installs
    && forall t :: t in s.tasks ==> t in u.tasks && (Finished(s.tasks[t].pc) ==> u.tasks[t] == s.tasks[t])
  }

  lemma ExtendsStep(cfg: Config, s: State, t: TaskId, a: Action)
    requires Inv(cfg, s) && Next(cfg, s, t, a).Some?
    ensures Extends(s, Next(cfg, s, t, a).value)
  {
    StepEffects(cfg, s, t, a);
    forall o | o in s.tasks
      ensures var u := Next(cfg, s, t, a).value; o in u.tasks && (Finished(s.tasks[o].pc) ==> u.tasks[o] == s.tasks[o])
    {
      if o != t || a.Tick? {
        OthersStay(cfg, s, t, a, o);
      } else {
        FinishedStaysPut(cfg, s, t, a);
      }
    }
  }

  lemma FinishedStaysPut(cfg: Config, s: State, t: TaskId, a: Action)
    requires Next(cfg, s, t, a).Some? && t in s.tasks && !a.Tick?
    ensures t in Next(cfg, s, t, a).value.tasks && !Finished(s.tasks[t].pc)
  {
  }

  lemma {:induction false} ExtendsRun(cfg: Config, s: State, events: seq<Event>)
    requires Inv(cfg, s) && Run(cfg, s, events).Some?
    ensures Extends(s, Run(cfg, s, events).value)
    decreases |events|
  {
    if events != [] {
      var (t, a) := (events[0].task, events[0].action);
      InvStep(cfg, s, t, a);
      ExtendsStep(cfg, s, t, a);
      ExtendsRun(cfg, Next(cfg, s, t, a).value, events[1..]);
    }
  }

  /** The cache is stale and nobody is about to report a hit. */
  ghost predicate NoHitInSight(cfg: Config, s: State) {
    StaleAt(cfg, s.cache, s.now) && forall t :: t in s.tasks ==> !s.tasks[t].pc.CountHit?
  }

  /** A hit is counted by a task that found the cache fresh, and that only happens at a fresh cache. */
  lemma HitsComeFromFreshCache(cfg: Config, s: State, t: TaskId, a: Action)
    requires Next(cfg, s, t, a).Some? && (t in s.tasks ==> !s.tasks[t].pc.CountHit?)
    requires s.cache.Some? ==> !IsFreshAt(cfg, s.cache.value, s.now)
    ensures var u := Next(cfg, s, t, a).value; u.hits == s.hits && (t in u.tasks ==> !u.tasks[t].pc.CountHit?)
  {
  }

  lemma NoHitStep(cfg: Config, s: State, t: TaskId, a: Action)
    requires Inv(cfg, s) && NoHitInSight(cfg, s) && Next(cfg, s, t, a).Some? && !a.Install?
    ensures var u := Next(cfg, s, t, a).value; u.hits == s.hits && NoHitInSight(cfg, u)
  {
    var u := Next(cfg, s, t, a).value;
    if s.cache.Some? {
      assert s.cache.value == s.installs[|s.installs| - 1];
      FreshIffBeforeDeadline(cfg, s.cache.value, s.now);
    }
    StepEffects(cfg, s, t, a);
    HitsComeFromFreshCache(cfg, s, t, a);
    forall o | o in u.tasks
      ensures !u.tasks[o].pc.CountHit?
    {
      if o != t && o in s.tasks {
        OthersStay(cfg, s, t, a, o);
      } else if o != t {
        NoNewcomers(cfg, s, t, a, o);
      }
    }
  }

  lemma NoNewcomers(cfg: Config, s: State, t: TaskId, a: Action, o: TaskId)
    requires Next(cfg, s, t, a).Some? && o != t && o !in s.tasks
    ensures o !in Next(cfg, s, t, a).value.tasks
  {
  }

  /** As long as nothing is installed, a stale cache answers nobody. */
  lemma {:induction false} NoHitRun(cfg: Config, s: State, events: seq<Event>)
    requires Inv(cfg, s) && NoHitInSight(cfg, s) && Run(cfg, s, events).Some?
    requires |Run(cfg, s, events).value.installs| == |s.installs|
    ensures Run(cfg, s, events).value.hits == s.hits
    decreases |events|
  {
    if events != [] {
      var (t, a) := (events[0].task, events[0].action);
      var u := Next(cfg, s, t, a).value;
      InvStep(cfg, s, t, a);
      ExtendsRun(cfg, u, events[1..]);
      assert a.Install? ==> |u.installs| == |s.installs| + 1;
      NoHitStep(cfg, s, t, a);
      assert |u.installs| == |s.installs| by { ExtendsStep(cfg, s, t, a); }
      NoHitRun(cfg, u, events[1..]);
    }
  }

  /** The tasks of `u` that were not finished in `s`. */
  function Callers(s: State, u: State): set<TaskId> {
    set t | t in u.tasks && !(t in s.tasks && Finished(s.tasks[t].pc))
  }

  /** Every task of `s` is finished or has yet to look at the cache. */
  ghost predicate Quiet(s: State) {
    forall t :: t in s.tasks ==> Finished(s.tasks[t].pc) || s.tasks[t].pc == AwaitCache(First)
  }

  /** All callers got an answer from a vault. */
  ghost predicate AllServed(s: State, u: State) {
    forall t :: t in Callers(s, u) ==> u.tasks[t].pc.Done? && !u.tasks[t].pc.outcome.Failed?
  }

  lemma CallersAreNew(s: State, u: State)
    requires Extends(s, u) && Quiet(s) && AllServed(s, u)
    ensures forall t :: t in u.tasks ==> (t in Callers(s, u) <==> !(t in s.tasks && s.tasks[t] == u.tasks[t]))
    ensures forall t :: t in Callers(s, u) && t in s.tasks ==> Counted(s.tasks[t].pc).None?
  {
  }

  /** Each counter grew by the callers that it counted. */
  lemma CallersAreCounted(s: State, u: State)
    requires CountersInv(s) && CountersInv(u) && Extends(s, u) && Quiet(s) && AllServed(s, u)
    ensures Callers(s, u) <= u.tasks.Keys
    ensures u.hits == s.hits + |Among(Callers(s, u), u.tasks, CountedHit)|
    ensures u.successes == s.successes + |Among(Callers(s, u), u.tasks, CountedSuccess)|
    ensures u.failures == s.failures + |Among(Callers(s, u), u.tasks, CountedFailure)|
    ensures |u.installs| == |s.installs| + |Among(Callers(s, u), u.tasks, Installed)|
  {
    var callers := Callers(s, u);
    CallersAreNew(s, u);
    WhereGrows(s.tasks, u.tasks, CountedHit, callers);
    WhereGrows(s.tasks, u.tasks, CountedSuccess, callers);
    WhereGrows(s.tasks, u.tasks, CountedFailure, callers);
    WhereGrows(s.tasks, u.tasks, Installed, callers);
  }

  /** What the callers added to the counters. */
  lemma CallersAddUp(s: State, u: State)
    requires CountersInv(s) && CountersInv(u) && Extends(s, u) && Quiet(s) && AllServed(s, u)
    ensures u.failures == s.failures
    ensures u.successes - s.successes == |u.installs| - |s.installs|
    ensures |Callers(s, u)| == (u.hits - s.hits) + (u.successes - s.successes)
  {
    var callers := Callers(s, u);
    CallersAreCounted(s, u);
    AmongSplits(callers, u.tasks, CountedHit, CountedSuccess);
    AmongSame(callers, u.tasks, CountedSuccess, Installed);
    AmongNone(callers, u.tasks, CountedFailure);
  }

  /** A vault has been replaced only once it was stale. */
  lemma ReplacedWhenStale(cfg: Config, s: State, i: nat)
    requires Inv(cfg, s) && i + 1 < |s.installs|
    ensures Deadline(cfg, s.installs[i]) <= s.now
  {
    var next := s.installs[i + 1];
    assert StaleAt(cfg, Some(s.installs[i + 1 - 1]), next.fetchedAt);
    assert FromOneFetch(cfg, s, next);
  }

  lemma QuietHasNoHitInSight(cfg: Config, s: State)
    requires Quiet(s) && StaleAt(cfg, s.cache, s.now)
    ensures NoHitInSight(cfg, s)
  {
  }

  /**
   Calls that arrive on a stale cache, all served, with a first fetch that stays fresh to the end: one of them
   fetched and all the others were hits.
   */
  lemma BurstFetchesOnce(cfg: Config, start: Instant, before: seq<Event>, s: State, during: seq<Event>, u: State)
    requires Reaches(cfg, start, before, s) && Run(cfg, s, during) == Some(u)
    requires Quiet(s) && StaleAt(cfg, s.cache, s.now)
    requires Callers(s, u) != {} && AllServed(s, u)
    requires |u.installs| > |s.installs| ==> u.now < Deadline(cfg, u.installs[|s.installs|])
    ensures |u.installs| == |s.installs| + 1 && u.successes == s.successes + 1
    ensures u.hits == s.hits + |Callers(s, u)| - 1 && u.failures == s.failures
  {
    ReachableInv(cfg, start, before, s);
    InvRun(cfg, s, during);
    CountersRun(cfg, s, during);
    ExtendsRun(cfg, s, during);
    BurstAdds(cfg, s, during, u);
  }

  lemma BurstAdds(cfg: Config, s: State, during: seq<Event>, u: State)
    requires Inv(cfg, s) && Inv(cfg, u) && CountersInv(s) && CountersInv(u) && Extends(s, u)
    requires Run(cfg, s, during) == Some(u)
    requires Quiet(s) && StaleAt(cfg, s.cache, s.now)
    requires Callers(s, u) != {} && AllServed(s, u)
    requires |u.installs| > |s.installs| ==> u.now < Deadline(cfg, u.installs[|s.installs|])
    ensures |u.installs| == |s.installs| + 1 && u.successes == s.successes + 1
    ensures u.hits == s.hits + |Callers(s, u)| - 1 && u.failures == s.failures
  {
    CallersAddUp(s, u);
    if |u.installs| > |s.installs| {
      if |u.installs| > |s.installs| + 1 {
        ReplacedWhenStale(cfg, u, |s.installs|);
      }
    } else {
      QuietHasNoHitInSight(cfg, s);
      NoHitRun(cfg, s, during);
    }
  }
}
