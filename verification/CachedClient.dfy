/**
 One call of the client in its own, imperative form, with what other calls leave behind at its two long waits; and the
 proof that such a call, disturbed there by any run of other tasks, is one of the runs of the step system.
 */
module CachedClient {
  import opened Wrappers
  import opened Crypto
  import opened Extraction
  import opened Selector
  import opened Lookup
  import opened VaultCache

  datatype Client = Client(cache: Option<CachedVault>, hits: nat, successes: nat, failures: nat)

  /** What the two requests of a fetch return, and when the second one does. */
  datatype Fetch = Fetch(
    login: Result<Session, ClientError>, sync: Result<SyncResponse, ClientError>, at: Instant, number: nat)
  {
    function Vault(cfg: Config): Result<CachedVault, ClientError> {
      match (login, sync)
      case (Err(e), _) => Err(e)
      case (_, Err(e)) => Err(e)
      case (Ok(session), Ok(response)) => Ok(NewVault(cfg, session, response, at, number))
    }
  }

  /**
   What the clock and the other calls show: the instants of the two checks, the client as it is found when the refresh
   lock is taken, and as it is found at the lookup; None when nobody interfered.
   */
  datatype Timing = Timing(checkedAt: Instant, recheckedAt: Instant, atLock: Option<Client>, atLookup: Option<Client>)

  predicate FreshBy(cfg: Config, c: Client, now: Instant) {
    c.cache.Some? && now < Deadline(cfg, c.cache.value)
  }

  /** A vault before its deadline is used, be it there at first or when the lock is taken; otherwise the fetch decides. */
  function Ensured(cfg: Config, c: Client, when: Timing, fetch: Fetch): (Client, Result<(), ClientError>) {
    var found := if when.atLock.Some? then when.atLock.value else c;
    if FreshBy(cfg, c, when.checkedAt) then (c.(hits := c.hits + 1), Ok(()))
    else if FreshBy(cfg, found, when.recheckedAt) then (found.(hits := found.hits + 1), Ok(()))
    else
      match fetch.Vault(cfg)
      case Err(e) => (found.(failures := found.failures + 1), Err(e))
      case Ok(vault) => (found.(cache := Some(vault), successes := found.successes + 1), Ok(()))
  }

  /** The lookup answers from the cache it finds. */
  function Resolved(cfg: Config, c: Client, when: Timing, fetch: Fetch, selector: BitwardenSelector)
    : (Client, Result<SecretDocument, ClientError>)
  {
    var (ensured, r) := Ensured(cfg, c, when, fetch);
    var found := if when.atLookup.Some? then when.atLookup.value else ensured;
    if r.Err? then (ensured, Err(r.error)) else (found, Answer(cfg, found.cache, selector))
  }

  /** The clock only moves forward. */
  predicate Ordered(cfg: Config, c: Client, when: Timing) {
    && cfg.minInstant <= when.checkedAt <= when.recheckedAt
    && (c.cache.Some? ==> c.cache.value.fetchedAt <= when.checkedAt)
    && (when.atLock.Some? && when.atLock.value.cache.Some? ==>
          when.atLock.value.cache.value.fetchedAt <= when.recheckedAt)
  }

  class BitwardenApiClient {
    const cfg: Config
    var cache: Option<CachedVault>
    var hits: nat
    var successes: nat
    var failures: nat

    ghost function View(): Client
      reads this
    {
      Client(cache, hits, successes, failures)
    }

    constructor (cfg: Config)
      ensures this.cfg == cfg && View() == Client(None, 0, 0, 0)
    {
      this.cfg := cfg;
      cache, hits, successes, failures := None, 0, 0, 0;
    }

    method HasFreshCache(now: Instant) returns (isFresh: bool)
      requires cfg.minInstant <= now && (cache.Some? ==> cache.value.fetchedAt <= now)
      ensures isFresh == FreshBy(cfg, View(), now)
    {
      if cache.None? {
        return false;
      }
      FreshIffBeforeDeadline(cfg, cache.value, now);
      isFresh := IsFreshAt(cfg, cache.value, now);
    }

    /** What a wait does to the client: whatever the others did. */
    method Find(others: Option<Client>)
      modifies this
      ensures View() == if others.Some? then others.value else old(View())
    {
      if others.Some? {
        var c := others.value;
        cache, hits, successes, failures := c.cache, c.hits, c.successes, c.failures;
      }
    }

    method EnsureFreshCachedSync(when: Timing, fetch: Fetch) returns (r: Result<(), ClientError>)
      requires Ordered(cfg, View(), when)
      modifies this
      ensures (View(), r) == Ensured(cfg, old(View()), when, fetch)
    {
      var isFresh := HasFreshCache(when.checkedAt);
      if isFresh {
        hits := hits + 1;
        return Ok(());
      }
      Find(when.atLock);
      isFresh := HasFreshCache(when.recheckedAt);
      if isFresh {
        hits := hits + 1;
        return Ok(());
      }
      var vault := fetch.Vault(cfg);
      if vault.Err? {
        failures := failures + 1;
        return Err(vault.error);
      }
      successes := successes + 1;
      cache := Some(vault.value);
      r := Ok(());
    }

    method ResolveWithCachedSync(when: Timing, fetch: Fetch, selector: BitwardenSelector)
      returns (r: Result<SecretDocument, ClientError>)
      requires Ordered(cfg, View(), when)
      modifies this
      ensures (View(), r) == Resolved(cfg, old(View()), when, fetch, selector)
    {
      var ensured := EnsureFreshCachedSync(when, fetch);
      if ensured.Err? {
        return Err(ensured.error);
      }
      Find(when.atLookup);
      if cache.None? {
        return Err(Api(MissingCachedSync));
      }
      r := Resolve(cfg.p, cache.value.sync, cache.value.session.userKey, selector);
    }
  }

  // ---- The call as a run ----

  function ClientOf(s: State): Client {
    Client(s.cache, s.hits, s.successes, s.failures)
  }

  ghost predicate Leads(cfg: Config, s: State, u: State) {
    exists events :: Run(cfg, s, events) == Some(u)
  }

  lemma LeadsNowhere(cfg: Config, s: State)
    ensures Leads(cfg, s, s)
  {
    assert Run(cfg, s, []) == Some(s);
  }

  lemma {:induction false} RunSnoc(cfg: Config, s: State, events: seq<Event>, m: State, e: Event)
    requires Run(cfg, s, events) == Some(m)
    ensures Run(cfg, s, events + [e]) == Next(cfg, m, e.task, e.action)
    decreases |events|
  {
    if events == [] {
      assert events + [e] == [e];
      assert [e][1..] == [];
    } else {
      assert (events + [e])[1..] == events[1..] + [e];
      RunSnoc(cfg, Next(cfg, s, events[0].task, events[0].action).value, events[1..], m, e);
    }
  }

  lemma LeadsOn(cfg: Config, s: State, m: State, t: TaskId, a: Action, u: State)
    requires Leads(cfg, s, m) && Next(cfg, m, t, a) == Some(u)
    ensures Leads(cfg, s, u)
  {
    var events :| Run(cfg, s, events) == Some(m);
    RunSnoc(cfg, s, events, m, Event(t, a));
    assert Run(cfg, s, events + [Event(t, a)]) == Some(u);
  }

  predicate LocksFree(s: State) {
    s.refreshLock.None? && s.cacheMutex.None?
  }

  /** The state with task `t` at `pc`. */
  function At(s: State, t: TaskId, selector: BitwardenSelector, started: Instant, pc: Pc): State {
    s.(tasks := s.tasks[t := Task(selector, started, pc)])
  }

  lemma AtAgain(s: State, t: TaskId, selector: BitwardenSelector, started: Instant, pc: Pc, next: Pc)
    ensures Move(At(s, t, selector, started, pc), t, next) == At(s, t, selector, started, next)
  {
    assert s.tasks[t := Task(selector, started, pc)][t := Task(selector, started, next)]
        == s.tasks[t := Task(selector, started, next)];
  }

  /** One step of the task: it goes from `pc` to `next` while the rest of the state goes from `m` to `n`. */
  lemma GoOn(cfg: Config, s: State, m: State, n: State, t: TaskId, sel: BitwardenSelector, started: Instant,
             pc: Pc, a: Action, next: Pc)
    requires Leads(cfg, s, At(m, t, sel, started, pc))
    requires !a.Tick? && !a.Spawn? && n.tasks == m.tasks
    requires Next(cfg, At(m, t, sel, started, pc), t, a)
          == Some(Move(At(m, t, sel, started, pc), t, next).(
               cache := n.cache, cacheMutex := n.cacheMutex, refreshLock := n.refreshLock,
               hits := n.hits, successes := n.successes, failures := n.failures,
               logins := n.logins, syncs := n.syncs, installs := n.installs))
    requires n.now == m.now
    ensures Leads(cfg, s, At(n, t, sel, started, next))
  {
    AtAgain(m, t, sel, started, pc, next);
    LeadsOn(cfg, s, At(m, t, sel, started, pc), t, a, At(n, t, sel, started, next));
  }

  lemma LookUpRuns(cfg: Config, s: State, m: State, t: TaskId, sel: BitwardenSelector, started: Instant, outcome: Outcome)
    requires m.cacheMutex.None? && Leads(cfg, s, At(m, t, sel, started, AwaitLookup(outcome)))
    ensures Leads(cfg, s, At(m, t, sel, started, Done(outcome, Answer(cfg, m.cache, sel))))
  {
    var held := m.(cacheMutex := Some(t));
    GoOn(cfg, s, m, held, t, sel, started, AwaitLookup(outcome), LockCache, HoldLookup(outcome));
    GoOn(cfg, s, held, m, t, sel, started, HoldLookup(outcome), LookUp, Done(outcome, Answer(cfg, m.cache, sel)));
  }

  /** Both checks: take the mutex, test, let go. */
  lemma CheckRuns(cfg: Config, s: State, m: State, t: TaskId, sel: BitwardenSelector, started: Instant, check: Check)
    requires m.cacheMutex.None? && Leads(cfg, s, At(m, t, sel, started, AwaitCache(check)))
    ensures var isFresh := m.cache.Some? && IsFreshAt(cfg, m.cache.value, m.now);
            var next := if isFresh then CountHit(check) else if check.First? then AwaitRefresh else AwaitLogin;
            Leads(cfg, s, At(m, t, sel, started, next))
  {
    var held := m.(cacheMutex := Some(t));
    var isFresh := m.cache.Some? && IsFreshAt(cfg, m.cache.value, m.now);
    var next := if isFresh then CountHit(check) else if check.First? then AwaitRefresh else AwaitLogin;
    GoOn(cfg, s, m, held, t, sel, started, AwaitCache(check), LockCache, HoldCache(check));
    GoOn(cfg, s, held, m, t, sel, started, HoldCache(check), TestFreshness, next);
  }

  lemma FailureRuns(cfg: Config, s: State, m: State, t: TaskId, sel: BitwardenSelector, started: Instant, e: ClientError)
    requires Leads(cfg, s, At(m, t, sel, started, CountFailure(e)))
    ensures Leads(cfg, s, At(m.(failures := m.failures + 1, refreshLock := None), t, sel, started, Done(Failed(e), Err(e))))
  {
    var counted := m.(failures := m.failures + 1);
    GoOn(cfg, s, m, counted, t, sel, started, CountFailure(e), BumpFailures, ReleaseRefresh(Failed(e)));
    GoOn(cfg, s, counted, counted.(refreshLock := None), t, sel, started,
         ReleaseRefresh(Failed(e)), UnlockRefresh, Done(Failed(e), Err(e)));
  }

  /** From a fetched vault to the installed one, still under both locks' protection. */
  lemma StoreRuns(cfg: Config, s: State, m: State, t: TaskId, sel: BitwardenSelector, started: Instant, v: CachedVault)
    requires m.cacheMutex.None? && Leads(cfg, s, At(m, t, sel, started, AwaitInstall(v)))
    ensures var n := m.(cache := Some(v), installs := m.installs + [v]);
            Leads(cfg, s, At(n, t, sel, started, ReleaseRefresh(Refreshed)))
  {
    var held := m.(cacheMutex := Some(t));
    var stored := m.(cache := Some(v), installs := m.installs + [v]);
    GoOn(cfg, s, m, held, t, sel, started, AwaitInstall(v), LockCache, HoldInstall(v));
    GoOn(cfg, s, held, stored, t, sel, started, HoldInstall(v), Install, ReleaseRefresh(Refreshed));
  }

  lemma InstallRuns(cfg: Config, s: State, m: State, t: TaskId, sel: BitwardenSelector, started: Instant, v: CachedVault)
    requires m.cacheMutex.None? && Leads(cfg, s, At(m, t, sel, started, CountSuccess(v)))
    ensures var n := m.(successes := m.successes + 1, cache := Some(v), installs := m.installs + [v], refreshLock := None);
            Leads(cfg, s, At(n, t, sel, started, AwaitLookup(Refreshed)))
  {
    var counted := m.(successes := m.successes + 1);
    var stored := counted.(cache := Some(v), installs := m.installs + [v]);
    GoOn(cfg, s, m, counted, t, sel, started, CountSuccess(v), BumpSuccesses, AwaitInstall(v));
    StoreRuns(cfg, s, counted, t, sel, started, v);
    GoOn(cfg, s, stored, stored.(refreshLock := None), t, sel, started,
         ReleaseRefresh(Refreshed), UnlockRefresh, AwaitLookup(Refreshed));
  }

  lemma SpawnRuns(cfg: Config, s: State, t: TaskId, sel: BitwardenSelector)
    requires t !in s.tasks
    ensures Leads(cfg, s, At(s, t, sel, s.now, AwaitCache(First)))
  {
    LeadsNowhere(cfg, s);
    LeadsOn(cfg, s, s, t, Spawn(sel), At(s, t, sel, s.now, AwaitCache(First)));
  }

  lemma TickRuns(cfg: Config, s: State, m: State, t: TaskId, sel: BitwardenSelector, started: Instant, pc: Pc, to: Instant)
    requires m.now <= to && Leads(cfg, s, At(m, t, sel, started, pc))
    ensures Leads(cfg, s, At(m.(now := to), t, sel, started, pc))
  {
    LeadsOn(cfg, s, At(m, t, sel, started, pc), t, Tick(to), At(m.(now := to), t, sel, started, pc));
  }

  /** The fetch: to a vault, or to its error. */
  lemma FetchRuns(cfg: Config, s: State, m: State, t: TaskId, sel: BitwardenSelector, started: Instant, fetch: Fetch)
    returns (n: State)
    requires Leads(cfg, s, At(m, t, sel, started, AwaitLogin)) && fetch.at >= m.now && fetch.number == |m.logins|
    ensures var vault := fetch.Vault(cfg);
            Leads(cfg, s, At(n, t, sel, started, if vault.Ok? then CountSuccess(vault.value) else CountFailure(vault.error)))
    ensures n == m.(now := n.now, logins := n.logins, syncs := n.syncs)
    ensures n.now == if fetch.login.Ok? then fetch.at else m.now
  {
    if fetch.login.Err? {
      n := m;
      GoOn(cfg, s, m, m, t, sel, started, AwaitLogin, LoginReturns(fetch.login), CountFailure(fetch.login.error));
    } else {
      var (session, number) := (fetch.login.value, fetch.number);
      var loggedIn := m.(logins := m.logins + [session]);
      var later := loggedIn.(now := fetch.at);
      GoOn(cfg, s, m, loggedIn, t, sel, started, AwaitLogin, LoginReturns(fetch.login), AwaitSync(number));
      TickRuns(cfg, s, loggedIn, t, sel, started, AwaitSync(number), fetch.at);
      if fetch.sync.Err? {
        n := later;
        GoOn(cfg, s, later, later, t, sel, started, AwaitSync(number), SyncReturns(fetch.sync), CountFailure(fetch.sync.error));
      } else {
        n := later.(syncs := m.syncs[number := fetch.sync.value]);
        assert later.logins[number] == session;
        GoOn(cfg, s, later, n, t, sel, started, AwaitSync(number), SyncReturns(fetch.sync),
             CountSuccess(fetch.Vault(cfg).value));
      }
    }
  }

  predicate FreshNow(cfg: Config, s: State) {
    s.cache.Some? && IsFreshAt(cfg, s.cache.value, s.now)
  }

  lemma FreshNowIsFreshBy(cfg: Config, s: State)
    requires cfg.minInstant <= s.now && (s.cache.Some? ==> s.cache.value.fetchedAt <= s.now)
    ensures FreshNow(cfg, s) <==> FreshBy(cfg, ClientOf(s), s.now)
  {
    if s.cache.Some? {
      FreshIffBeforeDeadline(cfg, s.cache.value, s.now);
    }
  }

  /** The first part of a call: a hit, or the queue for the refresh lock. */
  lemma ArrivalRuns(cfg: Config, s: State, t: TaskId, sel: BitwardenSelector)
    requires s.cacheMutex.None? && t !in s.tasks
    ensures if FreshNow(cfg, s) then Leads(cfg, s, At(s.(hits := s.hits + 1), t, sel, s.now, AwaitLookup(CacheHit)))
            else Leads(cfg, s, At(s, t, sel, s.now, AwaitRefresh))
  {
    SpawnRuns(cfg, s, t, sel);
    CheckRuns(cfg, s, s, t, sel, s.now, First);
    if FreshNow(cfg, s) {
      GoOn(cfg, s, s, s.(hits := s.hits + 1), t, sel, s.now, CountHit(First), BumpHits, AwaitLookup(CacheHit));
    }
  }

  /** A hit found inside the refresh lock: it is counted and the lock given back. */
  lemma HitRuns(cfg: Config, s: State, m: State, t: TaskId, sel: BitwardenSelector, started: Instant)
    requires LocksFree(m) && Leads(cfg, s, At(m.(refreshLock := Some(t)), t, sel, started, CountHit(Second)))
    ensures Leads(cfg, s, At(m.(hits := m.hits + 1), t, sel, started, AwaitLookup(CacheHit)))
  {
    var locked := m.(refreshLock := Some(t));
    var counted := locked.(hits := m.hits + 1);
    GoOn(cfg, s, locked, counted, t, sel, started, CountHit(Second), BumpHits, ReleaseRefresh(CacheHit));
    GoOn(cfg, s, counted, m.(hits := m.hits + 1), t, sel, started,
         ReleaseRefresh(CacheHit), UnlockRefresh, AwaitLookup(CacheHit));
  }

  /** The state in which the task has taken the refresh lock and checked again. */
  lemma RecheckRuns(cfg: Config, s: State, m: State, t: TaskId, sel: BitwardenSelector, started: Instant)
    requires LocksFree(m) && Leads(cfg, s, At(m, t, sel, started, AwaitRefresh))
    ensures Leads(cfg, s, if FreshNow(cfg, m) then At(m.(hits := m.hits + 1), t, sel, started, AwaitLookup(CacheHit))
                          else At(m.(refreshLock := Some(t)), t, sel, started, AwaitLogin))
  {
    var locked := m.(refreshLock := Some(t));
    GoOn(cfg, s, m, locked, t, sel, started, AwaitRefresh, LockRefresh, AwaitCache(Second));
    CheckRuns(cfg, s, locked, t, sel, started, Second);
    if FreshNow(cfg, m) {
      HitRuns(cfg, s, m, t, sel, started);
    }
  }

  /** Where the task stands when `ensure` has returned. */
  predicate EnsureReturned(s: State, t: TaskId, sel: BitwardenSelector, r: Result<(), ClientError>) {
    && t in s.tasks && s.tasks[t].selector == sel
    && if r.Ok? then s.tasks[t].pc.AwaitLookup? else s.tasks[t].pc == Done(Failed(r.error), Err(r.error))
  }

  /** From the queue for the refresh lock, with the locks free: what the rest of `ensure` does. */
  lemma WaitedRuns(cfg: Config, s: State, m: State, t: TaskId, sel: BitwardenSelector, started: Instant, fetch: Fetch)
    returns (u: State, r: Result<(), ClientError>)
    requires LocksFree(m) && Leads(cfg, s, At(m, t, sel, started, AwaitRefresh))
    requires fetch.at >= m.now && fetch.number == |m.logins|
    ensures Leads(cfg, s, u) && LocksFree(u) && EnsureReturned(u, t, sel, r)
    ensures u.now == (if !FreshNow(cfg, m) && fetch.login.Ok? then fetch.at else m.now)
    ensures forall o :: o in m.tasks && o != t ==> o in u.tasks && u.tasks[o] == m.tasks[o]
    ensures var c := ClientOf(m);
            (ClientOf(u), r) ==
              if FreshNow(cfg, m) then (c.(hits := c.hits + 1), Ok(()))
              else
                match fetch.Vault(cfg)
                case Err(e) => (c.(failures := c.failures + 1), Err(e))
                case Ok(vault) => (c.(cache := Some(vault), successes := c.successes + 1), Ok(()))
  {
    RecheckRuns(cfg, s, m, t, sel, started);
    if FreshNow(cfg, m) {
      u, r := At(m.(hits := m.hits + 1), t, sel, started, AwaitLookup(CacheHit)), Ok(());
    } else {
      var n := FetchRuns(cfg, s, m.(refreshLock := Some(t)), t, sel, started, fetch);
      var vault := fetch.Vault(cfg);
      if vault.Err? {
        FailureRuns(cfg, s, n, t, sel, started, vault.error);
        u := At(n.(failures := n.failures + 1, refreshLock := None), t, sel, started, Done(Failed(vault.error), Err(vault.error)));
        r := Err(vault.error);
      } else {
        InstallRuns(cfg, s, n, t, sel, started, vault.value);
        u := At(n.(successes := n.successes + 1, cache := Some(vault.value),
                   installs := n.installs + [vault.value], refreshLock := None), t, sel, started, AwaitLookup(Refreshed));
        r := Ok(());
      }
    }
  }

  /** The others have run, and left task `t` where it was. */
  ghost predicate OthersRan(cfg: Config, before: State, after: State, t: TaskId) {
    && Leads(cfg, before, after) && t in before.tasks && t in after.tasks && before.tasks[t] == after.tasks[t]
    && LocksFree(after)
  }

  lemma {:induction false} RunAppend(cfg: Config, s: State, a: seq<Event>, m: State, b: seq<Event>)
    requires Run(cfg, s, a) == Some(m)
    ensures Run(cfg, s, a + b) == Run(cfg, m, b)
    decreases |a|
  {
    if a == [] {
      assert a + b == b;
    } else {
      assert (a + b)[1..] == a[1..] + b;
      RunAppend(cfg, Next(cfg, s, a[0].task, a[0].action).value, a[1..], m, b);
    }
  }

  lemma LeadsFurther(cfg: Config, s: State, m: State, u: State)
    requires Leads(cfg, s, m) && Leads(cfg, m, u)
    ensures Leads(cfg, s, u)
  {
    var a :| Run(cfg, s, a) == Some(m);
    var b :| Run(cfg, m, b) == Some(u);
    RunAppend(cfg, s, a, m, b);
    assert Run(cfg, s, a + b) == Some(u);
  }

  /**
   A call that finds no fresh vault, disturbed by any run of other tasks while it waits for the refresh lock: the rest
   of `ensure` is a run, and client and result are those of the method for what it then finds.
   */
  lemma DisturbedEnsureIsARun(cfg: Config, s: State, t: TaskId, sel: BitwardenSelector, m: State, fetch: Fetch)
    returns (u: State, r: Result<(), ClientError>)
    requires s.cacheMutex.None? && t !in s.tasks && !FreshNow(cfg, s)
    requires OthersRan(cfg, At(s, t, sel, s.now, AwaitRefresh), m, t)
    requires fetch.at >= m.now && fetch.number == |m.logins|
    requires Ordered(cfg, ClientOf(s), Timing(s.now, m.now, Some(ClientOf(m)), None))
    ensures Leads(cfg, s, u) && LocksFree(u) && EnsureReturned(u, t, sel, r)
    ensures (ClientOf(u), r) == Ensured(cfg, ClientOf(s), Timing(s.now, m.now, Some(ClientOf(m)), None), fetch)
  {
    ArrivalRuns(cfg, s, t, sel);
    LeadsFurther(cfg, s, At(s, t, sel, s.now, AwaitRefresh), m);
    assert m == At(m, t, sel, s.now, AwaitRefresh) by {
      assert m.tasks == m.tasks[t := Task(sel, s.now, AwaitRefresh)];
    }
    FreshNowIsFreshBy(cfg, s);
    FreshNowIsFreshBy(cfg, m);
    u, r := WaitedRuns(cfg, s, m, t, sel, s.now, fetch);
  }

  /** The end of a call, again after any run of other tasks: it answers from the cache it finds. */
  lemma DisturbedLookUpIsARun(cfg: Config, s: State, t: TaskId, sel: BitwardenSelector, n: State) returns (u: State)
    requires EnsureReturned(s, t, sel, Ok(())) && OthersRan(cfg, s, n, t)
    ensures Leads(cfg, s, u) && t in u.tasks && u.tasks[t].pc.Done?
    ensures ClientOf(u) == ClientOf(n) && u.tasks[t].pc.answer == Answer(cfg, n.cache, sel)
  {
    var (started, outcome) := (s.tasks[t].started, s.tasks[t].pc.outcome);
    assert n == At(n, t, sel, started, AwaitLookup(outcome)) by {
      assert n.tasks == n.tasks[t := Task(sel, started, AwaitLookup(outcome))];
    }
    LookUpRuns(cfg, s, n, t, sel, started, outcome);
    u := At(n, t, sel, started, Done(outcome, Answer(cfg, n.cache, sel)));
  }

  /** A whole call with other tasks running at both waits: the method's client and answer, in a run of the step system. */
  lemma DisturbedCallIsARun(cfg: Config, s: State, t: TaskId, sel: BitwardenSelector, m: State, fetch: Fetch,
                            ensured: State, n: State) returns (u: State)
    requires s.cacheMutex.None? && t !in s.tasks && !FreshNow(cfg, s)
    requires OthersRan(cfg, At(s, t, sel, s.now, AwaitRefresh), m, t)
    requires fetch.at >= m.now && fetch.number == |m.logins|
    requires Ordered(cfg, ClientOf(s), Timing(s.now, m.now, Some(ClientOf(m)), Some(ClientOf(n))))
    requires FreshNow(cfg, m) || fetch.Vault(cfg).Ok?
    requires Leads(cfg, s, ensured) && EnsureReturned(ensured, t, sel, Ok(())) && OthersRan(cfg, ensured, n, t)
    requires ClientOf(ensured) == Ensured(cfg, ClientOf(s), Timing(s.now, m.now, Some(ClientOf(m)), None), fetch).0
    ensures Leads(cfg, s, u) && t in u.tasks && u.tasks[t].pc.Done?
    ensures (ClientOf(u), u.tasks[t].pc.answer)
         == Resolved(cfg, ClientOf(s), Timing(s.now, m.now, Some(ClientOf(m)), Some(ClientOf(n))), fetch, sel)
  {
    u := DisturbedLookUpIsARun(cfg, ensured, t, sel, n);
    LeadsFurther(cfg, s, ensured, u);
    FreshNowIsFreshBy(cfg, s);
    FreshNowIsFreshBy(cfg, m);
  }

  /** A call that nobody disturbs, with time passing while it waits: same client, same answer. */
  lemma UndisturbedCallIsARun(cfg: Config, s: State, t: TaskId, sel: BitwardenSelector, recheckedAt: Instant, fetch: Fetch)
    returns (u: State)
    requires LocksFree(s) && t !in s.tasks && fetch.at >= recheckedAt && fetch.number == |s.logins|
    requires Ordered(cfg, ClientOf(s), Timing(s.now, recheckedAt, None, None))
    ensures Leads(cfg, s, u) && t in u.tasks && u.tasks[t].pc.Done?
    ensures (ClientOf(u), u.tasks[t].pc.answer)
         == Resolved(cfg, ClientOf(s), Timing(s.now, recheckedAt, None, None), fetch, sel)
  {
    ArrivalRuns(cfg, s, t, sel);
    FreshNowIsFreshBy(cfg, s);
    if FreshNow(cfg, s) {
      var hit := s.(hits := s.hits + 1);
      LookUpRuns(cfg, s, hit, t, sel, s.now, CacheHit);
      u := At(hit, t, sel, s.now, Done(CacheHit, Answer(cfg, hit.cache, sel)));
    } else {
      var later := s.(now := recheckedAt);
      TickRuns(cfg, s, s, t, sel, s.now, AwaitRefresh, recheckedAt);
      FreshNowIsFreshBy(cfg, later);
      var ensured, r := WaitedRuns(cfg, s, later, t, sel, s.now, fetch);
      if r.Ok? {
        LeadsNowhere(cfg, ensured);
        u := DisturbedLookUpIsARun(cfg, ensured, t, sel, ensured);
        LeadsFurther(cfg, s, ensured, u);
      } else {
        u := ensured;
      }
    }
  }

  /**
   Two callers on a stale cache: while the first waits for the refresh lock, the second takes it, fetches and installs;
   the first then finds the vault fresh and is a hit.
   */
  lemma SecondCallerServesTheFirst(cfg: Config, s: State, t: TaskId, o: TaskId, sel: BitwardenSelector,
                                   other: BitwardenSelector, fetch: Fetch) returns (u: State)
    requires LocksFree(s) && t !in s.tasks && o !in s.tasks && t != o && !FreshNow(cfg, s)
    requires fetch.at >= s.now && fetch.number == |s.logins| && fetch.Vault(cfg).Ok?
    requires IsFreshAt(cfg, fetch.Vault(cfg).value, fetch.at)
    ensures Leads(cfg, s, u) && t in u.tasks && u.tasks[t].pc.AwaitLookup? && o in u.tasks && u.tasks[o].pc.AwaitLookup?
    ensures ClientOf(u) == Client(Some(fetch.Vault(cfg).value), s.hits + 1, s.successes + 1, s.failures)
  {
    var waiting := At(s, t, sel, s.now, AwaitRefresh);
    ArrivalRuns(cfg, s, t, sel);
    ArrivalRuns(cfg, waiting, o, other);
    var installed, r := WaitedRuns(cfg, waiting, waiting, o, other, s.now, fetch);
    LeadsFurther(cfg, s, waiting, installed);
    assert installed == At(installed, t, sel, s.now, AwaitRefresh) by {
      assert installed.tasks == installed.tasks[t := Task(sel, s.now, AwaitRefresh)];
    }
    u, r := WaitedRuns(cfg, s, installed, t, sel, s.now, fetch.(at := installed.now, number := |installed.logins|));
  }
}
