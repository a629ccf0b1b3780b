/**
 The shared vault cache under any number of concurrent resolve tasks: one transition per lock, await or atomic
 operation, a clock that only moves forward, fetches that may fail, and cancellation at every await.
 */
module VaultCache {
  import opened Wrappers
  import opened Crypto
  import opened Extraction
  import opened Selector
  import opened Lookup

  type TaskId = nat

  /** Nanoseconds on the monotonic clock. */
  type Instant = int

  const SECOND := 1_000_000_000
  const REFRESH_SKEW := 30 * SECOND

  /** Fixed for the life of the client: the cache TTL and the range of representable instants. */
  datatype Config = Config(p: Primitives, ttl: nat, minInstant: Instant, maxInstant: Instant)

  datatype Session = Session(userKey: Key, expiresIn: Option<nat>)

  /** `fetch` numbers the fetch that built the vault; the program has no such field. */
  datatype CachedVault = CachedVault(
    session: Session, sync: SyncResponse, fetchedAt: Instant, expiresAt: Option<Instant>, fetch: nat)

  // ---- Freshness ----

  function NewVault(cfg: Config, session: Session, sync: SyncResponse, fetchedAt: Instant, fetch: nat): CachedVault {
    var expiresAt :=
      match session.expiresIn
      case None => None
      case Some(seconds) =>
        var at := fetchedAt + seconds * SECOND;
        if at <= cfg.maxInstant then Some(at) else None;
    CachedVault(session, sync, fetchedAt, expiresAt, fetch)
  }

  /** `Instant::duration_since`, which saturates at zero. */
  function DurationSince(now: Instant, earlier: Instant): nat {
    if now >= earlier then now - earlier else 0
  }

  predicate IsFreshAt(cfg: Config, v: CachedVault, now: Instant) {
    if cfg.ttl == 0 || DurationSince(now, v.fetchedAt) >= cfg.ttl then false else
      match v.expiresAt
      case None => true
      case Some(expiresAt) =>
        var deadline := expiresAt - REFRESH_SKEW;
        deadline >= cfg.minInstant && now < deadline
  }

  /** The instant at which the vault stops being fresh. */
  function Deadline(cfg: Config, v: CachedVault): Instant {
    var byTtl := v.fetchedAt + cfg.ttl;
    if cfg.ttl == 0 then v.fetchedAt
    else if v.expiresAt.Some? && v.expiresAt.value - REFRESH_SKEW < byTtl then v.expiresAt.value - REFRESH_SKEW
    else byTtl
  }

  /** Fresh means before the deadline; so freshness, once lost, never comes back. */
  lemma FreshIffBeforeDeadline(cfg: Config, v: CachedVault, now: Instant)
    requires cfg.minInstant <= now && v.fetchedAt <= now
    ensures IsFreshAt(cfg, v, now) <==> now < Deadline(cfg, v)
  {
  }

  /** How long a vault stays fresh, from the TTL and the token lifetime the server granted. */
  function FreshFor(cfg: Config, session: Session, fetchedAt: Instant): int {
    if session.expiresIn.None? || fetchedAt + session.expiresIn.value * SECOND > cfg.maxInstant then cfg.ttl
    else if session.expiresIn.value * SECOND - REFRESH_SKEW < cfg.ttl then session.expiresIn.value * SECOND - REFRESH_SKEW
    else cfg.ttl
  }

  /**
   When a new vault is fresh, in the terms of the login: with a granted lifetime, up to 30 seconds before it ends, and
   never past the TTL; a lifetime that no instant can hold does not count; and with no TTL never.
   */
  lemma NewVaultIsFreshExactly(cfg: Config, session: Session, sync: SyncResponse, fetchedAt: Instant, fetch: nat, now: Instant)
    requires cfg.minInstant <= fetchedAt <= now
    ensures IsFreshAt(cfg, NewVault(cfg, session, sync, fetchedAt, fetch), now) <==>
      && cfg.ttl > 0 && now < fetchedAt + cfg.ttl
      && (session.expiresIn.Some? && fetchedAt + session.expiresIn.value * 1_000_000_000 <= cfg.maxInstant ==>
            now < fetchedAt + session.expiresIn.value * 1_000_000_000 - 30_000_000_000)
    ensures var v := NewVault(cfg, session, sync, fetchedAt, fetch);
            v.session == session && v.sync == sync && v.fetchedAt == fetchedAt
  {
  }

  /** So it is fresh for that long, and no longer. */
  lemma FreshForExactly(cfg: Config, session: Session, sync: SyncResponse, fetchedAt: Instant, fetch: nat, now: Instant)
    requires cfg.minInstant <= fetchedAt <= now
    ensures IsFreshAt(cfg, NewVault(cfg, session, sync, fetchedAt, fetch), now) <==>
      cfg.ttl > 0 && now < fetchedAt + FreshFor(cfg, session, fetchedAt)
  {
    NewVaultIsFreshExactly(cfg, session, sync, fetchedAt, fetch, now);
  }

  lemma DeadlineIsFreshFor(cfg: Config, session: Session, sync: SyncResponse, fetchedAt: Instant, fetch: nat)
    ensures var v := NewVault(cfg, session, sync, fetchedAt, fetch);
            cfg.ttl > 0 ==> Deadline(cfg, v) == fetchedAt + FreshFor(cfg, session, fetchedAt)
  {
  }

  // ---- Tasks ----

  datatype Check = First | Second

  /** How an `ensure` call ended, as the counters see it. */
  datatype Outcome = CacheHit | Refreshed | Failed(error: ClientError)

  datatype Pc =
    | AwaitCache(check: Check)               // waiting for the cache mutex, to test freshness
    | HoldCache(check: Check)
    | CountHit(check: Check)                 // found fresh, counter not bumped yet
    | AwaitRefresh                           // waiting for the refresh lock
    | AwaitLogin                             // token request in flight
    | AwaitSync(fetch: nat)                  // sync request in flight
    | CountSuccess(vault: CachedVault)       // fetched, counter not bumped yet
    | CountFailure(error: ClientError)
    | AwaitInstall(vault: CachedVault)       // waiting for the cache mutex, to store the vault
    | HoldInstall(vault: CachedVault)
    | ReleaseRefresh(outcome: Outcome)       // `ensure` returns: the refresh guard is about to drop
    | AwaitLookup(outcome: Outcome)          // waiting for the cache mutex, to look up
    | HoldLookup(outcome: Outcome)
    | Done(outcome: Outcome, answer: Result<SecretDocument, ClientError>)
    | Cancelled(at: Pc)

  datatype Task = Task(selector: BitwardenSelector, started: Instant, pc: Pc)

  predicate HoldsRefresh(pc: Pc) {
    match pc
    case AwaitCache(check) => check.Second?
    case HoldCache(check) => check.Second?
    case CountHit(check) => check.Second?
    case AwaitLogin => true
    case AwaitSync(_) => true
    case CountSuccess(_) => true
    case CountFailure(_) => true
    case AwaitInstall(_) => true
    case HoldInstall(_) => true
    case ReleaseRefresh(_) => true
    case _ => false
  }

  predicate HoldsCacheMutex(pc: Pc) {
    pc.HoldCache? || pc.HoldInstall? || pc.HoldLookup?
  }

  /** Where the future may be suspended, and so may be dropped. */
  predicate AtAwait(pc: Pc) {
    pc.AwaitCache? || pc.AwaitRefresh? || pc.AwaitLogin? || pc.AwaitSync? || pc.AwaitInstall? || pc.AwaitLookup?
  }

  predicate Finished(pc: Pc) {
    pc.Done? || pc.Cancelled?
  }

  /** Which counter the task has bumped so far, if any. */
  function Counted(pc: Pc): Option<Outcome> {
    match pc
    case AwaitInstall(_) => Some(Refreshed)
    case HoldInstall(_) => Some(Refreshed)
    case ReleaseRefresh(o) => Some(o)
    case AwaitLookup(o) => Some(o)
    case HoldLookup(o) => Some(o)
    case Done(o, _) => Some(o)
    case Cancelled(at) => Counted(at)
    case _ => None
  }

  // ---- The system ----

  datatype State = State(
    now: Instant,
    cache: Option<CachedVault>, cacheMutex: Option<TaskId>, refreshLock: Option<TaskId>,
    hits: nat, successes: nat, failures: nat,
    tasks: map<TaskId, Task>,
    // what has happened so far
    logins: seq<Session>, syncs: map<nat, SyncResponse>, installs: seq<CachedVault>)

  datatype Action =
    | Tick(to: Instant)
    | Spawn(selector: BitwardenSelector)
    | LockCache
    | TestFreshness
    | BumpHits
    | LockRefresh
    | LoginReturns(login: Result<Session, ClientError>)
    | SyncReturns(sync: Result<SyncResponse, ClientError>)
    | BumpSuccesses
    | BumpFailures
    | Install
    | UnlockRefresh
    | LookUp
    | Cancel

  function Init(now: Instant): State {
    State(now, None, None, None, 0, 0, 0, map[], [], map[], [])
  }

  /** Task `t` moves to `pc`. */
  function Move(s: State, t: TaskId, pc: Pc): State
    requires t in s.tasks
  {
    s.(tasks := s.tasks[t := s.tasks[t].(pc := pc)])
  }

  function AfterHit(check: Check): Pc {
    if check.Second? then ReleaseRefresh(CacheHit) else AwaitLookup(CacheHit)
  }

  /** What the lookup answers from the cache it holds. */
  function Answer(cfg: Config, cache: Option<CachedVault>, selector: BitwardenSelector): Result<SecretDocument, ClientError> {
    match cache
    case None => Err(Api(MissingCachedSync))
    case Some(v) => Resolve(cfg.p, v.sync, v.session.userKey, selector)
  }

  /** One step of task `t` (or of the environment), or None when it is not enabled. */
  function Next(cfg: Config, s: State, t: TaskId, a: Action): Option<State> {
    if a.Tick? then
      if a.to >= s.now then Some(s.(now := a.to)) else None
    else if a.Spawn? then
      if t in s.tasks then None
      else Some(s.(tasks := s.tasks[t := Task(a.selector, s.now, AwaitCache(First))]))
    else if t !in s.tasks then None
    else
      var pc := s.tasks[t].pc;
      match a
      case LockCache =>
        if s.cacheMutex.Some? then None
        else if pc.AwaitCache? then Some(Move(s, t, HoldCache(pc.check)).(cacheMutex := Some(t)))
        else if pc.AwaitInstall? then Some(Move(s, t, HoldInstall(pc.vault)).(cacheMutex := Some(t)))
        else if pc.AwaitLookup? then Some(Move(s, t, HoldLookup(pc.outcome)).(cacheMutex := Some(t)))
        else None
      case TestFreshness =>
        if !pc.HoldCache? then None else
          var isFresh := s.cache.Some? && IsFreshAt(cfg, s.cache.value, s.now);
          var next := if isFresh then CountHit(pc.check) else if pc.check.First? then AwaitRefresh else AwaitLogin;
          Some(Move(s, t, next).(cacheMutex := None))
      case BumpHits =>
        if pc.CountHit? then Some(Move(s, t, AfterHit(pc.check)).(hits := s.hits + 1)) else None
      case LockRefresh =>
        if pc.AwaitRefresh? && s.refreshLock.None?
        then Some(Move(s, t, AwaitCache(Second)).(refreshLock := Some(t))) else None
      case LoginReturns(login) =>
        if !pc.AwaitLogin? then None
        else if login.Err? then Some(Move(s, t, CountFailure(login.error)))
        else Some(Move(s, t, AwaitSync(|s.logins|)).(logins := s.logins + [login.value]))
      case SyncReturns(sync) =>
        if !pc.AwaitSync? || pc.fetch >= |s.logins| then None
        else if sync.Err? then Some(Move(s, t, CountFailure(sync.error)))
        else
          var vault := NewVault(cfg, s.logins[pc.fetch], sync.value, s.now, pc.fetch);
          Some(Move(s, t, CountSuccess(vault)).(syncs := s.syncs[pc.fetch := sync.value]))
      case BumpSuccesses =>
        if pc.CountSuccess? then Some(Move(s, t, AwaitInstall(pc.vault)).(successes := s.successes + 1)) else None
      case BumpFailures =>
        if pc.CountFailure?
        then Some(Move(s, t, ReleaseRefresh(Failed(pc.error))).(failures := s.failures + 1)) else None
      case Install =>
        if pc.HoldInstall?
        then Some(Move(s, t, ReleaseRefresh(Refreshed)).(
                    cache := Some(pc.vault), cacheMutex := None, installs := s.installs + [pc.vault]))
        else None
      case UnlockRefresh =>
        if !pc.ReleaseRefresh? then None else
          var next := if pc.outcome.Failed? then Done(pc.outcome, Err(pc.outcome.error)) else AwaitLookup(pc.outcome);
          Some(Move(s, t, next).(refreshLock := None))
      case LookUp =>
        if pc.HoldLookup?
        then Some(Move(s, t, Done(pc.outcome, Answer(cfg, s.cache, s.tasks[t].selector))).(cacheMutex := None))
        else None
      case Cancel =>
        if AtAwait(pc)
        then Some(Move(s, t, Cancelled(pc)).(
                    refreshLock := if HoldsRefresh(pc) then None else s.refreshLock))
        else None
      case _ => None
  }

  datatype Event = Event(task: TaskId, action: Action)

  function Run(cfg: Config, s: State, events: seq<Event>): Option<State>
    decreases |events|
  {
    if events == [] then Some(s) else
      match Next(cfg, s, events[0].task, events[0].action)
      case None => None
      case Some(t) => Run(cfg, t, events[1..])
  }

  // ---- The invariant ----

  /** Late enough for a task that started at `started`. */
  predicate Recent(cfg: Config, started: Instant, fetchedAt: Instant) {
    if cfg.ttl == 0 then fetchedAt >= started else fetchedAt > started - cfg.ttl
  }

  /** Session and sync come from one fetch. */
  predicate FromOneFetch(cfg: Config, s: State, v: CachedVault) {
    && v.fetch < |s.logins| && v.fetch in s.syncs
    && v == NewVault(cfg, s.logins[v.fetch], s.syncs[v.fetch], v.fetchedAt, v.fetch)
    && cfg.minInstant <= v.fetchedAt <= s.now
  }

  /** The cache is of no use to a fetch that completes at `at`. */
  predicate StaleAt(cfg: Config, cache: Option<CachedVault>, at: Instant) {
    cache.None? || (cache.value.fetchedAt <= at && Deadline(cfg, cache.value) <= at)
  }

  /** Who holds which lock. */
  ghost predicate Locks(s: State) {
    && (forall t :: s.refreshLock == Some(t) <==> t in s.tasks && HoldsRefresh(s.tasks[t].pc))
    && (forall t :: s.cacheMutex == Some(t) <==> t in s.tasks && HoldsCacheMutex(s.tasks[t].pc))
  }

  /** What a task's position says about the cache and about the vault it carries. */
  predicate TaskInv(cfg: Config, s: State, task: Task) {
    && task.started <= s.now
    && match task.pc
       case CountHit(_) => s.cache.Some? && Recent(cfg, task.started, s.cache.value.fetchedAt)
       case AwaitLogin => StaleAt(cfg, s.cache, s.now)
       case AwaitSync(fetch) => StaleAt(cfg, s.cache, s.now) && fetch < |s.logins| && fetch !in s.syncs
       case CountSuccess(v) => Carried(cfg, s, task, v)
       case AwaitInstall(v) => Carried(cfg, s, task, v)
       case HoldInstall(v) => Carried(cfg, s, task, v)
       case ReleaseRefresh(o) => o.Failed? || (s.cache.Some? && Recent(cfg, task.started, s.cache.value.fetchedAt))
       case AwaitLookup(o) => !o.Failed? && s.cache.Some? && Recent(cfg, task.started, s.cache.value.fetchedAt)
       case HoldLookup(o) => !o.Failed? && s.cache.Some? && Recent(cfg, task.started, s.cache.value.fetchedAt)
       case Done(o, answer) =>
         if o.Failed? then answer == Err(o.error) else Answered(cfg, s, task, answer)
       case Cancelled(at) => AtAwait(at)
       case _ => true
  }

  predicate Carried(cfg: Config, s: State, task: Task, v: CachedVault) {
    FromOneFetch(cfg, s, v) && StaleAt(cfg, s.cache, v.fetchedAt) && v.fetchedAt >= task.started
  }

  /** The answer is the plain lookup on an installed vault that is recent enough for the task. */
  predicate Answered(cfg: Config, s: State, task: Task, answer: Result<SecretDocument, ClientError>) {
    exists i ::
      && 0 <= i < |s.installs|
      && Recent(cfg, task.started, s.installs[i].fetchedAt)
      && answer == Resolve(cfg.p, s.installs[i].sync, s.installs[i].session.userKey, task.selector)
  }

  /** The history of the cache. */
  predicate Installs(cfg: Config, s: State) {
    && s.cache == (if s.installs == [] then None else Some(s.installs[|s.installs| - 1]))
    && (forall i :: 0 <= i < |s.installs| ==> FromOneFetch(cfg, s, s.installs[i]))
    && (forall i :: 0 < i < |s.installs| ==> StaleAt(cfg, Some(s.installs[i - 1]), s.installs[i].fetchedAt))
  }

  ghost predicate Inv(cfg: Config, s: State) {
    && cfg.minInstant <= s.now
    && (forall n :: n in s.syncs ==> n < |s.logins|)
    && Locks(s)
    && Installs(cfg, s)
    && forall t :: t in s.tasks ==> TaskInv(cfg, s, s.tasks[t])
  }

  lemma InvInit(cfg: Config, now: Instant)
    requires cfg.minInstant <= now
    ensures Inv(cfg, Init(now))
  {
  }

  /** How one lock changes when its holder, or a waiter, moves. */
  predicate LockMoves(before: Option<TaskId>, after: Option<TaskId>, t: TaskId, held: bool, holds: bool) {
    && after == (if holds then Some(t) else if held then None else before)
    && (holds && !held ==> before.None?)
  }

  /** Every step of a task changes that task's position only, and takes and gives up locks accordingly. */
  lemma StepShape(cfg: Config, s: State, t: TaskId, a: Action)
    requires Next(cfg, s, t, a).Some? && !a.Tick? && !a.Spawn?
    requires t in s.tasks ==> (HoldsRefresh(s.tasks[t].pc) <==> s.refreshLock == Some(t))
    requires t in s.tasks ==> (HoldsCacheMutex(s.tasks[t].pc) <==> s.cacheMutex == Some(t))
    ensures t in s.tasks
    ensures var u := Next(cfg, s, t, a).value;
            && t in u.tasks
            && var (pc, next) := (s.tasks[t].pc, u.tasks[t].pc);
            && u.tasks == s.tasks[t := s.tasks[t].(pc := next)]
            && LockMoves(s.refreshLock, u.refreshLock, t, HoldsRefresh(pc), HoldsRefresh(next))
            && LockMoves(s.cacheMutex, u.cacheMutex, t, HoldsCacheMutex(pc), HoldsCacheMutex(next))
  {
  }

  /** What a step does beside moving a task: time, the fetch history and the cache, each by one action only. */
  lemma StepEffects(cfg: Config, s: State, t: TaskId, a: Action)
    requires Next(cfg, s, t, a).Some?
    ensures var u := Next(cfg, s, t, a).value;
            && (if a.Tick? then u == s.(now := a.to) && s.now <= a.to else u.now == s.now)
            && (a.Spawn? ==> t !in s.tasks && u == s.(tasks := s.tasks[t := Task(a.selector, s.now, AwaitCache(First))]))
            && (if a.Install? then
                  && t in s.tasks && s.tasks[t].pc.HoldInstall?
                  && u.cache == Some(s.tasks[t].pc.vault) && u.installs == s.installs + [s.tasks[t].pc.vault]
                else u.cache == s.cache && u.installs == s.installs)
            && (if a.LoginReturns? && a.login.Ok? then u.logins == s.logins + [a.login.value] else u.logins == s.logins)
            && (if a.SyncReturns? && a.sync.Ok? then
                  && t in s.tasks && s.tasks[t].pc.AwaitSync? && s.tasks[t].pc.fetch < |s.logins|
                  && u.syncs == s.syncs[s.tasks[t].pc.fetch := a.sync.value]
                else u.syncs == s.syncs)
  {
  }

  lemma LocksStep(cfg: Config, s: State, t: TaskId, a: Action)
    requires Locks(s) && Next(cfg, s, t, a).Some?
    ensures Locks(Next(cfg, s, t, a).value)
  {
    if !a.Tick? && !a.Spawn? {
      StepShape(cfg, s, t, a);
    }
  }

  // ---- Other tasks, and the history, while one task moves ----

  predicate SameCore(s: State, u: State) {
    s.now == u.now && s.cache == u.cache && s.logins == u.logins && s.syncs == u.syncs && s.installs == u.installs
  }

  lemma TaskInvFrame(cfg: Config, s: State, u: State, task: Task)
    requires SameCore(s, u) && TaskInv(cfg, s, task)
    ensures TaskInv(cfg, u, task)
  {
  }

  lemma TickKeepsTask(cfg: Config, s: State, to: Instant, task: Task)
    requires TaskInv(cfg, s, task) && to >= s.now
    ensures TaskInv(cfg, s.(now := to), task)
  {
  }

  lemma LoginKeepsTask(cfg: Config, s: State, u: State, session: Session, task: Task)
    requires TaskInv(cfg, s, task) && SameCore(u, s.(logins := s.logins + [session]))
    ensures TaskInv(cfg, u, task)
  {
  }

  lemma SyncKeepsTask(cfg: Config, s: State, u: State, fetch: nat, sync: SyncResponse, task: Task)
    requires TaskInv(cfg, s, task) && !HoldsRefresh(task.pc) && SameCore(u, s.(syncs := s.syncs[fetch := sync]))
    ensures TaskInv(cfg, u, task)
  {
  }

  lemma InstallKeepsTask(cfg: Config, s: State, u: State, v: CachedVault, task: Task)
    requires TaskInv(cfg, s, task) && !HoldsRefresh(task.pc)
    requires s.cache.Some? ==> s.cache.value.fetchedAt <= v.fetchedAt
    requires SameCore(u, s.(cache := Some(v), installs := s.installs + [v]))
    ensures TaskInv(cfg, u, task)
  {
    if task.pc.Done? && !task.pc.outcome.Failed? {
      var i :| 0 <= i < |s.installs| && Recent(cfg, task.started, s.installs[i].fetchedAt)
               && task.pc.answer == Resolve(cfg.p, s.installs[i].sync, s.installs[i].session.userKey, task.selector);
      assert u.installs[i] == s.installs[i];
    }
  }

  /** The other tasks stay where they are. */
  lemma OthersStay(cfg: Config, s: State, t: TaskId, a: Action, other: TaskId)
    requires Next(cfg, s, t, a).Some? && other in s.tasks && (other != t || a.Tick?)
    ensures var u := Next(cfg, s, t, a).value; other in u.tasks && u.tasks[other] == s.tasks[other]
  {
  }

  /** The other tasks keep their part of the invariant. */
  lemma OthersStep(cfg: Config, s: State, t: TaskId, a: Action, other: TaskId)
    requires Inv(cfg, s) && Next(cfg, s, t, a).Some? && other != t && other in s.tasks
    ensures TaskInv(cfg, Next(cfg, s, t, a).value, s.tasks[other])
  {
    var u, task := Next(cfg, s, t, a).value, s.tasks[other];
    StepEffects(cfg, s, t, a);
    if a.Tick? {
      TickKeepsTask(cfg, s, a.to, task);
    } else if a.LoginReturns? && a.login.Ok? {
      LoginKeepsTask(cfg, s, u, a.login.value, task);
    } else if a.SyncReturns? && a.sync.Ok? {
      assert s.refreshLock == Some(t);
      SyncKeepsTask(cfg, s, u, s.tasks[t].pc.fetch, a.sync.value, task);
    } else if a.Install? {
      assert s.refreshLock == Some(t);
      InstallKeepsTask(cfg, s, u, s.tasks[t].pc.vault, task);
    } else {
      TaskInvFrame(cfg, s, u, task);
    }
  }

  /** The moving task establishes its part of the invariant at its new position. */
  lemma OwnStep(cfg: Config, s: State, t: TaskId, a: Action)
    requires Inv(cfg, s) && Next(cfg, s, t, a).Some? && !a.Tick? && !a.Spawn?
    ensures var u := Next(cfg, s, t, a).value; t in u.tasks && TaskInv(cfg, u, u.tasks[t])
  {
    match a {
      case TestFreshness => OwnTest(cfg, s, t);
      case SyncReturns(sync) => OwnSync(cfg, s, t, sync);
      case Install => OwnInstall(cfg, s, t);
      case LookUp => OwnLookUp(cfg, s, t);
      case LoginReturns(login) => OwnLogin(cfg, s, t, login);
      case _ => OwnCarry(cfg, s, t, a);
    }
  }

  /** The steps that leave cache and history alone. */
  lemma OwnCarry(cfg: Config, s: State, t: TaskId, a: Action)
    requires Inv(cfg, s) && Next(cfg, s, t, a).Some? && !a.Tick? && !a.Spawn?
    requires !a.TestFreshness? && !a.LoginReturns? && !a.SyncReturns? && !a.Install? && !a.LookUp?
    ensures var u := Next(cfg, s, t, a).value; t in u.tasks && TaskInv(cfg, u, u.tasks[t])
  {
    var u := Next(cfg, s, t, a).value;
    StepEffects(cfg, s, t, a);
    assert TaskInv(cfg, s, s.tasks[t]);
    CarriedOver(cfg, s, t, a);
    TaskInvFrame(cfg, s, u, u.tasks[t]);
  }

  lemma CarriedOver(cfg: Config, s: State, t: TaskId, a: Action)
    requires Next(cfg, s, t, a).Some? && !a.Tick? && !a.Spawn? && t in s.tasks && TaskInv(cfg, s, s.tasks[t])
    requires !a.TestFreshness? && !a.LoginReturns? && !a.SyncReturns? && !a.Install? && !a.LookUp?
    ensures var u := Next(cfg, s, t, a).value; t in u.tasks && TaskInv(cfg, s, u.tasks[t])
  {
  }

  lemma OwnLogin(cfg: Config, s: State, t: TaskId, login: Result<Session, ClientError>)
    requires Inv(cfg, s) && Next(cfg, s, t, LoginReturns(login)).Some?
    ensures var u := Next(cfg, s, t, LoginReturns(login)).value; t in u.tasks && TaskInv(cfg, u, u.tasks[t])
  {
    assert TaskInv(cfg, s, s.tasks[t]);
  }

  lemma OwnTest(cfg: Config, s: State, t: TaskId)
    requires Inv(cfg, s) && Next(cfg, s, t, TestFreshness).Some?
    ensures var u := Next(cfg, s, t, TestFreshness).value; t in u.tasks && TaskInv(cfg, u, u.tasks[t])
  {
    if s.cache.Some? {
      assert s.cache.value == s.installs[|s.installs| - 1];
      FreshIffBeforeDeadline(cfg, s.cache.value, s.now);
    }
  }

  lemma OwnSync(cfg: Config, s: State, t: TaskId, sync: Result<SyncResponse, ClientError>)
    requires Inv(cfg, s) && Next(cfg, s, t, SyncReturns(sync)).Some?
    ensures var u := Next(cfg, s, t, SyncReturns(sync)).value; t in u.tasks && TaskInv(cfg, u, u.tasks[t])
  {
  }

  lemma OwnInstall(cfg: Config, s: State, t: TaskId)
    requires Inv(cfg, s) && Next(cfg, s, t, Install).Some?
    ensures var u := Next(cfg, s, t, Install).value; t in u.tasks && TaskInv(cfg, u, u.tasks[t])
  {
  }

  lemma OwnLookUp(cfg: Config, s: State, t: TaskId)
    requires Inv(cfg, s) && Next(cfg, s, t, LookUp).Some?
    ensures var u := Next(cfg, s, t, LookUp).value; t in u.tasks && TaskInv(cfg, u, u.tasks[t])
  {
    var u := Next(cfg, s, t, LookUp).value;
    var i := |s.installs| - 1;
    assert s.cache.value == s.installs[i];
    assert u.installs[i] == s.installs[i];
  }

  /** A vault put together from one fetch stays so. */
  lemma OneFetchStep(cfg: Config, s: State, t: TaskId, a: Action, v: CachedVault)
    requires Inv(cfg, s) && Next(cfg, s, t, a).Some? && FromOneFetch(cfg, s, v)
    ensures FromOneFetch(cfg, Next(cfg, s, t, a).value, v)
  {
    StepEffects(cfg, s, t, a);
    if a.SyncReturns? && a.sync.Ok? {
      assert TaskInv(cfg, s, s.tasks[t]);
    }
  }

  lemma InstallsStep(cfg: Config, s: State, t: TaskId, a: Action)
    requires Inv(cfg, s) && Next(cfg, s, t, a).Some?
    ensures Installs(cfg, Next(cfg, s, t, a).value)
  {
    var u := Next(cfg, s, t, a).value;
    StepEffects(cfg, s, t, a);
    forall i | 0 <= i < |s.installs|
      ensures FromOneFetch(cfg, u, s.installs[i])
    {
      OneFetchStep(cfg, s, t, a, s.installs[i]);
    }
    if a.Install? {
      assert TaskInv(cfg, s, s.tasks[t]);
      OneFetchStep(cfg, s, t, a, s.tasks[t].pc.vault);
      InstallsGrow(cfg, s, u, s.tasks[t].pc.vault);
    } else {
      assert u.installs == s.installs && u.cache == s.cache;
    }
  }

  lemma InstallsGrow(cfg: Config, s: State, u: State, v: CachedVault)
    requires Installs(cfg, s) && StaleAt(cfg, s.cache, v.fetchedAt)
    requires u.installs == s.installs + [v] && u.cache == Some(v)
    requires FromOneFetch(cfg, u, v) && forall i :: 0 <= i < |s.installs| ==> FromOneFetch(cfg, u, s.installs[i])
    ensures Installs(cfg, u)
  {
  }

  lemma TasksStep(cfg: Config, s: State, t: TaskId, a: Action)
    requires Inv(cfg, s) && Next(cfg, s, t, a).Some?
    ensures var u := Next(cfg, s, t, a).value; forall o :: o in u.tasks ==> TaskInv(cfg, u, u.tasks[o])
  {
    var u := Next(cfg, s, t, a).value;
    forall o | o in u.tasks
      ensures TaskInv(cfg, u, u.tasks[o])
    {
      if a.Tick? {
        TickKeepsTask(cfg, s, a.to, s.tasks[o]);
      } else if o != t {
        assert o in s.tasks;
        OthersStay(cfg, s, t, a, o);
        OthersStep(cfg, s, t, a, o);
      } else if !a.Spawn? {
        OwnStep(cfg, s, t, a);
      }
    }
  }

  lemma SyncsStep(cfg: Config, s: State, t: TaskId, a: Action)
    requires Inv(cfg, s) && Next(cfg, s, t, a).Some?
    ensures var u := Next(cfg, s, t, a).value;
            cfg.minInstant <= u.now && forall n :: n in u.syncs ==> n < |u.logins|
  {
    StepEffects(cfg, s, t, a);
  }

  lemma InvStep(cfg: Config, s: State, t: TaskId, a: Action)
    requires Inv(cfg, s) && Next(cfg, s, t, a).Some?
    ensures Inv(cfg, Next(cfg, s, t, a).value)
  {
    LocksStep(cfg, s, t, a);
    InstallsStep(cfg, s, t, a);
    TasksStep(cfg, s, t, a);
    SyncsStep(cfg, s, t, a);
  }

  lemma {:induction false} InvRun(cfg: Config, s: State, events: seq<Event>)
    requires Inv(cfg, s) && Run(cfg, s, events).Some?
    ensures Inv(cfg, Run(cfg, s, events).value)
    decreases |events|
  {
    if events != [] {
      InvStep(cfg, s, events[0].task, events[0].action);
      InvRun(cfg, Next(cfg, s, events[0].task, events[0].action).value, events[1..]);
    }
  }
}
